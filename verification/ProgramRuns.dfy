/**
 Whole runs of a stored program: the program counter stays on slots of the body, only loop
 counters are ever written, and a program whose other jumps all lead forward reaches END.
*/
module ProgramRuns {
  import opened Bytes
  import opened ProgramLayout
  import opened InterpreterSpec

  /** The label table is a faithful cache of the program's marks. */
  predicate TableAgrees(mem: Memory, p: SramPage)
    requires Fits(mem, p) && Slots(mem, p) >= 1
  {
    forall m: byte :: m <= MAX_LABEL ==> TableEntry(mem, p, m) == Target(mem, p, m)
  }

  /** A two-slot move at slot k is complete, its second slot is no mark, and a jump there names a proper label. */
  predicate ShapedSlot(mem: Memory, p: SramPage, k: nat)
    requires Fits(mem, p) && k < Slots(mem, p)
  {
    && (IsDouble(Op(mem, p, k)) ==> k + 1 < Slots(mem, p) && Op(mem, p, k + 1) != MARK)
    && (IsJump(Op(mem, p, k)) ==> mem[Slot(p, k) + 1] <= MAX_LABEL)
  }

  /** The linear decoding of the body from slot 0: slots an instruction starts at. */
  predicate Boundary(mem: Memory, p: SramPage, k: nat)
    requires k <= MAX_SLOTS
  {
    || k == 0
    || (Boundary(mem, p, k - 1) && !IsDouble(Op(mem, p, k - 1)))
    || (k >= 2 && Boundary(mem, p, k - 2) && IsDouble(Op(mem, p, k - 2)))
  }

  /** Every instruction is well shaped; what the second slots of two-slot moves look like is left open. */
  predicate WellShaped(mem: Memory, p: SramPage)
    requires Fits(mem, p)
  {
    forall k :: 0 <= k < Slots(mem, p) && Boundary(mem, p, k) ==> ShapedSlot(mem, p, k)
  }

  /** So is every slot, for an editor whose keys can stop at a second slot and run the program from there. */
  predicate ShapedThroughout(mem: Memory, p: SramPage)
    requires Fits(mem, p)
  {
    forall k :: 0 <= k < Slots(mem, p) ==> ShapedSlot(mem, p, k)
  }

  /** A program the validator has accepted and indexed. */
  predicate IsIndexed(mem: Memory, p: SramPage) { Fits(mem, p) && Accepts(mem, p) && TableAgrees(mem, p) }

  /** One that is ready to run. */
  predicate Runnable(mem: Memory, p: SramPage) { IsIndexed(mem, p) && WellShaped(mem, p) }

  /** One that is ready to run from any of its slots. */
  predicate Browsable(mem: Memory, p: SramPage) { IsIndexed(mem, p) && ShapedThroughout(mem, p) }

  /** The address is that of a slot, or of END. */
  predicate InBody(mem: Memory, p: SramPage, pc: word) {
    Base(p) <= pc <= Base(p) + Size(mem, p) && (pc - Base(p)) % 8 == 0
  }

  /** Byte 3 of a counted GOTO. */
  predicate IsCounterCell(mem: Memory, p: SramPage, a: word) {
    Base(p) + 3 <= a < Base(p) + Size(mem, p) && (a - Base(p)) % 8 == 3 && IsCounted(mem[a - 3])
  }

  /** Both memories hold the same program up to loop counters, and the same header and table. */
  predicate SameProgram(mem: Memory, mem': Memory, p: SramPage) {
    forall a: word :: mem'[a] == mem[a] || IsCounterCell(mem, p, a)
  }

  lemma {:induction false} FirstMarkSame(mem: Memory, mem': Memory, p: SramPage, m: byte, k: nat, n: nat)
    requires 1 <= k <= n <= MAX_SLOTS
    requires forall j :: k <= j < n ==> (IsMark(mem, p, j, m) <==> IsMark(mem', p, j, m))
    ensures FirstMark(mem, p, m, k, n) == FirstMark(mem', p, m, k, n)
    decreases n - k
  {
    if k < n {
      FirstMarkSame(mem, mem', p, m, k + 1, n);
    }
  }

  /** Both memories agree on the header, and on opcode and first operand of every slot. */
  predicate SameSkeleton(mem: Memory, mem': Memory, p: SramPage)
    requires Fits(mem, p)
  {
    && mem'[p * 256 + 0xFE] == mem[p * 256 + 0xFE] && mem'[p * 256 + 0xFF] == mem[p * 256 + 0xFF]
    && mem'[Base(p) + Size(mem, p)] == mem[Base(p) + Size(mem, p)]
    && forall k :: 0 <= k < Slots(mem, p) ==> SameSlot(mem, mem', p, k)
  }

  predicate SameSlot(mem: Memory, mem': Memory, p: SramPage, k: nat)
    requires k <= MAX_SLOTS
  {
    Op(mem', p, k) == Op(mem, p, k) && mem'[Slot(p, k) + 1] == mem[Slot(p, k) + 1]
  }

  lemma {:induction false} BoundarySame(mem: Memory, mem': Memory, p: SramPage, k: nat)
    requires Fits(mem, p) && SameSkeleton(mem, mem', p) && k <= Slots(mem, p)
    ensures Boundary(mem', p, k) == Boundary(mem, p, k)
  {
    if k >= 1 {
      BoundarySame(mem, mem', p, k - 1);
      assert SameSlot(mem, mem', p, k - 1);
      if k >= 2 {
        BoundarySame(mem, mem', p, k - 2);
        assert SameSlot(mem, mem', p, k - 2);
      }
    }
  }

  /** Validity and shape depend on no more than the skeleton. */
  lemma SkeletonDecides(mem: Memory, mem': Memory, p: SramPage)
    requires Fits(mem, p) && Accepts(mem, p) && SameSkeleton(mem, mem', p)
    ensures Fits(mem', p) && Size(mem', p) == Size(mem, p) && Accepts(mem', p)
    ensures WellShaped(mem, p) ==> WellShaped(mem', p)
    ensures ShapedThroughout(mem, p) ==> ShapedThroughout(mem', p)
  {
    hide Boundary, IsDouble, IsJump;
    forall k | 0 <= k < Slots(mem, p)
      ensures Op(mem', p, k) < 0x80 && Boundary(mem', p, k) == Boundary(mem, p, k)
      ensures ShapedSlot(mem, p, k) ==> ShapedSlot(mem', p, k)
    {
      BoundarySame(mem, mem', p, k);
      assert SameSlot(mem, mem', p, k);
      assert k + 1 < Slots(mem, p) ==> SameSlot(mem, mem', p, k + 1);
    }
  }

  lemma SkeletonTargets(mem: Memory, mem': Memory, p: SramPage, m: byte)
    requires Fits(mem, p) && Slots(mem, p) >= 1 && SameSkeleton(mem, mem', p)
    ensures Fits(mem', p) && Slots(mem', p) == Slots(mem, p) && Target(mem', p, m) == Target(mem, p, m)
  {
    forall j | 1 <= j < Slots(mem, p) ensures IsMark(mem, p, j, m) <==> IsMark(mem', p, j, m) {
      assert SameSlot(mem, mem', p, j);
    }
    FirstMarkSame(mem, mem', p, m, 1, Slots(mem, p));
  }

  /** Changing loop counters changes neither validity, nor shape, nor where labels lead. */
  lemma SameProgramRuns(mem: Memory, mem': Memory, p: SramPage)
    requires IsIndexed(mem, p) && SameProgram(mem, mem', p)
    ensures IsIndexed(mem', p) && Size(mem', p) == Size(mem, p)
    ensures Runnable(mem, p) ==> Runnable(mem', p)
    ensures Browsable(mem, p) ==> Browsable(mem', p)
    ensures forall m: byte :: m <= MAX_LABEL ==> Target(mem', p, m) == Target(mem, p, m)
  {
    SameProgramSkeleton(mem, mem', p);
    hide SameSkeleton, TableEntry, Target, WellShaped, ShapedThroughout, Accepts;
    SkeletonDecides(mem, mem', p);
    forall m: byte | m <= MAX_LABEL
      ensures TableEntry(mem', p, m) == TableEntry(mem, p, m) && Target(mem', p, m) == Target(mem, p, m)
    {
      SkeletonTargets(mem, mem', p, m);
      TableKept(mem, mem', p, m);
    }
  }

  lemma SameProgramSkeleton(mem: Memory, mem': Memory, p: SramPage)
    requires Fits(mem, p) && HeaderOk(mem, p) && SameProgram(mem, mem', p)
    ensures SameSkeleton(mem, mem', p)
  {
    forall k | 0 <= k < Slots(mem, p) ensures SameSlot(mem, mem', p, k) {}
  }

  lemma TableKept(mem: Memory, mem': Memory, p: SramPage, m: byte)
    requires SameProgram(mem, mem', p) && m <= MAX_LABEL
    ensures TableEntry(mem', p, m) == TableEntry(mem, p, m)
  {
  }

  lemma PreparedEntry(mem: Memory, p: SramPage, m: byte)
    requires Fits(mem, p) && Slots(mem, p) >= 1 && m <= MAX_LABEL
    ensures TableEntry(Prepared(mem, p), p, m) == Target(mem, p, m)
  {
    PreparedCells(mem, p, m);
    PairOfHalves(Target(mem, p, m));
    EntryAddress(p, m);
    hide Prepared, Target, Lo, Hi;
  }

  lemma PairOfHalves(t: word)
    ensures Pair(Hi(t), Lo(t)) == t
  {
  }

  lemma PreparedCells(mem: Memory, p: SramPage, m: byte)
    requires Fits(mem, p) && Slots(mem, p) >= 1 && m <= MAX_LABEL
    ensures var t := Target(mem, p, m);
            Prepared(mem, p)[p * 256 + 2 * m] == Lo(t) && Prepared(mem, p)[p * 256 + 2 * m + 1] == Hi(t)
  {
    hide Prepared, FirstMark, Lo, Hi;
    EntryHalves(m);
    PreparedAt(mem, p, p * 256 + 2 * m);
    PreparedAt(mem, p, p * 256 + 2 * m + 1);
  }

  lemma EntryHalves(m: byte)
    ensures 2 * m / 2 == m && (2 * m + 1) / 2 == m && 2 * m % 2 == 0 && (2 * m + 1) % 2 == 1
  {
  }

  lemma EntryAddress(p: SramPage, m: byte)
    requires m <= MAX_LABEL
    ensures (m * 2) as int % 256 + m / 128 == 2 * m
    ensures IncWord(Pair(p, 2 * m)) == Pair(p, 2 * m) + 1
  {
  }

  lemma PreparedSkeleton(mem: Memory, p: SramPage)
    requires Fits(mem, p) && HeaderOk(mem, p)
    ensures SameSkeleton(mem, Prepared(mem, p), p)
  {
    hide Prepared, SameSlot;
    PreparedBody(mem, p, p * 256 + 0xFE);
    PreparedBody(mem, p, p * 256 + 0xFF);
    PreparedBody(mem, p, Base(p) + Size(mem, p));
    forall k | 0 <= k < Slots(mem, p) ensures SameSlot(mem, Prepared(mem, p), p, k) {
      PreparedSlot(mem, p, k);
    }
  }

  lemma PreparedSlot(mem: Memory, p: SramPage, k: nat)
    requires Fits(mem, p) && HeaderOk(mem, p) && k < Slots(mem, p)
    ensures SameSlot(mem, Prepared(mem, p), p, k)
  {
    hide Prepared;
    PreparedBody(mem, p, Slot(p, k));
    PreparedBody(mem, p, Slot(p, k) + 1);
  }

  /** Preparing an accepted program indexes it, and leaves its shape. */
  lemma PreparedRuns(mem: Memory, p: SramPage)
    requires Fits(mem, p) && Accepts(mem, p)
    ensures IsIndexed(Prepared(mem, p), p) && Size(Prepared(mem, p), p) == Size(mem, p)
    ensures WellShaped(mem, p) ==> Runnable(Prepared(mem, p), p)
    ensures ShapedThroughout(mem, p) ==> Browsable(Prepared(mem, p), p)
  {
    hide Prepared, SameSkeleton, WellShaped, ShapedThroughout, TableEntry, Target;
    var mem' := Prepared(mem, p);
    PreparedSkeleton(mem, p);
    SkeletonDecides(mem, mem', p);
    forall m: byte | m <= MAX_LABEL ensures TableEntry(mem', p, m) == Target(mem', p, m) {
      PreparedEntry(mem, p, m);
      SkeletonTargets(mem, mem', p, m);
    }
  }

  /** Memory and program counter, with the editor's "END is displayed" flag (2Ah.0). */
  datatype State = State(mem: Memory, pc: word, atEnd: bool)

  /** The program counter is on an instruction of a runnable program, or on END. */
  predicate Ready(s: State, p: SramPage) {
    Runnable(s.mem, p) && InBody(s.mem, p, s.pc) && Boundary(s.mem, p, SlotOf(s.pc, p))
  }

  /** The program counter is on any slot of a program that can be run from it, or on END. */
  predicate OnSlot(s: State, p: SramPage) { Browsable(s.mem, p) && InBody(s.mem, p, s.pc) }

  /** What a single instruction needs: its own slot is well shaped. */
  predicate Executable(mem: Memory, p: SramPage, pc: word) {
    && IsIndexed(mem, p) && InBody(mem, p, pc)
    && (pc < Base(p) + Size(mem, p) ==> ShapedSlot(mem, p, SlotOf(pc, p)))
  }

  predicate AtEnd(s: State, p: SramPage) { s.pc == Base(p) + Size(s.mem, p) }

  /** Executing one instruction. */
  function Step(s: State, p: SramPage, p1: byte): State
    requires s.pc < 0xFF00
  {
    s.(mem := NextMem(s.mem, s.pc), pc := NextPc(s.mem, p, s.pc, p1))
  }

  /** The slot a program counter in the body points at. */
  function SlotOf(pc: word, p: SramPage): nat
    requires pc >= Base(p)
  {
    (pc - Base(p)) / 8
  }

  lemma SlotOfBody(mem: Memory, p: SramPage, pc: word)
    requires Fits(mem, p) && InBody(mem, p, pc) && Size(mem, p) % 8 == 0
    ensures SlotOf(pc, p) <= Slots(mem, p) && Slot(p, SlotOf(pc, p)) == pc
    ensures pc < Base(p) + Size(mem, p) <==> SlotOf(pc, p) < Slots(mem, p)
  {
  }

  /** Label jumps land on slots: the lowest one marked with the label, else the first. */
  lemma JumpLands(mem: Memory, p: SramPage, k: nat)
    requires IsIndexed(mem, p) && k < Slots(mem, p) && ShapedSlot(mem, p, k) && IsJump(Op(mem, p, k))
    ensures TableEntry(mem, p, mem[Slot(p, k) + 1]) == Target(mem, p, mem[Slot(p, k) + 1])
    ensures InBody(mem, p, Target(mem, p, mem[Slot(p, k) + 1]))
  {
  }

  lemma NextPcInBody(mem: Memory, p: SramPage, pc: word, p1: byte)
    requires Executable(mem, p, pc)
    ensures InBody(mem, p, NextPc(mem, p, pc, p1))
  {
    hide TableEntry, Taken, TableAgrees, Target;
    var k := SlotOf(pc, p);
    SlotOfBody(mem, p, pc);
    if k < Slots(mem, p) {
      assert Op(mem, p, k) < 0x80;
      if IsJump(Op(mem, p, k)) {
        JumpLands(mem, p, k);
      }
    } else {
      assert mem[pc] == END;
    }
  }

  lemma NextMemSame(mem: Memory, p: SramPage, pc: word)
    requires IsIndexed(mem, p) && InBody(mem, p, pc)
    ensures SameProgram(mem, NextMem(mem, pc), p)
  {
    if pc == Base(p) + Size(mem, p) {
      assert mem[pc] == END;
    }
  }

  lemma ReadyExecutes(s: State, p: SramPage)
    ensures Ready(s, p) || OnSlot(s, p) ==> Executable(s.mem, p, s.pc) && s.pc < 0xFF00
  {
    if Ready(s, p) || OnSlot(s, p) {
      SlotOfBody(s.mem, p, s.pc);
    }
  }

  /** A marked slot is never the second slot of a move. */
  lemma JumpOnBoundary(mem: Memory, p: SramPage, m: byte)
    requires Runnable(mem, p)
    ensures Boundary(mem, p, SlotOf(Target(mem, p, m), p))
  {
    hide TableAgrees;
    var j := FirstMark(mem, p, m, 1, Slots(mem, p));
    BoundaryIff(mem, p, j);
    assert j >= 1 && Boundary(mem, p, j - 1) ==> ShapedSlot(mem, p, j - 1);
    hide Boundary;
  }

  /** Linear decoding passes over exactly the second slots of the two-slot moves it meets. */
  lemma {:induction false} BoundaryIff(mem: Memory, p: SramPage, k: nat)
    requires k <= MAX_SLOTS
    ensures Boundary(mem, p, k) <==> !(k >= 1 && Boundary(mem, p, k - 1) && IsDouble(Op(mem, p, k - 1)))
  {
    if k >= 1 {
      BoundaryIff(mem, p, k - 1);
    }
  }

  lemma NextPcOnBoundary(mem: Memory, p: SramPage, pc: word, p1: byte)
    requires Runnable(mem, p) && Executable(mem, p, pc) && Boundary(mem, p, SlotOf(pc, p))
    ensures InBody(mem, p, NextPc(mem, p, pc, p1)) && Boundary(mem, p, SlotOf(NextPc(mem, p, pc, p1), p))
  {
    hide TableEntry, Taken, TableAgrees;
    NextPcInBody(mem, p, pc, p1);
    var k := SlotOf(pc, p);
    SlotOfBody(mem, p, pc);
    if k == Slots(mem, p) {
      assert mem[pc] == END;
    } else if IsJump(Op(mem, p, k)) {
      JumpLands(mem, p, k);
      JumpOnBoundary(mem, p, mem[Slot(p, k) + 1]);
      hide Target, Boundary;
    }
  }

  /** One instruction changes loop counters only, and leaves the program counter in the body. */
  lemma StepSame(s: State, p: SramPage, p1: byte)
    requires Executable(s.mem, p, s.pc) && s.pc < 0xFF00
    ensures var next := Step(s, p, p1);
            && SameProgram(s.mem, next.mem, p) && Size(next.mem, p) == Size(s.mem, p) && InBody(next.mem, p, next.pc)
            && (Runnable(s.mem, p) ==> Runnable(next.mem, p)) && (Browsable(s.mem, p) ==> Browsable(next.mem, p))
  {
    hide NextMem, NextPc, Runnable, Browsable;
    NextPcInBody(s.mem, p, s.pc, p1);
    NextMemSame(s.mem, p, s.pc);
    SameProgramRuns(s.mem, NextMem(s.mem, s.pc), p);
  }

  /** It keeps the program ready, and the program counter on its instructions. */
  lemma StepReady(s: State, p: SramPage, p1: byte)
    requires Ready(s, p)
    ensures s.pc < 0xFF00 && Ready(Step(s, p, p1), p) && SameProgram(s.mem, Step(s, p, p1).mem, p)
    ensures Size(Step(s, p, p1).mem, p) == Size(s.mem, p)
  {
    hide NextMem, NextPc, Runnable, Executable, Boundary;
    ReadyExecutes(s, p);
    StepSame(s, p, p1);
    NextPcOnBoundary(s.mem, p, s.pc, p1);
    RunnableIsIndexed(s.mem, p);
    BoundaryKept(s.mem, Step(s, p, p1).mem, p, Step(s, p, p1).pc);
  }

  /** The same for a program that is run from any of its slots. */
  lemma StepOnSlot(s: State, p: SramPage, p1: byte)
    requires OnSlot(s, p)
    ensures s.pc < 0xFF00 && OnSlot(Step(s, p, p1), p)
  {
    ReadyExecutes(s, p);
    StepSame(s, p, p1);
  }

  lemma BoundaryKept(mem: Memory, mem': Memory, p: SramPage, pc: word)
    requires IsIndexed(mem, p) && SameProgram(mem, mem', p) && InBody(mem, p, pc)
    ensures Boundary(mem', p, SlotOf(pc, p)) == Boundary(mem, p, SlotOf(pc, p))
  {
    SlotOfBody(mem, p, pc);
    SameProgramSkeleton(mem, mem', p);
    BoundarySame(mem, mem', p, SlotOf(pc, p));
  }

  lemma RunnableIsIndexed(mem: Memory, p: SramPage)
    requires Runnable(mem, p) || Browsable(mem, p)
    ensures IsIndexed(mem, p) && Fits(mem, p) && Accepts(mem, p)
  {
  }

  function Run(s: State, p: SramPage, inputs: seq<byte>): (end: State)
    requires Ready(s, p)
    ensures Ready(end, p)
    decreases |inputs|
  {
    if inputs == [] then s
    else
      StepReady(s, p, inputs[0]);
      Run(Step(s, p, inputs[0]), p, inputs[1..])
  }

  lemma SameProgramTransitive(m1: Memory, m2: Memory, m3: Memory, p: SramPage)
    requires Fits(m1, p) && SameProgram(m1, m2, p) && SameProgram(m2, m3, p)
    ensures SameProgram(m1, m3, p)
  {
    assert Size(m2, p) == Size(m1, p);
    forall a: word | IsCounterCell(m2, p, a) ensures IsCounterCell(m1, p, a) {
      assert !IsCounterCell(m1, p, a - 3);
    }
  }

  /**
   In every run of the interpreter over a runnable program, for every sequence of input port
   values, the program counter stays on instructions of [base, END] and memory keeps everything
   but the counters of counted GOTOs.
  */
  lemma {:induction false} RunStaysInBody(s: State, p: SramPage, inputs: seq<byte>)
    requires Ready(s, p)
    ensures Ready(Run(s, p, inputs), p)
    ensures SameProgram(s.mem, Run(s, p, inputs).mem, p)
    decreases |inputs|
  {
    if inputs != [] {
      StepReady(s, p, inputs[0]);
      var next := Step(s, p, inputs[0]);
      RunStaysInBody(next, p, inputs[1..]);
      SameProgramTransitive(s.mem, next.mem, Run(next, p, inputs[1..]).mem, p);
    }
  }

  /** The address is that of an instruction of the stored program or of END, not of the second slot of a two-slot move. */
  predicate OnInstruction(mem: Memory, p: SramPage, pc: word)
    requires Fits(mem, p)
  {
    && InBody(mem, p, pc) && Boundary(mem, p, SlotOf(pc, p))
    && (SlotOf(pc, p) >= 1 ==> !(Boundary(mem, p, SlotOf(pc, p) - 1) && IsDouble(Op(mem, p, SlotOf(pc, p) - 1))))
  }

  /** A run only ever executes instructions of the program as it was stored. */
  lemma RunOnBoundaries(s: State, p: SramPage, inputs: seq<byte>)
    requires Ready(s, p)
    ensures OnInstruction(s.mem, p, Run(s, p, inputs).pc)
  {
    RunStaysInBody(s, p, inputs);
    StillOnBoundary(s.mem, Run(s, p, inputs), p);
    hide OnInstruction, SameProgram, Run, Boundary;
  }

  lemma StillOnBoundary(mem: Memory, end: State, p: SramPage)
    requires Runnable(mem, p) && SameProgram(mem, end.mem, p) && Ready(end, p)
    ensures OnInstruction(mem, p, end.pc)
  {
    hide Runnable, Boundary, SameProgram;
    RunnableIsIndexed(mem, p);
    SameSize(mem, end.mem, p);
    SlotOfBody(mem, p, end.pc);
    BoundaryKept(mem, end.mem, p, end.pc);
    BoundaryIff(mem, p, SlotOf(end.pc, p));
  }

  lemma SameSize(mem: Memory, mem': Memory, p: SramPage)
    requires SameProgram(mem, mem', p)
    ensures Size(mem', p) == Size(mem, p)
  {
  }

  /** A stored six-axis move whose second slot begins with the opcode of another. */
  function MoveTwice(p: SramPage): Memory {
    seq(0x1_0000, (i: nat) requires i < 0x1_0000 =>
      if i == p * 256 + 0xFE then 16 else if i == p * 256 + 0xFF then 0 else if i == Base(p) + 16 then END else 0x67)
  }

  /** What second slots look like does not matter to a run: this one is ready, though its second slot is no complete move. */
  lemma SecondSlotIsFree(p: SramPage)
    ensures var mem := MoveTwice(p);
            && Fits(mem, p) && Accepts(mem, p) && !ShapedThroughout(mem, p)
            && Ready(State(Prepared(mem, p), Base(p), false), p)
  {
    var mem := MoveTwice(p);
    assert mem[p * 256 + 0xFE] == 16 && mem[p * 256 + 0xFF] == 0 && mem[Base(p) + 16] == END;
    assert Op(mem, p, 0) == 0x67 && Op(mem, p, 1) == 0x67;
    assert Boundary(mem, p, 0) && !Boundary(mem, p, 1);
    assert !ShapedSlot(mem, p, 1);
    forall k | 0 <= k < Slots(mem, p) && Boundary(mem, p, k) ensures ShapedSlot(mem, p, k) {
      assert k == 0;
    }
    hide MoveTwice;
    forall k | 0 <= k < Slots(mem, p) ensures Op(mem, p, k) < 0x80 {
      assert k == 0 || k == 1;
    }
    PreparedRuns(mem, p);
  }

  /** What can move the program counter: an executed instruction, or a key in display mode. */
  datatype Event = Instruction(p1: byte) | Display | Forward | Back

  /** jump_0E6D: shows the instruction at the program counter; END sets the flag. */
  function Displayed(s: State): State { s.(atEnd := s.atEnd || IsHalt(s.mem[s.pc])) }

  function SteppedForward(s: State): State
    requires s.pc < 0xFF00
  {
    if s.atEnd then s else Displayed(s.(pc := s.pc + 8))
  }

  function SteppedBack(s: State, p: SramPage): State
    requires s.pc >= Base(p)
  {
    if s.pc < Base(p) + 8 then s else Displayed(s.(pc := s.pc - 8, atEnd := false))
  }

  function Happens(s: State, p: SramPage, e: Event): State
    requires OnSlot(s, p)
  {
    match e
    case Instruction(p1) => Step(s, p, p1)
    case Display => Displayed(s)
    case Forward => SteppedForward(s)
    case Back => SteppedBack(s, p)
  }

  /** END, when the program counter is there, is on display. */
  predicate EndShown(s: State, p: SramPage) { AtEnd(s, p) ==> s.atEnd }

  predicate StaysOnSlot(s: State, p: SramPage, events: seq<Event>)
    decreases |events|
  {
    OnSlot(s, p) && (events != [] ==> StaysOnSlot(Happens(s, p, events[0]), p, events[1..]))
  }

  /** After executed instructions the display is refreshed before the editor steps forward. */
  predicate Refreshed(events: seq<Event>, shown: bool) {
    events != [] ==>
      && (events[0].Forward? ==> shown)
      && Refreshed(events[1..], !events[0].Instruction?)
  }

  /** The END flag is what keeps the forward key inside the program: exactly when it shows END. */
  lemma ForwardStaysIff(s: State, p: SramPage)
    requires OnSlot(s, p)
    ensures OnSlot(SteppedForward(s), p) <==> EndShown(s, p)
  {
    SlotOfBody(s.mem, p, s.pc);
  }

  /** A stored program of a single NOP. */
  function SingleNop(p: SramPage): Memory {
    seq(0x1_0000, (i: nat) requires i < 0x1_0000 =>
      if i == p * 256 + 0xFE then 8 else if i == p * 256 + 0xFF then 0 else if i == Base(p) + 8 then END else NOP)
  }

  lemma SingleNopRuns(p: SramPage)
    ensures var mem := SingleNop(p);
            && Fits(mem, p) && Size(mem, p) == 8 && Accepts(mem, p)
            && Browsable(Prepared(mem, p), p) && Size(Prepared(mem, p), p) == 8
  {
    var mem := SingleNop(p);
    assert mem[p * 256 + 0xFE] == 8 && mem[p * 256 + 0xFF] == 0;
    assert Op(mem, p, 0) == NOP && mem[Base(p) + 8] == END;
    forall k | 0 <= k < Slots(mem, p) ensures Op(mem, p, k) < 0x80 && ShapedSlot(mem, p, k) {
      assert k == 0;
    }
    PreparedRuns(mem, p);
  }

  /** With a program of one slot, the program counter at END and the flag down, the forward key leaves the program. */
  lemma ForwardPastEnd(p: SramPage)
    ensures Fits(SingleNop(p), p) && Slots(SingleNop(p), p) >= 1
    ensures var s := State(Prepared(SingleNop(p), p), Base(p) + 8, false);
            OnSlot(s, p) && AtEnd(s, p) && !s.atEnd && !OnSlot(SteppedForward(s), p)
  {
    SingleNopRuns(p);
    hide SingleNop, Prepared, Browsable;
    ForwardStaysIff(State(Prepared(SingleNop(p), p), Base(p) + 8, false), p);
  }

  lemma HappensOnSlot(s: State, p: SramPage, e: Event)
    requires OnSlot(s, p) && (e.Forward? ==> EndShown(s, p))
    ensures OnSlot(Happens(s, p, e), p)
    ensures !e.Instruction? ==> EndShown(Happens(s, p, e), p)
  {
    hide Runnable, Browsable, Step;
    RunnableIsIndexed(s.mem, p);
    match e
    case Instruction(p1) => StepOnSlot(s, p, p1);
    case Display =>
    case Forward => ForwardStaysIff(s, p);
    case Back => SlotOfBody(s.mem, p, s.pc);
  }

  /** Interpreter and editor stepping, in any order, keep the program counter on slots of [base, END]. */
  lemma {:induction false} JointRunStaysInBody(s: State, p: SramPage, events: seq<Event>, shown: bool)
    requires OnSlot(s, p) && (shown ==> EndShown(s, p)) && Refreshed(events, shown)
    ensures StaysOnSlot(s, p, events)
    decreases |events|
  {
    if events != [] {
      HappensOnSlot(s, p, events[0]);
      JointRunStaysInBody(Happens(s, p, events[0]), p, events[1..], !events[0].Instruction?);
    }
  }
}
