/** What instructions do, in figures: bits of the inputs, cells of internal RAM, and addresses. */
module InstructionLaws {
  import opened Bytes
  import opened ProgramLayout
  import opened InterpreterSpec

  /** ANL, ORL and XRL bit by bit; w is the weight of the bit. */
  lemma {:induction false} AndBit(x: byte, y: byte, w: nat)
    requires w == 1 || w == 2 || w == 4 || w == 8 || w == 16 || w == 32 || w == 64 || w == 128
    ensures AndByte(x, y) / w % 2 == 1 <==> x / w % 2 == 1 && y / w % 2 == 1
  {
    AndHalf(x, y);
    if w > 1 {
      AndBit(x / 2, y / 2, w / 2);
      HalfBit(x, w / 2);
      HalfBit(y, w / 2);
      HalfBit(AndByte(x, y), w / 2);
    }
    hide AndByte;
  }

  lemma AndHalf(x: byte, y: byte)
    ensures AndByte(x, y) % 2 == (if x % 2 == 1 && y % 2 == 1 then 1 else 0)
    ensures AndByte(x, y) / 2 == AndByte(x / 2, y / 2)
  {
  }

  lemma HalfBit(x: byte, v: nat)
    requires v == 1 || v == 2 || v == 4 || v == 8 || v == 16 || v == 32 || v == 64
    ensures x / (2 * v) == x / 2 / v
  {
  }

  lemma OrBit(x: byte, y: byte, w: nat)
    requires w == 1 || w == 2 || w == 4 || w == 8 || w == 16 || w == 32 || w == 64 || w == 128
    ensures OrByte(x, y) / w % 2 == 1 <==> x / w % 2 == 1 || y / w % 2 == 1
  {
    AndBit(255 - x, 255 - y, w);
    ComplementBit(x, w);
    ComplementBit(y, w);
    ComplementBit(AndByte(255 - x, 255 - y), w);
    hide AndByte;
  }

  lemma ComplementBit(x: byte, w: nat)
    requires w == 1 || w == 2 || w == 4 || w == 8 || w == 16 || w == 32 || w == 64 || w == 128
    ensures (255 - x) / w % 2 == 1 - x / w % 2
  {
  }

  lemma XorBit(x: byte, y: byte, w: nat)
    requires w == 1 || w == 2 || w == 4 || w == 8 || w == 16 || w == 32 || w == 64 || w == 128
    ensures XorByte(x, y) / w % 2 == 1 <==> (x / w % 2 == 1) != (y / w % 2 == 1)
  {
    OrBit(x, y, w);
    AndBit(x, y, w);
    ComplementBit(AndByte(x, y), w);
    AndBit(OrByte(x, y), 255 - AndByte(x, y), w);
    hide AndByte, OrByte;
  }

  /** A byte without bits is zero, and one with all of them is 255. */
  lemma NoBits(x: byte)
    ensures x == 0 <==> x % 2 == 0 && x / 2 % 2 == 0 && x / 4 % 2 == 0 && x / 8 % 2 == 0
                        && x / 16 % 2 == 0 && x / 32 % 2 == 0 && x / 64 % 2 == 0 && x / 128 % 2 == 0
  {
    if x >= 128 {
    } else if x >= 64 {
      assert x / 64 == 1;
    } else if x >= 32 {
      assert x / 32 == 1;
    } else if x >= 16 {
      assert x / 16 == 1;
    } else if x >= 8 {
      assert x / 8 == 1;
    } else if x >= 4 {
      assert x / 4 == 1;
    }
  }

  lemma AllBits(x: byte)
    ensures x == 255 <==> x % 2 == 1 && x / 2 % 2 == 1 && x / 4 % 2 == 1 && x / 8 % 2 == 1
                          && x / 16 % 2 == 1 && x / 32 % 2 == 1 && x / 64 % 2 == 1 && x / 128 % 2 == 1
  {
    NoBits(255 - x);
    ComplementBit(x, 1);
    ComplementBit(x, 2);
    ComplementBit(x, 4);
    ComplementBit(x, 8);
    ComplementBit(x, 16);
    ComplementBit(x, 32);
    ComplementBit(x, 64);
    ComplementBit(x, 128);
  }

  /** ORL fills a byte, or ANL empties it, by what each bit of the operands is. */
  lemma OrIsFull(x: byte, y: byte)
    ensures OrByte(x, y) == 0xFF <==>
            && (x % 2 == 1 || y % 2 == 1) && (x / 2 % 2 == 1 || y / 2 % 2 == 1)
            && (x / 4 % 2 == 1 || y / 4 % 2 == 1) && (x / 8 % 2 == 1 || y / 8 % 2 == 1)
            && (x / 16 % 2 == 1 || y / 16 % 2 == 1) && (x / 32 % 2 == 1 || y / 32 % 2 == 1)
            && (x / 64 % 2 == 1 || y / 64 % 2 == 1) && (x / 128 % 2 == 1 || y / 128 % 2 == 1)
  {
    hide OrByte;
    AllBits(OrByte(x, y));
    OrBit(x, y, 1);
    OrBit(x, y, 2);
    OrBit(x, y, 4);
    OrBit(x, y, 8);
    OrBit(x, y, 16);
    OrBit(x, y, 32);
    OrBit(x, y, 64);
    OrBit(x, y, 128);
  }

  lemma AndIsEmpty(x: byte, y: byte)
    ensures AndByte(x, y) == 0 <==>
            && !(x % 2 == 1 && y % 2 == 1) && !(x / 2 % 2 == 1 && y / 2 % 2 == 1)
            && !(x / 4 % 2 == 1 && y / 4 % 2 == 1) && !(x / 8 % 2 == 1 && y / 8 % 2 == 1)
            && !(x / 16 % 2 == 1 && y / 16 % 2 == 1) && !(x / 32 % 2 == 1 && y / 32 % 2 == 1)
            && !(x / 64 % 2 == 1 && y / 64 % 2 == 1) && !(x / 128 % 2 == 1 && y / 128 % 2 == 1)
  {
    hide AndByte;
    NoBits(AndByte(x, y));
    AndBit(x, y, 1);
    AndBit(x, y, 2);
    AndBit(x, y, 4);
    AndBit(x, y, 8);
    AndBit(x, y, 16);
    AndBit(x, y, 32);
    AndBit(x, y, 64);
    AndBit(x, y, 128);
  }

  /** The label's address as it stands in the table. */
  lemma EntryInTable(mem: Memory, p: SramPage, m: byte)
    requires m <= 118
    ensures TableEntry(mem, p, m) == mem[p as int * 256 + 2 * m as int + 1] as int * 256 + mem[p as int * 256 + 2 * m as int]
  {
  }

  /** 0x32 jumps exactly if every bit is set in its operand or in the inputs, 0x33 exactly if no bit is set in both. */
  lemma InputsDecide(mem: Memory, p: SramPage, pc: word, p1: byte)
    requires pc < 0xFF00
    ensures var x := mem[pc + 2];
            && (mem[pc] == 0x32 ==>
                  NextPc(mem, p, pc, p1) ==
                  if && (x % 2 == 1 || p1 % 2 == 1) && (x / 2 % 2 == 1 || p1 / 2 % 2 == 1)
                     && (x / 4 % 2 == 1 || p1 / 4 % 2 == 1) && (x / 8 % 2 == 1 || p1 / 8 % 2 == 1)
                     && (x / 16 % 2 == 1 || p1 / 16 % 2 == 1) && (x / 32 % 2 == 1 || p1 / 32 % 2 == 1)
                     && (x / 64 % 2 == 1 || p1 / 64 % 2 == 1) && (x / 128 % 2 == 1 || p1 / 128 % 2 == 1)
                  then TableEntry(mem, p, mem[pc + 1]) else pc + 8)
            && (mem[pc] == 0x33 ==>
                  NextPc(mem, p, pc, p1) ==
                  if && !(x % 2 == 1 && p1 % 2 == 1) && !(x / 2 % 2 == 1 && p1 / 2 % 2 == 1)
                     && !(x / 4 % 2 == 1 && p1 / 4 % 2 == 1) && !(x / 8 % 2 == 1 && p1 / 8 % 2 == 1)
                     && !(x / 16 % 2 == 1 && p1 / 16 % 2 == 1) && !(x / 32 % 2 == 1 && p1 / 32 % 2 == 1)
                     && !(x / 64 % 2 == 1 && p1 / 64 % 2 == 1) && !(x / 128 % 2 == 1 && p1 / 128 % 2 == 1)
                  then TableEntry(mem, p, mem[pc + 1]) else pc + 8)
  {
    OrIsFull(mem[pc + 2], p1);
    AndIsEmpty(mem[pc + 2], p1);
    hide OrByte, AndByte, TableEntry;
  }

  /** The other instructions: GOTO, the counted GOTO by its two bytes, END, two-slot moves, and the next slot for all the rest. */
  lemma OthersGoOn(mem: Memory, p: SramPage, pc: word, p1: byte)
    requires pc < 0xFF00 && mem[pc] != 0x32 && mem[pc] != 0x33
    ensures NextPc(mem, p, pc, p1) ==
            if mem[pc] >= 0x80 then pc
            else if mem[pc] == 0x34 || mem[pc] == 0x35 then TableEntry(mem, p, mem[pc + 1])
            else if mem[pc] == 0x36 || mem[pc] == 0x37 then
              (if mem[pc + 3] as int + 1 == mem[pc + 2] || (mem[pc + 3] == 255 && mem[pc + 2] == 0) then pc + 8
               else TableEntry(mem, p, mem[pc + 1]))
            else if mem[pc] in {0x67, 0x6F, 0x77, 0x7F} then pc + 16 else pc + 8
  {
    hide TableEntry;
  }

  /** A wait for inputs, 0x30 or 0x31, ends on exactly the inputs on which 0x32 or 0x33 with the same operand jumps. */
  lemma WaitsAreTests(k: Control, mem: Memory, pc: word, test: Memory, at: word, p1: byte, slowTick: bool, lo: byte, hi: byte)
    requires pc < 0xFF00 && at < 0xFF00 && (mem[pc] == 0x30 || mem[pc] == 0x31) && !Waiting(k)
    requires test[at] == mem[pc] + 2 && test[at + 2] == mem[pc + 1]
    ensures var waits := NextControl(k, mem, pc);
            Waiting(waits) && (WaitEnds(waits, p1, slowTick, lo, hi) <==> Taken(test, at, p1))
  {
    AndCommutes(p1, mem[pc + 1]);
    AndCommutes(255 - p1, 255 - mem[pc + 1]);
    hide AndByte;
  }

  /** The digital outputs and an operand, bit by bit: set to it, set by it, cleared by it, or turned over by it. */
  lemma OutputBit(code: nat, outputs: byte, x: byte, w: nat)
    requires code < 4 && (w == 1 || w == 2 || w == 4 || w == 8 || w == 16 || w == 32 || w == 64 || w == 128)
    ensures var was, bit, now := outputs / w % 2 == 1, x / w % 2 == 1, NewOutputs(code, outputs, x) / w % 2 == 1;
            && (code == 0 ==> now == bit) && (code == 1 ==> now == (was || bit))
            && (code == 2 ==> now == (was && bit)) && (code == 3 ==> now == (was != bit))
  {
    OrBit(outputs, x, w);
    AndBit(outputs, x, w);
    XorBit(outputs, x, w);
    hide OrByte, AndByte, XorByte;
  }

  /** So the output instructions do with the code in their low bits. */
  lemma OutputsAfter(k: Control, mem: Memory, pc: word)
    requires pc < 0xFF00
    ensures NextControl(k, mem, pc).outputs ==
            if 0x10 <= mem[pc] < 0x18 then NewOutputs(mem[pc] % 4, k.outputs, mem[pc + 1]) else k.outputs
  {
    var op, c := mem[pc], k.(stepping := false, opcode := mem[pc]);
    hide NewOutputs, MoveControl, MiscellaneousControl, BranchControl, Bit3;
    if 0x60 <= op < 0x80 {
      MoveOutputs(c, op);
    } else if 0x10 <= op < 0x20 {
      SetOutputs(c, op, mem[pc + 1]);
    } else if 0x20 <= op < 0x40 {
      BranchOutputs(c, op, mem[pc + 1], mem[pc + 2]);
    }
  }

  lemma MoveOutputs(k: Control, op: byte)
    ensures MoveControl(k, op).outputs == k.outputs
  {
    hide MoveMask, Bit3;
  }

  lemma SetOutputs(k: Control, op: byte, x: byte)
    ensures MiscellaneousControl(k, op, x).outputs == if op < 0x18 then NewOutputs(op % 4, k.outputs, x) else k.outputs
  {
    hide NewOutputs;
  }

  lemma BranchOutputs(k: Control, op: byte, x: byte, limit: byte)
    ensures BranchControl(k, op, x, limit).outputs == k.outputs
  {
  }

  /** Which cells an instruction loads, from which operands. */
  lemma CellsLoaded(iram: seq<byte>, mem: Memory, pc: word, i: nat)
    requires |iram| == 0x80 && pc < 0xFF00 && i < 0x80
    ensures var op, r := mem[pc], Loaded(iram, mem, pc);
            r[i] ==
            if op < 0x10 && op % 8 == 7 && 0x50 <= i < 0x56 then mem[pc + 1 + (i - 0x50)]
            else if op < 0x10 && op % 8 < 7 && i == 0x50 + op % 8 then mem[pc + 1]
            else if 0x10 <= op < 0x18 && i == 0x7F then (pc + 1) / 256
            else if 0x18 <= op < 0x1C && i == 0x1A then mem[pc + 1]
            else if 0x18 <= op < 0x1C && i == 0x1B then (if mem[pc + 2] == 255 then 0 else mem[pc + 2] + 1)
            else if 0x60 <= op < 0x80 && op % 8 == 7 && 0x40 <= i < 0x46 then mem[pc + 1 + (i - 0x40)]
            else if 0x60 <= op < 0x80 && op % 8 == 7 && 0x70 <= i < 0x76 then mem[pc + 9 + (i - 0x70)]
            else if 0x60 <= op < 0x80 && op % 8 < 7 && i == 0x40 + op % 8 then mem[pc + 1]
            else if 0x60 <= op < 0x80 && op % 8 < 7 && i == 0x70 + op % 8 then mem[pc + 2]
            else iram[i]
  {
  }

  /** Which waits an instruction begins. */
  lemma WaitsAfter(k: Control, mem: Memory, pc: word)
    requires pc < 0xFF00 && !Waiting(k)
    ensures var op, r := mem[pc], NextControl(k, mem, pc);
            && (r.waitArrival <==> (op < 0x10 || 0x60 <= op < 0x80) && op / 8 % 2 == 1)
            && (r.waitTime <==> 0x18 <= op < 0x1C)
            && (r.waitInput <==> op == 0x30 || op == 0x31)
            && (r.stepping <==> r.waitArrival || r.waitTime || r.waitInput)
  {
    var c := k.(stepping := false, opcode := mem[pc]);
    MoveWaits(c, mem[pc]);
    SetOrWaits(c, mem[pc], mem[pc + 1]);
    BranchWaits(c, mem[pc], mem[pc + 1], mem[pc + 2]);
    hide MoveControl, MiscellaneousControl, BranchControl;
  }

  lemma MoveWaits(k: Control, op: byte)
    ensures var r := MoveControl(k, op);
            r.waitTime == k.waitTime && r.waitInput == k.waitInput && r.waitArrival == r.stepping == (op / 8 % 2 == 1)
  {
    hide MoveMask;
  }

  lemma SetOrWaits(k: Control, op: byte, x: byte)
    ensures var r := MiscellaneousControl(k, op, x);
            && r.waitArrival == k.waitArrival && r.waitInput == k.waitInput
            && r.waitTime == (k.waitTime || 0x18 <= op < 0x1C) && r.stepping == (k.stepping || 0x18 <= op < 0x1C)
  {
    hide NewOutputs;
  }

  lemma BranchWaits(k: Control, op: byte, x: byte, limit: byte)
    ensures var r := BranchControl(k, op, x, limit);
            && r.waitArrival == k.waitArrival && r.waitTime == k.waitTime
            && r.waitInput == (k.waitInput || op == 0x30 || op == 0x31) && r.stepping == (k.stepping || op == 0x30 || op == 0x31)
  {
  }

  /** Which instructions end the run, or the free running. */
  lemma RunsAfter(k: Control, mem: Memory, pc: word)
    requires pc < 0xFF00
    ensures var op, r := mem[pc], NextControl(k, mem, pc);
            (r.running <==> k.running && op < 0x80) && (r.motion <==> k.motion && (op < 0x40 || 0x60 <= op < 0x80))
  {
    var c := k.(stepping := false, opcode := mem[pc]);
    MoveRuns(c, mem[pc]);
    SetOrWaitRuns(c, mem[pc], mem[pc + 1]);
    BranchRuns(c, mem[pc], mem[pc + 1], mem[pc + 2]);
    hide MoveControl, MiscellaneousControl, BranchControl, Bit3;
  }

  lemma MoveRuns(k: Control, op: byte)
    ensures var r := MoveControl(k, op); r.running == k.running && r.motion == k.motion
  {
    hide MoveMask, Bit3;
  }

  lemma SetOrWaitRuns(k: Control, op: byte, x: byte)
    ensures var r := MiscellaneousControl(k, op, x); r.running == k.running && r.motion == k.motion
  {
    hide NewOutputs;
  }

  lemma BranchRuns(k: Control, op: byte, x: byte, limit: byte)
    ensures var r := BranchControl(k, op, x, limit); r.running == k.running && r.motion == k.motion
  {
  }

  /** Which axes a timed move puts under way: the one its low bits name, or all six. */
  lemma MaskInFigures(op: byte)
    ensures MoveMask(op) == if op % 8 == 7 then 0x3F else if op % 8 == 0 then 0x01 else if op % 8 == 1 then 0x02
                            else if op % 8 == 2 then 0x04 else if op % 8 == 3 then 0x08 else if op % 8 == 4 then 0x10
                            else if op % 8 == 5 then 0x20 else 0xA3
  {
  }

  lemma UnderWay(k: Control, mem: Memory, pc: word)
    requires pc < 0xFF00 && 0x60 <= mem[pc] < 0x80
    ensures var r := NextControl(k, mem, pc);
            r.needMove == k.needMove | MoveMask(mem[pc]) && r.renewed == k.renewed | MoveMask(mem[pc])
  {
    hide NewOutputs, Bit3, MoveMask;
  }

  /** A position instruction puts none under way, but forgets which have arrived. */
  lemma PositionForgets(k: Control, mem: Memory, pc: word)
    requires pc < 0xFF00 && mem[pc] < 0x10
    ensures var r := NextControl(k, mem, pc); r.inPosition == 0 && r.needMove == k.needMove && r.renewed == k.renewed
  {
    hide Bit3, MoveControl, MiscellaneousControl, BranchControl;
  }

  /** Internal RAM after n slow ticks of a timed wait. */
  function Ticked(k: Control, iram: seq<byte>, n: nat): (r: seq<byte>)
    requires |iram| == 0x80
    ensures |r| == 0x80
  {
    if n == 0 then iram else WaitTicked(k, true, Ticked(k, iram, n - 1))
  }

  /** The ticks the two wait counters stand for. */
  function TicksLeft(lo: byte, hi: byte): nat { Turns(lo) + 256 * (Turns(hi) - 1) }

  lemma TickCounts(k: Control, iram: seq<byte>)
    requires |iram| == 0x80 && k.waitTime && !k.waitArrival
    ensures var r := WaitTicked(k, true, iram);
            TicksLeft(iram[0x1A], iram[0x1B]) > 1 ==>
              TicksLeft(r[0x1A], r[0x1B]) == TicksLeft(iram[0x1A], iram[0x1B]) - 1
  {
  }

  lemma {:induction false} TicksCount(k: Control, iram: seq<byte>, n: nat)
    requires |iram| == 0x80 && k.waitTime && !k.waitArrival && n < TicksLeft(iram[0x1A], iram[0x1B])
    ensures var r := Ticked(k, iram, n); TicksLeft(r[0x1A], r[0x1B]) == TicksLeft(iram[0x1A], iram[0x1B]) - n
  {
    if n > 0 {
      TicksCount(k, iram, n - 1);
      TickCounts(k, Ticked(k, iram, n - 1));
    }
    hide TicksLeft, WaitTicked;
  }

  lemma LastTick(k: Control, p1: byte, lo: byte, hi: byte)
    requires k.waitTime && !k.waitArrival
    ensures WaitEnds(k, p1, true, lo, hi) <==> TicksLeft(lo, hi) == 1
  {
  }

  lemma Asked(lo: byte, hi: byte)
    ensures TicksLeft(lo, if hi == 255 then 0 else hi + 1) == (if lo == 0 then 256 else lo as int) + hi as int * 256
  {
  }

  /**
   A timed wait with operands lo and hi ends with exactly the slow tick number lo + 256 hi after it
   has begun, 256 standing for a low byte of zero, and with none before.
  */
  lemma TimedWaitLasts(k: Control, iram: seq<byte>, mem: Memory, pc: word, n: nat, total: nat, p1: byte)
    requires |iram| == 0x80 && pc < 0xFF00 && 0x18 <= mem[pc] < 0x1C && !Waiting(k)
    requires total == (if mem[pc + 1] == 0 then 256 else mem[pc + 1] as int) + mem[pc + 2] as int * 256 && n < total
    ensures var waits := NextControl(k, mem, pc);
            var at := Ticked(waits, Loaded(iram, mem, pc), n);
            WaitEnds(waits, p1, true, at[0x1A], at[0x1B]) <==> n + 1 == total
  {
    WaitsAfter(k, mem, pc);
    CellsLoaded(iram, mem, pc, 0x1A);
    CellsLoaded(iram, mem, pc, 0x1B);
    Asked(mem[pc + 1], mem[pc + 2]);
    hide *;
    LastOf(NextControl(k, mem, pc), Loaded(iram, mem, pc), n, total, p1);
  }

  lemma LastOf(k: Control, iram: seq<byte>, n: nat, total: nat, p1: byte)
    requires |iram| == 0x80 && k.waitTime && !k.waitArrival && total == TicksLeft(iram[0x1A], iram[0x1B]) && n < total
    ensures var at := Ticked(k, iram, n); WaitEnds(k, p1, true, at[0x1A], at[0x1B]) <==> n + 1 == total
  {
    hide *;
    TicksCount(k, iram, n);
    var at := Ticked(k, iram, n);
    LastTick(k, p1, at[0x1A], at[0x1B]);
  }
}
