/** What inserting and deleting a slot mean for the stored bytes. */
module EditorSpec {
  import opened Bytes
  import opened ProgramLayout

  /** A stored program, possibly empty, that the validator accepts whenever it has a slot. */
  predicate Intact(mem: Memory, p: SramPage) {
    && Fits(mem, p)
    && Size(mem, p) % 8 == 0
    && mem[Base(p) + Size(mem, p)] == END
    && forall k :: 0 <= k < Slots(mem, p) ==> IntactSlot(mem, p, k)
  }

  predicate IntactSlot(mem: Memory, p: SramPage, k: nat)
    requires k <= MAX_SLOTS
  {
    Op(mem, p, k) < 0x80 && (Op(mem, p, k) == MARK ==> mem[Slot(p, k) + 1] <= MAX_LABEL)
  }

  function EndOf(mem: Memory, p: SramPage): word
    requires Fits(mem, p)
  {
    Base(p) + Size(mem, p)
  }

  /** A 16-bit pointer that started at a, after m increments, and after m decrements: at most once or twice round. */
  function After(a: word, m: nat): word
    requires m <= 0x1_0010
  {
    if a + m < 0x1_0000 then a + m else if a + m < 0x2_0000 then a + m - 0x1_0000 else a + m - 0x2_0000
  }

  function Before(a: word, m: nat): word
    requires m <= 0x1_0010
  {
    if a >= m then a - m else if a + 0x1_0000 >= m then a + 0x1_0000 - m else a + 0x2_0000 - m
  }

  /** How far a lies above b, counting round all 64 K. */
  function Gap(a: word, b: word): word { if a >= b then a - b else a + 0x1_0000 - b }

  /** How many bytes the inserting copy moves, from END down, before its source pointer is the program counter. */
  function Ups(pc: word, end: word): (n: nat)
    ensures 1 <= n <= 0x1_0000
  {
    Gap(end, pc) + 1
  }

  /** How many bytes the deleting copy moves before its source pointer, tested after moving, is the end pointer. */
  function Downs(pc: word, end: word): (n: nat)
    ensures 1 <= n <= 0x1_0000
  {
    if Gap(end, After(pc, 8)) == 0 then 0x1_0000 else Gap(end, After(pc, 8))
  }

  /**
   Memory at a after m bytes have been copied eight addresses up, one after the other, the topmost
   from end. Once the copy has gone round it reads what it has already written.
  */
  function RolledUpByte(mem: Memory, end: word, m: nat, a: word): byte {
    var j := Gap(After(end, 8), a);
    if j >= m then mem[a] else if j < 0xFFF8 then mem[Before(a, 8)] else mem[Before(a, 16)]
  }

  function RolledUp(mem: Memory, end: word, m: nat): Memory {
    seq(0x1_0000, (a: nat) requires a < 0x1_0000 => RolledUpByte(mem, end, m, a))
  }

  /** Memory at a after m bytes have been copied eight addresses down, the lowest to pc. */
  function RolledDownByte(mem: Memory, pc: word, m: nat, a: word): byte {
    var j := Gap(a, pc);
    if j >= m then mem[a] else if j < 0xFFF8 then mem[After(a, 8)] else mem[After(a, 16)]
  }

  function RolledDown(mem: Memory, pc: word, m: nat): Memory {
    seq(0x1_0000, (a: nat) requires a < 0x1_0000 => RolledDownByte(mem, pc, m, a))
  }

  lemma RolledUpStep(mem: Memory, end: word, m: nat)
    requires m < 0x1_0000
    ensures RolledUp(mem, end, 0) == mem
    ensures var was := RolledUp(mem, end, m);
            RolledUp(mem, end, m + 1) == was[Before(After(end, 8), m) := was[Before(end, m)]]
  {
    hide RolledUpByte, After, Before;
    var was, next := RolledUp(mem, end, m), RolledUp(mem, end, m + 1);
    var written := was[Before(After(end, 8), m) := was[Before(end, m)]];
    forall a: word ensures next[a] == written[a] && RolledUp(mem, end, 0)[a] == mem[a] {
      RolledUpByteStep(mem, end, m, a);
    }
    assert next == written;
    assert RolledUp(mem, end, 0) == mem;
  }

  lemma RolledUpByteStep(mem: Memory, end: word, m: nat, a: word)
    requires m < 0x1_0000
    ensures RolledUpByte(mem, end, 0, a) == mem[a]
    ensures RolledUpByte(mem, end, m + 1, a) ==
      if a == Before(After(end, 8), m) then RolledUpByte(mem, end, m, Before(end, m)) else RolledUpByte(mem, end, m, a)
  {
    GapUp(end, m, a);
    hide After, Before, Gap;
  }

  lemma GapUp(end: word, m: nat, a: word)
    requires m < 0x1_0000
    ensures var dst := Before(After(end, 8), m);
            var src := Before(end, m);
            && (Gap(After(end, 8), a) == m <==> a == dst)
            && src == Before(dst, 8) && Before(src, 8) == Before(dst, 16)
            && Gap(After(end, 8), src) == if m < 0xFFF8 then m + 8 else m - 0xFFF8
  {
  }

  lemma RolledDownStep(mem: Memory, pc: word, m: nat)
    requires m < 0x1_0000
    ensures RolledDown(mem, pc, 0) == mem
    ensures var was := RolledDown(mem, pc, m);
            RolledDown(mem, pc, m + 1) == was[After(pc, m) := was[After(After(pc, 8), m)]]
  {
    hide RolledDownByte, After;
    var was, next := RolledDown(mem, pc, m), RolledDown(mem, pc, m + 1);
    var written := was[After(pc, m) := was[After(After(pc, 8), m)]];
    forall a: word ensures next[a] == written[a] && RolledDown(mem, pc, 0)[a] == mem[a] {
      RolledDownByteStep(mem, pc, m, a);
    }
    assert next == written;
    assert RolledDown(mem, pc, 0) == mem;
  }

  lemma RolledDownByteStep(mem: Memory, pc: word, m: nat, a: word)
    requires m < 0x1_0000
    ensures RolledDownByte(mem, pc, 0, a) == mem[a]
    ensures RolledDownByte(mem, pc, m + 1, a) ==
      if a == After(pc, m) then RolledDownByte(mem, pc, m, After(After(pc, 8), m)) else RolledDownByte(mem, pc, m, a)
  {
    GapDown(pc, m, a);
    hide After, Gap;
  }

  lemma GapDown(pc: word, m: nat, a: word)
    requires m < 0x1_0000
    ensures var dst := After(pc, m);
            var src := After(After(pc, 8), m);
            && (Gap(a, pc) == m <==> a == dst)
            && src == After(dst, 8) && After(src, 8) == After(dst, 16)
            && Gap(src, pc) == if m < 0xFFF8 then m + 8 else m - 0xFFF8
  {
  }

  /** Inside the program the copies are plain moves. */
  lemma RolledUpInside(mem: Memory, pc: word, end: word)
    requires pc <= end < 0xFF00
    ensures RolledUp(mem, end, Ups(pc, end)) == MovedUp(mem, pc, end)
  {
    forall a: word ensures RolledUpByte(mem, end, Ups(pc, end), a) == if pc + 8 <= a <= end + 8 then mem[a - 8] else mem[a] {
    }
  }

  lemma RolledDownInside(mem: Memory, pc: word, end: word)
    requires pc + 8 < end < 0xFF00
    ensures Downs(pc, end) == end - pc - 8 && After(pc, Downs(pc, end)) == end - 8
    ensures RolledDown(mem, pc, Downs(pc, end)) == MovedDown(mem, pc, end - 8)
  {
    forall a: word ensures RolledDownByte(mem, pc, end - pc - 8, a) == if pc <= a < end - 8 then mem[a + 8] else mem[a] {
    }
  }

  /** Memory with the bytes [from, end] moved up by eight. */
  function MovedUp(mem: Memory, from: word, end: word): Memory
    requires end < 0xFF00
  {
    seq(0x1_0000, (a: nat) requires a < 0x1_0000 => if from + 8 <= a <= end + 8 then mem[a - 8] else mem[a])
  }

  /** Memory with the bytes [from + 8, upto + 8) moved down by eight. */
  function MovedDown(mem: Memory, from: word, upto: word): Memory
    requires upto < 0xFF00
  {
    seq(0x1_0000, (a: nat) requires a < 0x1_0000 => if from <= a < upto then mem[a + 8] else mem[a])
  }

  /** The byte the m-th turn of the inserting copy reads is still the one that was there, whatever memory held. */
  ghost predicate UpReadsOriginal(end: word, m: nat)
    requires m < 0x1_0000
  {
    forall mem: Memory :: RolledUp(mem, end, m)[Before(end, m)] == mem[Before(end, m)]
  }

  ghost predicate DownReadsOriginal(pc: word, m: nat)
    requires m < 0x1_0000
  {
    forall mem: Memory :: RolledDown(mem, pc, m)[After(After(pc, 8), m)] == mem[After(After(pc, 8), m)]
  }

  /** Copying from the top down, or from the bottom up, never overwrites what is still to be moved, until it has gone round. */
  lemma UpReadsOriginalIff(end: word, m: nat)
    requires m < 0x1_0000
    ensures UpReadsOriginal(end, m) <==> m < 0xFFF8
  {
    var src := Before(end, m);
    GapUp(end, m, src);
    BackByEight(src);
    hide Gap, Before, After;
    if m >= 0xFFF8 {
      var mem := Marked(src);
      assert RolledUp(mem, end, m)[src] == mem[Before(src, 8)];
    }
  }

  lemma DownReadsOriginalIff(pc: word, m: nat)
    requires m < 0x1_0000
    ensures DownReadsOriginal(pc, m) <==> m < 0xFFF8
  {
    var src := After(After(pc, 8), m);
    GapDown(pc, m, src);
    BackByEight(src);
    hide Gap, Before, After;
    if m >= 0xFFF8 {
      var mem := Marked(src);
      assert RolledDown(mem, pc, m)[src] == mem[After(src, 8)];
    }
  }

  /** A memory that tells one byte from all the others. */
  function Marked(a: word): Memory {
    seq(0x1_0000, (i: nat) requires i < 0x1_0000 => if i == a then 1 else 0)
  }

  lemma BackByEight(a: word)
    ensures Before(a, 8) != a && After(a, 8) != a
  {
  }

  /** Memory with the header's size set so that END stands at end. */
  function WithEnd(mem: Memory, p: SramPage, end: word): Memory {
    mem[p * 256 + 0xFE := Lo(end)][p * 256 + 0xFF := (Hi(end) - (p + 1) + 256) as int % 256]
  }

  /** What inserting leaves of any memory, for any program counter and end pointer, before validation. */
  function InsertLeaves(mem: Memory, p: SramPage, pc: word, end: word): Memory {
    WithEnd(RolledUp(mem, end, Ups(pc, end))[pc := NOP], p, After(end, 8))
  }

  /** The same of deleting. */
  function DeleteLeaves(mem: Memory, p: SramPage, pc: word, end: word): Memory {
    var stop := After(pc, Downs(pc, end));
    WithEnd(RolledDown(mem, pc, Downs(pc, end))[stop := END], p, stop)
  }

  lemma InsertLeavesInside(mem: Memory, p: SramPage, pc: word, end: word)
    requires pc <= end < 0xFF00
    ensures InsertLeaves(mem, p, pc, end) == WithEnd(MovedUp(mem, pc, end)[pc := NOP], p, end + 8)
  {
    RolledUpInside(mem, pc, end);
    hide RolledUp, MovedUp, WithEnd, Ups;
  }

  lemma DeleteLeavesInside(mem: Memory, p: SramPage, pc: word, end: word)
    requires pc + 8 < end < 0xFF00
    ensures DeleteLeaves(mem, p, pc, end) == WithEnd(MovedDown(mem, pc, end - 8)[end - 8 := END], p, end - 8)
  {
    RolledDownInside(mem, pc, end);
    hide RolledDown, MovedDown, WithEnd, Downs, After;
  }

  /** A slot inserted at pc: opcode NOP, the other seven bytes as they were there. */
  function Inserted(mem: Memory, p: SramPage, pc: word): Memory
    requires Fits(mem, p) && Base(p) <= pc <= EndOf(mem, p)
  {
    WithEnd(MovedUp(mem, pc, EndOf(mem, p))[pc := NOP], p, EndOf(mem, p) + 8)
  }

  /** The slot at pc deleted. */
  function Deleted(mem: Memory, p: SramPage, pc: word): Memory
    requires Fits(mem, p) && Base(p) <= pc && pc + 8 < EndOf(mem, p)
  {
    var end := EndOf(mem, p) - 8;
    WithEnd(MovedDown(mem, pc, end)[end := END], p, end)
  }

  lemma WithEndSize(mem: Memory, p: SramPage, end: word)
    requires Base(p) <= end <= Base(p) + 0x1EFF
    ensures Fits(WithEnd(mem, p, end), p) && EndOf(WithEnd(mem, p, end), p) == end
    ensures forall a: word :: a > p * 256 + 0xFF || a < p * 256 + 0xFE ==> WithEnd(mem, p, end)[a] == mem[a]
  {
    EndAsSize(p, end);
    hide Pair, Lo, Hi;
  }

  lemma EndAsSize(p: SramPage, end: word)
    requires Base(p) <= end <= Base(p) + 0x1EFF
    ensures (Hi(end) - (p + 1) + 256) as int % 256 == Hi(end) - (p + 1) <= 0x1E
    ensures Pair(Hi(end) - (p + 1), Lo(end)) == end - Base(p)
  {
  }

  /** Every byte of the body after an insertion. */
  lemma InsertedByte(mem: Memory, p: SramPage, pc: word, a: word)
    requires Fits(mem, p) && Base(p) <= pc <= EndOf(mem, p) && Size(mem, p) + 8 <= 0x1EFF && a >= Base(p)
    ensures Fits(Inserted(mem, p, pc), p) && EndOf(Inserted(mem, p, pc), p) == EndOf(mem, p) + 8
    ensures Inserted(mem, p, pc)[a] ==
            if a == pc then NOP else if pc + 8 <= a <= EndOf(mem, p) + 8 then mem[a - 8] else mem[a]
  {
    WithEndSize(MovedUp(mem, pc, EndOf(mem, p))[pc := NOP], p, EndOf(mem, p) + 8);
  }

  /** Every byte of the body after a deletion. */
  lemma DeletedByte(mem: Memory, p: SramPage, pc: word, a: word)
    requires Fits(mem, p) && Base(p) <= pc && pc + 8 < EndOf(mem, p) && a >= Base(p)
    ensures Fits(Deleted(mem, p, pc), p) && EndOf(Deleted(mem, p, pc), p) == EndOf(mem, p) - 8
    ensures Deleted(mem, p, pc)[a] ==
            if a == EndOf(mem, p) - 8 then END else if pc <= a < EndOf(mem, p) - 8 then mem[a + 8] else mem[a]
  {
    var end := EndOf(mem, p) - 8;
    WithEndSize(MovedDown(mem, pc, end)[end := END], p, end);
  }

  lemma IntactAccepts(mem: Memory, p: SramPage)
    requires Intact(mem, p) && Size(mem, p) > 0
    ensures Accepts(mem, p) && LabelsInRange(mem, p)
  {
    forall k | 0 <= k < Slots(mem, p)
      ensures Op(mem, p, k) < 0x80 && (Op(mem, p, k) == MARK ==> mem[Slot(p, k) + 1] <= MAX_LABEL)
    {
      assert IntactSlot(mem, p, k);
    }
  }

  /** Inserting keeps a program intact, and makes one out of the empty program. */
  lemma InsertedIntact(mem: Memory, p: SramPage, i: nat)
    requires Intact(mem, p) && i <= Slots(mem, p) && Size(mem, p) + 8 <= 0x1EFF
    ensures Intact(Inserted(mem, p, Slot(p, i)), p)
    ensures Slots(Inserted(mem, p, Slot(p, i)), p) == Slots(mem, p) + 1
    ensures Accepts(Inserted(mem, p, Slot(p, i)), p) && LabelsInRange(Inserted(mem, p, Slot(p, i)), p)
  {
    hide Inserted;
    var pc := Slot(p, i);
    var mem' := Inserted(mem, p, pc);
    InsertedByte(mem, p, pc, EndOf(mem, p) + 8);
    forall k | 0 <= k < Slots(mem', p) ensures IntactSlot(mem', p, k) {
      InsertedByte(mem, p, pc, Slot(p, k));
      InsertedByte(mem, p, pc, Slot(p, k) + 1);
      assert k < i ==> IntactSlot(mem, p, k);
      assert k > i ==> IntactSlot(mem, p, k - 1);
    }
    IntactAccepts(mem', p);
  }

  lemma DeletedIntact(mem: Memory, p: SramPage, i: nat)
    requires Intact(mem, p) && i + 1 < Slots(mem, p)
    ensures Intact(Deleted(mem, p, Slot(p, i)), p)
    ensures Slots(Deleted(mem, p, Slot(p, i)), p) == Slots(mem, p) - 1
    ensures Accepts(Deleted(mem, p, Slot(p, i)), p) && LabelsInRange(Deleted(mem, p, Slot(p, i)), p)
  {
    hide Deleted;
    var pc := Slot(p, i);
    var mem' := Deleted(mem, p, pc);
    DeletedByte(mem, p, pc, EndOf(mem, p) - 8);
    forall k | 0 <= k < Slots(mem', p) ensures IntactSlot(mem', p, k) {
      DeletedByte(mem, p, pc, Slot(p, k));
      DeletedByte(mem, p, pc, Slot(p, k) + 1);
      assert k < i ==> IntactSlot(mem, p, k);
      assert k >= i ==> IntactSlot(mem, p, k + 1);
    }
    IntactAccepts(mem', p);
  }

  /** Preparing keeps the size and every byte of the body but the counters it zeroes. */
  lemma PreparedIntact(mem: Memory, p: SramPage)
    requires Intact(mem, p) && Size(mem, p) > 0
    ensures Intact(Prepared(mem, p), p) && EndOf(Prepared(mem, p), p) == EndOf(mem, p)
    ensures forall a: word :: a > p * 256 + 0xEE ==>
              Prepared(mem, p)[a] == if IsCounter(mem, p, 1, Slots(mem, p), a) then 0 else mem[a]
  {
    hide Prepared;
    var mem' := Prepared(mem, p);
    forall a: word | a > p * 256 + 0xEE
      ensures mem'[a] == if IsCounter(mem, p, 1, Slots(mem, p), a) then 0 else mem[a]
    {
      PreparedBody(mem, p, a);
    }
    assert mem'[p * 256 + 0xFF] == mem[p * 256 + 0xFF] && mem'[p * 256 + 0xFE] == mem[p * 256 + 0xFE];
    forall k | 0 <= k < Slots(mem, p) ensures IntactSlot(mem', p, k) {
      assert IntactSlot(mem, p, k);
      assert mem'[Slot(p, k)] == mem[Slot(p, k)] && mem'[Slot(p, k) + 1] == mem[Slot(p, k) + 1];
    }
  }

  /** The editor's insert and delete commands, up to and including the validation they end with. */
  function AfterInsert(mem: Memory, p: SramPage, i: nat): Memory
    requires Intact(mem, p) && i <= Slots(mem, p) && Size(mem, p) + 8 <= 0x1EFF
  {
    InsertedIntact(mem, p, i);
    Prepared(Inserted(mem, p, Slot(p, i)), p)
  }

  function AfterDelete(mem: Memory, p: SramPage, i: nat): Memory
    requires Intact(mem, p) && i + 1 < Slots(mem, p)
  {
    DeletedIntact(mem, p, i);
    Prepared(Deleted(mem, p, Slot(p, i)), p)
  }

  /** Byte 3 of a LOOP slot the round trip passes through a slot the validator looks at. */
  predicate Zeroed(mem: Memory, p: SramPage, i: nat, a: word)
    requires Fits(mem, p)
  {
    Base(p) + 3 <= a < EndOf(mem, p) && (a - Base(p)) % 8 == 3 && mem[a - 3] == LOOP && (a >= Slot(p, 1) || i == 0)
  }

  /**
   Deleting a slot just inserted restores the program: the same size, END in the same place,
   and the same bytes but for loop counters, which the validations have zeroed.
  */
  lemma {:induction false} DeleteUndoesInsert(mem: Memory, p: SramPage, i: nat)
    requires Intact(mem, p) && i < Slots(mem, p) && Size(mem, p) + 8 <= 0x1EFF
    ensures Intact(AfterInsert(mem, p, i), p) && Slots(AfterInsert(mem, p, i), p) == Slots(mem, p) + 1
    ensures var back := AfterDelete(AfterInsert(mem, p, i), p, i);
            && Intact(back, p) && Size(back, p) == Size(mem, p)
            && forall a: word :: Base(p) <= a <= EndOf(mem, p) ==>
                 back[a] == if Zeroed(mem, p, i, a) then 0 else mem[a]
  {
    InsertedIntact(mem, p, i);
    PreparedIntact(Inserted(mem, p, Slot(p, i)), p);
    var ins := AfterInsert(mem, p, i);
    DeletedIntact(ins, p, i);
    PreparedIntact(Deleted(ins, p, Slot(p, i)), p);
    forall a: word | Base(p) <= a <= EndOf(mem, p)
      ensures AfterDelete(ins, p, i)[a] == if Zeroed(mem, p, i, a) then 0 else mem[a]
    {
      RestoredByte(mem, p, i, a);
    }
  }

  /** Where the byte at a has gone after a slot was inserted at slot i. */
  function Shifted(p: SramPage, i: nat, a: word): word
    requires i <= MAX_SLOTS && a < 0xFF00
  {
    if a < Slot(p, i) then a else a + 8
  }

  lemma ShiftedMeans(p: SramPage, i: nat, a: word)
    requires i <= MAX_SLOTS && a < 0xFF00
    ensures Shifted(p, i, a) == if a < Slot(p, i) then a else a + 8
  {
  }

  lemma InsertCarries(mem: Memory, p: SramPage, i: nat, a: word)
    requires Intact(mem, p) && i < Slots(mem, p) && Size(mem, p) + 8 <= 0x1EFF
    requires Base(p) <= a <= EndOf(mem, p)
    ensures AfterInsert(mem, p, i)[Shifted(p, i, a)] == if Zeroed(mem, p, i, a) then 0 else mem[a]
  {
    hide Prepared, Inserted, Intact, Accepts, LabelsInRange, Zeroed, IsCounter;
    var pc := Slot(p, i);
    ShiftedMeans(p, i, a);
    var b := Shifted(p, i, a);
    InsertedIntact(mem, p, i);
    CounterMoves(mem, p, i, a);
    PreparedBody(Inserted(mem, p, pc), p, b);
    InsertedByte(mem, p, pc, b);
  }

  /** The counters the validation zeroes after an insertion are those of the program before it, and slot 0's if it has moved. */
  lemma CounterMoves(mem: Memory, p: SramPage, i: nat, a: word)
    requires Intact(mem, p) && i < Slots(mem, p) && Size(mem, p) + 8 <= 0x1EFF
    requires Base(p) <= a <= EndOf(mem, p) && 1 <= Slots(Inserted(mem, p, Slot(p, i)), p) <= MAX_SLOTS
    ensures IsCounter(Inserted(mem, p, Slot(p, i)), p, 1, Slots(Inserted(mem, p, Slot(p, i)), p), Shifted(p, i, a))
            <==> Zeroed(mem, p, i, a)
  {
    hide Inserted, Intact, Accepts, LabelsInRange, Shifted;
    var pc := Slot(p, i);
    ShiftedMeans(p, i, a);
    var b := Shifted(p, i, a);
    InsertedIntact(mem, p, i);
    EndIsSlot(mem, p);
    EndIsSlot(Inserted(mem, p, pc), p);
    InsertedByte(mem, p, pc, b);
    assert Slot(p, 1) == Base(p) + 8 && pc - Base(p) == 8 * i;
    hide Slots, Slot, Size;
    if a >= Base(p) + 3 {
      CounterOffset(a - Base(p), i);
      InsertedByte(mem, p, pc, b - 3);
    }
  }

  lemma EndIsSlot(mem: Memory, p: SramPage)
    requires Intact(mem, p)
    ensures Slot(p, Slots(mem, p)) == EndOf(mem, p)
  {
  }

  lemma CounterOffset(x: nat, i: nat)
    ensures (x + 8) % 8 == x % 8
    ensures x % 8 == 3 && x >= 8 * i ==> x >= 8 * i + 3
    ensures x % 8 == 3 && i > 0 && x >= 8 * i ==> x >= 8
  {
  }

  lemma RestoredByte(mem: Memory, p: SramPage, i: nat, a: word)
    requires Intact(mem, p) && i < Slots(mem, p) && Size(mem, p) + 8 <= 0x1EFF
    requires Base(p) <= a <= EndOf(mem, p)
    requires Intact(AfterInsert(mem, p, i), p) && Slots(AfterInsert(mem, p, i), p) == Slots(mem, p) + 1
    requires EndOf(AfterInsert(mem, p, i), p) == EndOf(mem, p) + 8
    ensures AfterDelete(AfterInsert(mem, p, i), p, i)[a] == if Zeroed(mem, p, i, a) then 0 else mem[a]
  {
    hide Prepared, Deleted, AfterInsert, IntactSlot;
    var pc := Slot(p, i);
    var ins := AfterInsert(mem, p, i);
    var del := Deleted(ins, p, pc);
    DeletedIntact(ins, p, i);
    PreparedBody(del, p, a);
    DeletedByte(ins, p, pc, a);
    InsertCarries(mem, p, i, a);
    if a >= Base(p) + 3 {
      DeletedByte(ins, p, pc, a - 3);
      InsertCarries(mem, p, i, a - 3);
    }
  }
}
