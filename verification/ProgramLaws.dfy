/** Validation, insertion and deletion in figures: every byte of the label table and of every slot. */
module ProgramLaws {
  import opened Bytes
  import opened ProgramLayout
  import opened EditorSpec
  import opened ProgramRuns

  /** A program is accepted exactly if its size is a positive multiple of eight, END stands there, and no opcode exceeds 0x7F. */
  lemma AcceptsIff(mem: Memory, p: SramPage, base: nat, size: nat)
    requires mem[p as int * 256 + 0xFF] <= 0x1E && base == p as int * 256 + 256
    requires size == mem[p as int * 256 + 0xFF] as int * 256 + mem[p as int * 256 + 0xFE]
    ensures Accepts(mem, p) <==>
            && size > 0 && size % 8 == 0 && mem[base + size] == 0x83
            && forall a :: base <= a < base + size && (a - base) % 8 == 0 ==> mem[a] < 0x80
  {
    if Accepts(mem, p) {
      forall a | base <= a < base + size && (a - base) % 8 == 0 ensures mem[a] < 0x80 {
        assert Op(mem, p, (a - base) / 8) < 0x80;
      }
    }
    if size > 0 && size % 8 == 0 && forall a :: base <= a < base + size && (a - base) % 8 == 0 ==> mem[a] < 0x80 {
      forall k | 0 <= k < Slots(mem, p) ensures Op(mem, p, k) < 0x80 {
        assert mem[Slot(p, k)] < 0x80;
      }
    }
  }

  /** What is left of a rejected program: size zero, and END in the first slot. */
  lemma EmptyInFigures(mem: Memory, p: SramPage, base: nat)
    requires base == p as int * 256 + 256
    ensures IsEmptyProgram(mem, p) <==> mem[base - 3] == 0x80 && mem[base - 2] == 0 && mem[base - 1] == 0 && mem[base] == 0x83
  {
  }

  /** The slot at address a marks label m, in figures. */
  lemma MarkIs(mem: Memory, p: SramPage, k: nat, m: byte)
    requires k <= MAX_SLOTS
    ensures IsMark(mem, p, k, m) <==> mem[Slot(p, k)] == 0x1F && mem[Slot(p, k) + 1] == m
  {
  }

  /** After validation a label's entry is the lowest slot from the second on that marks it, or else the first slot. */
  lemma EntryIsLowestMark(mem: Memory, p: SramPage, base: nat, end: nat, m: nat, e: nat)
    requires Fits(mem, p) && HeaderOk(mem, p) && m <= 118 && base == p as int * 256 + 256
    requires end == base + mem[p as int * 256 + 0xFF] as int * 256 + mem[p as int * 256 + 0xFE]
    requires e == Prepared(mem, p)[p as int * 256 + 2 * m + 1] as int * 256 + Prepared(mem, p)[p as int * 256 + 2 * m]
    ensures e == base || (base + 8 <= e < end && (e - base) % 8 == 0 && mem[e] == 0x1F && mem[e + 1] == m)
    ensures forall a :: base + 8 <= a < end && (a - base) % 8 == 0 && mem[a] == 0x1F && mem[a + 1] == m ==> base < e <= a
  {
    EndOfSlots(mem, p, end);
    EntryIsTarget(mem, p, m);
    hide *;
    TargetIsLowest(mem, p, base, end, m, e);
  }

  lemma EntryIsTarget(mem: Memory, p: SramPage, m: nat)
    requires Fits(mem, p) && HeaderOk(mem, p) && m <= 118
    ensures var r := Prepared(mem, p); r[p as int * 256 + 2 * m + 1] as int * 256 + r[p as int * 256 + 2 * m] == Target(mem, p, m)
  {
    PreparedCells(mem, p, m);
    PairOfHalves(Target(mem, p, m));
    hide Prepared, Target, Lo, Hi, HeaderOk;
  }

  lemma TargetIsLowest(mem: Memory, p: SramPage, base: nat, end: nat, m: byte, e: nat)
    requires Fits(mem, p) && 1 <= Slots(mem, p) < MAX_SLOTS && end == Slot(p, Slots(mem, p)) && base == Slot(p, 0)
    requires e == Target(mem, p, m)
    ensures e == base || (base + 8 <= e < end && (e - base) % 8 == 0 && mem[e] == 0x1F && mem[e + 1] == m)
    ensures forall a :: base + 8 <= a < end && (a - base) % 8 == 0 && mem[a] == 0x1F && mem[a + 1] == m ==> base < e <= a
  {
    hide IsMark, Slots, Size;
    var n := Slots(mem, p);
    var r := FirstMark(mem, p, m, 1, n);
    MarkIs(mem, p, r, m);
    forall a | base + 8 <= a < end && (a - base) % 8 == 0 && mem[a] == 0x1F && mem[a + 1] == m ensures base < e <= a {
      SlotAt(p, base, a, (a - base) / 8);
      MarkIs(mem, p, (a - base) / 8, m);
    }
  }

  lemma SlotAt(p: SramPage, base: nat, a: nat, k: nat)
    requires base == Slot(p, 0) && a >= base && (a - base) % 8 == 0 && k == (a - base) / 8 && k <= MAX_SLOTS
    ensures Slot(p, k) == a
  {
  }

  lemma EndOfSlots(mem: Memory, p: SramPage, end: nat)
    requires Fits(mem, p) && HeaderOk(mem, p)
    requires end == p as int * 256 + 256 + mem[p as int * 256 + 0xFF] as int * 256 + mem[p as int * 256 + 0xFE]
    ensures end == Slot(p, Slots(mem, p)) && 1 <= Slots(mem, p) < MAX_SLOTS && Slot(p, 0) == p as int * 256 + 256
  {
  }

  /** And every byte of every slot is what it was, but the counters of the 0x36 slots after the first, which are zero. */
  lemma SlotsKept(mem: Memory, p: SramPage, base: nat, k: nat, o: nat)
    requires Fits(mem, p) && HeaderOk(mem, p) && base == p as int * 256 + 256 && k < Slots(mem, p) && o < 8
    ensures Prepared(mem, p)[base + 8 * k + o] ==
            if k >= 1 && o == 3 && mem[base + 8 * k] == 0x36 then 0 else mem[base + 8 * k + o]
  {
    PreparedBody(mem, p, base + 8 * k + o);
    hide Prepared;
    SlotOffset(k, o);
  }

  lemma SlotOffset(k: nat, o: nat)
    requires o < 8
    ensures (8 * k + o) % 8 == o && (8 * k + o) / 8 == k
  {
  }

  /** Where byte o of slot k of a program with a NOP inserted at slot i comes from. */
  lemma SlotAfterInsert(mem: Memory, p: SramPage, base: nat, i: nat, k: nat, o: nat)
    requires Intact(mem, p) && i <= Slots(mem, p) && Size(mem, p) + 8 <= 0x1EFF && k <= Slots(mem, p) && o < 8
    requires base == p as int * 256 + 256
    ensures AfterInsert(mem, p, i)[base + 8 * k + o] ==
            if k < i then (if k >= 1 && o == 3 && mem[base + 8 * k] == 0x36 then 0 else mem[base + 8 * k + o])
            else if k == i then (if o == 0 then 0x20 else mem[base + 8 * k + o])
            else if o == 3 && mem[base + 8 * k - 8] == 0x36 then 0 else mem[base + 8 * k - 8 + o]
  {
    InsertedIntact(mem, p, i);
    var inserted := Inserted(mem, p, Slot(p, i));
    InsertedByte(mem, p, Slot(p, i), base + 8 * k);
    InsertedByte(mem, p, Slot(p, i), base + 8 * k + o);
    IntactEnd(mem, p);
    hide Inserted, Intact, Prepared, Accepts, LabelsInRange, Size, Slots;
    SlotsKept(inserted, p, base, k, o);
  }

  lemma IntactEnd(mem: Memory, p: SramPage)
    requires Intact(mem, p)
    ensures EndOf(mem, p) == Slot(p, Slots(mem, p)) && Slots(mem, p) <= 991
  {
  }

  /** And of one with slot i deleted. */
  lemma SlotAfterDelete(mem: Memory, p: SramPage, base: nat, i: nat, k: nat, o: nat)
    requires Intact(mem, p) && i + 1 < Slots(mem, p) && k + 1 < Slots(mem, p) && o < 8
    requires base == p as int * 256 + 256
    ensures AfterDelete(mem, p, i)[base + 8 * k + o] ==
            if k < i then (if k >= 1 && o == 3 && mem[base + 8 * k] == 0x36 then 0 else mem[base + 8 * k + o])
            else if k >= 1 && o == 3 && mem[base + 8 * k + 8] == 0x36 then 0 else mem[base + 8 * k + 8 + o]
  {
    DeletedIntact(mem, p, i);
    var deleted := Deleted(mem, p, Slot(p, i));
    IntactEnd(mem, p);
    DeletedByte(mem, p, Slot(p, i), base + 8 * k);
    DeletedByte(mem, p, Slot(p, i), base + 8 * k + o);
    hide Deleted, Intact, Prepared, Accepts, LabelsInRange, Size, Slots;
    SlotsKept(deleted, p, base, k, o);
  }

  /** END and the stored size follow. */
  lemma EndsAfterEdits(mem: Memory, p: SramPage, base: nat, i: nat, n: nat)
    requires Intact(mem, p) && base == p as int * 256 + 256 && n == Slots(mem, p) && i <= n
    ensures Size(mem, p) + 8 <= 0x1EFF ==>
              && AfterInsert(mem, p, i)[base + 8 * n + 8] == 0x83
              && AfterInsert(mem, p, i)[base - 1] as int * 256 + AfterInsert(mem, p, i)[base - 2] == 8 * n + 8
    ensures i + 1 < n ==>
              && AfterDelete(mem, p, i)[base + 8 * n - 8] == 0x83
              && AfterDelete(mem, p, i)[base - 1] as int * 256 + AfterDelete(mem, p, i)[base - 2] == 8 * n - 8
  {
    IntactEnd(mem, p);
    hide Prepared, Accepts, LabelsInRange, Inserted, Deleted, Intact;
    if Size(mem, p) + 8 <= 0x1EFF {
      InsertedIntact(mem, p, i);
      EndsAt(Inserted(mem, p, Slot(p, i)), p, base, n + 1);
    }
    if i + 1 < n {
      DeletedIntact(mem, p, i);
      EndsAt(Deleted(mem, p, Slot(p, i)), p, base, n - 1);
    }
  }

  lemma EndsAt(mem: Memory, p: SramPage, base: nat, n: nat)
    requires Intact(mem, p) && n >= 1 && n == Slots(mem, p) && base == p as int * 256 + 256
    ensures Prepared(mem, p)[base + 8 * n] == 0x83
    ensures Prepared(mem, p)[base - 1] as int * 256 + Prepared(mem, p)[base - 2] == 8 * n
  {
    IntactAccepts(mem, p);
    PreparedIntact(mem, p);
    hide Prepared, IsCounter;
  }
}
