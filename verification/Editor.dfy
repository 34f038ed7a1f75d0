/** The teachbox's program editor: insert (0x0F7A), delete (0x0F39) and stepping (0x0E43). */
module Editor {
  import opened Bytes
  import opened ProgramLayout
  import opened ControllerState
  import opened EditorSpec
  import Prepare
  import ProgramRuns

  lemma PairsEqual(h: byte, l: byte, h': byte, l': byte)
    ensures Pair(h, l) == Pair(h', l') <==> h == h' && l == l'
  {
  }

  /** Adding 8 to a register pair, low byte first, carries round all 64 K. */
  method AddEightTo(hi: byte, lo: byte) returns (hi': byte, lo': byte, carry: bool)
    ensures Pair(hi', lo') == After(Pair(hi, lo), 8) && (carry <==> Pair(hi, lo) + 8 >= 0x1_0000)
  {
    var sum: int := lo as int + 8;
    lo' := sum % 256;
    hi' := if sum >= 256 then Inc(hi) else hi;
    carry := sum >= 256 && hi == 255;
  }

  lemma PointerSteps(a: word, m: nat)
    requires m <= 0x1_0000
    ensures After(a, 0) == a && Before(a, 0) == a
    ensures IncWord(After(a, m)) == After(a, m + 1) && DecWord(Before(a, m)) == Before(a, m + 1)
  {
  }

  lemma UpsEnd(pc: word, end: word, m: nat)
    requires m < Ups(pc, end)
    ensures (Before(end, m) == pc <==> m + 1 == Ups(pc, end))
  {
  }

  lemma DownsEnd(pc: word, end: word, m: nat)
    requires m < Downs(pc, end)
    ensures (After(After(pc, 8), m + 1) == end <==> m + 1 == Downs(pc, end))
  {
  }

  /**
   jump_0F7A to jump_0FBE: copies eight addresses up, from the end pointer down to the program
   counter, wherever they are; the end pointer moves up first.
  */
  method MoveUp(c: Controller)
    requires c.Valid()
    modifies c.xram, c.iram
    ensures c.xram[..] == old(RolledUp(c.xram[..], c.EndPointer(), Ups(c.Pc(), c.EndPointer())))
    ensures c.Pc() == old(c.Pc()) && c.EndPointer() == old(After(c.EndPointer(), 8))
    ensures forall i :: 0 <= i < 0x80 && i != END_LO && i != END_HI ==> c.iram[i] == old(c.iram[i])
  {
    hide RolledUp, Ups, After, Before, IncWord, DecWord, Pair;
    ghost var mem: Memory := c.xram[..];
    ghost var pc, end := c.Pc(), c.EndPointer();
    ghost var m := 0;
    RolledUpStep(mem, end, 0);
    UpsEnd(pc, end, 0);
    PointerSteps(end, 0);
    PointerSteps(After(end, 8), 0);
    var r2, r3 := c.iram[END_LO], c.iram[END_HI];
    var r5, r4, carry := AddEightTo(r3, r2);
    c.iram[END_LO], c.iram[END_HI] := r4, r5;
    ghost var iram := c.iram[..];
    while true
      invariant m < Ups(pc, end) && Pair(r3, r2) == Before(end, m) && Pair(r5, r4) == Before(After(end, 8), m)
      invariant c.xram[..] == RolledUp(mem, end, m) && c.iram[..] == iram
      decreases Ups(pc, end) - m
    {
      RolledUpStep(mem, end, m);
      PointerSteps(end, m);
      PointerSteps(After(end, 8), m);
      UpsEnd(pc, end, m);
      PairsEqual(r3, r2, c.iram[PC_HI], c.iram[PC_LO]);
      c.Store(Pair(r5, r4), c.xram[..][Pair(r3, r2)]);
      r5, r4 := DecPair(r5, r4);
      if r2 == c.iram[PC_LO] && r3 == c.iram[PC_HI] {
        break;
      }
      r3, r2 := DecPair(r3, r2);
      m := m + 1;
    }
  }

  /**
   0x0F55: copies eight addresses down from the program counter on. The source pointer is compared
   with the end pointer after it has moved, so a source that starts there goes round all 64 K
   first. END is written behind the last copied byte.
  */
  method MoveDown(c: Controller, r5: byte, r4: byte, r3: byte, r2: byte) returns (r5': byte, r4': byte)
    requires c.Valid() && Pair(r5, r4) == c.Pc() && Pair(r3, r2) == After(c.Pc(), 8)
    modifies c.xram
    ensures var n := Downs(c.Pc(), c.EndPointer());
            && Pair(r5', r4') == After(c.Pc(), n)
            && c.xram[..] == old(RolledDown(c.xram[..], c.Pc(), n))[After(c.Pc(), n) := END]
  {
    hide RolledDown, Downs, After, IncWord, Pair;
    ghost var mem: Memory := c.xram[..];
    ghost var pc, end := c.Pc(), c.EndPointer();
    ghost var m := 0;
    RolledDownStep(mem, pc, 0);
    DownsEnd(pc, end, 0);
    PointerSteps(pc, 0);
    PointerSteps(After(pc, 8), 0);
    r5', r4' := r5, r4;
    var r3, r2 := r3, r2;
    var dptr: word := 0;
    while true
      invariant m < Downs(pc, end) && Pair(r3, r2) == After(After(pc, 8), m) && Pair(r5', r4') == After(pc, m)
      invariant c.xram[..] == RolledDown(mem, pc, m)
      decreases Downs(pc, end) - m
    {
      RolledDownStep(mem, pc, m);
      PointerSteps(pc, m);
      PointerSteps(After(pc, 8), m);
      DownsEnd(pc, end, m);
      dptr := Pair(r5', r4');
      c.Store(dptr, c.xram[..][Pair(r3, r2)]);
      r5', r4' := IncPair(r5', r4');
      r3, r2 := IncPair(r3, r2);
      m := m + 1;
      PairsEqual(r3, r2, c.iram[END_HI], c.iram[END_LO]);
      if r2 == c.iram[END_LO] && r3 == c.iram[END_HI] {
        break;
      }
    }
    c.Store(IncWord(dptr), END);
  }

  /** The inserting copy and its NOP stay between the program's start and its new END exactly when the program counter does. */
  lemma InsertStaysInsideIff(base: word, pc: word, end: word)
    requires base <= end < 0xFF00
    ensures base <= pc <= end + 8 && (forall j :: 0 <= j < Ups(pc, end) ==> base <= Before(After(end, 8), j) <= end + 8)
            <==> base <= pc <= end
  {
    if end < pc <= end + 8 && base <= pc {
      assert Before(After(end, 8), end + 9) == 0xFFFF;
    }
  }

  /**
   The deleting copy and its END stay between the program's start and its old END exactly when the
   slot is there and is not the last.
  */
  lemma DeleteStaysInsideIff(base: word, pc: word, end: word)
    ensures (forall j :: 0 <= j <= Downs(pc, end) ==> base <= After(pc, j) < end) <==> base <= pc && pc + 8 < end
  {
    assert After(pc, 0) == pc;
    if pc < end <= pc + 8 {
      assert end - pc <= Downs(pc, end) && After(pc, end - pc) == end;
    }
  }

  /** Deleting the only slot of a program at 0x8100 copies a byte over every address there is. */
  lemma LastSlotOverrun()
    ensures Downs(0x8100, 0x8108) == 0x1_0000 && After(0x8100, 0x10) == 0x8110
    ensures forall a: word :: Gap(a, 0x8100) < Downs(0x8100, 0x8108) && After(0x8100, Gap(a, 0x8100)) == a
  {
  }

  /** With the program counter at 0, as at power-up, inserting copies down over the label table and the motor port. */
  lemma InsertAtPowerUp()
    ensures exists j :: 0 <= j < Ups(0x0000, 0x8100) && Before(After(0x8100, 8), j) == 0x8000
    ensures exists j :: 0 <= j < Ups(0x0000, 0x8100) && Before(After(0x8100, 8), j) == 0x5000
  {
    assert Before(After(0x8100, 8), 0x108) == 0x8000;
    assert Before(After(0x8100, 8), 0x3108) == 0x5000;
  }

  /** With the program counter past END, inserting goes round and writes all but 0xBF addresses, the label table among them. */
  lemma InsertPastEnd()
    ensures Ups(0x8240, 0x8180) == 0xFF41
    ensures exists j :: 0 <= j < Ups(0x8240, 0x8180) && Before(After(0x8180, 8), j) == 0x8000
  {
    assert Before(After(0x8180, 8), 0x188) == 0x8000;
  }

  /** jump_0FA8: writes the size that goes with the end pointer into the header. */
  method StoreSize(c: Controller)
    requires c.Valid()
    modifies c.xram
    ensures c.xram[..] == old(WithEnd(c.xram[..], c.page, c.EndPointer()))
  {
    PairSplits(c.iram[END_HI], c.iram[END_LO]);
    c.Store(Pair(c.page, 0xFE), c.iram[END_LO]);
    c.Store(Pair(c.page, 0xFF), (c.iram[END_HI] - (c.page + 1) + 256) as int % 256);
  }

  /** What the validator makes of memory mem. */
  ghost predicate Validated(c: Controller, mem: Memory)
    requires c.Valid() && Fits(mem, c.page)
    reads c, c.xram, c.iram
  {
    && (c.loaded <==> Accepts(mem, c.page))
    && (if c.loaded then c.xram[..] == Prepared(mem, c.page) && c.EndPointer() == EndOf(mem, c.page)
        else IsEmptyProgram(c.xram[..], c.page) && c.EndPointer() == Base(c.page))
  }

  /** The stored program is intact, the end pointer stands at END and the program counter on a slot. */
  ghost predicate Editing(c: Controller)
    requires c.Valid()
    reads c, c.xram, c.iram
  {
    && Intact(c.xram[..], c.page)
    && c.EndPointer() == EndOf(c.xram[..], c.page)
    && ProgramRuns.InBody(c.xram[..], c.page, c.Pc())
  }

  ghost function EditSlot(c: Controller): nat
    requires c.Valid() && Editing(c)
    reads c, c.xram, c.iram
  {
    ProgramRuns.SlotOf(c.Pc(), c.page)
  }

  /** Memory after the slot at pc has been deleted and the rest validated again. */
  function DeletedSlot(mem: Memory, p: SramPage, pc: word): Memory
    requires Intact(mem, p) && ProgramRuns.InBody(mem, p, pc) && pc + 8 < EndOf(mem, p)
  {
    AfterDelete(mem, p, ProgramRuns.SlotOf(pc, p))
  }

  /** The scratch cells, the end pointer and the program counter are the editor's; validation leaves the program counter alone. */
  lemma PcStays(before: seq<byte>, after: seq<byte>)
    requires |before| == |after| == 0x80 && Prepare.KeepsIram(before, after)
    ensures after[PC_LO] == before[PC_LO] && after[PC_HI] == before[PC_HI]
  {
  }

  /** jump_0FA8: stores the size that goes with the end pointer and validates the program again. */
  method Revalidate(c: Controller)
    requires c.Valid()
    requires var left := WithEnd(c.xram[..], c.page, c.EndPointer()); Fits(left, c.page) && LabelsInRange(left, c.page)
    modifies c`loaded, c`running, c`motion, c`stepping, c.xram, c.iram
    ensures var left := old(WithEnd(c.xram[..], c.page, c.EndPointer())); Fits(left, c.page) && Validated(c, left)
    ensures c.Pc() == old(c.Pc())
  {
    hide Prepared, Accepts, LabelsInRange, WithEnd, IsEmptyProgram, Prepare.OutsideIndexing;
    StoreSize(c);
    ghost var visited := Prepare.Prepare(c);
    PcStays(old(c.iram[..]), c.iram[..]);
  }

  /**
   jump_0F7A: inserts a NOP at the program counter, whatever program counter and end pointer are.
   While the editor is on a slot of an intact program this is the insertion of EditorSpec.
  */
  method Insert(c: Controller)
    requires c.Valid() && CanInsert(c)
    modifies c`loaded, c`running, c`motion, c`stepping, c.xram, c.iram
    ensures var left := old(InsertLeaves(c.xram[..], c.page, c.Pc(), c.EndPointer())); Fits(left, c.page) && Validated(c, left)
    ensures c.Pc() == old(c.Pc())
    ensures old(Editing(c) && Size(c.xram[..], c.page) + 8 <= 0x1EFF) ==>
              && c.loaded && c.xram[..] == old(AfterInsert(c.xram[..], c.page, EditSlot(c)))
              && c.EndPointer() == old(c.EndPointer()) + 8 && Editing(c)
  {
    hide RolledUp, WithEnd, Intact, LabelsInRange, Validated, Ups, After;
    ghost var mem: Memory := c.xram[..];
    ghost var pc, end := c.Pc(), c.EndPointer();
    if Editing(c) && Size(mem, c.page) + 8 <= 0x1EFF {
      InsertsInside(mem, c.page, pc, end);
    }
    MoveUp(c);
    c.Store(c.Pc(), NOP);
    Revalidate(c);
    if old(Editing(c) && Size(c.xram[..], c.page) + 8 <= 0x1EFF) {
      InsertedEditing(c, mem, pc, end);
    }
  }

  /** What inserting is about to validate fits the SRAM and has labels the table can hold. */
  ghost predicate CanInsert(c: Controller)
    requires c.Valid()
    reads c, c.xram, c.iram
  {
    var left := InsertLeaves(c.xram[..], c.page, c.Pc(), c.EndPointer());
    Fits(left, c.page) && LabelsInRange(left, c.page)
  }

  /** On a slot of an intact program with room for another that is always so. */
  lemma InsertsInside(mem: Memory, p: SramPage, pc: word, end: word)
    requires Intact(mem, p) && end == EndOf(mem, p) && ProgramRuns.InBody(mem, p, pc) && Size(mem, p) + 8 <= 0x1EFF
    ensures var i := ProgramRuns.SlotOf(pc, p);
            && i <= Slots(mem, p) && InsertLeaves(mem, p, pc, end) == Inserted(mem, p, Slot(p, i))
            && Fits(InsertLeaves(mem, p, pc, end), p) && LabelsInRange(InsertLeaves(mem, p, pc, end), p)
            && Slots(InsertLeaves(mem, p, pc, end), p) >= 1
            && AfterInsert(mem, p, i) == Prepared(InsertLeaves(mem, p, pc, end), p)
  {
    hide Prepared, MovedUp, WithEnd, IntactSlot, LabelsInRange, Accepts, InsertLeaves;
    ProgramRuns.SlotOfBody(mem, p, pc);
    InsertLeavesInside(mem, p, pc, end);
    InsertedIntact(mem, p, ProgramRuns.SlotOf(pc, p));
  }

  lemma InsertedEditing(c: Controller, mem: Memory, pc: word, end: word)
    requires c.Valid() && Intact(mem, c.page) && end == EndOf(mem, c.page) && ProgramRuns.InBody(mem, c.page, pc)
    requires Size(mem, c.page) + 8 <= 0x1EFF && c.Pc() == pc
    requires var left := InsertLeaves(mem, c.page, pc, end); Fits(left, c.page) && Validated(c, left)
    ensures var i := ProgramRuns.SlotOf(pc, c.page);
            && i <= Slots(mem, c.page) && c.loaded && c.xram[..] == AfterInsert(mem, c.page, i)
            && c.EndPointer() == end + 8 && Editing(c)
  {
    hide Prepared, Inserted, IntactSlot, InsertLeaves, Accepts;
    InsertsInside(mem, c.page, pc, end);
    var i := ProgramRuns.SlotOf(pc, c.page);
    InsertedIntact(mem, c.page, i);
    PreparedIntact(Inserted(mem, c.page, Slot(c.page, i)), c.page);
  }

  /**
   0x0F42 to 0x0F53: the high bytes are compared, with a borrow when the addition of 8 has carried,
   and then the low bytes on their own.
  */
  predicate Refused(loaded: bool, pc: word, end: word) {
    !loaded || (Hi(pc) >= Hi(end) as int + (if pc + 8 >= 0x1_0000 then 1 else 0) && Lo(pc) >= Lo(end))
  }

  /** That is a comparison of addresses exactly when the bytes do not point opposite ways. */
  lemma RefusesAtEndIff(pc: word, end: word)
    requires pc < 0xFFF8
    ensures (Refused(true, pc, end) <==> pc >= end) <==> !(Hi(pc) > Hi(end) && Lo(pc) < Lo(end))
  {
  }

  /** With the program counter past END at 0x8180, delete goes ahead at 0x8240 and writes the label table. */
  lemma DeletePastEnd()
    ensures !Refused(true, 0x8240, 0x8180)
    ensures exists j :: 0 <= j < Downs(0x8240, 0x8180) && After(0x8240, j) == 0x8000
  {
    assert After(0x8240, 0xFDC0) == 0x8000;
  }

  /** What deleting is about to validate fits the SRAM and has labels the table can hold. */
  ghost predicate CanDelete(c: Controller)
    requires c.Valid()
    reads c, c.xram, c.iram
  {
    var left := DeleteLeaves(c.xram[..], c.page, c.Pc(), c.EndPointer());
    Refused(c.loaded, c.Pc(), c.EndPointer()) || (Fits(left, c.page) && LabelsInRange(left, c.page))
  }

  /**
   0x0F39: deletes at the program counter, whatever program counter and end pointer are; false is the
   error display. On a slot of an intact program that is not the last this is the deletion of
   EditorSpec.
  */
  method Delete(c: Controller) returns (ok: bool)
    requires c.Valid() && CanDelete(c)
    modifies c`loaded, c`running, c`motion, c`stepping, c.xram, c.iram
    ensures ok <==> !old(Refused(c.loaded, c.Pc(), c.EndPointer()))
    ensures ok ==>
              var left := old(DeleteLeaves(c.xram[..], c.page, c.Pc(), c.EndPointer()));
              Fits(left, c.page) && Validated(c, left)
    ensures c.Pc() == old(c.Pc())
    ensures ok && old(Editing(c) && c.Pc() + 8 < c.EndPointer()) ==>
              && c.loaded && c.xram[..] == old(DeletedSlot(c.xram[..], c.page, c.Pc()))
              && c.EndPointer() == old(c.EndPointer()) - 8 && Editing(c)
    ensures !ok ==> c.xram[..] == old(c.xram[..]) && c.iram[..] == old(c.iram[..]) && c.loaded == old(c.loaded)
    ensures !ok && !old(c.loaded) ==> !c.running && !c.motion && !c.stepping
  {
    hide RolledDown, WithEnd, Intact, LabelsInRange, Validated, Downs, After, DeletedSlot;
    if !c.loaded {
      c.running, c.motion, c.stepping := false, false, false;
      return false;
    }
    ghost var mem: Memory := c.xram[..];
    ghost var pc, end := c.Pc(), c.EndPointer();
    var r4, r5 := c.iram[PC_LO], c.iram[PC_HI];
    PairSplits(r5, r4);
    PairSplits(c.iram[END_HI], c.iram[END_LO]);
    var r3, r2, carry := AddEightTo(r5, r4);
    if r5 >= c.iram[END_HI] as int + (if carry then 1 else 0) && r4 >= c.iram[END_LO] {
      return false;
    }
    r5, r4 := MoveDown(c, r5, r4, r3, r2);
    PairSplits(r5, r4);
    c.iram[END_LO] := r4;
    c.iram[END_HI] := r5;
    Revalidate(c);
    if old(Editing(c) && c.Pc() + 8 < c.EndPointer()) {
      DeletedEditing(c, mem, pc, end);
    }
    return true;
  }

  lemma DeletesInside(mem: Memory, p: SramPage, pc: word, end: word)
    requires Intact(mem, p) && end == EndOf(mem, p) && ProgramRuns.InBody(mem, p, pc) && pc + 8 < end
    ensures var i := ProgramRuns.SlotOf(pc, p);
            && i + 1 < Slots(mem, p) && DeleteLeaves(mem, p, pc, end) == Deleted(mem, p, Slot(p, i))
            && Fits(DeleteLeaves(mem, p, pc, end), p) && LabelsInRange(DeleteLeaves(mem, p, pc, end), p)
            && Slots(DeleteLeaves(mem, p, pc, end), p) >= 1
            && DeletedSlot(mem, p, pc) == Prepared(DeleteLeaves(mem, p, pc, end), p)
  {
    hide Prepared, MovedDown, WithEnd, IntactSlot, LabelsInRange, Accepts, DeleteLeaves;
    ProgramRuns.SlotOfBody(mem, p, pc);
    DeleteLeavesInside(mem, p, pc, end);
    DeletedIntact(mem, p, ProgramRuns.SlotOf(pc, p));
  }

  lemma DeletedEditing(c: Controller, mem: Memory, pc: word, end: word)
    requires c.Valid() && Intact(mem, c.page) && end == EndOf(mem, c.page) && ProgramRuns.InBody(mem, c.page, pc)
    requires pc + 8 < end && c.Pc() == pc
    requires var left := DeleteLeaves(mem, c.page, pc, end); Fits(left, c.page) && Validated(c, left)
    ensures c.loaded && c.xram[..] == DeletedSlot(mem, c.page, pc) && c.EndPointer() == end - 8 && Editing(c)
  {
    hide Prepared, Deleted, IntactSlot, DeleteLeaves, Accepts, DeletedSlot;
    DeletesInside(mem, c.page, pc, end);
    var i := ProgramRuns.SlotOf(pc, c.page);
    DeletedIntact(mem, c.page, i);
    PreparedIntact(Deleted(mem, c.page, Slot(c.page, i)), c.page);
  }

  /** The editor's view of a controller state. */
  ghost function Viewed(c: Controller): ProgramRuns.State
    requires c.Valid()
    reads c, c.xram, c.iram
  {
    ProgramRuns.State(c.xram[..], c.Pc(), c.atEnd)
  }

  /** jump_0E6D: shows the instruction at the program counter; the display code itself is left out. */
  method Display(c: Controller)
    requires c.Valid()
    modifies c`atEnd
    ensures Viewed(c) == old(ProgramRuns.Displayed(Viewed(c)))
  {
    if Bit7(c.xram[c.Pc()]) {
      c.atEnd := true;
    }
  }

  method AddEight(c: Controller)
    requires c.Valid() && c.Pc() < 0xFF00
    modifies c.iram
    ensures c.Pc() == old(c.Pc()) + 8
  {
    PairAdds(c.iram[PC_HI], c.iram[PC_LO], 8);
    var sum: int := c.iram[PC_LO] as int + 8;
    c.iram[PC_LO] := sum % 256;
    if sum >= 256 {
      c.iram[PC_HI] := Inc(c.iram[PC_HI]);
    }
  }

  /** 0x0E49: the forward key in display mode. */
  method StepForward(c: Controller)
    requires c.Valid() && c.Pc() < 0xFF00
    modifies c`atEnd, c.iram
    ensures Viewed(c) == old(ProgramRuns.SteppedForward(Viewed(c)))
  {
    if c.atEnd {
      return;
    }
    AddEight(c);
    Display(c);
  }

  /** 0x0E58: the backward key in display mode, which stops at the first slot. */
  method StepBack(c: Controller)
    requires c.Valid() && c.Pc() >= Base(c.page) && c.Pc() % 8 == 0
    modifies c`atEnd, c.iram
    ensures Viewed(c) == old(ProgramRuns.SteppedBack(Viewed(c), c.page))
  {
    var lo, hi := c.iram[PC_LO], c.iram[PC_HI];
    var sum: int := lo as int + 0xF8;
    c.iram[PC_LO] := sum % 256;
    if sum < 256 {
      if hi == c.page + 1 {
        c.iram[PC_LO] := 0;
        return;
      }
      c.iram[PC_HI] := Dec(hi);
    }
    assert c.Pc() == Pair(hi, lo) - 8;
    c.atEnd := false;
    Display(c);
  }

  /** After insert and delete the label table serves every label as the naive scan of the restored program does. */
  lemma RestoredLabels(mem: Memory, p: SramPage, i: nat, m: byte)
    requires Intact(mem, p) && i < Slots(mem, p) && Size(mem, p) + 8 <= 0x1EFF && m <= MAX_LABEL
    ensures Intact(AfterInsert(mem, p, i), p) && i + 1 < Slots(AfterInsert(mem, p, i), p)
    ensures TableEntry(AfterDelete(AfterInsert(mem, p, i), p, i), p, m) == Target(mem, p, m)
  {
    hide Prepared, Inserted, Deleted, AfterInsert, AfterDelete, TableEntry, Intact;
    DeleteUndoesInsert(mem, p, i);
    var ins := AfterInsert(mem, p, i);
    IntactFits(mem, p);
    IntactFits(ins, p);
    AfterDeleteLabels(ins, p, i, m);
    RestoredSkeleton(mem, p, i);
    ProgramRuns.SkeletonTargets(mem, AfterDelete(ins, p, i), p, m);
  }

  lemma IntactFits(mem: Memory, p: SramPage)
    requires Intact(mem, p)
    ensures Fits(mem, p)
  {
  }

  lemma AfterDeleteLabels(mem: Memory, p: SramPage, i: nat, m: byte)
    requires Intact(mem, p) && i + 1 < Slots(mem, p) && m <= MAX_LABEL
    ensures var back := AfterDelete(mem, p, i);
            Fits(back, p) && Slots(back, p) >= 1 && TableEntry(back, p, m) == Target(back, p, m)
  {
    hide Prepared, Deleted, TableEntry;
    DeletedIntact(mem, p, i);
    var del := Deleted(mem, p, Slot(p, i));
    ProgramRuns.PreparedEntry(del, p, m);
    ProgramRuns.PreparedSkeleton(del, p);
    ProgramRuns.SkeletonTargets(del, Prepared(del, p), p, m);
  }

  lemma RestoredSkeleton(mem: Memory, p: SramPage, i: nat)
    requires Intact(mem, p) && i < Slots(mem, p) && Size(mem, p) + 8 <= 0x1EFF
    requires Intact(AfterInsert(mem, p, i), p) && i + 1 < Slots(AfterInsert(mem, p, i), p)
    ensures ProgramRuns.SameSkeleton(mem, AfterDelete(AfterInsert(mem, p, i), p, i), p)
  {
    hide AfterInsert, AfterDelete, IntactSlot;
    DeleteUndoesInsert(mem, p, i);
    var back := AfterDelete(AfterInsert(mem, p, i), p, i);
    forall k | 0 <= k < Slots(mem, p) ensures ProgramRuns.SameSlot(mem, back, p, k) {
      assert back[Slot(p, k)] == mem[Slot(p, k)] && back[Slot(p, k) + 1] == mem[Slot(p, k) + 1];
    }
    SameHeader(mem, back, p);
  }

  lemma SameHeader(mem: Memory, mem': Memory, p: SramPage)
    requires Size(mem, p) == Size(mem', p)
    ensures mem'[p * 256 + 0xFE] == mem[p * 256 + 0xFE] && mem'[p * 256 + 0xFF] == mem[p * 256 + 0xFF]
  {
  }
}
