/** The validator and label indexer (0x0803) with its rejection path (0x0880). */
module Prepare {
  import opened Bytes
  import opened ProgramLayout
  import opened ControllerState

  /** What the header says when a program is thrown away; a is outside everything the indexer writes. */
  predicate OutsideIndexing(mem: Memory, p: SramPage, a: word)
    requires Fits(mem, p)
  {
    && !InTable(p, a)
    && !(p * 256 + 0xFD <= a <= Base(p))
    && !(Base(p) <= a < Base(p) + Size(mem, p) && (a - Base(p)) % 8 == 3)
  }

  /** The indexer writes four cells of internal RAM. */
  predicate KeepsIram(before: seq<byte>, after: seq<byte>) {
    |before| == |after| == 0x80 &&
    forall i :: 0 <= i < 0x80 && i !in {END_LO, END_HI, SCRATCH_LO, SCRATCH_HI} ==> after[i] == before[i]
  }

  function ClearedByte(p: SramPage, a: word, b: byte): byte {
    if InTable(p, a) then (if a % 2 == 0 then 0 else p + 1) else b
  }

  /** Zeroes the entries of labels 0 to 118 to point at the program's start. */
  method ClearTable(c: Controller)
    requires c.Valid()
    modifies c.xram
    ensures forall a: word :: c.xram[a] == ClearedByte(c.page, a, old(c.xram[a]))
  {
    var dph: byte, dpl: byte := c.page, 0xEE;
    while dpl != 0
      invariant 0 <= dpl <= 0xEE && dpl % 2 == 0 && dph == c.page
      invariant forall a: word ::
                  c.xram[a] == if a <= dph * 256 + dpl then old(c.xram[a]) else ClearedByte(c.page, a, old(c.xram[a]))
    {
      c.xram[Pair(dph, dpl)] := 0;
      dpl := dpl - 1;
      c.xram[Pair(dph, dpl)] := c.page + 1;
      dpl := dpl - 1;
    }
    c.xram[Pair(dph, dpl)] := 0;
  }

  /** Replaces whatever is stored by the empty program. */
  method Reject(c: Controller)
    requires c.Valid()
    modifies c`loaded, c`running, c`motion, c`stepping, c.xram, c.iram
    ensures !c.loaded && !c.running && !c.motion && !c.stepping
    ensures IsEmptyProgram(c.xram[..], c.page)
    ensures c.EndPointer() == Base(c.page)
    ensures KeepsIram(old(c.iram[..]), c.iram[..])
    ensures forall a: word :: !(c.page * 256 + 0xFD <= a <= Base(c.page)) ==> c.xram[a] == old(c.xram[a])
  {
    c.loaded, c.running, c.motion, c.stepping := false, false, false, false;
    var dptr := Pair(c.page, 0xFD);
    c.xram[dptr] := 0x80;
    dptr := dptr + 1;
    c.iram[END_LO] := 0;
    c.iram[END_HI] := c.page + 1;
    c.xram[dptr] := 0;
    dptr := dptr + 1;
    c.xram[dptr] := 0;
    dptr := dptr + 1;
    c.xram[dptr] := END;
    assert c.xram[..][c.page * 256 + 0xFD] == 0x80;
  }

  /** The indexer's walk starts from the cleared table: nothing indexed yet. */
  lemma ClearedIsIndexed(mem: Memory, p: SramPage, n: nat, a: word)
    requires 1 <= n <= MAX_SLOTS
    ensures IndexedByte(mem, p, n, n, a) ==
            ClearedByte(p, a, mem[a])
  {
    assert p * 256 % 2 == 0;
  }

  lemma StartsIndexed(mem: Memory, cleared: Memory, p: SramPage, n: nat)
    requires 1 <= n <= MAX_SLOTS && forall a: word :: cleared[a] == ClearedByte(p, a, mem[a])
    ensures cleared == Indexed(mem, p, n, n)
  {
    forall a: word ensures cleared[a] == IndexedByte(mem, p, n, n, a) {
      ClearedIsIndexed(mem, p, n, a);
    }
  }

  /** Clearing the table changes neither header nor body. */
  lemma ClearedBody(mem: Memory, cleared: Memory, p: SramPage)
    requires Fits(mem, p) && forall a: word :: cleared[a] == ClearedByte(p, a, mem[a])
    ensures forall a: word :: !InTable(p, a) ==> cleared[a] == mem[a]
    ensures Fits(cleared, p) && Size(cleared, p) == Size(mem, p) && (HeaderOk(cleared, p) <==> HeaderOk(mem, p))
  {
  }

  /** jump_083C: one slot back from DPTR, which stands 0xF8 - a past the slot last visited. */
  method StepBack(page1: byte, dph: byte, dpl: byte, a: int) returns (dph': byte, dpl': byte, last: bool)
    requires a == 0xF8 || a == 0xF5
    requires 8 + (0xF8 - a) <= Pair(dph, dpl) && (dpl - (0xF8 - a)) % 8 == 0 && dpl >= 0xF8 - a
    ensures Pair(dph', dpl') == Pair(dph, dpl) - (0xF8 - a) - 8
    ensures last <==> Pair(dph', dpl') == Pair(page1, 0)
  {
    var sum: int := a + dpl;
    dpl' := sum % 256;
    dph' := dph;
    last := false;
    if sum < 256 {
      dph' := dph' - 1;
    } else if dpl' == 0 && dph' == page1 {
      last := true;
    }
  }

  /** 0x0865: writes the slot at dph:dpl into the table as label m. */
  method RecordLabel(c: Controller, m: byte, dph: byte, dpl: byte)
    requires c.Valid() && m <= MAX_LABEL
    modifies c.xram, c.iram
    ensures c.xram[..] == old(c.xram[..])[c.page * 256 + 2 * m := dpl][c.page * 256 + 2 * m + 1 := dph]
    ensures c.iram[SCRATCH_LO] == dpl && c.iram[SCRATCH_HI] == dph
    ensures c.EndPointer() == old(c.EndPointer()) && KeepsIram(old(c.iram[..]), c.iram[..])
  {
    var entry: byte := (m * 2) % 256 + m / 128;
    assert entry == 2 * m;
    c.iram[SCRATCH_LO] := dpl;
    c.iram[SCRATCH_HI] := dph;
    c.Store(Pair(c.page, entry), dpl);
    c.Store(Pair(c.page, Inc(entry)), dph);
  }

  /** jump_0850: indexes slot k, whose opcode has been found to be below 0x80. */
  method IndexSlot(c: Controller, ghost mem: Memory, ghost k: nat, ghost n: nat, dph: byte, dpl: byte)
    returns (dpl': byte, a: int)
    requires c.Valid() && 1 <= k < n <= MAX_SLOTS && Pair(dph, dpl) == Slot(c.page, k) && dpl % 8 == 0
    requires Op(mem, c.page, k) == MARK ==> mem[Slot(c.page, k) + 1] <= MAX_LABEL
    requires c.xram[..] == Indexed(mem, c.page, k + 1, n)
    modifies c.xram, c.iram
    ensures c.xram[..] == Indexed(mem, c.page, k, n)
    ensures (a == 0xF8 || a == 0xF5) && dpl' == dpl + (0xF8 - a)
    ensures c.EndPointer() == old(c.EndPointer()) && KeepsIram(old(c.iram[..]), c.iram[..])
  {
    hide Indexed;
    IndexedStep(mem, c.page, k, n);
    IndexedKeeps(mem, c.page, k + 1, n, Slot(c.page, k));
    IndexedKeeps(mem, c.page, k + 1, n, Slot(c.page, k) + 1);
    var op := c.xram[..][Pair(dph, dpl)];
    dpl', a := dpl, 0xF8;
    if op == LOOP {
      dpl' := dpl + 3;
      c.Store(Pair(dph, dpl'), 0);
      a := 0xF5;
    } else if op == MARK {
      var m := c.xram[..][Pair(dph, dpl + 1)];
      assert m == mem[Slot(c.page, k) + 1];
      PairSplits(dph, dpl);
      RecordLabel(c, m, dph, dpl);
      dpl' := c.iram[SCRATCH_LO];
    }
  }

  lemma SlotAligned(p: SramPage, k: nat, dph: byte, dpl: byte)
    requires k <= MAX_SLOTS
    ensures Pair(dph, dpl) == Slot(p, k) ==> dpl % 8 == 0
  {
  }

  lemma SlotBefore(p: SramPage, k: nat)
    requires 1 <= k <= MAX_SLOTS
    ensures Slot(p, k) == Slot(p, k - 1) + 8 && Slot(p, k - 1) >= 8
    ensures Slot(p, k - 1) == Pair(p + 1, 0) <==> k == 1
  {
  }

  /** The walk reads the opcode of a slot before it has changed anything there. */
  lemma OpcodeKept(mem: Memory, p: SramPage, k: nat, n: nat)
    requires 1 <= k <= n <= MAX_SLOTS
    ensures Indexed(mem, p, k, n)[Slot(p, k - 1)] == Op(mem, p, k - 1)
  {
    IndexedKeeps(mem, p, k, n, Slot(p, k - 1));
  }

  /** jump_083A: walks from END down to slot 0, stopping early at an opcode above 0x7F. */
  method Walk(c: Controller, ghost mem: Memory, ghost n: nat, dph: byte, dpl: byte) returns (ok: bool, ghost visited: nat)
    requires c.Valid() && 1 <= n < MAX_SLOTS && Pair(dph, dpl) == Slot(c.page, n)
    requires forall k :: 1 <= k < n && Op(mem, c.page, k) == MARK ==> mem[Slot(c.page, k) + 1] <= MAX_LABEL
    requires c.xram[..] == Indexed(mem, c.page, n, n)
    modifies c.xram, c.iram
    ensures ok <==> forall k :: 0 <= k < n ==> Op(mem, c.page, k) < 0x80
    ensures ok ==> c.xram[..] == Indexed(mem, c.page, 1, n) && visited == n
    ensures exists k :: 1 <= k <= n && c.xram[..] == Indexed(mem, c.page, k, n)
    ensures c.EndPointer() == old(c.EndPointer()) && KeepsIram(old(c.iram[..]), c.iram[..])
  {
    hide Indexed, Slot, Op;
    SlotAligned(c.page, n, dph, dpl);
    var dph, dpl := dph, dpl;
    var a := 0xF8;
    ghost var k := n;
    visited := 0;
    ok := true;
    while true
      invariant 1 <= k <= n && visited == n - k
      invariant (a == 0xF8 || a == 0xF5) && dpl >= 0xF8 - a && (dpl - (0xF8 - a)) % 8 == 0
      invariant Pair(dph, dpl) == Slot(c.page, k) + (0xF8 - a)
      invariant c.xram[..] == Indexed(mem, c.page, k, n)
      invariant forall j :: k <= j < n ==> Op(mem, c.page, j) < 0x80
      invariant c.EndPointer() == old(c.EndPointer()) && KeepsIram(old(c.iram[..]), c.iram[..])
      decreases k
    {
      var last;
      SlotBefore(c.page, k);
      dph, dpl, last := StepBack(c.page + 1, dph, dpl, a);
      visited := visited + 1;
      SlotAligned(c.page, k - 1, dph, dpl);
      OpcodeKept(mem, c.page, k, n);
      var op := c.xram[..][Pair(dph, dpl)];
      if op >= 0x80 {
        ok := false;
        return;
      }
      if last {
        return;
      }
      k := k - 1;
      dpl, a := IndexSlot(c, mem, k, n, dph, dpl);
    }
  }

  /** The header's half of the validation, up to the END sentinel; sets the end pointer. */
  method CheckHeader(c: Controller) returns (ok: bool, dph: byte, dpl: byte)
    requires c.Valid() && Fits(c.xram[..], c.page)
    modifies c.iram
    ensures ok <==> HeaderOk(c.xram[..], c.page)
    ensures ok ==> Pair(dph, dpl) == c.EndPointer() == Base(c.page) + Size(c.xram[..], c.page)
    ensures KeepsIram(old(c.iram[..]), c.iram[..])
  {
    dph, dpl := 0, c.xram[Pair(c.page, 0xFE)];
    c.iram[SCRATCH_LO] := dpl;
    c.iram[END_LO] := dpl;
    assert Size(c.xram[..], c.page) % 8 == dpl % 8;
    if dpl % 8 != 0 {
      return false, dph, dpl;
    }
    var hi := c.xram[Pair(c.page, 0xFF)];
    c.iram[SCRATCH_HI] := hi;
    if dpl == 0 && hi == 0 {
      return false, dph, dpl;
    }
    dph := (c.page + 1 + hi) as int % 256;
    c.iram[END_HI] := dph;
    ok := c.xram[Pair(dph, dpl)] == END;
  }

  lemma IramKept(a: seq<byte>, b: seq<byte>, c: seq<byte>)
    ensures KeepsIram(a, b) && KeepsIram(b, c) ==> KeepsIram(a, c)
  {
  }

  /** Memory that has only been changed where the indexer writes. */
  ghost predicate SameOutside(mem: Memory, after: Memory, p: SramPage)
    requires Fits(mem, p)
  {
    forall a: word :: OutsideIndexing(mem, p, a) ==> after[a] == mem[a]
  }

  lemma ClearedOutside(mem: Memory, cleared: Memory, p: SramPage)
    requires Fits(mem, p) && forall a: word :: !InTable(p, a) ==> cleared[a] == mem[a]
    ensures SameOutside(mem, cleared, p)
  {
  }

  lemma IndexedOutside(mem: Memory, p: SramPage, k: nat, n: nat)
    requires Fits(mem, p) && HeaderOk(mem, p) && n == Slots(mem, p) && 1 <= k <= n
    ensures SameOutside(mem, Indexed(mem, p, k, n), p)
  {
  }

  lemma RejectedOutside(mem: Memory, walked: Memory, after: Memory, p: SramPage)
    requires Fits(mem, p) && SameOutside(mem, walked, p)
    requires forall a: word :: !(p * 256 + 0xFD <= a <= Base(p)) ==> after[a] == walked[a]
    ensures forall a: word :: OutsideIndexing(mem, p, a) ==> after[a] == mem[a]
  {
  }

  /** Validation and indexing proper, once the table has been cleared. */
  method Index(c: Controller, ghost mem: Memory) returns (ok: bool, ghost visited: nat)
    requires c.Valid() && Fits(mem, c.page) && LabelsInRange(mem, c.page)
    requires forall a: word :: c.xram[a] == ClearedByte(c.page, a, mem[a])
    modifies c.xram, c.iram
    ensures ok <==> Accepts(mem, c.page)
    ensures ok ==> c.xram[..] == Prepared(mem, c.page) && visited == Slots(mem, c.page)
    ensures ok ==> c.EndPointer() == Base(c.page) + Size(mem, c.page)
    ensures SameOutside(mem, c.xram[..], c.page)
    ensures KeepsIram(old(c.iram[..]), c.iram[..])
  {
    hide Indexed, OutsideIndexing, SameOutside, KeepsIram;
    ghost var n := Slots(mem, c.page);
    ClearedBody(mem, c.xram[..], c.page);
    ClearedOutside(mem, c.xram[..], c.page);
    var dph, dpl;
    ok, dph, dpl := CheckHeader(c);
    visited := 0;
    if ok {
      StartsIndexed(mem, c.xram[..], c.page, n);
      ghost var checked := c.iram[..];
      ok, visited := Walk(c, mem, n, dph, dpl);
      ghost var k :| 1 <= k <= n && c.xram[..] == Indexed(mem, c.page, k, n);
      IndexedOutside(mem, c.page, k, n);
      IramKept(old(c.iram[..]), checked, c.iram[..]);
    }
  }

  method Prepare(c: Controller) returns (ghost visited: nat)
    requires c.Valid() && Fits(c.xram[..], c.page) && LabelsInRange(c.xram[..], c.page)
    modifies c`loaded, c`running, c`motion, c`stepping, c.xram, c.iram
    ensures c.loaded <==> old(Accepts(c.xram[..], c.page))
    ensures c.loaded ==> c.xram[..] == old(Prepared(c.xram[..], c.page))
    ensures c.loaded ==> c.EndPointer() == Base(c.page) + old(Size(c.xram[..], c.page))
    ensures c.loaded ==> visited == old(Slots(c.xram[..], c.page))
    ensures c.loaded ==> c.running == old(c.running) && c.motion == old(c.motion) && c.stepping == old(c.stepping)
    ensures !c.loaded ==> IsEmptyProgram(c.xram[..], c.page) && c.EndPointer() == Base(c.page)
    ensures !c.loaded ==> !c.running && !c.motion && !c.stepping
    ensures !c.loaded ==> forall a: word :: old(OutsideIndexing(c.xram[..], c.page, a)) ==> c.xram[a] == old(c.xram[a])
    ensures KeepsIram(old(c.iram[..]), c.iram[..])
  {
    hide Accepts, Prepared, OutsideIndexing, SameOutside, KeepsIram, Size, IsEmptyProgram, LabelsInRange;
    ghost var mem: Memory := c.xram[..];
    ghost var iram := c.iram[..];
    c.loaded := true;
    ClearTable(c);
    var ok;
    ok, visited := Index(c, mem);
    if !ok {
      ghost var walked: Memory, kept := c.xram[..], c.iram[..];
      Reject(c);
      RejectedOutside(mem, walked, c.xram[..], c.page);
      IramKept(iram, kept, c.iram[..]);
    }
  }
}
