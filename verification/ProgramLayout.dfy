/**
 The stored program in external SRAM: one page of label table and header, then a body of
 8-byte slots closed by END. Everything here is a function of the memory's contents.
*/
module ProgramLayout {
  import opened Bytes

  type Memory = m: seq<byte> | |m| == 0x1_0000 witness seq(0x1_0000, (_: nat) => 0)

  /** IRAM 0x3E: the SRAM probe leaves one of the two windows. */
  type SramPage = p: byte | p == 0x80 || p == 0xA0 witness 0x80

  const END: byte := 0x83
  const MARK: byte := 0x1F
  const LOOP: byte := 0x36
  const NOP: byte := 0x20
  const MAX_LABEL: byte := 118
  const MAX_SLOTS: nat := 992

  function Base(p: SramPage): word { (p + 1) * 256 }

  function Slot(p: SramPage, k: nat): word
    requires k <= MAX_SLOTS
  {
    Base(p) + 8 * k
  }

  function Op(mem: Memory, p: SramPage, k: nat): byte
    requires k <= MAX_SLOTS
  {
    mem[Slot(p, k)]
  }

  /** The stored size counts the bytes before END; header bytes 0xFE and 0xFF hold it. */
  function Size(mem: Memory, p: SramPage): word { Pair(mem[p * 256 + 0xFF], mem[p * 256 + 0xFE]) }

  function Slots(mem: Memory, p: SramPage): nat { Size(mem, p) / 8 }

  /** The whole body lies in the 8 KB SRAM window. */
  predicate Fits(mem: Memory, p: SramPage) { mem[p * 256 + 0xFF] <= 0x1E }

  predicate IsMark(mem: Memory, p: SramPage, k: nat, m: byte)
    requires k <= MAX_SLOTS
  {
    Op(mem, p, k) == MARK && mem[Slot(p, k) + 1] == m
  }

  predicate LabelsInRange(mem: Memory, p: SramPage)
    requires Fits(mem, p)
  {
    forall k :: 1 <= k < Slots(mem, p) && Op(mem, p, k) == MARK ==> mem[Slot(p, k) + 1] <= MAX_LABEL
  }

  /** The header promises a whole number of slots, at least one, closed by END. */
  predicate HeaderOk(mem: Memory, p: SramPage)
    requires Fits(mem, p)
  {
    && Size(mem, p) > 0
    && Size(mem, p) % 8 == 0
    && mem[Base(p) + Size(mem, p)] == END
  }

  /** What the validator demands of header and body. */
  predicate Accepts(mem: Memory, p: SramPage)
    requires Fits(mem, p)
  {
    && HeaderOk(mem, p)
    && forall k :: 0 <= k < Slots(mem, p) ==> Op(mem, p, k) < 0x80
  }

  /** The naive scan: the lowest slot in [k, n) that marks label m, or slot 0 if there is none. */
  function FirstMark(mem: Memory, p: SramPage, m: byte, k: nat, n: nat): (r: nat)
    requires 1 <= k <= n <= MAX_SLOTS
    ensures r == 0 || (k <= r < n && IsMark(mem, p, r, m))
    ensures forall j :: k <= j < n && IsMark(mem, p, j, m) ==> 0 < r <= j
    decreases n - k
  {
    if k == n then 0 else if IsMark(mem, p, k, m) then k else FirstMark(mem, p, m, k + 1, n)
  }

  /** Where a jump to label m lands, by the naive scan of a whole program. */
  function Target(mem: Memory, p: SramPage, m: byte): (a: word)
    requires Fits(mem, p) && Slots(mem, p) >= 1
  {
    Slot(p, FirstMark(mem, p, m, 1, Slots(mem, p)))
  }

  predicate InTable(p: SramPage, a: word) { p * 256 <= a <= p * 256 + 0xEE }

  /** The byte at offset off of the label table once slots [k, n) have been indexed. */
  function TableByte(mem: Memory, p: SramPage, k: nat, n: nat, off: nat): byte
    requires 1 <= k <= n <= MAX_SLOTS && off <= 0xEE
  {
    if off == 0xEE then 0
    else
      var entry := Slot(p, FirstMark(mem, p, off / 2, k, n));
      if off % 2 == 0 then Lo(entry) else Hi(entry)
  }

  /** Address a is byte 3 of a LOOP slot in [k, n). */
  predicate IsCounter(mem: Memory, p: SramPage, k: nat, n: nat, a: word)
    requires 1 <= k <= n <= MAX_SLOTS
  {
    Slot(p, k) <= a < Slot(p, n) && (a - Base(p)) % 8 == 3 && mem[a - 3] == LOOP
  }

  /** Memory at address a once slots [k, n) have been indexed. */
  function IndexedByte(mem: Memory, p: SramPage, k: nat, n: nat, a: word): byte
    requires 1 <= k <= n <= MAX_SLOTS
  {
    if InTable(p, a) then TableByte(mem, p, k, n, a - p * 256)
    else if IsCounter(mem, p, k, n, a) then 0
    else mem[a]
  }

  function Indexed(mem: Memory, p: SramPage, k: nat, n: nat): Memory
    requires 1 <= k <= n <= MAX_SLOTS
  {
    seq(0x1_0000, (a: nat) requires a < 0x1_0000 => IndexedByte(mem, p, k, n, a))
  }

  /** An accepted program as the validator leaves it. */
  function Prepared(mem: Memory, p: SramPage): Memory
    requires Fits(mem, p) && Slots(mem, p) >= 1
  {
    Indexed(mem, p, 1, Slots(mem, p))
  }

  predicate IsEmptyProgram(mem: Memory, p: SramPage) {
    mem[p * 256 + 0xFD] == 0x80 && Size(mem, p) == 0 && mem[Base(p)] == END
  }

  /** The 16-bit table entry a jump to label m loads, as the resolver computes its address. */
  function TableEntry(mem: Memory, p: SramPage, m: byte): word {
    var dpl := (m * 2) % 256 + m / 128;
    Pair(mem[IncWord(Pair(p, dpl))], mem[Pair(p, dpl)])
  }

  /** Indexing one more slot overwrites its label's entry, or zeroes its counter, or does nothing. */
  lemma {:induction false} IndexedStep(mem: Memory, p: SramPage, k: nat, n: nat)
    requires 1 <= k < n <= MAX_SLOTS
    requires Op(mem, p, k) == MARK ==> mem[Slot(p, k) + 1] <= MAX_LABEL
    ensures Indexed(mem, p, k, n) ==
            var rest := Indexed(mem, p, k + 1, n);
            if Op(mem, p, k) == MARK then
              var entry := p * 256 + 2 * mem[Slot(p, k) + 1];
              rest[entry := Lo(Slot(p, k))][entry + 1 := Hi(Slot(p, k))]
            else if Op(mem, p, k) == LOOP then rest[Slot(p, k) + 3 := 0]
            else rest
  {
    forall a: word
      ensures IndexedByte(mem, p, k, n, a) ==
              if Op(mem, p, k) == MARK && a == p * 256 + 2 * mem[Slot(p, k) + 1] then Lo(Slot(p, k))
            else if Op(mem, p, k) == MARK && a == p * 256 + 2 * mem[Slot(p, k) + 1] + 1 then Hi(Slot(p, k))
            else if Op(mem, p, k) == LOOP && a == Slot(p, k) + 3 then 0
            else IndexedByte(mem, p, k + 1, n, a) {
      IndexedByteStep(mem, p, k, n, a);
    }
  }

  lemma {:induction false} IndexedByteStep(mem: Memory, p: SramPage, k: nat, n: nat, a: word)
    requires 1 <= k < n <= MAX_SLOTS
    requires Op(mem, p, k) == MARK ==> mem[Slot(p, k) + 1] <= MAX_LABEL
    ensures IndexedByte(mem, p, k, n, a) ==
            if Op(mem, p, k) == MARK && a == p * 256 + 2 * mem[Slot(p, k) + 1] then Lo(Slot(p, k))
            else if Op(mem, p, k) == MARK && a == p * 256 + 2 * mem[Slot(p, k) + 1] + 1 then Hi(Slot(p, k))
            else if Op(mem, p, k) == LOOP && a == Slot(p, k) + 3 then 0
            else IndexedByte(mem, p, k + 1, n, a)
  {
    if InTable(p, a) {
      var off := a - p * 256;
      assert off != 0xEE ==> (FirstMark(mem, p, off / 2, k, n) ==
        if IsMark(mem, p, k, off / 2) then k else FirstMark(mem, p, off / 2, k + 1, n));
    }
  }

  /** Indexing changes nothing in the body but byte 3 of LOOP slots. */
  lemma IndexedKeeps(mem: Memory, p: SramPage, k: nat, n: nat, a: word)
    requires 1 <= k <= n <= MAX_SLOTS
    requires a >= Base(p) && (a - Base(p)) % 8 == 3 ==> mem[a - 3] != LOOP || a >= Slot(p, n)
    requires !InTable(p, a)
    ensures Indexed(mem, p, k, n)[a] == mem[a]
  {
  }

  lemma PreparedAt(mem: Memory, p: SramPage, a: word)
    requires Fits(mem, p) && Slots(mem, p) >= 1
    ensures Prepared(mem, p)[a] == IndexedByte(mem, p, 1, Slots(mem, p), a)
  {
  }

  /** Preparing keeps the body but for the counters it zeroes. */
  lemma PreparedBody(mem: Memory, p: SramPage, a: word)
    requires Fits(mem, p) && Slots(mem, p) >= 1 && a > p * 256 + 0xEE
    ensures Prepared(mem, p)[a] == if IsCounter(mem, p, 1, Slots(mem, p), a) then 0 else mem[a]
  {
  }
}
