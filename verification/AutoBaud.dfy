/** Software auto-baud (0x06B1-0x0732): measures a training byte and derives the reload of Timer 1. */
module AutoBaud {
  import opened Bytes
  import opened Rxd

  function Pow2(k: nat): (p: nat)
    ensures p > 0
  {
    if k == 0 then 1 else 2 * Pow2(k - 1)
  }

  /** w halved k times, each half rounded down. */
  function Halved(w: nat, k: nat): nat {
    if k == 0 then w else Halved(w, k - 1) / 2
  }

  /** How many halvings bring w under one byte. */
  function Shifts(w: nat): nat {
    if w < 256 then 0 else 1 + Shifts(w / 2)
  }

  lemma {:induction false} HalvedFirst(w: nat, k: nat)
    ensures Halved(w / 2, k) == Halved(w, k + 1)
  {
    if k > 0 {
      HalvedFirst(w, k - 1);
    }
  }

  /** Halvings lose only what is below the unit they end in. */
  lemma {:induction false} HalvedBounds(w: nat, k: nat)
    ensures Halved(w, k) * Pow2(k) <= w < (Halved(w, k) + 1) * Pow2(k)
  {
    if k > 0 {
      HalvedBounds(w, k - 1);
      HalfUnit(Halved(w, k - 1), Pow2(k - 1));
    }
  }

  lemma HalfUnit(v: nat, p: nat)
    ensures v / 2 * (2 * p) <= v * p && (v + 1) * p <= (v / 2 + 1) * (2 * p)
  {
    var h := v / 2;
    assert v == 2 * h || v == 2 * h + 1;
    assert h * (2 * p) == 2 * h * p;
    assert (2 * h + 1) * p == 2 * h * p + p;
  }

  /** Below times p on the left, below on the right. */
  lemma Quotients(q: nat, w: nat, p: nat, lo: nat, hi: nat)
    requires p > 0 && q * p <= w < (q + 1) * p
    ensures lo * p <= w < hi * p <==> lo <= q < hi
  {
    Ordered(lo, q, p);
    Ordered(q + 1, hi, p);
    Ordered(q + 1, lo, p);
    Ordered(hi, q, p);
  }

  lemma Ordered(x: int, y: int, p: nat)
    ensures x <= y ==> x * p <= y * p
  {
  }

  /** The width in the i-th register pair: R2:R1, R4:R3 or R6:R5. */
  function Width(r: seq<byte>, i: nat): word
    requires |r| == 8 && i < 3
  {
    Pair(r[2 * i + 2], r[2 * i + 1])
  }

  /** RRC A. */
  function Rrc(a: byte, carry: bool): byte { a / 2 + if carry then 128 else 0 }

  lemma PairHalves(hi: byte, lo: byte)
    ensures Pair(Rrc(hi, false), Rrc(lo, Bit0(hi))) == Pair(hi, lo) / 2
  {
  }

  /** jump_06E4: the timer's two bytes go where R0 points. */
  method Capture(r: array<byte>, width: word)
    requires r.Length == 8 && r[0] in {1, 3, 5}
    modifies r
    ensures r[0] == old(r[0]) + 2 && Pair(r[old(r[0]) as int + 1], r[old(r[0])]) == width
    ensures forall i :: 1 <= i < 8 && i != old(r[0]) && i != old(r[0]) as int + 1 ==> r[i] == old(r[i])
  {
    var r0 := r[0];
    r[r0] := Lo(width);
    r0 := Inc(r0);
    r[r0] := Hi(width);
    r[0] := Inc(r0);
  }

  /** jump_06F5: rotates each register pair right by one, the third pair first. */
  method Halve(r: array<byte>)
    requires r.Length == 8
    modifies r
    ensures forall i :: 0 <= i < 3 ==> Width(r[..], i) == old(Width(r[..], i)) / 2
    ensures r[7] == old(r[7])
  {
    hide Pair;
    r[0] := 6;
    while r[0] != 0
      invariant r[0] in {0, 2, 4, 6} && r[7] == old(r[7])
      invariant forall i :: 0 <= i < 3 ==>
                  Width(r[..], i) == if 2 * i + 2 > r[0] then old(Width(r[..], i)) / 2 else old(Width(r[..], i))
      decreases r[0]
    {
      HalvePair(r);
    }
  }

  /** jump_06FA: one pair, from the high byte R0 points at down through the low byte. */
  method HalvePair(r: array<byte>)
    requires r.Length == 8 && r[0] in {2, 4, 6}
    modifies r
    ensures r[0] == old(r[0]) - 2
    ensures Pair(r[old(r[0])], r[old(r[0]) - 1]) == old(Pair(r[r[0]], r[r[0] - 1]) / 2)
    ensures forall i :: 1 <= i < 8 && i != old(r[0]) && i != old(r[0]) as int - 1 ==> r[i] == old(r[i])
  {
    hide Pair, Rrc;
    PairHalves(r[r[0]], r[r[0] - 1]);
    var carry := Bit0(r[r[0]]);
    r[r[0]] := Rrc(r[r[0]], false);
    r[0] := Dec(r[0]);
    r[r[0]] := Rrc(r[r[0]], carry);
    r[0] := Dec(r[0]);
  }

  /** jump_06F3: halves all three widths until the first fits a byte, doubling R7 as often. */
  method Normalise(r: array<byte>)
    requires r.Length == 8
    modifies r
    ensures var k := old(Shifts(Width(r[..], 0)));
            && (forall i :: 0 <= i < 3 ==> Width(r[..], i) == old(Halved(Width(r[..], i), k)))
            && r[7] == Pow2(k) % 256
  {
    hide Pair, Halved, Shifts, Pow2;
    r[7] := 1;
    ghost var k := 0;
    ghost var total := Shifts(Width(r[..], 0));
    Unscaled(Width(r[..], 0));
    Unscaled(Width(r[..], 1));
    Unscaled(Width(r[..], 2));
    while r[2] != 0
      invariant k + Shifts(Width(r[..], 0)) == total
      invariant forall i :: 0 <= i < 3 ==> Width(r[..], i) == Halved(old(Width(r[..], i)), k)
      invariant r[7] == Pow2(k) % 256
      decreases Width(r[..], 0)
    {
      FitsIff(r[2], r[1]);
      Rescaled(Width(r[..], 0), old(Width(r[..], 0)), k);
      Rescaled(Width(r[..], 1), old(Width(r[..], 1)), k);
      Rescaled(Width(r[..], 2), old(Width(r[..], 2)), k);
      Doubled(k);
      Halve(r);
      r[7] := r[7] as int * 2 % 256;
      k := k + 1;
    }
    FitsIff(r[2], r[1]);
    ShiftsIff(Width(r[..], 0));
  }

  lemma Unscaled(w: nat)
    ensures Halved(w, 0) == w && Pow2(0) == 1
  {
  }

  lemma FitsIff(hi: byte, lo: byte)
    ensures hi == 0 <==> Pair(hi, lo) < 256
  {
  }

  lemma ShiftsIff(w: nat)
    ensures Shifts(w) == if w < 256 then 0 else 1 + Shifts(w / 2)
  {
  }

  lemma Rescaled(w: nat, w0: nat, k: nat)
    requires w == Halved(w0, k)
    ensures Halved(w0, k + 1) == w / 2 && (w >= 256 ==> w / 2 < w && Shifts(w) == 1 + Shifts(w / 2))
  {
  }

  /** R7 doubles modulo 256. */
  lemma Doubled(k: nat)
    ensures Pow2(k) % 256 * 2 % 256 == Pow2(k + 1) % 256
  {
    assert Pow2(k + 1) == 2 * Pow2(k);
    DoubledLow(Pow2(k) / 256, Pow2(k) % 256);
  }

  lemma DoubledLow(q: nat, r: byte)
    ensures 2 * r % 256 == 2 * (256 * q + r) % 256
  {
    var carry := if r < 128 then 0 else 1;
    LowOf(2 * r, carry, 2 * r - 256 * carry);
    LowOf(2 * (256 * q + r), 2 * q + carry, 2 * r - 256 * carry);
  }

  lemma LowOf(x: nat, q: nat, r: byte)
    requires x == 256 * q + r
    ensures x % 256 == r
  {
  }

  /** (x + 8) AND 0xF0 == 0x20. */
  predicate Near(x: byte) { AndByte((x as int + 8) % 256, 0xF0) == 0x20 }

  lemma NearIsRange(x: byte)
    ensures Near(x) <==> 24 <= x < 40
  {
    hide AndByte;
    var v := (x as int + 8) % 256;
    assert v == 16 * (v / 16) + v % 16;
    HighNibble(v / 16, v % 16);
  }

  lemma HighNibble(h: nat, l: nat)
    requires h < 16 && l < 16
    ensures AndByte(16 * h + l, 0xF0) == 16 * h
  {
    hide AndByte;
    LowBits(2 * h + l / 8, 30, l % 8);
    AndStep(h, 15, l / 8, 0);
    LowBits(h / 8, 1, h % 8);
    AndStep(0, 0, h / 8, 1);
  }

  datatype Reload = Lock(th1: byte) | Again

  /** jump_070A: the three tests on the low bytes, and the reload value from R7. */
  method Check(r: array<byte>) returns (result: Reload)
    requires r.Length == 8
    ensures result == if 24 <= r[1] / 6 < 40 && 24 <= r[3] < 40 && 24 <= r[5] / 2 < 40
                      then Lock((256 - r[7] as int) % 256) else Again
  {
    hide AndByte;
    NearIsRange(r[1] / 6);
    NearIsRange(r[3]);
    NearIsRange(r[5] / 2);
    if !Near(r[1] / 6) || !Near(r[3]) || !Near(r[5] / 2) {
      return Again;
    }
    result := Lock(255 - Dec(r[7]));
  }

  /** What the detector makes of three widths. */
  function Verdict(low1: word, high1: word, low2: word): Reload {
    var k := Shifts(low1);
    if 24 <= Halved(low1, k) / 6 < 40 && 24 <= Halved(high1, k) % 256 < 40 && 24 <= Halved(low2, k) % 256 / 2 < 40
    then Lock((256 - Pow2(k) % 256) % 256) else Again
  }

  /** The timer must not run over before the third edge, and must before a fourth. */
  function Outcome(low1: nat, high1: nat, low2: nat, high2: nat): Reload {
    if low1 < 0x1_0000 && high1 < 0x1_0000 && low2 < 0x1_0000 <= high2 then Verdict(low1, high1, low2) else Again
  }

  /**
   baud_clear to the lock, for a line that is low, high, low and high again for so many timer
   counts: an overflow in the first three, or a fourth edge in time, starts the search afresh.
  */
  method Attempt(r: array<byte>, low1: nat, high1: nat, low2: nat, high2: nat) returns (result: Reload)
    requires r.Length == 8
    modifies r
    ensures result == Outcome(low1, high1, low2, high2)
    ensures low1 >= 0x1_0000 || high1 >= 0x1_0000 || low2 >= 0x1_0000 || high2 < 0x1_0000 ==> result == Again
  {
    hide Verdict, Pair;
    r[0] := 1;
    if low1 >= 0x1_0000 {
      return Again;
    }
    Capture(r, low1);
    if high1 >= 0x1_0000 {
      return Again;
    }
    Capture(r, high1);
    if low2 >= 0x1_0000 {
      return Again;
    }
    Capture(r, low2);
    if high2 < 0x1_0000 {
      return Again;
    }
    result := Validate(r);
  }

  /** Normalise, then check. */
  method Validate(r: array<byte>) returns (result: Reload)
    requires r.Length == 8
    modifies r
    ensures result == old(Verdict(Width(r[..], 0), Width(r[..], 1), Width(r[..], 2)))
  {
    ghost var low1, high1, low2 := Width(r[..], 0), Width(r[..], 1), Width(r[..], 2);
    hide Halved, Shifts, Pow2, Verdict, Pair;
    ShiftsSuffice(low1);
    Normalise(r);
    ghost var k := Shifts(low1);
    LowIs(r[2], r[1]);
    LowIs(r[4], r[3]);
    LowIs(r[6], r[5]);
    VerdictIs(low1, high1, low2, r[1], r[3], r[5], r[7]);
    result := Check(r);
  }

  lemma LowIs(hi: byte, lo: byte)
    ensures lo == Pair(hi, lo) % 256
  {
  }

  lemma VerdictIs(low1: word, high1: word, low2: word, r1: byte, r3: byte, r5: byte, r7: byte)
    requires var k := Shifts(low1);
             && r1 == Halved(low1, k) % 256 && r3 == Halved(high1, k) % 256 && r5 == Halved(low2, k) % 256
             && r7 == Pow2(k) % 256
    ensures Verdict(low1, high1, low2)
            == if 24 <= r1 / 6 < 40 && 24 <= r3 < 40 && 24 <= r5 / 2 < 40 then Lock((256 - r7) % 256) else Again
  {
    hide Halved, Shifts, Pow2;
    ShiftsSuffice(low1);
  }

  lemma {:induction false} ShiftsSuffice(w: nat)
    ensures Halved(w, Shifts(w)) < 256
    ensures w >= 256 ==> Halved(w, Shifts(w)) >= 128
  {
    if w >= 256 {
      ShiftsSuffice(w / 2);
      HalvedFirst(w, Shifts(w / 2));
    }
  }

  /** A lock means the first width is six bits of 32 units each, to within a quarter. */
  lemma LockMeansNear(low1: word, high1: word, low2: word)
    requires Verdict(low1, high1, low2).Lock?
    ensures exists k :: 0 <= k <= 8 && Unit(low1 / 6, k) && Verdict(low1, high1, low2).th1 == (256 - Pow2(k)) % 256
  {
    var k := Shifts(low1);
    hide Halved, Shifts, Unit, Pow2;
    FirstWidth(low1, k);
    AtMostEight(low1 / 6, k);
    ComplementOfLow(Pow2(k));
  }

  lemma HalvedIsQuotient(w: nat, k: nat)
    ensures Halved(w, k) == w / Pow2(k)
  {
    HalvedBounds(w, k);
    QuotientIs(w, Pow2(k), Halved(w, k));
  }

  lemma PowersKnown(p: nat)
    requires p in {1, 2, 4, 8, 16, 32, 64, 128, 256}
    ensures exists k :: 0 <= k <= 8 && Pow2(k) == p
  {
    assert Pow2(0) == 1 && Pow2(1) == 2 && Pow2(2) == 4 && Pow2(3) == 8 && Pow2(4) == 16;
    assert Pow2(5) == 32 && Pow2(6) == 64 && Pow2(7) == 128 && Pow2(8) == 256;
  }

  /**
   For any captured widths, in figures: the detector locks with the unit p, a power of two up to 256,
   exactly if the first width is 144 to 240 units, the low byte of the second 24 to 40 and that of the
   third 48 to 80; and then it reloads with 256 less the unit.
  */
  lemma LocksInFigures(low1: nat, high1: nat, low2: nat, high2: nat, p: nat)
    requires p in {1, 2, 4, 8, 16, 32, 64, 128, 256}
    requires low1 < 0x1_0000 && high1 < 0x1_0000 && low2 < 0x1_0000 <= high2
    ensures Outcome(low1, high1, low2, high2) == Lock((256 - p) % 256) <==>
            144 * p <= low1 < 240 * p && 24 <= high1 / p % 256 < 40 && 48 <= low2 / p % 256 < 80
  {
    hide Verdict, Unit, Pow2, Shifts;
    PowersKnown(p);
    var k :| 0 <= k <= 8 && Pow2(k) == p;
    if 144 * p <= low1 < 240 * p {
      LocksAt(low1, high1, low2, k);
    } else if Verdict(low1, high1, low2) == Lock((256 - p) % 256) {
      LockMeansNear(low1, high1, low2);
      var n :| 0 <= n <= 8 && Unit(low1 / 6, n) && Lock((256 - Pow2(n)) % 256) == Verdict(low1, high1, low2);
      SameUnit(low1, n, k);
    }
  }

  lemma LocksAt(low1: word, high1: word, low2: word, k: nat)
    requires k <= 8 && 144 * Pow2(k) <= low1 < 240 * Pow2(k)
    ensures Verdict(low1, high1, low2) == Lock((256 - Pow2(k)) % 256) <==>
            24 <= high1 / Pow2(k) % 256 < 40 && 48 <= low2 / Pow2(k) % 256 < 80
  {
    ComplementOfLow(Pow2(k));
    HalvedIsQuotient(high1, k);
    HalvedIsQuotient(low2, k);
    ScaleAt(low1, k);
    hide Halved, Pow2, Shifts;
  }

  lemma ScaleAt(w: word, k: nat)
    requires k <= 8 && 144 * Pow2(k) <= w < 240 * Pow2(k)
    ensures Shifts(w) == k && 24 <= Halved(w, k) / 6 < 40
  {
    HalvedBounds(w, k);
    Quotients(Halved(w, k), w, Pow2(k), 144, 240);
    hide Halved, Pow2, Shifts;
    OnlyScale(w, k);
  }

  lemma SameUnit(w: nat, n: nat, k: nat)
    requires n <= 8 && k <= 8 && Unit(w / 6, n) && (256 - Pow2(n)) % 256 == (256 - Pow2(k)) % 256
    ensures 144 * Pow2(k) <= w < 240 * Pow2(k)
  {
    PowersSmall(n);
    PowersSmall(k);
    UnitIs(w / 6, n);
    hide Pow2, Unit;
    SameComplement(Pow2(n), Pow2(k));
    SixTimes(w, Pow2(n));
  }

  lemma UnitIs(c: nat, k: nat)
    ensures Unit(c, k) <==> 24 * Pow2(k) <= c < 40 * Pow2(k)
  {
  }

  lemma PowersSmall(k: nat)
    requires k <= 8
    ensures 1 <= Pow2(k) <= 256
  {
    Pow2Grows(k, 8);
    assert Pow2(8) == 256;
  }

  lemma SameComplement(x: nat, y: nat)
    requires 1 <= x <= 256 && 1 <= y <= 256 && (256 - x) % 256 == (256 - y) % 256
    ensures x == y
  {
  }

  lemma SixTimes(w: nat, p: nat)
    ensures 24 * p <= w / 6 < 40 * p <==> 144 * p <= w < 240 * p
  {
  }

  /** c lies in the window of 24 to 40 units of 2^k. */
  predicate Unit(c: nat, k: nat) { 24 * Pow2(k) <= c < 40 * Pow2(k) }

  lemma FirstWidth(w: nat, k: nat)
    ensures 24 <= Halved(w, k) / 6 < 40 <==> Unit(w / 6, k)
  {
    HalvedBounds(w, k);
    Quotients(Halved(w, k), w, Pow2(k), 144, 240);
  }

  lemma AtMostEight(c: nat, k: nat)
    requires Unit(c, k) && c < 0x1_0000 / 6 + 1
    ensures k <= 8
  {
    if k > 8 {
      Pow2Grows(9, k);
    }
  }

  lemma {:induction false} Pow2Grows(j: nat, k: nat)
    requires j <= k
    ensures Pow2(j) <= Pow2(k)
    decreases k
  {
    if j < k {
      Pow2Grows(j, k - 1);
    }
  }

  /** The number of halvings is the only scale at which the first width can be accepted. */
  lemma {:induction false} OnlyScale(w: nat, k: nat)
    requires 128 <= Halved(w, k) < 256
    ensures k == Shifts(w)
  {
    if k > 0 {
      HalvedFirst(w, k - 1);
      HalvedShrinks(w / 2, k - 1);
      OnlyScale(w / 2, k - 1);
    }
  }

  lemma {:induction false} HalvedShrinks(w: nat, k: nat)
    ensures Halved(w, k) <= w
  {
    if k > 0 {
      HalvedShrinks(w, k - 1);
    }
  }

  /** With widths 6c, c and 2c the detector locks exactly when c is in one of nine windows, and reloads with its scale. */
  lemma LocksIff(c: nat, idle: nat)
    requires idle >= 0x1_0000
    ensures Outcome(6 * c, c, 2 * c, idle).Lock? <==> exists k :: 0 <= k <= 8 && Unit(c, k)
    ensures forall k :: 0 <= k <= 8 && Unit(c, k) ==> Outcome(6 * c, c, 2 * c, idle) == Lock((256 - Pow2(k)) % 256)
  {
    hide Verdict, Pow2, Unit;
    if Outcome(6 * c, c, 2 * c, idle).Lock? {
      assert 6 * c / 6 == c;
      LockMeansNear(6 * c, c, 2 * c);
    }
    forall k | 0 <= k <= 8 && Unit(c, k) ensures Outcome(6 * c, c, 2 * c, idle) == Lock((256 - Pow2(k)) % 256) {
      WindowFits(c, k);
      InWindow(c, k);
    }
  }

  /**
   The line driver's waveform for byte b at c cycles a bit has just these edges: low, high and low so
   long, then high for good.
  */
  ghost predicate HasEdges(b: bv8, c: nat, low1: nat, high1: nat, low2: nat)
    requires c > 0
  {
    && low1 > 0 && high1 > 0 && low2 > 0
    && forall n: nat :: Level(b, n, c) <==> low1 <= n < low1 + high1 || low1 + high1 + low2 <= n
  }

  /** The training byte has such edges, and its widths are 6c, c and 2c and no others. */
  lemma TrainingEdges(c: nat, low1: nat, high1: nat, low2: nat)
    requires c > 0
    ensures HasEdges(0x20, c, low1, high1, low2) <==> low1 == 6 * c && high1 == c && low2 == 2 * c
  {
    forall n: nat ensures Level(0x20, n, c) <==> 6 * c <= n < 7 * c || 9 * c <= n {
      TrainingWaveform(n, c);
    }
    hide Level;
    if HasEdges(0x20, c, low1, high1, low2) {
      assert Level(0x20, 6 * c, c) && Level(0x20, low1, c);
      assert !Level(0x20, 7 * c, c) && !Level(0x20, low1 + high1, c);
      assert Level(0x20, 9 * c, c) && Level(0x20, low1 + high1 + low2, c);
    }
  }

  /**
   From the line to the lock: whatever widths the timer finds between the edges of the training byte,
   the detector locks exactly when the bit time is in one of the nine windows.
  */
  lemma TrainingLocksIff(c: nat, low1: nat, high1: nat, low2: nat, idle: nat)
    requires c > 0 && HasEdges(0x20, c, low1, high1, low2) && idle >= 0x1_0000
    ensures Outcome(low1, high1, low2, idle).Lock? <==> exists k :: 0 <= k <= 8 && Unit(c, k)
    ensures forall k :: 0 <= k <= 8 && Unit(c, k) ==> Outcome(low1, high1, low2, idle) == Lock((256 - Pow2(k)) % 256)
  {
    TrainingEdges(c, low1, high1, low2);
    LocksIff(c, idle);
  }

  lemma WindowFits(c: nat, k: nat)
    requires k <= 8 && Unit(c, k)
    ensures 6 * c < 0x1_0000
  {
    Pow2Grows(k, 8);
    assert Pow2(8) == 256;
  }

  lemma InWindow(c: nat, k: nat)
    requires 6 * c < 0x1_0000 && Unit(c, k)
    ensures Verdict(6 * c, c, 2 * c) == Lock((256 - Pow2(k)) % 256)
  {
    hide Halved, Shifts, Pow2, Unit;
    assert 6 * c / 6 == c;
    FirstWidth(6 * c, k);
    OtherWidths(c, k);
    ComplementOfLow(Pow2(k));
    OnlyScale(6 * c, k);
  }

  lemma OtherWidths(c: nat, k: nat)
    requires Unit(c, k)
    ensures 24 <= Halved(c, k) < 40 && 48 <= Halved(2 * c, k) < 80
  {
    HalvedBounds(c, k);
    Quotients(Halved(c, k), c, Pow2(k), 24, 40);
    HalvedBounds(2 * c, k);
    Quotients(Halved(2 * c, k), 2 * c, Pow2(k), 48, 80);
  }

  lemma ComplementOfLow(p: nat)
    ensures (256 - p % 256) % 256 == (256 - p) % 256
  {
  }
}
