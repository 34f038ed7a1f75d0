/** The feedback half of a servo pass (0x00DC-0x0153): 8-by-8 multiplies, rotates and carries. */
module Calibration {
  import opened Bytes
  import opened ServoSpec

  /** ORL with two low bits into a multiple of four. */
  lemma OrLow(a: byte, r: byte)
    requires a % 4 == 0 && r < 4
    ensures OrByte(a, r) == a + r
  {
    hide AndByte;
    var k, s := a / 4, 3 - r;
    assert 255 - a == 2 * (2 * (63 - k) + 1) + 1 && 255 - r == 2 * (126 + s / 2) + s % 2;
    AndStep(63 - k, 63, 1, s / 2);
    AndStep(2 * (63 - k) + 1, 126 + s / 2, 1, s % 2);
    AllKept(63 - k);
  }

  lemma AllKept(x: byte)
    requires x < 64
    ensures AndByte(x, 63) == x
  {
    LowBits(x / 8, 7, x % 8);
    LowBits(0, 0, x / 8);
  }

  /** Where the sample lies: below the offset, inside the range, or one or more ranges above it. */
  datatype Band = Below | Inside | Above | FarAbove

  /** The sum the multiply chain builds: (hi - offset) * gain plus the high byte of lo * gain. */
  function ChainSum(d: byte, lo: byte, gain: byte): int { d * gain + lo * gain / 256 }

  /** Sixteen bits are enough for it, so no carry of the chain is lost; its top ten bits are the raw value. */
  lemma ChainIsRaw(hi: byte, lo: byte, offset: byte, gain: byte)
    requires hi >= offset
    ensures 0 <= ChainSum(hi - offset, lo, gain) <= 255 * 255 + 254
    ensures Raw(hi, lo, offset, gain) == ChainSum(hi - offset, lo, gain) / 64
  {
    var d := hi - offset;
    ProductBound(d, gain);
    ProductBound(lo, gain);
    Distributes(d, lo, gain);
    SixtyFourths(d * gain, lo * gain);
  }

  lemma Distributes(d: int, lo: int, gain: int)
    ensures (d * 256 + lo) * gain == 256 * (d * gain) + lo * gain
  {
  }

  lemma SixtyFourths(x: nat, y: nat)
    ensures (256 * x + y) / 0x4000 == (x + y / 256) / 64
  {
  }

  /** 0x00EF to 0x010D: feedback, band, and the accumulator the next step starts from. */
  method Measure(hi: byte, lo: byte, offset: byte, gain: byte) returns (band: Band, fb: byte, a: byte)
    ensures fb == ServoSpec.Feedback(hi, lo, offset, gain)
    ensures band == if hi < offset then Below else BandOf(Raw(hi, lo, offset, gain))
    ensures band == Inside ==> a == fb
    ensures band == Above ==> a == (Raw(hi, lo, offset, gain) - 256 + 1) % 256
    ensures band == Below ==> a == hi - offset + 256
  {
    if hi < offset {
      return Below, 0, hi - offset + 256;
    }
    ChainIsRaw(hi, lo, offset, gain);
    hide Raw;
    var d := hi - offset;
    var low, r4 := Multiply(lo, gain);
    var b;
    a, b := Multiply(d, gain);
    ghost var sum := ChainSum(d, lo, gain);
    assert Pair(b, a) + r4 == sum;
    band, fb, a := Shift(b, a, r4);
  }

  /** 0x00FD: the addition, and the rotates of its low byte. */
  method Shift(b: byte, a: byte, r4: byte) returns (band: Band, fb: byte, a': byte)
    requires b <= 254
    ensures var raw := (Pair(b, a) + r4) / 64;
            && band == BandOf(raw) && fb == (if raw < 256 then raw else 255)
            && (band == Inside ==> a' == fb)
            && (band == Above ==> a' == (raw - 256 + 1) % 256)
  {
    var sum: int := a as int + r4;
    var carry: int := if sum >= 256 then 1 else 0;
    a' := sum % 256;
    TopBits(a');
    assert (Pair(b, a) + r4) / 64 == 4 * (b as int + carry) + a' / 64;
    hide Rl, Pair;
    band, fb, a' := TestOverflow(b + carry, Rl(Rl(a')) % 4);
  }

  function BandOf(raw: nat): Band { if raw < 256 then Inside else if raw < 512 then Above else FarAbove }

  /** 0x0105: two rotates through the carry, each testing the bit that comes out. */
  method TestOverflow(v: byte, low: byte) returns (band: Band, fb: byte, a: byte)
    requires low < 4
    ensures var raw := 4 * (v as int) + low;
            && band == BandOf(raw) && fb == (if raw < 256 then raw else 255)
            && (band == Inside ==> a == fb)
            && (band == Above ==> a == (raw - 256 + 1) % 256)
  {
    hide OrByte;
    TwoShifts(v);
    a := v as int * 2 % 256;
    if v >= 128 {
      return FarAbove, 255, a;
    }
    var out := a >= 128;
    a := a as int * 2 % 256;
    OrLow(a, low);
    a := OrByte(a, low);
    if out {
      return Above, 255, Inc(a);
    }
    band, fb := Inside, a;
  }

  lemma TwoShifts(v: byte)
    ensures v < 128 ==> v as int * 2 % 256 == 2 * v && (2 * v >= 128 <==> v >= 64)
    ensures v < 128 ==> 2 * v * 2 % 256 == if v < 64 then 4 * v else 4 * v - 256
  {
  }

  lemma TopBits(x: byte)
    ensures Rl(Rl(x)) % 4 == x / 64
  {
    assert Rl(Rl(x)) == if x < 64 then 4 * x else if x < 128 then 4 * x - 255 else if x < 192 then 4 * x - 510 else 4 * x - 765;
  }
}
