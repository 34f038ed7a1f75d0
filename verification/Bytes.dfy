/** Bytes, 16-bit words and the carry arithmetic of the 8031 accumulator. */
module Bytes {
  type byte = x: int | 0 <= x < 256

  type word = x: int | 0 <= x < 0x1_0000

  datatype Option<T> = None | Some(value: T)

  /** Bit tests on the accumulator, by the weight of the bit. */
  predicate Bit0(x: byte) { x % 2 == 1 }

  predicate Bit1(x: byte) { x / 2 % 2 == 1 }

  predicate Bit2(x: byte) { x / 4 % 2 == 1 }

  predicate Bit3(x: byte) { x / 8 % 2 == 1 }

  predicate Bit4(x: byte) { x / 16 % 2 == 1 }

  predicate Bit5(x: byte) { x / 32 % 2 == 1 }

  predicate Bit6(x: byte) { x / 64 % 2 == 1 }

  predicate Bit7(x: byte) { x >= 128 }

  /** The address a DPH:DPL (or R3:R2, ...) register pair holds. */
  function Pair(hi: byte, lo: byte): word { hi * 256 + lo }

  function Lo(a: word): byte { a % 256 }

  function Hi(a: word): byte { a / 256 }

  lemma PairSplits(hi: byte, lo: byte)
    ensures Lo(Pair(hi, lo)) == lo && Hi(Pair(hi, lo)) == hi
  {
  }

  /** An 8-bit addition with the carry taken into the high byte is a 16-bit addition. */
  lemma PairAdds(hi: byte, lo: byte, n: byte)
    requires Pair(hi, lo) + n < 0x1_0000
    ensures Lo(Pair(hi, lo) + n) == (lo + n) as int % 256
    ensures Hi(Pair(hi, lo) + n) == if lo + n >= 256 then hi + 1 else hi
  {
  }

  function Inc(x: byte): byte { (x + 1) % 256 }

  function Dec(x: byte): byte { (x + 255) % 256 }

  function IncWord(a: word): word { (a + 1) % 0x1_0000 }

  function DecWord(a: word): word { (a + 0xFFFF) % 0x1_0000 }

  /** How many times DJNZ runs a loop whose counter starts at x: zero counts as 256. */
  function Turns(x: byte): (n: nat)
    ensures 1 <= n <= 256 && n % 256 == x
  {
    if x == 0 then 256 else x
  }

  /** ANL. */
  function AndByte(x: byte, y: byte): (r: byte)
    ensures r <= x
  {
    if x == 0 || y == 0 then 0 else (if x % 2 == 1 && y % 2 == 1 then 1 else 0) + 2 * AndByte(x / 2, y / 2)
  }

  /** ORL. */
  function OrByte(x: byte, y: byte): byte { 255 - AndByte(255 - x, 255 - y) }

  /** XRL. */
  function XorByte(x: byte, y: byte): byte { AndByte(OrByte(x, y), 255 - AndByte(x, y)) }

  lemma AndStep(x: nat, y: nat, b: nat, c: nat)
    requires x < 128 && y < 128 && b < 2 && c < 2
    ensures AndByte(2 * x + b, 2 * y + c) == 2 * AndByte(x, y) + b * c
  {
  }

  lemma {:induction false} AndCommutes(x: byte, y: byte)
    ensures AndByte(x, y) == AndByte(y, x)
  {
    if x != 0 && y != 0 {
      AndCommutes(x / 2, y / 2);
    }
  }

  lemma AndZero(x: byte)
    ensures AndByte(x, 0) == 0
  {
  }

  lemma AndOnes(y: byte)
    requires y < 32
    ensures AndByte(31, y) == y
  {
    hide AndByte;
    AndCommutes(31, y);
    LowBits(y / 8, 3, y % 8);
    AndStep(y / 16, 1, y / 8 % 2, 1);
    AndStep(0, 0, y / 16, 1);
    AndZero(0);
  }

  /** A mask that ends in k ones keeps the low k bits, and one that ends in zeros clears them. */
  lemma LowBits(x: nat, m: nat, a: nat)
    requires x < 32 && m < 32 && a < 8
    ensures AndByte(8 * x + a, 8 * m + 7) == 8 * AndByte(x, m) + a
    ensures AndByte(8 * x + a, 8 * m) == 8 * AndByte(x, m)
  {
    hide AndByte;
    var b, c := a / 2 % 2, a / 4;
    assert a == 4 * c + 2 * b + a % 2;
    AndStep(x, m, c, 1);
    AndStep(2 * x + c, 2 * m + 1, b, 1);
    AndStep(4 * x + 2 * c + b, 4 * m + 3, a % 2, 1);
    AndStep(x, m, c, 0);
    AndStep(2 * x + c, 2 * m, b, 0);
    AndStep(4 * x + 2 * c + b, 4 * m, a % 2, 0);
  }

  /** Setting bits above the low three. */
  lemma OrAbove(x: nat, m: nat, a: nat)
    requires x < 32 && m < 32 && a < 8
    ensures OrByte(8 * x + a, 8 * m) == 8 * (31 - AndByte(31 - x, 31 - m)) + a
  {
    hide AndByte;
    LowBits(31 - x, 31 - m, 7 - a);
  }

  /** INC on a register pair, low byte first. */
  method IncPair(hi: byte, lo: byte) returns (hi': byte, lo': byte)
    ensures Pair(hi', lo') == IncWord(Pair(hi, lo))
  {
    hi', lo' := hi, Inc(lo);
    if lo' == 0 {
      hi' := Inc(hi);
    }
  }

  /** DEC on a register pair: the high byte follows when the low byte was zero. */
  method DecPair(hi: byte, lo: byte) returns (hi': byte, lo': byte)
    ensures Pair(hi', lo') == DecWord(Pair(hi, lo))
  {
    hi', lo' := hi, Dec(lo);
    if lo == 0 {
      hi' := Dec(hi);
    }
  }

  /** RL A: the top bit comes back in at the bottom. */
  function Rl(x: byte): byte { if x < 128 then 2 * x else 2 * x - 256 + 1 }

  lemma ProductMonotone(x: nat, y: nat, g: nat)
    requires x <= y
    ensures x * g <= y * g
  {
  }

  lemma QuotientIs(w: nat, p: nat, q: nat)
    requires p > 0 && q * p <= w < (q + 1) * p
    ensures w / p == q
  {
    var n := w / p;
    assert n * p <= w < n * p + p;
    if n < q {
      ProductMonotone(n + 1, q, p);
    } else if n > q {
      ProductMonotone(q + 1, n, p);
    }
  }

  lemma ProductBound(x: byte, y: byte)
    ensures 0 <= x * y <= 255 * 255
  {
    ProductMonotone(x, 255, y);
    ProductMonotone(y, 255, 255);
  }

  /** MUL AB. */
  method Multiply(x: byte, y: byte) returns (a: byte, b: byte)
    ensures Pair(b, a) == x * y && b <= 254
  {
    ProductBound(x, y);
    var p: int := x * y;
    a, b := p % 256, p / 256;
  }
}
