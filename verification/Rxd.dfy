/** The simulator's serial line driver: it shifts 8N1 frames onto P3.0. */
module Rxd {

  /** Start bit, eight data bits from the lowest up, stop bit: the level of the line during bit i. */
  predicate FrameLevel(b: bv8, i: nat) {
    if i == 0 then false else if i <= 8 then DataBit(b, i - 1) else true
  }

  predicate DataBit(b: bv8, k: nat)
    requires k < 8
  {
    (b >> k) & 1 == 1
  }

  /** The level of the line n machine cycles after byte b was queued at c cycles a bit. */
  predicate Level(b: bv8, n: nat, c: nat)
    requires c > 0
  {
    n >= 10 * c || FrameLevel(b, n / c)
  }

  /** queue_byte's frame word. */
  function FrameOf(b: bv8): bv16 { ((b as bv16) << 1) | ((1 as bv16) << 9) }

  predicate WordBit(frame: bv16, i: nat)
    requires i < 16
  {
    (frame >> i) & 1 == 1
  }

  lemma FrameWord(b: bv8, i: nat)
    requires i < 10
    ensures WordBit(FrameOf(b), i) <==> FrameLevel(b, i)
  {
    assert i == 0 || i == 1 || i == 2 || i == 3 || i == 4 || i == 5 || i == 6 || i == 7 || i == 8 || i == 9;
  }

  function Sum(ticks: seq<nat>): nat {
    if ticks == [] then 0 else Sum(ticks[..|ticks| - 1]) + ticks[|ticks| - 1]
  }

  lemma NoGap(d: int, c: nat)
    ensures d > 0 ==> d * c >= c
    ensures d < 0 ==> d * c + c <= 0
  {
  }

  lemma Distributes(p: int, q: int, c: nat)
    ensures (p - q) * c == p * c - q * c
  {
  }

  lemma QuotientIsUnique(p: int, q: int, r: nat, s: nat, c: nat)
    requires p * c + r == q * c + s && r < c && s < c
    ensures p == q
  {
    Distributes(p, q, c);
    NoGap(p - q, c);
  }

  lemma Quotient(n: nat, c: nat)
    requires c > 0
    ensures n == n / c * c + n % c && 0 <= n % c < c
  {
  }

  /** Inside bit i the quotient is i, and the tenth bit's end is the frame's. */
  lemma QuotientInBit(i: nat, off: nat, c: nat)
    requires off < c && i < 10
    ensures (i * c + off) / c == i && i * c + off < 10 * c
  {
    Quotient(i * c + off, c);
    QuotientIsUnique((i * c + off) / c, i, (i * c + off) % c, off, c);
    Distributes(10, i, c);
    NoGap(10 - i, c);
  }

  /** Inside bit i the line shows frame bit i. */
  lemma LevelInBit(b: bv8, i: nat, off: nat, c: nat)
    requires off < c && i < 10
    ensures Level(b, i * c + off, c) <==> FrameLevel(b, i)
  {
    QuotientInBit(i, off, c);
  }

  lemma LevelAfter(b: bv8, n: nat, c: nat)
    requires c > 0 && n >= 10 * c
    ensures Level(b, n, c)
  {
  }

  lemma NextBit(i: nat, c: nat)
    ensures (i + 1) * c == i * c + c
    ensures i >= 10 ==> i * c >= 10 * c
  {
    if i >= 10 {
      NoGap(i - 10, c);
      Distributes(i, 10, c);
    }
  }

  class Driver {
    var p3: bv8
    var cyclesPerBit: nat
    var curBit: int            // -1 while idle
    var cycAcc: nat
    var frame: bv16
    const frameBits: nat := 10

    /** The receive line, P3.0. */
    predicate Line()
      reads this`p3
    {
      p3 & 1 == 1
    }

    /** The port's other seven bits. */
    function Others(): bv8
      reads this`p3
    {
      p3 & 0xFE
    }

    constructor (p3: bv8)
      ensures Line() && Others() == p3 & 0xFE && curBit == -1 && cyclesPerBit == 8
    {
      this.p3 := p3 | 1;
      cyclesPerBit, curBit, cycAcc, frame := 8, -1, 0, 0;
    }

    /** Byte b has been on its way for n cycles. */
    ghost predicate Sends(b: bv8, n: nat)
      reads this
    {
      && cyclesPerBit > 0
      && Line() == Level(b, n, cyclesPerBit)
      && (if curBit < 0 then n >= 10 * cyclesPerBit
          else frame == FrameOf(b) && curBit < 10 && cycAcc < cyclesPerBit && n == curBit * cyclesPerBit + cycAcc)
    }

    method Drive(level: bool)
      modifies this`p3
      ensures Line() == level && Others() == old(Others())
    {
      var v := if level then p3 | 1 else p3 & 0xFE;
      if v != p3 {
        p3 := v;
      }
    }

    method QueueByte(b: bv8)
      requires cyclesPerBit > 0
      modifies this
      ensures Sends(b, 0) && Others() == old(Others()) && cyclesPerBit == old(cyclesPerBit)
    {
      frame := FrameOf(b);
      curBit, cycAcc := 0, 0;
      Drive(false);
    }

    /** Any number of cycles at once. */
    method Tick(cycles: nat, ghost b: bv8, ghost n: nat)
      requires Sends(b, n)
      modifies this`p3, this`curBit, this`cycAcc
      ensures Sends(b, n + cycles) && Others() == old(Others())
    {
      if curBit < 0 {
        LevelAfter(b, n + cycles, cyclesPerBit);
        LevelAfter(b, n, cyclesPerBit);
        return;
      }
      LevelInBit(b, curBit, cycAcc, cyclesPerBit);
      hide FrameLevel, FrameOf, WordBit, Line, Others, Level;
      cycAcc := cycAcc + cycles;
      while curBit >= 0 && cycAcc >= cyclesPerBit
        invariant curBit < 10 && Others() == old(Others())
        invariant if curBit < 0 then Line() && n + cycles >= 10 * cyclesPerBit
                  else n + cycles == curBit * cyclesPerBit + cycAcc && Line() == FrameLevel(b, curBit)
        decreases cycAcc
      {
        NextBit(curBit, cyclesPerBit);
        NextBit(curBit + 1, cyclesPerBit);
        cycAcc := cycAcc - cyclesPerBit;
        curBit := curBit + 1;
        if curBit >= frameBits {
          curBit := -1;
          Drive(true);
          break;
        }
        FrameWord(b, curBit);
        Drive(WordBit(frame, curBit));
      }
      if curBit < 0 {
        LevelAfter(b, n + cycles, cyclesPerBit);
      } else {
        LevelInBit(b, curBit, cycAcc, cyclesPerBit);
      }
    }

    /** However the elapsed cycles are split into ticks, the line shows the frame bit of the cycle it has come to. */
    method Send(b: bv8, ticks: seq<nat>)
      requires cyclesPerBit > 0
      modifies this
      ensures cyclesPerBit == old(cyclesPerBit) && Others() == old(Others())
      ensures Line() == Level(b, Sum(ticks), cyclesPerBit)
    {
      hide Level, Line, Others;
      QueueByte(b);
      var i := 0;
      while i < |ticks|
        invariant i <= |ticks| && Sends(b, Sum(ticks[..i]))
        invariant Others() == old(Others()) && cyclesPerBit == old(cyclesPerBit)
      {
        Tick(ticks[i], b, Sum(ticks[..i]));
        assert ticks[..i + 1][..i] == ticks[..i];
        i := i + 1;
      }
      assert ticks[..i] == ticks;
    }
  }

  /** A receiver that looks anywhere inside bit k + 1 of the frame reads data bit k; before it, the start bit is low. */
  lemma SamplesReturnTheByte(b: bv8, c: nat, k: nat, off: nat)
    requires k < 8 && off < c
    ensures Level(b, (k + 1) * c + off, c) <==> DataBit(b, k)
    ensures !Level(b, off, c) && Level(b, 9 * c + off, c)
  {
    LevelInBit(b, k + 1, off, c);
    LevelInBit(b, 0, off, c);
    LevelInBit(b, 9, off, c);
  }

  /** The training byte 0x20 is low for six bits, high for one, low for two, and high from then on. */
  lemma TrainingWaveform(n: nat, c: nat)
    requires c > 0
    ensures Level(0x20, n, c) <==> 6 * c <= n < 7 * c || 9 * c <= n
  {
    var i := n / c;
    if n < 10 * c {
      Between(n, c);
      assert i == 0 || i == 1 || i == 2 || i == 3 || i == 4 || i == 5 || i == 6 || i == 7 || i == 8 || i == 9;
    }
  }

  lemma Between(n: nat, c: nat)
    requires c > 0 && n < 10 * c
    ensures n / c < 10 && n / c * c <= n < (n / c + 1) * c
  {
  }
}
