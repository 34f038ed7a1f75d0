/** Decimal numbers typed on the teachbox (0x0D10-0x0D8D): one byte, or two with a carry chain. */
module DecimalEntry {
  import opened Bytes

  type digit = x: int | 0 <= x < 10

  /** The bits of 29h: what may be typed next. */
  datatype Mode = Mode(b0: bool, b1: bool, b2: bool, wide: bool, number: bool, b5: bool, b6: bool, b7: bool)

  /** What a digit key did: taken into a number, taken as the number of an axis or output, an error, or nothing. */
  datatype Outcome = Taken | AxisDigit | Error | Ignored

  /** The number a sequence of digits denotes. */
  function Decimal(digits: seq<digit>): nat {
    if digits == [] then 0 else Decimal(digits[..|digits| - 1]) * 10 + digits[|digits| - 1]
  }

  /** The number stays within the limit over the first n digits. */
  predicate Fitting(digits: seq<digit>, n: nat, limit: nat)
    requires n <= |digits|
  {
    forall k :: 0 <= k <= n ==> Decimal(digits[..k]) <= limit
  }

  /** The largest number a mode can hold. */
  function Limit(wide: bool): (n: nat)
    ensures n >= 9
  {
    if wide then 0xFFFF else 0xFF
  }

  /** jump_0D4D: the mode after an operand. */
  function AfterOperand(m: Mode): Mode {
    if m.b0 then Mode(false, false, false, false, false, false, !m.b1, m.b1)
    else if m.b1 then m.(b5 := true, b7 := true)
    else m.(b5 := true)
  }

  /** The mode a number's first digit leaves behind (0x0D42). */
  function AfterFirst(m: Mode, d: digit): Mode {
    AfterOperand(if d == 0 then m.(wide := false, number := false) else m)
  }

  /** The table behind 0x0FC4: the bit of axis or output d. */
  function DigitBit(d: digit): byte
    requires 1 <= d <= 8
  {
    match d
    case 1 => 0x01 case 2 => 0x02 case 3 => 0x04 case 4 => 0x08 case 5 => 0x10 case 6 => 0x20 case 7 => 0x40 case 8 => 0x80
  }

  /** An output instruction asks for the output's number first, with R3 at this value. */
  const OUTPUTS: byte := 0x10

  predicate NamesAxis(d: digit) { 1 <= d <= 8 }

  class Entry {
    var lo: byte               // 6Dh
    var hi: byte               // 6Eh
    var mode: Mode             // 29h
    var active: bool           // 2Ah.7: a command is being typed
    var error: bool            // 2Ah.6: an error is shown until the clear key
    var entered: bool          // 2Ah.2
    var more: bool             // 2Ah.1: the digits of a number are coming
    var kind: byte             // R3: what is being typed
    var axis: byte             // R4

    /** The state the number part of a command starts from. */
    constructor (mode: Mode, kind: byte)
      ensures active && !error && !more && this.mode == mode && this.kind == kind
    {
      lo, hi, axis := 0, 0, 0;
      this.kind := kind;
      this.mode := mode;
      active, error, entered, more := true, false, false, false;
    }

    function Value(): nat
      reads this`lo, this`hi
    {
      Pair(hi, lo)
    }

    /** The number as it stands, as far as the mode counts it. */
    predicate Holds(n: nat)
      reads this
    {
      if more && mode.wide then Value() == n else lo == n && hi == 0
    }

    /** jump_0D23: ERR. */
    method Fail()
      modifies this`active, this`error, this`entered, this`more
      ensures !active && error && !entered && !more
    {
      active, error, entered, more := false, true, false, false;
    }

    /** What an axis or output digit leaves behind: 1 to 8 name one, 0 and 9 are errors. */
    twostate predicate AxisTaken(d: digit, outcome: Outcome)
      reads this
    {
      && hi == 0 && !more && kind == old(kind)
      && (if !NamesAxis(d) then
            && outcome == Error && error && !active && !entered && mode == old(mode).(wide := false)
            && lo == old(lo) && axis == old(axis)
          else
            && outcome == AxisDigit && active && error == old(error) && axis == d
            && (if kind == OUTPUTS then
                  !entered && lo == old(lo) && mode == Mode(false, false, false, true, false, false, true, false)
                else entered && lo == 255 - DigitBit(d) && mode == AfterOperand(old(mode).(wide := false))))
    }

    /** jump_0D2A: the digit names an axis or an output. */
    method NameAxis(d: digit) returns (outcome: Outcome)
      requires active && !more && !mode.number && mode.wide && entered && hi == 0
      modifies this
      ensures AxisTaken(d, outcome)
    {
      mode := mode.(wide := false);
      if d == 0 || d >= 9 {
        Fail();
        return Error;
      }
      axis := d;
      outcome := AxisDigit;
      if kind == OUTPUTS {
        entered := false;
        mode := Mode(false, false, false, true, false, false, true, false);
        return;
      }
      lo := 255 - DigitBit(d);
      NextMode();
    }

    /** jump_0D4D. */
    method NextMode()
      modifies this`mode
      ensures mode == AfterOperand(old(mode))
    {
      if mode.b0 {
        mode := if mode.b1 then Mode(false, false, false, false, false, false, false, true)
                else Mode(false, false, false, false, false, false, true, false);
      } else if mode.b1 {
        mode := mode.(b5 := true, b7 := true);
      } else {
        mode := mode.(b5 := true);
      }
    }

    /** 0x0D18 to 0x0D64: the first digit of an operand; a leading zero closes the number. */
    method First(d: digit) returns (outcome: Outcome)
      requires active && !more
      modifies this
      ensures old(mode.number) ==> outcome == Taken && Holds(d) && (more <==> d != 0) && active == old(active)
                                   && error == old(error) && entered && mode == AfterFirst(old(mode), d) && axis == old(axis)
      ensures !old(mode.number) && old(mode.wide) ==> AxisTaken(d, outcome)
      ensures !old(mode.number) && !old(mode.wide) ==> outcome == Error && error && !active && mode == old(mode)
      ensures hi == 0 && kind == old(kind) && (!old(mode.number) ==> !more)
    {
      entered := true;
      hi := 0;
      if mode.number {
        lo := d;
        if d != 0 {
          more := true;
        } else {
          mode := mode.(wide := false, number := false);
        }
        NextMode();
        return Taken;
      }
      if mode.wide {
        outcome := NameAxis(d);
        return;
      }
      Fail();
      outcome := Error;
    }

    /** jump_0D65: one more digit, through MUL, ADD and the carries; exactly a number too large is an error. */
    method Append(d: digit) returns (outcome: Outcome)
      requires active && more && (!mode.wide ==> hi == 0)
      modifies this`lo, this`hi, this`active, this`error, this`entered, this`more
      ensures if old(Value()) * 10 + d <= Limit(mode.wide)
              then outcome == Taken && Value() == old(Value()) * 10 + d && active && more && error == old(error)
              else outcome == Error && error && !active && !more
                   && hi == old(hi) && lo == old(if mode.wide then (lo * 10 + d) as int % 256 else lo)
      ensures !mode.wide ==> hi == 0
    {
      var a, b := Multiply(lo, 10);
      Narrow(lo, d, a, b);
      Chain(hi, lo, d, a, b);
      hide Pair;
      if !mode.wide {
        if b != 0 || a as int + d >= 256 {
          Fail();
          return Error;
        }
        lo := a + d;
        return Taken;
      }
      var r6: byte := if a as int + d >= 256 then b + 1 else b;
      lo := (a as int + d) % 256;
      var a', b' := Multiply(hi, 10);
      Carries(a', b', r6);
      if b' != 0 || a' as int + r6 >= 256 {
        Fail();
        return Error;
      }
      hi := a' + r6;
      outcome := Taken;
    }

    /** A digit key while a command is typed; the keys after an error are ignored (0x0C90). */
    method Key(d: digit) returns (outcome: Outcome)
      requires (active || error) && (more && !mode.wide ==> hi == 0) && (more ==> active)
      modifies this
      ensures old(!active) ==> outcome == Ignored && unchanged(this)
      ensures old(active && more) ==>
                if old(Value()) * 10 + d <= Limit(old(mode.wide))
                then outcome == Taken && Value() == old(Value()) * 10 + d && active && more && error == old(error)
                else outcome == Error && error && !active && !more
      ensures old(active && !more && mode.number) ==>
                outcome == Taken && Holds(d) && (more <==> d != 0) && active && error == old(error)
      ensures old(active && !more && mode.number) ==> mode == AfterFirst(old(mode), d)
      ensures old(active && !more && !mode.number && !mode.wide) ==> outcome == Error && error && !active && !more
      ensures old(active && !more && !mode.number && mode.wide) ==> AxisTaken(d, outcome)
      ensures old(more) || old(!active) || old(!mode.number && !mode.wide) ==> mode == old(mode)
      ensures kind == old(kind)
      ensures more && !mode.wide ==> hi == 0
    {
      if !active {
        return Ignored;
      }
      if more {
        outcome := Append(d);
      } else {
        outcome := First(d);
      }
    }

    /**
     A whole number, typed digit by digit: it is held as long as it fits, ERR comes with exactly
     the first digit that makes it too large, or with a second digit after a leading zero, and
     nothing typed after that counts.
    */
    method Type(digits: seq<digit>) returns (taken: nat)
      requires active && !more && !error && mode.number && digits != []
      modifies this
      ensures 1 <= taken <= |digits| && (error <==> taken < |digits|)
      ensures !error ==> Holds(Decimal(digits))
      ensures digits[0] == 0 ==> taken == 1
      ensures digits[0] != 0 ==>
                var limit := Limit(old(AfterFirst(mode, digits[0])).wide);
                && Fitting(digits, taken, limit)
                && (error ==> Decimal(digits[..taken + 1]) > limit)
      ensures !error ==> hi as int * 256 + lo == Decimal(digits)
      ensures digits[0] != 0 ==>
                var largest := if old(mode.wide && !mode.b0) then 65535 else 255;
                Decimal(digits[..taken]) <= largest && (error ==> Decimal(digits[..taken + 1]) > largest)
    {
      assert digits[0] == 0 ==> !AfterFirst(mode, 0).number && !AfterFirst(mode, 0).wide;
      LargestIs(mode, digits[0]);
      hide AfterFirst, Decimal, Pair, Fitting, Limit;
      var outcome := Key(digits[0]);
      taken := 1;
      FirstDigit(digits, Limit(mode.wide));
      var i := 1;
      while i < |digits|
        invariant 1 <= taken <= i <= |digits| && (error <==> taken < i) && error == !active && (error ==> !more)
        invariant mode == old(AfterFirst(mode, digits[0]))
        invariant !error ==> Holds(Decimal(digits[..i])) && (more <==> digits[0] != 0)
        invariant digits[0] == 0 ==> taken == 1
        invariant digits[0] != 0 ==> Fitting(digits, taken, Limit(mode.wide))
        invariant digits[0] != 0 && error ==> Decimal(digits[..taken + 1]) > Limit(mode.wide)
      {
        NextDigit(digits, i);
        LowPair(lo);
        outcome := Key(digits[i]);
        LowPair(lo);
        i := i + 1;
        if !error {
          FitsNext(digits, taken, Limit(mode.wide));
          taken := i;
        }
      }
      assert digits[..i] == digits;
    }
  }

  lemma LargestIs(m: Mode, d: digit)
    ensures d != 0 ==> Limit(AfterFirst(m, d).wide) == if m.wide && !m.b0 then 65535 else 255
  {
  }

  /** The digits' weights. */
  lemma DecimalInFigures(digits: seq<digit>)
    ensures |digits| == 1 ==> Decimal(digits) == digits[0]
    ensures |digits| == 2 ==> Decimal(digits) == digits[0] as int * 10 + digits[1]
    ensures |digits| == 3 ==> Decimal(digits) == digits[0] as int * 100 + digits[1] as int * 10 + digits[2]
    ensures |digits| == 4 ==> 
              Decimal(digits) == digits[0] as int * 1000 + digits[1] as int * 100 + digits[2] as int * 10 + digits[3]
    ensures |digits| == 5 ==>
              Decimal(digits) == digits[0] as int * 10000 + digits[1] as int * 1000 + digits[2] as int * 100
                                 + digits[3] as int * 10 + digits[4]
  {
    forall i | 0 <= i < |digits| {
      NextDigit(digits, i);
    }
    assert digits[..0] == [] && digits[..|digits|] == digits;
    hide Decimal;
  }

  /** Axis or output d has the d-th bit, which that digit's key clears in a byte of ones. */
  lemma BitsInFigures(d: digit)
    requires 1 <= d <= 8
    ensures DigitBit(1) == 1 && (d < 8 ==> DigitBit(d + 1) == 2 * DigitBit(d))
  {
  }

  lemma NextDigit(digits: seq<digit>, i: nat)
    requires i < |digits|
    ensures Decimal(digits[..i + 1]) == Decimal(digits[..i]) * 10 + digits[i]
  {
    assert digits[..i + 1][..i] == digits[..i];
  }

  lemma LowPair(lo: byte)
    ensures Pair(0, lo) == lo
  {
  }

  /** One byte's worth of a number: MUL, and the carry of ADD, tell whether it still fits. */
  lemma Narrow(lo: byte, d: digit, a: byte, b: byte)
    requires Pair(b, a) == lo * 10
    ensures b == 0 && a as int + d < 256 <==> lo * 10 + d < 256
    ensures b == 0 ==> a == lo * 10
    ensures (a as int + d) % 256 == (lo * 10 + d) as int % 256
    ensures Pair(0, lo) == lo
    ensures b == 0 && a as int + d < 256 ==> Pair(0, (a + d) as int % 256) == lo * 10 + d
  {
    Low(b, a as int + d);
  }

  lemma Low(q: nat, x: nat)
    ensures (256 * q + x) % 256 == x % 256
  {
  }

  /** Two bytes' worth: the high byte takes the overflow of the low. */
  lemma Chain(hi: byte, lo: byte, d: digit, a: byte, b: byte)
    requires Pair(b, a) == lo * 10
    ensures var r6 := if a as int + d >= 256 then b + 1 else b;
            && r6 < 256
            && (hi * 10 + r6 < 256 <==> Pair(hi, lo) * 10 + d <= 0xFFFF)
            && (hi * 10 + r6 < 256 ==> Pair(hi * 10 + r6, (a as int + d) % 256) == Pair(hi, lo) * 10 + d)
  {
    var r6 := if a as int + d >= 256 then b + 1 else b;
    var low := if a as int + d >= 256 then a as int + d - 256 else a + d;
    assert 256 * b + a + d == 256 * r6 + low && low == (a as int + d) % 256;
    assert Pair(hi, lo) * 10 + d == 256 * (hi * 10 + r6) + low;
  }

  /** MUL and ADD overflow together exactly when the sum does not fit a byte. */
  lemma Carries(a: byte, b: byte, r6: byte)
    ensures b != 0 || a as int + r6 >= 256 <==> Pair(b, a) + r6 >= 256
    ensures b == 0 ==> Pair(b, a) == a
  {
  }

  lemma FirstDigit(digits: seq<digit>, limit: nat)
    requires digits != [] && limit >= 9
    ensures Decimal(digits[..1]) == digits[0] && Fitting(digits, 1, limit)
  {
    assert digits[..1][..0] == [];
    assert Decimal(digits[..0]) == 0;
  }

  lemma FitsNext(digits: seq<digit>, n: nat, limit: nat)
    requires n < |digits|
    ensures Fitting(digits, n, limit) && Decimal(digits[..n + 1]) <= limit ==> Fitting(digits, n + 1, limit)
  {
  }
}
