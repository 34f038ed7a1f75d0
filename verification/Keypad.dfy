/** The teachbox keypad: matrix scan (0x0C00), debounce and auto-repeat, and the simulated matrix. */
module Keypad {
  import opened Bytes

  const EVENT: byte := 0x19
  const NO_KEY: byte := 0xFF

  /** The key of group 1 to 3 in a row is down: its column line, P1.5 to P1.7, is high while the row is strobed. */
  predicate Down(lines: seq<byte>, row: nat, group: nat)
    requires |lines| == 8 && row < 8 && 1 <= group <= 3
  {
    if group == 1 then Bit5(lines[row]) else if group == 2 then Bit6(lines[row]) else Bit7(lines[row])
  }

  function KeyCode(row: nat, group: nat): byte
    requires row < 8 && 1 <= group <= 3
  {
    row + 1 + 8 * (group - 1)
  }

  /** The codes of the keys down in one row. */
  function RowCodes(p1: byte, row: nat): seq<byte>
    requires row < 8
  {
    (if Bit5(p1) then [KeyCode(row, 1)] else []) + (if Bit6(p1) then [KeyCode(row, 2)] else [])
    + if Bit7(p1) then [KeyCode(row, 3)] else []
  }

  /** The codes of the keys down in the first n rows. */
  function Codes(lines: seq<byte>, n: nat): seq<byte>
    requires |lines| == 8 && n <= 8
  {
    if n == 0 then [] else Codes(lines, n - 1) + RowCodes(lines[n - 1], n - 1)
  }

  /** What a scan makes of the matrix: no key is code 0. */
  datatype Reading = Key(code: byte) | Invalid

  function ReadingOf(codes: seq<byte>): Reading {
    if codes == [] then Key(0) else if |codes| == 1 then Key(codes[0]) else Invalid
  }

  lemma {:induction false} CodesAreKeys(lines: seq<byte>, n: nat, row: nat, group: nat)
    requires |lines| == 8 && n <= 8 && row < 8 && 1 <= group <= 3
    ensures KeyCode(row, group) in Codes(lines, n) <==> row < n && Down(lines, row, group)
  {
    if n > 0 {
      CodesAreKeys(lines, n - 1, row, group);
      RowHasKey(lines, n - 1, row, group);
      hide RowCodes, KeyCode, Down;
    }
  }

  lemma RowHasKey(lines: seq<byte>, n: nat, row: nat, group: nat)
    requires |lines| == 8 && n < 8 && row < 8 && 1 <= group <= 3
    ensures KeyCode(row, group) in RowCodes(lines[n], n) <==> row == n && Down(lines, row, group)
  {
    assert group == 1 || group == 2 || group == 3;
  }

  lemma {:induction false} CodesComeFromKeys(lines: seq<byte>, n: nat, i: nat)
    requires |lines| == 8 && n <= 8 && i < |Codes(lines, n)|
    ensures exists row, group :: 0 <= row < n && 1 <= group <= 3 && Codes(lines, n)[i] == KeyCode(row, group)
    ensures forall j :: 0 <= j < i ==> Codes(lines, n)[j] != Codes(lines, n)[i]
  {
    var before := Codes(lines, n - 1);
    if i < |before| {
      CodesComeFromKeys(lines, n - 1, i);
    } else {
      var last := RowCodes(lines[n - 1], n - 1);
      assert Codes(lines, n)[i] == last[i - |before|];
      var group :| 1 <= group <= 3 && last[i - |before|] == KeyCode(n - 1, group);
      forall j | 0 <= j < i ensures Codes(lines, n)[j] != Codes(lines, n)[i] {
        if j < |before| {
          CodesComeFromKeys(lines, n - 1, j);
        } else {
          assert Codes(lines, n)[j] == last[j - |before|];
        }
      }
    }
  }

  /** Exactly one key is down, and it is this one. */
  predicate OnlyKey(lines: seq<byte>, row: nat, group: nat)
    requires |lines| == 8 && row < 8 && 1 <= group <= 3
  {
    && Down(lines, row, group)
    && forall r, g :: 0 <= r < 8 && 1 <= g <= 3 && Down(lines, r, g) ==> r == row && g == group
  }

  lemma CodesTellKeys(row: nat, group: nat, r: nat, g: nat)
    requires row < 8 && 1 <= group <= 3 && r < 8 && 1 <= g <= 3
    ensures KeyCode(row, group) == KeyCode(r, g) <==> row == r && group == g
    ensures 1 <= KeyCode(row, group) <= 24
  {
  }

  /** A scan reads a key's code exactly when that key is down and no other. */
  lemma ReadsKeyIff(lines: seq<byte>, row: nat, group: nat)
    requires |lines| == 8 && row < 8 && 1 <= group <= 3
    ensures ReadingOf(Codes(lines, |lines|)) == Key(KeyCode(row, group)) <==> OnlyKey(lines, row, group)
  {
    var codes := Codes(lines, |lines|);
    CodesTellKeys(row, group, row, group);
    CodesAreKeys(lines, 8, row, group);
    hide Codes, Down, KeyCode;
    if |codes| > 1 {
      CodesComeFromKeys(lines, 8, 1);
      assert codes[0] != codes[1];
    }
    if ReadingOf(codes) == Key(KeyCode(row, group)) {
      forall r, g | 0 <= r < 8 && 1 <= g <= 3 && Down(lines, r, g) ensures r == row && g == group {
        CodesAreKeys(lines, 8, r, g);
        CodesTellKeys(row, group, r, g);
      }
    }
    if OnlyKey(lines, row, group) {
      forall i | 0 <= i < |codes| ensures codes[i] == KeyCode(row, group) {
        CodesComeFromKeys(lines, 8, i);
        var r, g :| 0 <= r < 8 && 1 <= g <= 3 && codes[i] == KeyCode(r, g);
        CodesAreKeys(lines, 8, r, g);
      }
    }
  }

  /** It reads nothing exactly when no key is down. */
  lemma ReadsNoneIff(lines: seq<byte>)
    requires |lines| == 8
    ensures ReadingOf(Codes(lines, |lines|)) == Key(0) <==>
            forall r, g :: 0 <= r < 8 && 1 <= g <= 3 ==> !Down(lines, r, g)
  {
    var codes := Codes(lines, |lines|);
    hide Codes, Down, KeyCode;
    forall r, g | 0 <= r < 8 && 1 <= g <= 3 ensures Down(lines, r, g) ==> codes != [] {
      CodesAreKeys(lines, 8, r, g);
    }
    if codes != [] {
      CodesComeFromKeys(lines, 8, 0);
      var r, g :| 0 <= r < 8 && 1 <= g <= 3 && codes[0] == KeyCode(r, g);
      CodesAreKeys(lines, 8, r, g);
      CodesTellKeys(r, g, r, g);
    }
  }

  /** What a scan reads, in figures: a code up to 24 exactly if the lines of every row are those of that key alone. */
  lemma ReadsInFigures(lines: seq<byte>, code: byte)
    requires |lines| == 8 && code <= 24
    ensures ReadingOf(Codes(lines, |lines|)) == Key(code) <==>
            forall r :: 0 <= r < 8 ==>
              lines[r] / 32 == if code == r + 1 then 1 else if code == r + 9 then 2 else if code == r + 17 then 4 else 0
  {
    if code == 0 {
      ReadsNoneIff(lines);
    } else {
      ReadsKeyIff(lines, (code as int - 1) % 8, (code as int - 1) / 8 + 1);
      KeyOf(code);
    }
    hide Codes, KeyCode, Down;
    forall r | 0 <= r < 8
      ensures lines[r] / 32 == (if code == r + 1 then 1 else if code == r + 9 then 2 else if code == r + 17 then 4 else 0) <==>
              forall g :: 1 <= g <= 3 ==> (Down(lines, r, g) <==> code == r + 8 * g - 7)
    {
      RowTells(lines, r, code);
    }
  }

  lemma RowTells(lines: seq<byte>, r: nat, code: byte)
    requires |lines| == 8 && r < 8 && code <= 24
    ensures lines[r] / 32 == (if code == r + 1 then 1 else if code == r + 9 then 2 else if code == r + 17 then 4 else 0) <==>
            forall g :: 1 <= g <= 3 ==> (Down(lines, r, g) <==> code == r + 8 * g - 7)
  {
    var n := lines[r] / 32;
    assert Down(lines, r, 1) <==> n % 2 == 1;
    assert Down(lines, r, 2) <==> n / 2 % 2 == 1;
    assert Down(lines, r, 3) <==> n >= 4;
    assert 1 <= 1 <= 3;
    hide Down;
  }

  lemma KeyOf(code: byte)
    requires 1 <= code <= 24
    ensures KeyCode((code as int - 1) % 8, (code as int - 1) / 8 + 1) == code
  {
  }

  /** SWAP A. */
  function Swap(a: byte): byte { a % 16 * 16 + a / 16 }

  lemma GroupBits(p1: byte)
    ensures AndByte(p1, 0xE0) == p1 / 32 * 32
    ensures AndByte(p1 / 32 * 32, 0xC0) == p1 / 64 * 64
  {
    hide AndByte;
    TopBits(p1 / 32, p1 % 32);
    TopTwo(p1 / 64, p1 / 32 % 2);
  }

  lemma TopBits(h: nat, l: nat)
    requires h < 8 && l < 32
    ensures AndByte(32 * h + l, 0xE0) == 32 * h
  {
    hide AndByte;
    var m := l / 8;
    assert l == 8 * m + l % 8 && m == 2 * (m / 2) + m % 2;
    LowBits(4 * h + m, 28, l % 8);
    AndStep(2 * h + m / 2, 14, m % 2, 0);
    AndStep(h, 7, m / 2, 0);
    LowBits(0, 0, h);
  }

  lemma TopTwo(h: nat, b: nat)
    requires h < 4 && b < 2
    ensures AndByte(64 * h + 32 * b, 0xC0) == 64 * h
  {
    hide AndByte;
    LowBits(8 * h + 4 * b, 24, 0);
    LowBits(h, 3, 4 * b);
    LowBits(0, 0, h);
    AndStep(h / 2, 1, h % 2, 1);
    AndStep(0, 0, h / 2, 1);
  }

  /** R6 while a scan goes on: the one code seen so far, or zero. */
  function Single(codes: seq<byte>): byte
    requires |codes| <= 1
  {
    if codes == [] then 0 else codes[0]
  }

  /** The keys of a row, by its three column lines. */
  lemma RowIs(p1: byte, n: nat, row: nat)
    requires n == p1 / 32 && row < 8
    ensures n == 0 ==> RowCodes(p1, row) == []
    ensures n == 1 || n == 2 || n == 4 ==> RowCodes(p1, row) == [row + 1 + if n == 1 then 0 else 4 * n]
    ensures n == 3 || n >= 5 ==> |RowCodes(p1, row)| >= 2
  {
    assert Bit5(p1) == (n % 2 == 1) && Bit6(p1) == (n / 2 % 2 == 1) && Bit7(p1) == (n >= 4);
    hide Bit5, Bit6, Bit7;
  }

  lemma Strobe(strobe: byte)
    requires strobe < 0x80
    ensures Swap(strobe) % 8 == strobe / 16
  {
  }

  lemma LoneGroup(n: nat)
    requires n < 8
    ensures (Bit5(32 * n) <==> n % 2 == 1) && Rl(Swap(32 * n)) == 4 * n
  {
  }

  /** 0x0C0F to 0x0C1F: what the groups of the keys down add to a code; ok leaves the pair 6 and 7 for the last test. */
  method GroupOffset(p1: byte) returns (found: bool, ok: bool, a: byte)
    ensures found <==> p1 / 32 != 0
    ensures found ==> (ok <==> p1 / 32 == 1 || p1 / 32 % 2 == 0)
    ensures found && ok ==> a == if p1 / 32 == 1 then 0 else 4 * (p1 / 32)
  {
    GroupBits(p1);
    LoneGroup(p1 / 32);
    hide AndByte, Rl, Swap, Bit5;
    a := AndByte(p1, 0xE0);
    if a == 0 {
      return false, true, a;
    }
    if !Bit5(a) {
      a := Rl(Swap(a));
    } else {
      a := AndByte(a, 0xC0);
      if a != 0 {
        return true, false, a;
      }
    }
    found, ok := true, true;
  }

  /** 0x0C0F to 0x0C2E: the keys of one row; more than one key so far, or in the row, is not ok. */
  method AddRow(r6: byte, p1: byte, strobe: byte, ghost before: seq<byte>) returns (r6': byte, ok: bool)
    requires strobe < 0x80 && |before| <= 1 && r6 == Single(before) && (before != [] ==> before[0] != 0)
    ensures ok <==> |before + RowCodes(p1, strobe / 16)| <= 1
    ensures ok ==> r6' == Single(before + RowCodes(p1, strobe / 16))
  {
    RowIs(p1, p1 / 32, strobe / 16);
    Strobe(strobe);
    hide RowCodes, Swap;
    ghost var codes := RowCodes(p1, strobe / 16);
    var found, single, a := GroupOffset(p1);
    if !found {
      assert before + codes == before;
      return r6, true;
    }
    if !single || r6 != 0 {
      return a, false;
    }
    assert before + codes == codes;
    r6' := Swap(strobe) % 8 + 1 + a;
    ok := r6' as int + 0xE7 < 0x100;
  }

  /** The scan proper: eight rows strobed through the high half of Port B, the LEDs kept in the low half. */
  method ScanMatrix(leds: byte, lines: seq<byte>) returns (reading: Reading)
    requires |lines| == 8
    ensures reading == ReadingOf(Codes(lines, |lines|))
  {
    hide RowCodes, AndByte;
    var r6: byte := 0;
    var strobe := leds % 16;
    ghost var row := 0;
    while true
      invariant row < 8 && strobe == 16 * row + leds % 16
      invariant |Codes(lines, row)| <= 1 && r6 == Single(Codes(lines, row))
      invariant Codes(lines, row) != [] ==> Codes(lines, row)[0] != 0
      decreases 8 - row
    {
      var ok;
      r6, ok := AddRow(r6, lines[strobe / 16], strobe, Codes(lines, row));
      if !ok {
        Grows(lines, row + 1, 8);
        return Invalid;
      }
      CodesComeFromKeys0(lines, row + 1);
      strobe := strobe + 0x10;
      row := row + 1;
      if Bit7(strobe) {
        break;
      }
    }
    reading := Key(r6);
  }

  lemma CodesComeFromKeys0(lines: seq<byte>, n: nat)
    requires |lines| == 8 && n <= 8
    ensures Codes(lines, n) != [] ==> Codes(lines, n)[0] != 0
  {
    if Codes(lines, n) != [] {
      CodesComeFromKeys(lines, n, 0);
    }
  }

  lemma {:induction false} Grows(lines: seq<byte>, i: nat, n: nat)
    requires |lines| == 8 && i <= n <= 8
    ensures |Codes(lines, i)| <= |Codes(lines, n)|
    decreases n
  {
    if i < n {
      Grows(lines, i, n - 1);
    }
  }

  /** 56h, 57h, 20h.5 and 20h.6: the last reading, the repeat countdown, auto-repeat on, and ready to report. */
  datatype Debounce = Debounce(prev: byte, count: byte, repeats: bool, ready: bool)

  /** jump_0C2F on: what is reported for a code that was read, zero being nothing. */
  function Filtered(d: Debounce, code: byte): (r: (Debounce, byte)) {
    var e := d.(prev := code);
    if code != d.prev then (e.(repeats := false, count := 0x23), 0)
    else if code == 0 then (e.(ready := true), 0)
    else if !d.ready then (e, 0)
    else if !d.repeats then (e.(ready := false), code)
    else if Dec(d.count) != 0 then (e.(count := Dec(d.count)), 0)
    else (e.(count := 3), code)
  }

  /** One scan: a pending emergency-off event goes first, and counts as key 0x19. */
  function Scanned(d: Debounce, event: bool, lines: seq<byte>): (Debounce, byte)
    requires |lines| == 8
  {
    if event then (d.(prev := EVENT, ready := false), EVENT)
    else
      match ReadingOf(Codes(lines, |lines|))
      case Invalid => (d.(prev := NO_KEY), 0)
      case Key(code) => Filtered(d, code)
  }

  class Keyboard {
    var event: bool            // 20h.1
    var repeats: bool          // 20h.5
    var ready: bool            // 20h.6
    var leds: byte             // 47h
    var prev: byte             // 56h
    var count: byte            // 57h
    var portB: byte

    constructor ()
      ensures State() == Debounce(0, 0, false, false) && !event && leds == 0xFF
    {
      event, repeats, ready, leds, prev, count, portB := false, false, false, 0xFF, 0, 0, 0;
    }

    function State(): Debounce
      reads this
    {
      Debounce(prev, count, repeats, ready)
    }

    /** kbd_scan; lines is what P1 shows with each row strobed. */
    method Scan(lines: seq<byte>) returns (key: byte)
      requires |lines| == 8
      modifies this
      ensures (State(), key) == old(Scanned(State(), event, lines))
      ensures !event && leds == old(leds) && (!old(event) ==> portB == leds)
    {
      if event {
        event := false;
        key, prev, ready := EVENT, EVENT, false;
        return;
      }
      var reading := ScanMatrix(leds, lines);
      portB := leds;
      if reading.Invalid? {
        prev := NO_KEY;
        return 0;
      }
      var was := prev;
      prev := reading.code;
      if was != prev {
        repeats := false;
        count := 0x23;
        return 0;
      }
      if prev == 0 {
        ready := true;
        return 0;
      }
      if !ready {
        return 0;
      }
      if !repeats {
        ready := false;
        return prev;
      }
      count := Dec(count);
      if count != 0 {
        return 0;
      }
      count := 3;
      key := prev;
    }

    /** jump_0E26: a jog key goes on being reported while it is held. */
    method KeepReporting()
      modifies this`repeats, this`ready
      ensures State() == old(State()).(repeats := true, ready := true)
    {
      repeats, ready := true, true;
    }
  }
}
