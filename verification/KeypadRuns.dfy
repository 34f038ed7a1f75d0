/** What the keypad reports over whole sequences of scans. */
module KeypadRuns {
  import opened Bytes
  import opened Keypad

  /** One scan's circumstances: a pending emergency-off event, the matrix, and whether a reported key is handled as a jog key. */
  datatype Moment = Moment(event: bool, lines: seq<byte>, jog: bool)

  type Moments = s: seq<Moment> | forall i :: 0 <= i < |s| ==> |s[i].lines| == 8

  /** The debounce state before the n-th scan. */
  function Before(d: Debounce, moments: Moments, n: nat): Debounce
    requires n <= |moments|
  {
    if n == 0 then d else After(Before(d, moments, n - 1), moments[n - 1])
  }

  /** A scan, and the handler's part in it. */
  function After(d: Debounce, m: Moment): Debounce
    requires |m.lines| == 8
  {
    var (e, key) := Scanned(d, m.event, m.lines);
    if key != 0 && m.jog then e.(repeats := true, ready := true) else e
  }

  /** What the n-th scan reports. */
  function Report(d: Debounce, moments: Moments, n: nat): byte
    requires n < |moments|
  {
    Scanned(Before(d, moments, n), moments[n].event, moments[n].lines).1
  }

  /** The n-th scan read the matrix, and made this of it. */
  predicate Reads(moments: Moments, n: nat, code: byte)
    requires n < |moments|
  {
    !moments[n].event && ReadingOf(Codes(moments[n].lines, |moments[n].lines|)) == Key(code)
  }

  lemma CodesAreMatrixCodes(lines: seq<byte>)
    requires |lines| == 8
    ensures var r := ReadingOf(Codes(lines, |lines|)); r.Key? ==> r.code <= 24
  {
    if Codes(lines, |lines|) != [] {
      CodesComeFromKeys(lines, 8, 0);
    }
  }

  /** The reading kept for the next scan is a key's code only if that key was just read. */
  lemma PrevIsReading(d: Debounce, moments: Moments, n: nat)
    requires 0 < n <= |moments|
    ensures var prev := Before(d, moments, n).prev; prev <= 24 ==> Reads(moments, n - 1, prev)
  {
  }

  /** A matrix key is reported only when this scan and the one before it both read exactly that key. */
  lemma ReportedKeyWasReadTwice(d: Debounce, moments: Moments, n: nat)
    requires 0 < n < |moments|
    ensures var key := Report(d, moments, n);
            key != 0 && !moments[n].event ==> Reads(moments, n, key) && Reads(moments, n - 1, key)
  {
    CodesAreMatrixCodes(moments[n].lines);
    PrevIsReading(d, moments, n);
  }

  /** Scan m and the one before it both read no key. */
  predicate TwoEmpty(moments: Moments, m: nat)
    requires 0 < m < |moments|
  {
    Reads(moments, m - 1, 0) && Reads(moments, m, 0)
  }

  /** Two consecutive empty scans lie strictly between scans i and j. */
  ghost predicate EmptyPairBetween(moments: Moments, i: nat, j: nat)
    requires j <= |moments|
  {
    exists m :: i + 1 < m < j && TwoEmpty(moments, m)
  }

  lemma EmptyPairStep(moments: Moments, i: nat, j: nat)
    requires i + 1 < j <= |moments|
    ensures EmptyPairBetween(moments, i, j - 1) ==> EmptyPairBetween(moments, i, j)
    ensures i + 2 < j && TwoEmpty(moments, j - 1) ==> EmptyPairBetween(moments, i, j)
  {
  }

  lemma QuietStep(d: Debounce, m: Moment)
    requires |m.lines| == 8 && !d.repeats && !m.jog
    ensures var e := After(d, m);
            && !e.repeats
            && (e.ready && !d.ready ==> d.prev == 0 && !m.event && ReadingOf(Codes(m.lines, |m.lines|)) == Key(0))
            && (Scanned(d, m.event, m.lines).1 != 0 ==> !e.ready && e.prev != 0)
  {
    hide Codes, ReadingOf;
  }

  /** From a report of scan i on, with no jog key, the keypad is ready again only after two empty scans. */
  lemma {:induction false} ReadyNeedsTwoEmpty(d: Debounce, moments: Moments, i: nat, j: nat)
    requires i < j <= |moments| && Report(d, moments, i) != 0
    requires !Before(d, moments, i).repeats
    requires forall k :: i <= k < j ==> !moments[k].jog
    ensures !Before(d, moments, j).repeats
    ensures Before(d, moments, j).ready ==> EmptyPairBetween(moments, i, j)
    decreases j
  {
    hide After, Report, Codes, EmptyPairBetween, ReadingOf;
    ReportStep(d, moments, i);
    if j > i + 1 {
      ReadyNeedsTwoEmpty(d, moments, i, j - 1);
      PrevIsReading(d, moments, j - 1);
      QuietStep(Before(d, moments, j - 1), moments[j - 1]);
      EmptyPairStep(moments, i, j);
    }
  }

  lemma ReportStep(d: Debounce, moments: Moments, i: nat)
    requires i < |moments| && Report(d, moments, i) != 0 && !Before(d, moments, i).repeats && !moments[i].jog
    ensures var e := Before(d, moments, i + 1); !e.repeats && !e.ready && e.prev != 0
  {
    QuietStep(Before(d, moments, i), moments[i]);
    hide After, Codes, ReadingOf, Scanned;
  }

  /** Without auto-repeat, two consecutive empty scans lie between any report and the next report of a matrix key. */
  lemma ReportsAreSeparated(d: Debounce, moments: Moments, i: nat, j: nat)
    requires i < j < |moments| && Report(d, moments, i) != 0
    requires Report(d, moments, j) != 0 && !moments[j].event
    requires !Before(d, moments, i).repeats
    requires forall k :: i <= k < j ==> !moments[k].jog
    ensures EmptyPairBetween(moments, i, j)
  {
    ReadyNeedsTwoEmpty(d, moments, i, j);
  }

  /** No scan strictly between m and n reported anything. */
  ghost predicate SilentSince(d: Debounce, moments: Moments, m: int, n: nat)
    requires n <= |moments|
  {
    forall k :: 0 <= k < n && m < k ==> Report(d, moments, k) == 0
  }

  /** Two empty scans in a row have come before scan n, and no report after them; the state d stands for what came before. */
  ghost predicate Armed(d: Debounce, moments: Moments, n: nat)
    requires n <= |moments|
  {
    || (d.ready && SilentSince(d, moments, -1, n))
    || (d.prev == 0 && n > 0 && Reads(moments, 0, 0) && SilentSince(d, moments, 0, n))
    || exists m :: 0 < m < n && TwoEmpty(moments, m) && SilentSince(d, moments, m, n)
  }

  lemma SilentStep(d: Debounce, moments: Moments, m: int, n: nat)
    requires n < |moments| && m < n
    ensures SilentSince(d, moments, m, n + 1) <==> SilentSince(d, moments, m, n) && Report(d, moments, n) == 0
    ensures SilentSince(d, moments, n, n + 1)
  {
    hide Report;
  }

  lemma ArmedStep(d: Debounce, moments: Moments, n: nat)
    requires n < |moments|
    ensures var pair := if n == 0 then d.prev == 0 && Reads(moments, 0, 0) else TwoEmpty(moments, n);
            Armed(d, moments, n + 1) <==> pair || (Armed(d, moments, n) && Report(d, moments, n) == 0)
  {
    hide Report, Reads, SilentSince;
    SilentStep(d, moments, -1, n);
    forall m: nat | m < n
      ensures SilentSince(d, moments, m, n + 1) <==> SilentSince(d, moments, m, n) && Report(d, moments, n) == 0
    {
      SilentStep(d, moments, m, n);
    }
    if n > 0 {
      SilentStep(d, moments, 0, n);
    } else {
      SilentFrom(d, moments);
    }
    SilentStep(d, moments, n - 1, n);
  }

  lemma SilentFrom(d: Debounce, moments: Moments)
    requires |moments| > 0
    ensures SilentSince(d, moments, 0, 1) && SilentSince(d, moments, -1, 0)
  {
  }

  lemma ReadyStep(d: Debounce, m: Moment)
    requires |m.lines| == 8 && !d.repeats && !m.jog
    ensures var e := After(d, m);
            var empty := !m.event && ReadingOf(Codes(m.lines, |m.lines|)) == Key(0);
            e.ready <==> (d.prev == 0 && empty) || (d.ready && Scanned(d, m.event, m.lines).1 == 0)
  {
    hide Codes, ReadingOf;
  }

  lemma PrevIsEmpty(d: Debounce, moments: Moments, n: nat)
    requires 0 < n <= |moments|
    ensures Before(d, moments, n).prev == 0 <==> Reads(moments, n - 1, 0)
  {
  }

  lemma {:induction false} ReadyIff(d: Debounce, moments: Moments, n: nat)
    requires n <= |moments| && !d.repeats && forall k :: 0 <= k < n ==> !moments[k].jog
    ensures !Before(d, moments, n).repeats
    ensures Before(d, moments, n).ready <==> Armed(d, moments, n)
  {
    hide After, Codes, ReadingOf, Scanned, Armed;
    if n == 0 {
      ArmedAtFirst(d, moments);
    } else {
      ReadyIff(d, moments, n - 1);
      QuietStep(Before(d, moments, n - 1), moments[n - 1]);
      ReadyStep(Before(d, moments, n - 1), moments[n - 1]);
      ArmedStep(d, moments, n - 1);
      if n > 1 {
        PrevIsEmpty(d, moments, n - 1);
      }
    }
  }

  lemma ArmedAtFirst(d: Debounce, moments: Moments)
    ensures Armed(d, moments, 0) <==> d.ready
  {
  }

  /**
   Without auto-repeat, a scan reports a matrix key exactly if it and the scan before both read that
   key, and two empty scans in a row have come since the last report.
  */
  lemma ReportsIff(d: Debounce, moments: Moments, n: nat, code: byte)
    requires 0 < n < |moments| && !d.repeats && 1 <= code <= 24
    requires forall k :: 0 <= k < n ==> !moments[k].jog
    ensures !moments[n].event && Report(d, moments, n) == code <==>
            Reads(moments, n, code) && Reads(moments, n - 1, code) && Armed(d, moments, n)
  {
    hide Armed, Codes;
    ReadyIff(d, moments, n);
    PrevIs(d, moments, n, code);
    ReportedKeyWasReadTwice(d, moments, n);
    hide Before, ReadingOf;
  }

  lemma PrevIs(d: Debounce, moments: Moments, n: nat, code: byte)
    requires 0 < n <= |moments| && code <= 24
    ensures Before(d, moments, n).prev == code <==> Reads(moments, n - 1, code)
  {
  }

  /** A pending emergency-off event is reported by the next scan, whatever the matrix shows. */
  lemma EventIsReported(d: Debounce, moments: Moments, n: nat)
    requires n < |moments| && moments[n].event
    ensures Report(d, moments, n) == 0x19
  {
  }

  /** From any state: after two empty scans a key is reported by the second scan in a row that reads it, and not before. */
  lemma NewKeyIsReported(d: Debounce, moments: Moments, m: nat, code: byte)
    requires 0 < m && m + 2 < |moments| && 1 <= code <= 24
    requires Reads(moments, m - 1, 0) && Reads(moments, m, 0) && Reads(moments, m + 1, code) && Reads(moments, m + 2, code)
    ensures Report(d, moments, m) == 0 && Report(d, moments, m + 1) == 0 && Report(d, moments, m + 2) == code
    ensures var e := Before(d, moments, m + 2); !e.repeats && e.count == 0x23
  {
    hide Codes, ReadingOf;
    Empty(Before(d, moments, m - 1), moments[m - 1]);
    Empty(Before(d, moments, m), moments[m]);
    var ready := Before(d, moments, m + 1);
    assert Before(d, moments, m) == After(Before(d, moments, m - 1), moments[m - 1]);
    assert ready == After(Before(d, moments, m), moments[m]);
    assert Before(d, moments, m + 2) == After(ready, moments[m + 1]);
  }

  lemma Empty(d: Debounce, m: Moment)
    requires |m.lines| == 8 && !m.event && ReadingOf(Codes(m.lines, |m.lines|)) == Key(0)
    ensures After(d, m).prev == 0 && Scanned(d, m.event, m.lines).1 == 0
    ensures d.prev == 0 ==> After(d, m).ready
  {
    hide Codes, ReadingOf;
  }

  /** The countdown stands at 35 whenever a first report can come. */
  predicate Primed(d: Debounce) { d.repeats || d.count == 0x23 || d.prev == 0 || d.prev > 24 }

  lemma {:induction false} StaysPrimed(d: Debounce, moments: Moments, n: nat)
    requires Primed(d) && n <= |moments|
    ensures Primed(Before(d, moments, n))
  {
    if n > 0 {
      StaysPrimed(d, moments, n - 1);
      CodesAreMatrixCodes(moments[n - 1].lines);
    }
  }

  /** Scan k after a report repeats it: the 35th, and every third from there. */
  predicate IsRepeat(k: nat) { k >= 35 && (k - 35) % 3 == 0 }

  /** Scans left before the next repeat. */
  function Remaining(k: nat): (r: byte)
    ensures 1 <= r <= 35
  {
    if k < 35 then 35 - k else 3 - (k - 35) % 3
  }

  /** Key code is held, alone, and handled as a jog key, from scan i to scan j. */
  predicate HeldJog(moments: Moments, i: nat, j: nat, code: byte)
    requires i <= j <= |moments|
  {
    forall k :: i <= k < j ==> Reads(moments, k, code) && moments[k].jog
  }

  lemma HeldStep(code: byte, k: nat, m: Moment)
    requires |m.lines| == 8 && !m.event && ReadingOf(Codes(m.lines, |m.lines|)) == Key(code) && m.jog && code != 0
    ensures var d := Debounce(code, Remaining(k), true, true);
            && After(d, m) == d.(count := Remaining(k + 1))
            && Scanned(d, m.event, m.lines).1 == if IsRepeat(k + 1) then code else 0
  {
    hide Codes, ReadingOf;
  }

  lemma FirstStep(d: Debounce, code: byte, m: Moment)
    requires Primed(d) && !d.repeats && 1 <= code <= 24
    requires |m.lines| == 8 && !m.event && ReadingOf(Codes(m.lines, |m.lines|)) == Key(code) && m.jog
    requires Scanned(d, m.event, m.lines).1 == code
    ensures After(d, m) == Debounce(code, Remaining(0), true, true)
  {
    hide Codes, ReadingOf;
  }

  /** A held jog key, once reported, is reported again after 35 scans and then on every third. */
  lemma HeldKeyRepeats(d: Debounce, moments: Moments, i: nat, n: nat, code: byte)
    requires Primed(d) && i + n < |moments| && 1 <= code <= 24
    requires HeldJog(moments, i, i + n + 1, code)
    requires Report(d, moments, i) == code && !Before(d, moments, i).repeats
    ensures n > 0 ==> Report(d, moments, i + n) == if n >= 35 && (n - 35) % 3 == 0 then code else 0
  {
    StaysPrimed(d, moments, i);
    HeldFrom(d, moments, i, n, code);
    hide *;
    RepeatIs(n);
  }

  lemma RepeatIs(k: nat)
    ensures IsRepeat(k) <==> k >= 35 && (k - 35) % 3 == 0
  {
  }

  lemma {:induction false} HeldFrom(d: Debounce, moments: Moments, i: nat, n: nat, code: byte)
    requires i + n < |moments| && 1 <= code <= 24 && Primed(Before(d, moments, i))
    requires HeldJog(moments, i, i + n + 1, code)
    requires Report(d, moments, i) == code && !Before(d, moments, i).repeats
    ensures Before(d, moments, i + n + 1) == Debounce(code, Remaining(n), true, true)
    ensures n > 0 ==> Report(d, moments, i + n) == if IsRepeat(n) then code else 0
    decreases n
  {
    hide After, Codes, ReadingOf, Scanned, Remaining, IsRepeat, Primed;
    assert Reads(moments, i + n, code) && moments[i + n].jog;
    if n == 0 {
      FirstStep(Before(d, moments, i), code, moments[i]);
    } else {
      HeldFrom(d, moments, i, n - 1, code);
      HeldStep(code, n - 1, moments[i + n]);
    }
  }

  /**
   A jog key pressed after two empty scans and held: the second scan that reads it reports it, the
   35th after that again, and then every third, whatever state the keypad was in.
  */
  lemma PressedKeyRepeats(d: Debounce, moments: Moments, m: nat, n: nat, code: byte)
    requires 0 < m && m + 2 + n < |moments| && 1 <= code <= 24
    requires Reads(moments, m - 1, 0) && Reads(moments, m, 0) && HeldJog(moments, m + 1, m + 3 + n, code)
    ensures Report(d, moments, m + 1) == 0
    ensures Report(d, moments, m + 2 + n) == if n == 0 || (n >= 35 && (n - 35) % 3 == 0) then code else 0
  {
    assert Reads(moments, m + 1, code) && Reads(moments, m + 2, code);
    NewKeyIsReported(d, moments, m, code);
    assert Primed(Before(d, moments, m + 2));
    assert HeldJog(moments, m + 2, m + 2 + n + 1, code);
    hide *;
    HeldFrom(d, moments, m + 2, n, code);
    RepeatIs(n);
  }
}
