/** The axis servo's arithmetic and its setpoint generator, as functions of values. */
module ServoSpec {
  import opened Bytes

  const AXES: nat := 6

  /** Per-axis offset and gain from the table at 0x01CB. */
  const OFFSETS: seq<byte> := [0x38, 0x50, 0x49, 0x17, 0x18, 0x70]
  const GAINS: seq<byte> := [0x7C, 0xC2, 0xCD, 0x54, 0x53, 0xFA]

  /** The sample above the offset, scaled by the gain in units of 1 / 64 of the high byte. */
  function Raw(hi: byte, lo: byte, offset: byte, gain: byte): (r: nat)
    requires hi >= offset
  {
    ScaledNonNegative((hi - offset) * 256 + lo, gain);
    ((hi - offset) * 256 + lo) * gain / 0x4000
  }

  lemma ScaledNonNegative(x: nat, gain: byte)
    ensures x * gain >= 0
  {
  }

  /** The calibrated feedback: zero below the offset, saturated at 255. */
  function Feedback(hi: byte, lo: byte, offset: byte, gain: byte): byte {
    if hi < offset then 0 else if Raw(hi, lo, offset, gain) > 255 then 255 else Raw(hi, lo, offset, gain)
  }

  function Distance(x: byte, y: byte): byte { if x >= y then x - y else y - x }

  /** When a servo pass marks its axis as in position. */
  predicate MarksInPosition(hi: byte, lo: byte, offset: byte, gain: byte, setpoint: byte) {
    hi >= offset &&
    var raw := Raw(hi, lo, offset, gain);
    if raw < 256 then Distance(raw, setpoint) <= 2 else raw == 256 || raw == 257 || raw == 511
  }

  /**
   A pass marks exactly the errors of at most two while the sample is inside the range. Outside
   it the mark does not follow the stored feedback: below the offset it is never set, and above
   the range three raw values set it whatever the setpoint.
  */
  lemma MarksCloseIff(hi: byte, lo: byte, offset: byte, gain: byte, setpoint: byte)
    ensures (MarksInPosition(hi, lo, offset, gain, setpoint) <==>
               Distance(Feedback(hi, lo, offset, gain), setpoint) <= 2)
            <==> if hi < offset then setpoint > 2
                 else var raw := Raw(hi, lo, offset, gain);
                      raw < 256 || (raw == 256 || raw == 257 || raw == 511 <==> setpoint >= 253)
  {
    hide Raw;
  }

  /** A saturated sample of axis 0, with the table's own offset and gain, that marks it in position 255 counts off. */
  lemma SaturatedMarkFarOff()
    ensures MarksInPosition(0xBC, 0x40, OFFSETS[0], GAINS[0], 0)
    ensures Distance(Feedback(0xBC, 0x40, OFFSETS[0], GAINS[0]), 0) == 255
  {
  }

  /** A larger sample never gives a smaller feedback. */
  lemma FeedbackMonotone(hi: byte, lo: byte, hi': byte, lo': byte, offset: byte, gain: byte)
    requires Pair(hi, lo) <= Pair(hi', lo')
    ensures Feedback(hi, lo, offset, gain) <= Feedback(hi', lo', offset, gain)
  {
    if hi >= offset {
      ProductMonotone((hi - offset) * 256 + lo, (hi' - offset) * 256 + lo', gain);
    }
  }

  /** What the setpoint generator knows of one axis. */
  datatype Axis = Axis(need: bool, renewed: bool, up: bool, setpoint: byte, target: byte, factor: byte, countdown: byte)

  /** One visit of the setpoint generator; tick says whether the timer tick is visible in this sweep. */
  function Visit(a: Axis, tick: bool): Axis {
    if !a.need then a
    else if a.renewed then
      var a := a.(renewed := false);
      if a.setpoint == a.target then a.(need := false)
      else if a.factor == 0 then a.(setpoint := a.target, need := false)
      else a.(countdown := a.factor, up := a.setpoint < a.target)
    else if !tick then a
    else if Dec(a.countdown) != 0 then a.(countdown := Dec(a.countdown))
    else
      var setpoint := if a.up then Inc(a.setpoint) else Dec(a.setpoint);
      a.(countdown := a.factor, setpoint := setpoint, need := setpoint != a.target)
  }

  function Visits(a: Axis, ticks: seq<bool>): Axis
    decreases |ticks|
  {
    if ticks == [] then a else Visits(Visit(a, ticks[0]), ticks[1..])
  }

  function Visible(ticks: seq<bool>): nat {
    if ticks == [] then 0 else (if ticks[0] then 1 else 0) + Visible(ticks[1..])
  }

  /** An axis under way: direction bit and countdown are as its first visit and its steps leave them. */
  predicate Moving(a: Axis) {
    && a.need && !a.renewed && a.setpoint != a.target
    && (a.up <==> a.setpoint < a.target)
    && 1 <= a.countdown <= a.factor
  }

  /** Where an axis that started at setpoint s is after n steps towards target t. */
  function Stepped(s: byte, t: byte, n: nat): byte {
    if n >= Distance(s, t) then t else if s < t then s + n else s - n
  }

  /** How many whole factors x holds. */
  function Laps(x: nat, factor: nat): nat
    requires factor > 0
  {
    if x < factor then 0 else 1 + Laps(x - factor, factor)
  }

  lemma {:induction false} LapsIsQuotient(x: nat, factor: nat)
    requires factor > 0
    ensures Laps(x, factor) * factor <= x < (Laps(x, factor) + 1) * factor
  {
    if x >= factor {
      LapsIsQuotient(x - factor, factor);
      var n := Laps(x - factor, factor);
      assert (n + 1) * factor == n * factor + factor;
      assert (n + 2) * factor == (n + 1) * factor + factor;
    }
  }

  /** Steps taken on v visible ticks by an axis whose countdown stands at k. */
  function StepCount(k: nat, factor: nat, v: nat): nat
    requires 1 <= k <= factor
  {
    Laps(v + (factor - k), factor)
  }

  lemma {:induction false} IdleVisits(a: Axis, ticks: seq<bool>)
    requires !a.need
    ensures Visits(a, ticks) == a
    decreases |ticks|
  {
    if ticks != [] {
      IdleVisits(a, ticks[1..]);
    }
  }

  /**
   A moving axis after any visits: its setpoint has gone one count towards the target for every
   factor visible ticks and stopped there, and need-move is clear exactly from then on.
  */
  lemma {:induction false} MovingVisits(a: Axis, ticks: seq<bool>)
    requires Moving(a)
    ensures var n := StepCount(a.countdown, a.factor, Visible(ticks));
            && Visits(a, ticks).setpoint == Stepped(a.setpoint, a.target, n)
            && (Visits(a, ticks).need <==> n < Distance(a.setpoint, a.target))
            && (Visits(a, ticks).need ==> Moving(Visits(a, ticks)))
            && Visits(a, ticks).target == a.target && !Visits(a, ticks).renewed
    decreases |ticks|
  {
    if ticks == [] {
      assert StepCount(a.countdown, a.factor, 0) == 0;
    } else if !ticks[0] {
      MovingVisits(a, ticks[1..]);
    } else {
      var v := Visible(ticks[1..]);
      var next := Visit(a, true);
      VisibleVisit(a, v);
      hide Visit, StepCount, Stepped, Moving;
      if next.need {
        MovingVisits(next, ticks[1..]);
      } else {
        IdleVisits(next, ticks[1..]);
      }
    }
  }

  /** The one visit: either the countdown goes on, or the setpoint steps and the countdown starts again. */
  lemma VisibleVisit(a: Axis, v: nat)
    requires Moving(a)
    ensures var next := Visit(a, true);
            var n := StepCount(a.countdown, a.factor, v + 1);
            && next.target == a.target && !next.renewed && (next.need ==> Moving(next))
            && (if next.need then
                  (var m := StepCount(next.countdown, next.factor, v);
                   && Stepped(next.setpoint, next.target, m) == Stepped(a.setpoint, a.target, n)
                   && (m < Distance(next.setpoint, next.target) <==> n < Distance(a.setpoint, a.target)))
                else next.setpoint == a.target == Stepped(a.setpoint, a.target, n) && Distance(a.setpoint, a.target) <= n)
  {
    if a.countdown == 1 {
      assert StepCount(1, a.factor, v + 1) == 1 + Laps(v, a.factor);
    }
  }

  /**
   A whole commanded move, from the command to any later visit, with time factor T: nothing to
   do, one jump when T = 0, and otherwise one count every T visible ticks, never past the
   target, need-move clearing with the last of exactly |target - setpoint| steps.
  */
  lemma CommandedMove(a: Axis, tick: bool, ticks: seq<bool>)
    requires a.need && a.renewed
    ensures var end := Visits(a, [tick] + ticks);
            var distance := Distance(a.setpoint, a.target);
            var n := if a.factor == 0 then distance else Laps(Visible(ticks), a.factor);
            && end.setpoint == Stepped(a.setpoint, a.target, n)
            && (end.need <==> n < distance)
            && !end.renewed
  {
    assert ([tick] + ticks)[1..] == ticks;
    var next := Visit(a, tick);
    if next.need {
      MovingVisits(next, ticks);
    } else {
      IdleVisits(next, ticks);
    }
  }

  lemma {:induction false} VisitsSnoc(a: Axis, ticks: seq<bool>, tick: bool)
    ensures Visits(a, ticks + [tick]) == Visit(Visits(a, ticks), tick)
    decreases |ticks|
  {
    if ticks == [] {
      assert Visits(a, [tick]) == Visits(Visit(a, tick), []);
    } else {
      assert (ticks + [tick])[1..] == ticks[1..] + [tick];
      VisitsSnoc(Visit(a, ticks[0]), ticks[1..], tick);
    }
  }
}
