/** Which sweeps see which timer ticks. */
module SweepTicks {
  import opened ServoSpec
  import opened Servo
  import opened ServoPass
  import opened ServoSweep
  import opened ServoRuns

  /** The sweep that will be the next to look at the latch, when so many interrupts have been served. */
  function SweepAt(served: nat): nat { (served + 1) / 8 }

  /** How many of the first so many interrupts were in the phase of axis a: one of every eight. */
  function VisitsAmong(served: nat, a: nat): nat
    requires a < 8
  {
    (served + 7 - a) / 8
  }

  /** Event j of the run is a timer tick, and sweep m was the next to look at the latch. */
  predicate TickAt(x: Round, events: seq<Event>, j: nat, delay: nat, m: int)
    requires j < |events|
  {
    events[j].Timer? && SweepAt(At(x, events, j, delay).served) == m
  }

  /** Some tick among the first n events came while sweep m was the next to look. */
  ghost predicate TickBefore(x: Round, events: seq<Event>, n: nat, delay: nat, m: int)
    requires n <= |events|
  {
    exists j :: 0 <= j < n && TickAt(x, events, j, delay, m)
  }

  /** The same, the ticks that the bits hold at the beginning of the run included. */
  ghost predicate TickFor(x: Round, events: seq<Event>, n: nat, delay: nat, m: int)
    requires n <= |events|
  {
    || TickBefore(x, events, n, delay, m)
    || (m == SweepAt(x.served) && x.latch)
    || (m == SweepAt(x.served) - 1 && x.visible)
  }

  lemma {:induction false} ServedGrows(x: Round, events: seq<Event>, i: nat, n: nat, delay: nat)
    requires i <= n <= |events|
    ensures At(x, events, i, delay).served <= At(x, events, n, delay).served
    decreases n
  {
    if i < n {
      ServedGrows(x, events, i, n - 1, delay);
    }
  }

  lemma {:induction false} NoTickFromLaterSweep(x: Round, events: seq<Event>, n: nat, delay: nat, m: int)
    requires n <= |events| && SweepAt(At(x, events, n, delay).served) < m
    ensures !TickFor(x, events, n, delay, m)
  {
    forall j | 0 <= j < n ensures !TickAt(x, events, j, delay, m) {
      ServedGrows(x, events, j, n, delay);
    }
    ServedGrows(x, events, 0, n, delay);
  }

  lemma TickSnoc(x: Round, events: seq<Event>, n: nat, delay: nat, m: int)
    requires 0 < n <= |events|
    ensures TickFor(x, events, n, delay, m) <==>
            TickFor(x, events, n - 1, delay, m) || TickAt(x, events, n - 1, delay, m)
  {
    hide TickAt, SweepAt;
  }

  /** An event begins a new sweep just when it is the interrupt of phase 6, which moves the latch. */
  lemma NextSweep(x: Round, e: Event, delay: nat)
    ensures var y := Next(x, e, delay);
            var turns := e.Serve? && x.eoc && x.served % 8 == 6;
            && SweepAt(y.served) == SweepAt(x.served) + (if turns then 1 else 0)
            && y.visible == (if turns then x.latch else x.visible)
            && y.latch == (if turns then false else x.latch || e.Timer?)
  {
  }

  /** In every run the latch holds the ticks of the sweep to come, and the visible bit those of the sweep under way. */
  lemma {:induction false} TickBits(x: Round, events: seq<Event>, n: nat, delay: nat)
    requires n <= |events|
    ensures var y := At(x, events, n, delay);
            && (y.latch <==> TickFor(x, events, n, delay, SweepAt(y.served)))
            && (y.visible <==> TickFor(x, events, n, delay, SweepAt(y.served) - 1))
  {
    if n > 0 {
      TickBits(x, events, n - 1, delay);
      var before := At(x, events, n - 1, delay);
      assert At(x, events, n, delay) == Next(before, events[n - 1], delay);
      NextSweep(before, events[n - 1], delay);
      var m: int := SweepAt(before.served);
      NoTickFromLaterSweep(x, events, n - 1, delay, m + 1);
      TickNow(x, events, n - 1, delay, m);
      hide TickFor, At, Next, SweepAt, TickAt;
      TickSnoc(x, events, n, delay, m - 1);
      TickSnoc(x, events, n, delay, m);
      TickSnoc(x, events, n, delay, m + 1);
    } else {
      NoneYet(x, events, delay);
    }
  }

  lemma TickNow(x: Round, events: seq<Event>, j: nat, delay: nat, m: int)
    requires j < |events| && m == SweepAt(At(x, events, j, delay).served)
    ensures TickAt(x, events, j, delay, m) <==> events[j].Timer?
    ensures !TickAt(x, events, j, delay, m - 1) && !TickAt(x, events, j, delay, m + 1)
  {
  }

  lemma NoneYet(x: Round, events: seq<Event>, delay: nat)
    ensures At(x, events, 0, delay) == x
    ensures TickFor(x, events, 0, delay, SweepAt(x.served)) <==> x.latch
    ensures TickFor(x, events, 0, delay, SweepAt(x.served) - 1) <==> x.visible
  {
  }

  /** The servo stays enabled over the first n events. */
  predicate StaysEnabled(x: Round, events: seq<Event>, n: nat)
    requires n <= |events|
  {
    x.enabled && forall i :: 0 <= i < n ==> !events[i].Stop? && (events[i].Enable? ==> events[i].on)
  }

  lemma {:induction false} StaysEnabledHolds(x: Round, events: seq<Event>, n: nat, delay: nat)
    requires n <= |events| && StaysEnabled(x, events, n)
    ensures At(x, events, n, delay).enabled
  {
    if n > 0 {
      StaysEnabledHolds(x, events, n - 1, delay);
    }
  }

  /** Of the visits from the first-th on, the m-th sees a tick just when there was one for sweep m - 1. */
  ghost predicate SeesTicks(x: Round, events: seq<Event>, n: nat, delay: nat, first: nat, seen: seq<bool>)
    requires n <= |events|
  {
    forall i :: 0 <= i < |seen| ==> (seen[i] <==> TickFor(x, events, n, delay, first + i - 1))
  }

  /**
   While the servo is enabled each axis is visited once in every eight interrupts, and its m-th
   visit sees a tick just when one came between the two latest looks at the latch: a tick is
   seen by all six axes, in one sweep and no other. So it is from any round on.
  */
  lemma {:induction false} SeenIsTicks(x: Round, events: seq<Event>, n: nat, delay: nat, a: nat)
    requires n <= |events| && StaysEnabled(x, events, n) && a < AXES
    ensures var first, seen := VisitsAmong(x.served, a), Seen(x, events, n, delay, a);
            && first + |seen| == VisitsAmong(At(x, events, n, delay).served, a)
            && SeesTicks(x, events, n, delay, first, seen)
  {
    hide *;
    if n == 0 {
      SeenFirst(x, events, delay, a);
    } else {
      EnabledBefore(x, events, n);
      SeenIsTicks(x, events, n - 1, delay, a);
      StaysEnabledHolds(x, events, n - 1, delay);
      SeenNext(x, events, n, delay, a);
    }
  }

  lemma SeenNext(x: Round, events: seq<Event>, n: nat, delay: nat, a: nat)
    requires 0 < n <= |events| && a < AXES && At(x, events, n - 1, delay).enabled
    requires VisitsAmong(x.served, a) + |Seen(x, events, n - 1, delay, a)| == VisitsAmong(At(x, events, n - 1, delay).served, a)
    requires SeesTicks(x, events, n - 1, delay, VisitsAmong(x.served, a), Seen(x, events, n - 1, delay, a))
    ensures VisitsAmong(x.served, a) + |Seen(x, events, n, delay, a)| == VisitsAmong(At(x, events, n, delay).served, a)
    ensures SeesTicks(x, events, n, delay, VisitsAmong(x.served, a), Seen(x, events, n, delay, a))
  {
    assert a < 8;
    hide *;
    TickBits(x, events, n - 1, delay);
    var first, before := VisitsAmong(x.served, a), At(x, events, n - 1, delay);
    var earlier := Seen(x, events, n - 1, delay, a);
    VisitCount(before, events[n - 1], delay, a);
    SeenSnoc(x, events, n, delay, a);
    StillSees(x, events, n, delay, a, first, earlier);
    if IsVisit(before, events[n - 1], a) {
      TickSnoc(x, events, n, delay, first + |earlier| - 1);
      NoTimer(x, events, n - 1, delay, first + |earlier| - 1);
      SeesOneMore(x, events, n, delay, first, earlier, before.visible);
    }
  }

  lemma StillSees(x: Round, events: seq<Event>, n: nat, delay: nat, a: nat, first: nat, seen: seq<bool>)
    requires 0 < n <= |events| && a < AXES && first + |seen| == VisitsAmong(At(x, events, n - 1, delay).served, a)
    requires SeesTicks(x, events, n - 1, delay, first, seen)
    ensures SeesTicks(x, events, n, delay, first, seen)
  {
    hide TickFor, VisitsAmong, At;
    forall i | 0 <= i < |seen| ensures seen[i] <==> TickFor(x, events, n, delay, first + i - 1) {
      TickSnoc(x, events, n, delay, first + i - 1);
      TooLate(x, events, n - 1, delay, a, first + i);
    }
  }

  lemma SeesOneMore(x: Round, events: seq<Event>, n: nat, delay: nat, first: nat, seen: seq<bool>, tick: bool)
    requires n <= |events| && SeesTicks(x, events, n, delay, first, seen)
    requires tick <==> TickFor(x, events, n, delay, first + |seen| - 1)
    ensures SeesTicks(x, events, n, delay, first, seen + [tick])
  {
    hide TickFor;
  }

  lemma NoTimer(x: Round, events: seq<Event>, j: nat, delay: nat, m: int)
    requires j < |events| && !events[j].Timer?
    ensures !TickAt(x, events, j, delay, m)
  {
  }

  lemma SeenFirst(x: Round, events: seq<Event>, delay: nat, a: nat)
    requires a < AXES
    ensures Seen(x, events, 0, delay, a) == [] && At(x, events, 0, delay) == x
    ensures SeesTicks(x, events, 0, delay, VisitsAmong(x.served, a), [])
  {
  }

  lemma EnabledBefore(x: Round, events: seq<Event>, n: nat)
    requires 0 < n <= |events| && StaysEnabled(x, events, n)
    ensures StaysEnabled(x, events, n - 1)
  {
  }

  lemma SeenSnoc(x: Round, events: seq<Event>, n: nat, delay: nat, a: nat)
    requires 0 < n <= |events|
    ensures var before, e := At(x, events, n - 1, delay), events[n - 1];
            && At(x, events, n, delay) == Next(before, e, delay)
            && Seen(x, events, n, delay, a)
               == if IsVisit(before, e, a) then Seen(x, events, n - 1, delay, a) + [before.visible]
                  else Seen(x, events, n - 1, delay, a)
  {
    hide Next, IsVisit;
    assert Seen(x, events, n - 1, delay, a) + [] == Seen(x, events, n - 1, delay, a);
  }

  /** A visit to axis a is counted when it is served, and belongs to the sweep under way. */
  lemma VisitCount(x: Round, e: Event, delay: nat, a: nat)
    requires x.enabled && a < AXES
    ensures var n := VisitsAmong(x.served, a);
            && VisitsAmong(Next(x, e, delay).served, a) == n + (if IsVisit(x, e, a) then 1 else 0)
            && (IsVisit(x, e, a) ==> n == SweepAt(x.served) && !e.Timer?)
  {
  }

  /** A tick after axis a's m-th visit is not for the sweep of that visit. */
  lemma TooLate(x: Round, events: seq<Event>, j: nat, delay: nat, a: nat, m: nat)
    requires j < |events| && a < AXES
    requires m < VisitsAmong(At(x, events, j, delay).served, a)
    ensures !TickAt(x, events, j, delay, m - 1)
  {
  }

  /** In how many of the sweeps [lo, hi) there was a tick to be seen. */
  ghost function SweepsWithTick(x: Round, events: seq<Event>, n: nat, delay: nat, lo: int, hi: int): nat
    requires n <= |events|
    decreases hi - lo
  {
    if hi <= lo then 0
    else (if TickFor(x, events, n, delay, lo) then 1 else 0) + SweepsWithTick(x, events, n, delay, lo + 1, hi)
  }

  lemma {:induction false} VisibleSweeps(x: Round, events: seq<Event>, n: nat, delay: nat, first: nat, seen: seq<bool>)
    requires n <= |events| && SeesTicks(x, events, n, delay, first, seen)
    ensures Visible(seen) == SweepsWithTick(x, events, n, delay, first - 1, first + |seen| - 1)
    decreases |seen|
  {
    hide TickFor;
    if seen != [] {
      assert seen[0] <==> TickFor(x, events, n, delay, first + 0 - 1);
      SeesRest(x, events, n, delay, first, seen);
      hide SeesTicks;
      VisibleSweeps(x, events, n, delay, first + 1, seen[1..]);
    }
  }

  lemma SeesRest(x: Round, events: seq<Event>, n: nat, delay: nat, first: nat, seen: seq<bool>)
    requires n <= |events| && SeesTicks(x, events, n, delay, first, seen) && seen != []
    ensures SeesTicks(x, events, n, delay, first + 1, seen[1..])
  {
    hide TickFor;
    forall i | 0 <= i < |seen| - 1 ensures seen[1..][i] <==> TickFor(x, events, n, delay, first + 1 + i - 1) {
      assert seen[1..][i] == seen[i + 1];
      assert seen[i + 1] <==> TickFor(x, events, n, delay, first + (i + 1) - 1);
    }
  }

  /** How far an axis has come in a run that found it commanded: nowhere before its first visit. */
  ghost function StepsOf(x: Round, events: seq<Event>, delay: nat, a: nat, start: Axis): nat
    requires a < AXES
  {
    var first, past := VisitsAmong(x.served, a), VisitsAmong(At(x, events, |events|, delay).served, a);
    if past <= first then 0
    else if start.factor == 0 then Distance(start.setpoint, start.target)
    else Laps(SweepsWithTick(x, events, |events|, delay, first, past - 1), start.factor)
  }

  /**
   A commanded move over a run: the first visit takes the command up, and every time factor's worth
   of sweeps with a tick from then on is one step, up to the target.
  */
  lemma CommandedRun(x: Round, events: seq<Event>, delay: nat, a: nat, start: Axis)
    requires a < AXES && start.need && start.renewed && StaysEnabled(x, events, |events|)
    ensures var end := Visits(start, Seen(x, events, |events|, delay, a));
            var n := StepsOf(x, events, delay, a, start);
            && end.setpoint == Stepped(start.setpoint, start.target, n)
            && (Seen(x, events, |events|, delay, a) == [] ==> end == start)
            && (Seen(x, events, |events|, delay, a) != [] ==> (end.need <==> n < Distance(start.setpoint, start.target)))
  {
    var first, seen := VisitsAmong(x.served, a), Seen(x, events, |events|, delay, a);
    SeenIsTicks(x, events, |events|, delay, a);
    if seen != [] {
      SeesRest(x, events, |events|, delay, first, seen);
      VisibleSweeps(x, events, |events|, delay, first + 1, seen[1..]);
      hide Visit, Visits, Seen, Visible, SweepsWithTick, Laps, SeesTicks, VisitsAmong, At;
      assert seen == [seen[0]] + seen[1..];
      CommandedMove(start, seen[0], seen[1..]);
    } else {
      hide Seen, SeesTicks, VisitsAmong, At;
    }
  }

  /** What a run of the servo makes of a commanded move: the whole way from the command to the ticks that came. */
  method RunCommanded(s: AxisServo, events: seq<Event>, ghost x: Round, ghost a: nat)
    requires InRound(s, x) && PortsOk(s) && PortsFollow(s) && a < AXES
    requires forall i :: 0 <= i < |events| ==> Completes(events[i])
    requires StaysEnabled(x, events, |events|) && s.AxisOf(a).need && s.AxisOf(a).renewed
    modifies s, s.adc, s.c.iram, s.c`inPosition, s.c`needMove, s.c`renewed, s.c`motion
    ensures InRound(s, At(x, events, |events|, s.adc.delay))
    ensures var start := old(s.AxisOf(a));
            var n := StepsOf(x, events, s.adc.delay, a, start);
            && s.AxisOf(a).setpoint == Stepped(start.setpoint, start.target, n)
            && (VisitsAmong(At(x, events, |events|, s.adc.delay).served, a) > VisitsAmong(x.served, a) ==>
                  (s.AxisOf(a).need <==> n < Distance(start.setpoint, start.target)))
  {
    hide Visit, Visits, Seen, StepsOf, Completes, StaysEnabled, At, VisitsAmong;
    ghost var start, delay := s.AxisOf(a), s.adc.delay;
    CommandedRun(x, events, delay, a, start);
    SeenIsTicks(x, events, |events|, delay, a);
    Run(s, events, x);
  }
}
