/** Whole runs of the servo: timer ticks, conversions, interrupts, and everything that touches the motor ports. */
module ServoRuns {
  import opened Bytes
  import opened ControllerState
  import opened ServoSpec
  import opened Adc
  import opened Servo
  import opened ServoPass
  import opened ServoSweep
  import opened MotorPorts

  /** Serve is the moment the servo interrupt is let in, if the converter has asked for it. */
  datatype Event =
    | Timer
    | Elapse(cycles: nat)
    | Serve(hi: byte, lo: byte, hold: bool)
    | Enable(on: bool)
    | Stop
    | Emergency(samples: seq<bool>)

  /** Interrupts served so far, the converter, the two tick bits, and whether the servo is enabled. */
  datatype Round = Round(served: nat, countdown: int, eoc: bool, latch: bool, visible: bool, enabled: bool)

  function Next(x: Round, e: Event, delay: nat): Round {
    match e
    case Timer => x.(latch := true)
    case Elapse(n) =>
      if x.countdown < 0 then x
      else if x.countdown > n then x.(countdown := x.countdown - n)
      else x.(countdown := -1, eoc := true)
    case Serve(_, _, _) =>
      if !x.eoc then x
      else
        var x := x.(served := x.served + 1, countdown := delay, eoc := false);
        if x.served % 8 == 7 then x.(visible := x.latch, latch := false) else x
    case Enable(on) => x.(enabled := on)
    case Stop => x.(enabled := false)
    case Emergency(_) => x
  }

  /** The round after the first n events. */
  function At(x: Round, events: seq<Event>, n: nat, delay: nat): Round
    requires n <= |events|
  {
    if n == 0 then x else Next(At(x, events, n - 1, delay), events[n - 1], delay)
  }

  /** Whether the servo visits axis a on event e. */
  predicate IsVisit(x: Round, e: Event, a: nat) { e.Serve? && x.eoc && x.enabled && x.served % 8 == a }

  /** What axis a saw of the timer, visit by visit, in the first n events. */
  function Seen(x: Round, events: seq<Event>, n: nat, delay: nat, a: nat): seq<bool>
    requires n <= |events|
  {
    if n == 0 then []
    else
      var before := At(x, events, n - 1, delay);
      Seen(x, events, n - 1, delay, a) + if IsVisit(before, events[n - 1], a) then [before.visible] else []
  }

  /** The servo is in round x: the converter has raised one signal for every conversion but the one under way. */
  ghost predicate InRound(s: AxisServo, x: Round)
    reads s, s.c, s.adc
  {
    && InPhase(s, x.served % 8)
    && s.adc.countdown == x.countdown && s.adc.eoc == x.eoc && (x.countdown >= 0 <==> !x.eoc)
    && s.adc.started == x.served + 1 && s.adc.raised == x.served + (if x.eoc then 1 else 0)
    && s.latch == x.latch && s.visible == x.visible && s.enabled == x.enabled
  }

  /** Emergency-off is over before the run goes on. */
  ghost predicate Completes(e: Event) { e.Emergency? ==> Released(e.samples) }

  /** 0x0669 and 0x0742: the pointer and mask of axis 0, and its conversion. */
  method Initialise(s: AxisServo)
    requires s.Valid() && s.adc.started == 0 && !s.adc.eoc
    modifies s`r0, s`phase, s.adc`channel, s.adc`countdown, s.adc`started
    ensures InRound(s, Round(0, s.adc.delay, false, s.latch, s.visible, s.enabled))
  {
    s.r0 := 0x48;
    s.phase := 1;
    s.adc.StartConversion(0);
  }

  /** The interrupt is let in: it is served if the converter has asked for it. */
  method LetIn(s: AxisServo, hi: byte, lo: byte, hold: bool, ghost x: Round)
    requires InRound(s, x) && PortsOk(s) && PortsFollow(s)
    modifies s, s.adc, s.c.iram, s.c`inPosition, s.c`needMove, s.c`renewed
    ensures InRound(s, Next(x, Serve(hi, lo, hold), s.adc.delay)) && PortsOk(s) && PortsFollow(s)
    ensures forall a :: 0 <= a < AXES ==>
              s.AxisOf(a) == old(if IsVisit(x, Serve(hi, lo, hold), a) then Visit(s.AxisOf(a), s.visible) else s.AxisOf(a))
  {
    hide Visit, PhaseBit, Field, Code, Wanted, Order, Has, SettledAfter;
    if s.adc.eoc {
      PhaseAfter(x.served);
      Interrupt(s, x.served % 8, hi, lo, hold);
    }
  }

  lemma PhaseAfter(n: nat)
    ensures (n + 1) % 8 == (n % 8 + 1) % 8 && ((n + 1) % 8 == 7 <==> n % 8 == 6)
  {
  }

  /** One event. */
  method Happen(s: AxisServo, e: Event, ghost x: Round)
    requires InRound(s, x) && PortsOk(s) && PortsFollow(s) && Completes(e)
    modifies s, s.adc, s.c.iram, s.c`inPosition, s.c`needMove, s.c`renewed, s.c`motion
    ensures InRound(s, Next(x, e, s.adc.delay)) && PortsOk(s) && PortsFollow(s)
    ensures forall a :: 0 <= a < AXES ==>
              s.AxisOf(a) == old(if IsVisit(x, e, a) then Visit(s.AxisOf(a), s.visible) else s.AxisOf(a))
  {
    hide Visit, Released, PhaseBit, Field, Code, Wanted, Order, Has;
    match e {
      case Timer =>
        s.latch := true;
      case Elapse(n) =>
        s.adc.Tick(n);
      case Serve(hi, lo, hold) =>
        LetIn(s, hi, lo, hold, x);
      case Enable(on) =>
        s.enabled := on;
      case Stop =>
        StopMotors(s);
      case Emergency(samples) =>
        var released, keyEvent := EmergencyOff(s, samples);
    }
  }

  /**
   Any run: no motor is ever driven both ways, the ports show the shadows, phase, pointer and
   channel stay in step, every conversion signals once, and each axis has moved by the visits
   it was paid and nothing else.
  */
  method Run(s: AxisServo, events: seq<Event>, ghost x: Round)
    requires InRound(s, x) && PortsOk(s) && PortsFollow(s)
    requires forall i :: 0 <= i < |events| ==> Completes(events[i])
    modifies s, s.adc, s.c.iram, s.c`inPosition, s.c`needMove, s.c`renewed, s.c`motion
    ensures InRound(s, At(x, events, |events|, s.adc.delay)) && PortsOk(s) && PortsFollow(s)
    ensures forall a :: 0 <= a < AXES ==>
              s.AxisOf(a) == Visits(old(s.AxisOf(a)), Seen(x, events, |events|, s.adc.delay, a))
  {
    hide Visit, Released, PhaseBit, Completes, IsVisit, Next;
    var n := 0;
    ghost var delay := s.adc.delay;
    while n < |events|
      invariant n <= |events|
      invariant InRound(s, At(x, events, n, delay)) && PortsOk(s) && PortsFollow(s)
      invariant forall a :: 0 <= a < AXES ==> s.AxisOf(a) == Visits(old(s.AxisOf(a)), Seen(x, events, n, delay, a))
    {
      ghost var y := At(x, events, n, delay);
      assert s.visible == y.visible;
      Happen(s, events[n], y);
      forall a | 0 <= a < AXES
        ensures s.AxisOf(a) == Visits(old(s.AxisOf(a)), Seen(x, events, n + 1, delay, a))
      {
        var seen := Seen(x, events, n, delay, a);
        VisitsSnoc(old(s.AxisOf(a)), seen, y.visible);
        assert seen + [] == seen;
      }
      n := n + 1;
    }
  }
}
