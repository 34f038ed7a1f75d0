/** A move from its command, by an instruction or by the host, to the servo's setpoint: the sweeps that carry it out. */
module MoveRuns {
  import opened Bytes
  import opened ProgramLayout
  import opened InterpreterSpec
  import opened ServoSpec
  import opened Servo
  import opened ServoPass
  import opened ServoSweep
  import opened ServoRuns
  import opened SweepTicks
  import opened Serial
  import opened Upload
  import opened HostFrames
  import Interpreter
  import HostMoves

  /** Where a setpoint is after so many sweeps with a tick, one step for every factor of them, or in one go. */
  lemma StepsInFigures(x: Round, events: seq<Event>, delay: nat, a: nat, start: Axis, ticks: nat)
    requires a < AXES && VisitsAmong(At(x, events, |events|, delay).served, a) > VisitsAmong(x.served, a)
    requires ticks == SweepsWithTick(x, events, |events|, delay, VisitsAmong(x.served, a),
                                     VisitsAmong(At(x, events, |events|, delay).served, a) - 1)
    ensures var s: int, t: int := start.setpoint, start.target;
            Stepped(start.setpoint, start.target, StepsOf(x, events, delay, a, start)) ==
            if start.factor == 0 then t
            else if s <= t then (if s + ticks / start.factor as int < t then s + ticks / start.factor as int else t)
            else if s - ticks / start.factor as int > t then s - ticks / start.factor as int else t
  {
    if start.factor > 0 {
      LapsAre(ticks, start.factor);
    }
    hide Laps, SweepsWithTick, VisitsAmong, At;
  }

  lemma LapsAre(x: nat, factor: nat)
    requires factor > 0
    ensures Laps(x, factor) == x / factor
  {
    LapsIsQuotient(x, factor);
    QuotientIs(x, factor, Laps(x, factor));
  }

  /** Where the program counter is kept is no cell of an axis. */
  lemma PcApart(iram: seq<byte>, pc: word, need: bv8, renewed: bv8, rising: bv8, a: nat)
    requires |iram| == 0x80 && a < AXES
    ensures AxisAt(Interpreter.WithPc(iram, pc), need, renewed, rising, a) == AxisAt(iram, need, renewed, rising, a)
  {
    hide Has;
  }

  /** An axis told to go from one value to another, with a time factor. */
  ghost predicate Told(x: Axis, from: byte, to: byte, factor: byte) {
    x.need && x.renewed && x.setpoint == from && x.target == to && x.factor == factor
  }

  /** A timed move names axis a: by its low bits, or because it is for all. */
  lemma MoveNames(iram: seq<byte>, k: Control, mem: Memory, p: SramPage, pc: word, p1: byte, rising: bv8, a: nat)
    requires |iram| == 0x80 && pc < 0xFF00 && 0x60 <= mem[pc] < 0x80 && a < AXES && (mem[pc] % 8 == 7 || mem[pc] % 8 == a)
    ensures var r := NextControl(k, mem, pc);
            Told(AxisAt(Interpreter.WithPc(Loaded(iram, mem, pc), NextPc(mem, p, pc, p1)), r.needMove, r.renewed, rising, a),
                 iram[0x50 + a], if mem[pc] % 8 == 7 then mem[pc + 1 + a] else mem[pc + 1],
                 if mem[pc] % 8 == 7 then mem[pc + 9 + a] else mem[pc + 2])
  {
    HostMoves.ProgramMoveStarts(iram, k, mem, pc, rising, a);
    PcApart(Loaded(iram, mem, pc), NextPc(mem, p, pc, p1), NextControl(k, mem, pc).needMove,
            NextControl(k, mem, pc).renewed, rising, a);
    hide NextControl, Loaded, Has, NextPc, Interpreter.WithPc;
  }

  /** A timed instruction has the servo told, and changes nothing else about it. */
  method TellByInstruction(servo: AxisServo, p1: byte, ghost a: nat)
    requires servo.c.Valid() && Base(servo.c.page) <= servo.c.Pc() < 0xFF00 && a < AXES
    requires var op := servo.c.xram[servo.c.Pc()]; 0x60 <= op < 0x80 && (op % 8 == 7 || op % 8 == a)
    modifies servo.c, servo.c.xram, servo.c.iram
    ensures servo.c.Valid()
    ensures var mem, pc := old(servo.c.xram[..]), old(servo.c.Pc());
            Told(servo.AxisOf(a), old(servo.c.iram[0x50 + a]), if mem[pc] % 8 == 7 then mem[pc + 1 + a] else mem[pc + 1],
                 if mem[pc] % 8 == 7 then mem[pc + 9 + a] else mem[pc + 2])
  {
    MoveNames(servo.c.iram[..], servo.c.Control(), servo.c.xram[..], servo.c.page, servo.c.Pc(), p1, servo.rising, a);
    hide NextControl, Loaded, Interpreter.WithPc, NextPc, AxisAt, Told;
    Interpreter.Execute(servo.c, p1);
  }

  /** An axis that has been told to move, and any run of events that visits it: where its setpoint is then. */
  method CarryOut(servo: AxisServo, events: seq<Event>, ghost x: Round, ghost a: nat, ghost ticks: nat)
    requires InRound(servo, x) && PortsOk(servo) && PortsFollow(servo) && StaysEnabled(x, events, |events|) && a < AXES
    requires forall i :: 0 <= i < |events| ==> Completes(events[i])
    requires VisitsAmong(At(x, events, |events|, servo.adc.delay).served, a) > VisitsAmong(x.served, a)
    requires ticks == SweepsWithTick(x, events, |events|, servo.adc.delay, VisitsAmong(x.served, a),
                                     VisitsAmong(At(x, events, |events|, servo.adc.delay).served, a) - 1)
    requires servo.AxisOf(a).need && servo.AxisOf(a).renewed
    modifies servo, servo.adc, servo.c.iram, servo.c`inPosition, servo.c`needMove, servo.c`renewed, servo.c`motion
    ensures var s: int, t: int := old(servo.AxisOf(a).setpoint), old(servo.AxisOf(a).target);
            var factor: int := old(servo.AxisOf(a).factor);
            servo.c.iram[0x50 + a] ==
            if factor == 0 then t
            else if s <= t then (if s + ticks / factor < t then s + ticks / factor else t)
            else if s - ticks / factor > t then s - ticks / factor else t
  {
    ghost var start := servo.AxisOf(a);
    StepsInFigures(x, events, servo.adc.delay, a, start, ticks);
    hide AxisAt, InPhase, StaysEnabled, Completes, StepsOf, VisitsAmong, At, SweepsWithTick;
    RunCommanded(servo, events, x, a);
    AtSetpoint(servo, a);
  }

  /**
   A timed instruction, 0x60 to 0x7F, is executed and the servo goes on: after any run that visits the
   axis the setpoint has moved from where it was towards the operand, one count for every time factor's
   worth of sweeps with a tick since the first visit, and no further.
  */
  method RunInstruction(servo: AxisServo, p1: byte, events: seq<Event>, ghost x: Round, ghost a: nat, ghost ticks: nat)
    requires servo.c.Valid() && Base(servo.c.page) <= servo.c.Pc() < 0xFF00 && a < AXES
    requires var op := servo.c.xram[servo.c.Pc()]; 0x60 <= op < 0x80 && (op % 8 == 7 || op % 8 == a)
    requires InRound(servo, x) && PortsOk(servo) && PortsFollow(servo) && StaysEnabled(x, events, |events|)
    requires forall i :: 0 <= i < |events| ==> Completes(events[i])
    requires VisitsAmong(At(x, events, |events|, servo.adc.delay).served, a) > VisitsAmong(x.served, a)
    requires ticks == SweepsWithTick(x, events, |events|, servo.adc.delay, VisitsAmong(x.served, a),
                                     VisitsAmong(At(x, events, |events|, servo.adc.delay).served, a) - 1)
    modifies servo, servo.adc, servo.c, servo.c.xram, servo.c.iram
    ensures var mem, pc := old(servo.c.xram[..]), old(servo.c.Pc());
            var s: int, t: int := old(servo.c.iram[0x50 + a]), if mem[pc] % 8 == 7 then mem[pc + 1 + a] else mem[pc + 1];
            var factor: int := if mem[pc] % 8 == 7 then mem[pc + 9 + a] else mem[pc + 2];
            servo.c.iram[0x50 + a] ==
            if factor == 0 then t
            else if s <= t then (if s + ticks / factor < t then s + ticks / factor else t)
            else if s - ticks / factor > t then s - ticks / factor else t
  {
    hide AxisAt, StaysEnabled, Completes, VisitsAmong, At, SweepsWithTick;
    TellByInstruction(servo, p1, a);
    CarryOut(servo, events, x, a, ticks);
  }

  lemma FrameNames(was: seq<byte>, iram: seq<byte>, need: bv8, renewed: bv8, rising: bv8, h: byte, payload: seq<byte>, a: nat)
    requires |was| == |iram| == 0x80 && 0x70 <= h < 0x80 && a < AXES && (h % 8 == 7 || h % 8 == a)
    requires |payload| == (if h % 8 == 7 then 12 else 2) && iram[0x50 + a] == was[0x50 + a]
    requires iram[0x40 + a] == (if h % 8 == 7 then payload[a] else payload[0])
    requires iram[0x70 + a] == (if h % 8 == 7 then payload[6 + a] else payload[1])
    ensures Told(AxisAt(iram, need | HostMoves.HostMask(h), renewed | HostMoves.HostMask(h), rising, a), was[0x50 + a],
                 if h % 8 == 7 then payload[a] else payload[0], if h % 8 == 7 then payload[6 + a] else payload[1])
  {
    HostMoves.HostMaskNames(need, h, a);
    HostMoves.HostMaskNames(renewed, h, a);
    hide HostMoves.HostMask, Has;
  }

  /** A timed command of the host has the servo told, and changes nothing else about it. */
  method TellServo(servo: AxisServo, s: SerialPort, h: byte, payload: seq<byte>, p1: byte, dph: byte, ghost a: nat)
    requires servo.c == s.c && s.c.Valid() && AtRest(s) && a < AXES
    requires 0x70 <= h < 0x80 && (h % 8 == 7 || h % 8 == a) && |payload| == if h % 8 == 7 then 12 else 2
    modifies s, s.c, s.c.xram, s.c.iram
    ensures s.c.Valid()
    ensures Told(servo.AxisOf(a), old(s.c.iram[0x50 + a]),
                 if h % 8 == 7 then payload[a] else payload[0], if h % 8 == 7 then payload[6 + a] else payload[1])
  {
    hide AxisAt, HostMoves.HostMask, AtRest, Told;
    ghost var was, need, renewed := s.c.iram[..], s.c.needMove, s.c.renewed;
    TimedFrame(s, h, payload, p1, dph);
    ghost var iram := s.c.iram[..];
    FrameNames(was, iram, need, renewed, servo.rising, h, payload, a);
  }

  /** And so it is after a timed command of the host, from the bytes on the line on. */
  method RunFrame(servo: AxisServo, s: SerialPort, h: byte, payload: seq<byte>, p1: byte, dph: byte,
                  events: seq<Event>, ghost x: Round, ghost a: nat, ghost ticks: nat)
    requires servo.c == s.c && s.c.Valid() && AtRest(s) && a < AXES
    requires 0x70 <= h < 0x80 && (h % 8 == 7 || h % 8 == a) && |payload| == if h % 8 == 7 then 12 else 2
    requires InRound(servo, x) && PortsOk(servo) && PortsFollow(servo) && StaysEnabled(x, events, |events|)
    requires forall i :: 0 <= i < |events| ==> Completes(events[i])
    requires VisitsAmong(At(x, events, |events|, servo.adc.delay).served, a) > VisitsAmong(x.served, a)
    requires ticks == SweepsWithTick(x, events, |events|, servo.adc.delay, VisitsAmong(x.served, a),
                                     VisitsAmong(At(x, events, |events|, servo.adc.delay).served, a) - 1)
    modifies servo, servo.adc, s, s.c, s.c.xram, s.c.iram
    ensures var from: int, t: int := old(servo.c.iram[0x50 + a]), if h % 8 == 7 then payload[a] else payload[0];
            var factor: int := if h % 8 == 7 then payload[6 + a] else payload[1];
            servo.c.iram[0x50 + a] ==
            if factor == 0 then t
            else if from <= t then (if from + ticks / factor < t then from + ticks / factor else t)
            else if from - ticks / factor > t then from - ticks / factor else t
  {
    hide StaysEnabled, Completes, VisitsAmong, At, SweepsWithTick, AtRest;
    TellServo(servo, s, h, payload, p1, dph, a);
    CarryOut(servo, events, x, a, ticks);
  }
}
