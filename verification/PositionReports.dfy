/** What the host is told about positions and inputs, all the way from the converter's samples to the bytes on the line. */
module PositionReports {
  import opened Bytes
  import opened ServoSpec
  import opened Servo
  import opened ServoPass
  import opened ServoSweep
  import opened Serial
  import opened Upload
  import opened HostFrames

  /** The samples of one sweep, high and low byte, one for each of the converter's eight channels. */
  type Samples = m: seq<(byte, byte)> | |m| == 8 witness [(0, 0), (0, 0), (0, 0), (0, 0), (0, 0), (0, 0), (0, 0), (0, 0)]

  /** Eight interrupts store the positions of the six axes and the two inputs. */
  method Sweep(servo: AxisServo, samples: Samples, holds: seq<bool>)
    requires InPhase(servo, 0) && PortsOk(servo) && PortsFollow(servo) && |holds| == 8
    modifies servo, servo.adc, servo.c.iram, servo.c`inPosition, servo.c`needMove, servo.c`renewed
    ensures InPhase(servo, 0) && PortsOk(servo) && PortsFollow(servo)
    ensures forall p :: 0 <= p < 6 ==>
              var sample: int := (samples[p].0 as int - OFFSETS[p]) * 256 + samples[p].1;
              var scaled: int := sample * GAINS[p] / 0x4000;
              servo.c.iram[0x58 + p] == if sample < samples[p].1 then 0 else if scaled > 255 then 255 else scaled
    ensures servo.c.iram[0x5E] == samples[6].0 && servo.c.iram[0x5F] == samples[7].0
  {
    PhaseNext(servo);
    hide InPhase, PortsOk, PortsFollow;
    var p := 0;
    while p < 6
      invariant 0 <= p <= 6 && servo.c.Valid() && InPhase(servo, p) && PortsOk(servo) && PortsFollow(servo)
      invariant forall q :: 0 <= q < p ==>
                  var sample: int := (samples[q].0 as int - OFFSETS[q]) * 256 + samples[q].1;
                  var scaled: int := sample * GAINS[q] / 0x4000;
                  servo.c.iram[0x58 + q] == if sample < samples[q].1 then 0 else if scaled > 255 then 255 else scaled
    {
      ServeAxis(servo, p, samples[p].0, samples[p].1, holds[p]);
      p := p + 1;
    }
    ServeInput(servo, 6, samples[6].0, samples[6].1, holds[6]);
    ServeInput(servo, 7, samples[7].0, samples[7].1, holds[7]);
  }

  lemma PhaseNext(servo: AxisServo)
    ensures InPhase(servo, 0) ==> servo.c.Valid()
  {
  }

  /** A sweep, and then a query of one axis: the byte the host gets is that axis's sample, calibrated. */
  method ReportAxis(servo: AxisServo, s: SerialPort, samples: Samples, holds: seq<bool>, a: nat, p1: byte, dph: byte)
    requires servo.c == s.c && InPhase(servo, 0) && PortsOk(servo) && PortsFollow(servo) && |holds| == 8
    requires AtRest(s) && a < 6
    modifies servo, servo.adc, s, s.c, s.c.xram, s.c.iram
    ensures AtRest(s) && |s.wire| == |old(s.wire)| + 3 && old(s.wire) <= s.wire
    ensures var n := |old(s.wire)|;
            var sample: int := (samples[a].0 as int - OFFSETS[a]) * 256 + samples[a].1;
            var scaled: int := sample * GAINS[a] / 0x4000;
            && s.wire[n] == 0x40 + a && s.wire[n + 2] == 0x03
            && s.wire[n + 1] == if sample < samples[a].1 then 0 else if scaled > 255 then 255 else scaled
  {
    PhaseNext(servo);
    hide InPhase, PortsOk, PortsFollow, AtRest;
    Sweep(servo, samples, holds);
    PositionQuery(s, 0x40 + a, p1, dph);
  }

  /** A sweep, and then a query of all six: the positions in the order of the axes. */
  method ReportAll(servo: AxisServo, s: SerialPort, samples: Samples, holds: seq<bool>, p1: byte, dph: byte)
    requires servo.c == s.c && InPhase(servo, 0) && PortsOk(servo) && PortsFollow(servo) && |holds| == 8
    requires AtRest(s)
    modifies servo, servo.adc, s, s.c, s.c.xram, s.c.iram
    ensures AtRest(s) && |s.wire| == |old(s.wire)| + 8 && old(s.wire) <= s.wire
    ensures s.wire[|old(s.wire)|] == 0x47 && s.wire[|old(s.wire)| + 7] == 0x03
    ensures forall p :: 0 <= p < 6 ==>
              var sample: int := (samples[p].0 as int - OFFSETS[p]) * 256 + samples[p].1;
              var scaled: int := sample * GAINS[p] / 0x4000;
              s.wire[|old(s.wire)| + 1 + p] == if sample < samples[p].1 then 0 else if scaled > 255 then 255 else scaled
  {
    PhaseNext(servo);
    hide InPhase, PortsOk, PortsFollow, AtRest;
    Sweep(servo, samples, holds);
    ghost var positions := s.c.iram[0x58..0x5E];
    ghost var wire := s.wire;
    PositionQuery(s, 0x47, p1, dph);
    assert s.wire == wire + ([0x47] + positions + [0x03]);
    forall p | 0 <= p < 6 ensures s.wire[|wire| + 1 + p] == positions[p] {
    }
  }

  /** A sweep, and then a query of the inputs: the two other channels as they were sampled, and the port. */
  method ReportInputs(servo: AxisServo, s: SerialPort, samples: Samples, holds: seq<bool>, p1: byte, dph: byte)
    requires servo.c == s.c && InPhase(servo, 0) && PortsOk(servo) && PortsFollow(servo) && |holds| == 8
    requires AtRest(s)
    modifies servo, servo.adc, s, s.c, s.c.xram, s.c.iram
    ensures AtRest(s) && s.wire == old(s.wire) + [0x57, samples[6].0, samples[7].0, p1, 0x03]
  {
    PhaseNext(servo);
    hide InPhase, PortsOk, PortsFollow, AtRest;
    Sweep(servo, samples, holds);
    InputQuery(s, 0x57, p1, dph);
  }
}
