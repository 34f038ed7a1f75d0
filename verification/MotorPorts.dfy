/** Cutting the motors: the emergency-off interrupt (0x0040) and the motion supervisor of the main loop (0x074D). */
module MotorPorts {
  import opened Bytes
  import opened ControllerState
  import opened ServoSpec
  import opened Adc
  import opened Servo
  import opened ServoPass
  import opened ServoSweep
  import opened Serial

  /** How often P3.2 has to read high in a row before emergency-off is over. */
  const RELEASE: nat := 256

  /** 256 samples of P3.2 from the i-th on are high. */
  predicate HighRun(samples: seq<bool>, i: nat) {
    i + RELEASE <= |samples| && forall k :: i <= k < i + RELEASE ==> samples[k]
  }

  /** Some 256 successive samples of P3.2 are high. */
  ghost predicate Released(samples: seq<bool>) {
    exists i: nat :: HighRun(samples, i)
  }

  /** jump_0047: writes zero to both motor ports 256 times over. */
  method Kill(s: AxisServo)
    modifies s`portA, s`portC
    ensures s.portA == s.portC == 0
  {
    var r1: byte := 0;
    ghost var turns: nat := 0;
    while true
      invariant turns < 256 && r1 == (256 - turns) % 256
      invariant turns > 0 ==> s.portA == s.portC == 0
      decreases 256 - turns
    {
      s.portA := 0;
      s.portC := 0;
      r1, turns := Dec(r1), turns + 1;
      if r1 == 0 {
        break;
      }
    }
  }

  /** jump_0052: every low sample reloads the counter; used says how many samples were read. */
  method AwaitRelease(samples: seq<bool>) returns (released: bool, used: nat)
    ensures released <==> Released(samples)
    ensures used <= |samples|
    ensures released ==> used > 0 && Released(samples[..used]) && !Released(samples[..used - 1])
  {
    hide Released;
    var r1: byte := 0;
    ghost var from: nat := 0;
    used := 0;
    NotYet([], 0);
    assert samples[..0] == [];
    while used < |samples|
      invariant from <= used <= |samples| && used - from < 256 && r1 == (256 - (used - from)) % 256
      invariant (forall k :: from <= k < used ==> samples[k]) && (from > 0 ==> !samples[from - 1])
      invariant !Released(samples[..used])
    {
      used := used + 1;
      assert samples[..used][..used - 1] == samples[..used - 1];
      if !samples[used - 1] {
        r1, from := 0, used;
      } else {
        r1 := Dec(r1);
        if r1 == 0 {
          Ran(samples, from, used);
          return true, used;
        }
      }
      NotYet(samples[..used], from);
    }
    assert samples[..used] == samples;
    released := false;
  }

  lemma Ran(samples: seq<bool>, from: nat, used: nat)
    requires used <= |samples| && from + RELEASE == used && forall k :: from <= k < used ==> samples[k]
    ensures Released(samples) && Released(samples[..used])
  {
    assert HighRun(samples, from) && HighRun(samples[..used], from);
  }

  /** While the current run of highs, from on, is short of 256, one more sample releases nothing. */
  lemma NotYet(samples: seq<bool>, from: nat)
    requires from <= |samples| < from + RELEASE && (from > 0 ==> !samples[from - 1])
    requires samples != [] ==> !Released(samples[..|samples| - 1])
    ensures !Released(samples)
  {
    forall i: nat ensures !HighRun(samples, i) {
      if i + RELEASE < |samples| {
        assert !HighRun(samples[..|samples| - 1], i);
      }
    }
  }

  /** Emergency-off: the ports stay at zero until the line is released, and then show the shadows again. */
  method EmergencyOff(s: AxisServo, samples: seq<bool>) returns (released: bool, keyEvent: bool)
    requires s.c.Valid()
    modifies s`portA, s`portC, s.c`motion, s.c.iram
    ensures released <==> Released(samples)
    ensures !released ==> s.portA == s.portC == 0 && s.c.motion == old(s.c.motion) && s.c.iram[..] == old(s.c.iram[..])
    ensures released ==> PortsFollow(s) && !s.c.motion && keyEvent == !old(s.c.motion)
    ensures released ==> s.c.iram[..] == if keyEvent then old(s.c.iram[..]) else old(s.c.iram[..])[0x47 := 0xFF]
  {
    Kill(s);
    var used;
    released, used := AwaitRelease(samples);
    keyEvent := false;
    if !released {
      return;
    }
    s.portA := s.shadowA;
    s.portC := s.shadowC;
    if s.c.motion {
      s.c.motion := false;
      s.c.iram[0x47] := 0xFF;
    } else {
      keyEvent := true;
    }
  }

  /** 0x076C: motors off, and the servo with them. */
  method StopMotors(s: AxisServo)
    modifies s`enabled, s`portA, s`portC, s`shadowA, s`shadowC
    ensures !s.enabled && s.portA == 0 && s.portC == 0 && PortsFollow(s) && PortsOk(s)
    ensures forall a :: 0 <= a < AXES ==> s.Motor(a) == Off
  {
    s.enabled := false;
    s.portA, s.shadowA := 0, 0;
    s.portC, s.shadowC := 0, 0;
    NoFields(0);
    NoFields(1);
    NoFields(2);
    NoFields(3);
  }

  lemma NoFields(i: nat)
    requires i < 4
    ensures Field(0, i) == Off
  {
    assert i == 0 || i == 1 || i == 2 || i == 3;
  }

  /** How the supervisor leaves a move it watches: going on, arrived, or stopped for taking too long. */
  datatype Supervision = Waiting | Arrived | TimedOut

  /**
   0x0750 to jump_077E: a move watched for the host (25h.7) is reported to it when it has arrived, and
   stopped when its seconds run out; second is 23h.6, countdown 19h.
  */
  method Supervise(s: AxisServo, host: SerialPort, second: bool, countdown: byte)
    returns (verdict: Supervision, second': bool, countdown': byte)
    modifies s`enabled, s`portA, s`portC, s`shadowA, s`shadowC, host`awaiting, host`sendKey, host`sendStatus, host`r4
    ensures verdict == Arrived <==> old(host.awaiting) && s.c.inPosition == 0x3F && s.c.needMove == 0
    ensures verdict == TimedOut <==> old(host.awaiting) && s.c.inPosition != 0x3F && second && countdown == 1
    ensures verdict == TimedOut ==> !s.enabled && s.portA == 0 && s.portC == 0 && PortsFollow(s) && PortsOk(s)
                                    && forall a :: 0 <= a < AXES ==> s.Motor(a) == Off
    ensures verdict != TimedOut ==> unchanged(s) && host.sendStatus == old(host.sendStatus) && host.r4 == old(host.r4)
    ensures verdict == TimedOut ==> host.sendStatus && host.r4 == 0xF7
    ensures host.sendKey == if verdict == Arrived then host.wantsKey else old(host.sendKey)
    ensures host.awaiting == (old(host.awaiting) && verdict == Waiting)
    ensures if old(host.awaiting) && s.c.inPosition != 0x3F && second then !second' && countdown' == Dec(countdown)
            else second' == second && countdown' == countdown
  {
    verdict, second', countdown' := Waiting, second, countdown;
    if !host.awaiting {
      return;
    }
    if s.c.inPosition == 0x3F {
      if s.c.needMove != 0 {
        return;
      }
      host.sendKey := host.wantsKey;
      verdict := Arrived;
    } else {
      if !second {
        return;
      }
      second', countdown' := false, Dec(countdown);
      if countdown' != 0 {
        return;
      }
      StopMotors(s);
      host.r4, host.sendStatus := 0xF7, true;
      verdict := TimedOut;
    }
    host.awaiting := false;
  }
}
