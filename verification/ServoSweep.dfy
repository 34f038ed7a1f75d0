/** The round robin of the servo interrupt, clocked by the converter, over whole runs. */
module ServoSweep {
  import opened Bytes
  import opened ControllerState
  import opened InterpreterSpec
  import opened ServoSpec
  import opened Adc
  import opened Servo
  import opened ServoPass

  /** The rotating mask at 22h in phase p. */
  function PhaseBit(p: nat): bv8
    requires p < 8
  {
    match p
    case 0 => 0x01 case 1 => 0x02 case 2 => 0x04 case 3 => 0x08
    case 4 => 0x10 case 5 => 0x20 case 6 => 0x40 case 7 => 0x80
  }

  /** RL A on the mask. */
  function RotateLeft(m: bv8): bv8 { (m << 1) | (m >> 7) }

  lemma PhaseTurns(p: nat)
    requires p < 8
    ensures RotateLeft(PhaseBit(p)) == PhaseBit((p + 1) % 8)
  {
    assert p == 0 || p == 1 || p == 2 || p == 3 || p == 4 || p == 5 || p == 6 || p == 7;
  }

  lemma PhaseTests(p: nat)
    requires p < 8
    ensures Meets(PhaseBit(p), 0x80) <==> p == 7
    ensures Meets(PhaseBit(p), 0x40) <==> p == 6
    ensures p < AXES ==> PhaseBit(p) == AxisBit(p)
  {
    assert p == 0 || p == 1 || p == 2 || p == 3 || p == 4 || p == 5 || p == 6 || p == 7;
  }

  /** INC, ANL #7 and ORL #48 on R0. */
  lemma PointerTurns(p: nat)
    requires p < 8
    ensures AndByte(0x48 + p + 1, 0x07) == (p + 1) % 8 && OrByte((p + 1) % 8, 0x48) == 0x48 + (p + 1) % 8
  {
    hide AndByte, OrByte;
    LowThree(9, p + 1);
  }

  /** A base of eight times m, the pointer m above it and its low three bits. */
  lemma LowThree(m: nat, q: nat)
    requires m < 31 && q <= 8
    ensures AndByte(8 * m + q, 7) == q % 8 && OrByte(q % 8, 8 * m) == 8 * m + q % 8
  {
    hide AndByte, OrByte;
    var h, l := if q < 8 then m else m + 1, if q < 8 then q else 0;
    LowBits(h, 0, l);
    OrAbove(0, m, l);
    AndZero(h);
    AndOnes(31 - m);
  }

  /** The motor ports hold what their shadows say. */
  predicate PortsFollow(s: AxisServo)
    reads s`shadowA, s`shadowC, s`portA, s`portC
  {
    s.portA == s.shadowA && s.portC == s.shadowC
  }

  /** Storing a feedback or a converter sample touches no cell of the setpoint generator. */
  lemma FeedbackApart(iram: seq<byte>, p: nat, v: byte)
    requires |iram| == 0x80 && p < 8
    ensures forall b :: 0 <= b < AXES ==> CellsOf(iram[FEEDBACK + p := v], b) == CellsOf(iram, b)
    ensures Feedbacks(iram[FEEDBACK + p := v]) == Feedbacks(iram)[p := v]
  {
  }

  /** What a pass asks of its motor: nothing while the pulse logic holds it off. */
  function Order(hi: byte, lo: byte, a: nat, setpoint: byte, hold: bool): (code: byte)
    requires a < AXES
    ensures code in {0, 4, 8}
  {
    if hold then 0 else Code(hi, lo, OFFSETS[a], GAINS[a], setpoint)
  }

  /** An axis's in-position bit after its pass: marked by a small error, cleared when a command leaves nothing to do. */
  predicate SettledAfter(was: bool, hi: byte, lo: byte, a: nat, x: Axis, enabled: bool)
    requires a < AXES
  {
    (was || MarksInPosition(hi, lo, OFFSETS[a], GAINS[a], x.setpoint))
    && !(enabled && HasArrived(x))
  }

  /** 0x00DC to jump_0278: the pass over the axis of this phase; hold is the pulse logic's verdict. */
  method Control(s: AxisServo, ghost a: nat, hi: byte, lo: byte, hold: bool)
    requires s.Valid() && a < AXES && s.r0 == 0x48 + a && s.phase == AxisBit(a) && PortsOk(s)
    modifies s.c.iram, s.c`inPosition, s.c`needMove, s.c`renewed, s`rising, s`shadowA, s`shadowC, s`portA, s`portC
    ensures s.AxisOf(a) == old(if s.enabled then Visit(s.AxisOf(a), s.visible) else s.AxisOf(a))
    ensures forall b :: 0 <= b < AXES && b != a ==> s.AxisOf(b) == old(s.AxisOf(b))
    ensures s.Motor(a) == old(if s.enabled then Wanted(Order(hi, lo, a, s.AxisOf(a).setpoint, hold)) else s.Motor(a))
    ensures forall b :: 0 <= b < AXES && b != a ==> s.Motor(b) == old(s.Motor(b))
    ensures PortsOk(s) && (old(PortsFollow(s)) ==> PortsFollow(s))
    ensures Feedbacks(s.c.iram[..]) == old(Feedbacks(s.c.iram[..]))[a := ServoSpec.Feedback(hi, lo, OFFSETS[a], GAINS[a])]
    ensures forall b :: 0 <= b < AXES ==>
              (Has(s.c.inPosition, b) <==>
                 old(if b == a then SettledAfter(Has(s.c.inPosition, b), hi, lo, a, s.AxisOf(a), s.enabled)
                     else Has(s.c.inPosition, b)))
  {
    hide ServoSpec.Feedback, Code, MarksInPosition, Field, AxisBit, Visit, Wanted, With, Has, Feedbacks, CellsOf;
    AtSetpoint(s, a);
    var code := Calibrate(s, a, hi, lo);
    FeedbackApart(old(s.c.iram[..]), a, ServoSpec.Feedback(hi, lo, OFFSETS[a], GAINS[a]));
    AtSetpoint(s, a);
    MaskSettles(old(s.c.inPosition), a, MarksInPosition(hi, lo, OFFSETS[a], GAINS[a], old(s.AxisOf(a).setpoint)),
                old(s.enabled && HasArrived(s.AxisOf(a))));
    Pursue(s, a, code, hold);
  }

  /** A command that leaves nothing to do: the axis is at its target, or is to jump there. */
  predicate HasArrived(x: Axis) { x.need && x.renewed && (x.setpoint == x.target || x.factor == 0) }

  /** jump_0154 to jump_0278: the half of a pass that only an enabled servo makes. */
  method Pursue(s: AxisServo, ghost a: nat, code: byte, hold: bool)
    requires s.Valid() && a < AXES && s.r0 == 0x48 + a && s.phase == AxisBit(a) && code in {0, 4, 8} && PortsOk(s)
    modifies s.c.iram, s.c`inPosition, s.c`needMove, s.c`renewed, s`rising, s`shadowA, s`shadowC, s`portA, s`portC
    ensures s.AxisOf(a) == old(if s.enabled then Visit(s.AxisOf(a), s.visible) else s.AxisOf(a))
    ensures forall b :: 0 <= b < AXES && b != a ==> s.AxisOf(b) == old(s.AxisOf(b))
    ensures s.Motor(a) == old(if s.enabled then Wanted(if hold then 0 else code) else s.Motor(a))
    ensures forall b :: 0 <= b < AXES && b != a ==> s.Motor(b) == old(s.Motor(b))
    ensures PortsOk(s) && (old(PortsFollow(s)) ==> PortsFollow(s))
    ensures Feedbacks(s.c.iram[..]) == old(Feedbacks(s.c.iram[..]))
    ensures s.c.inPosition == old(if s.enabled && HasArrived(s.AxisOf(a)) then With(s.c.inPosition, a, false) else s.c.inPosition)
  {
    hide Field, AxisBit, Visit, Wanted, With, Has, Feedbacks, CellsOf, IsDone;
    if !s.enabled {
      return;
    }
    DoneMeans(s, a);
    WriteMotor(s, a, if hold then 0 else code);
    Generate(s, a);
  }

  lemma AtSetpoint(s: AxisServo, a: nat)
    requires s.Valid() && a < AXES
    ensures s.c.iram[SETPOINT + a] == s.AxisOf(a).setpoint
  {
  }

  /** What marking and then clearing does to every axis's bit. */
  lemma MaskSettles(m: bv8, a: nat, marks: bool, done: bool)
    requires a < AXES
    ensures var marked := if marks then With(m, a, true) else m;
            var settled := if done then With(marked, a, false) else marked;
            forall b :: 0 <= b < AXES ==> (Has(settled, b) <==> if b == a then (Has(m, b) || marks) && !done else Has(m, b))
  {
    var marked := if marks then With(m, a, true) else m;
    WithBits(m, a, true);
    WithBits(marked, a, false);
    hide With, Has;
  }

  lemma DoneMeans(s: AxisServo, a: nat)
    requires s.Valid() && a < AXES
    ensures IsDone(CellsOf(s.c.iram[..], a)) <==> s.AxisOf(a).setpoint == s.AxisOf(a).target || s.AxisOf(a).factor == 0
    ensures s.AxisOf(a).need == Has(s.c.needMove, a) && s.AxisOf(a).renewed == Has(s.c.renewed, a)
  {
  }

  /** The mask, the pointer and the converter's channel agree on the phase. */
  ghost predicate InPhase(s: AxisServo, p: nat)
    reads s, s.c, s.adc
  {
    s.Valid() && p < 8 && s.phase == PhaseBit(p) && s.r0 == 0x48 + p && s.adc.channel == p
  }

  /** The servo interrupt (0x00C0): one phase, then the conversion for the next one. */
  method Interrupt(s: AxisServo, ghost p: nat, hi: byte, lo: byte, hold: bool)
    requires InPhase(s, p) && PortsOk(s)
    modifies s, s.adc, s.c.iram, s.c`inPosition, s.c`needMove, s.c`renewed
    ensures InPhase(s, (p + 1) % 8) && s.enabled == old(s.enabled)
    ensures s.adc.countdown == s.adc.delay && !s.adc.eoc
    ensures s.adc.started == old(s.adc.started) + 1 && s.adc.raised == old(s.adc.raised)
    ensures s.visible == old(if p == 6 then s.latch else s.visible) && s.latch == old(p != 6 && s.latch)
    ensures forall b :: 0 <= b < AXES ==>
              s.AxisOf(b) == old(if s.enabled && b == p then Visit(s.AxisOf(b), s.visible) else s.AxisOf(b))
    ensures forall b :: 0 <= b < AXES ==>
              s.Motor(b) == old(if s.enabled && b == p then Wanted(Order(hi, lo, b, s.AxisOf(b).setpoint, hold)) else s.Motor(b))
    ensures PortsOk(s) && (old(PortsFollow(s)) ==> PortsFollow(s))
    ensures Feedbacks(s.c.iram[..]) ==
            old(Feedbacks(s.c.iram[..]))[p := if p < AXES then ServoSpec.Feedback(hi, lo, OFFSETS[p], GAINS[p]) else hi]
    ensures forall b :: 0 <= b < AXES ==>
              (Has(s.c.inPosition, b) <==>
                 old(if b == p then SettledAfter(Has(s.c.inPosition, b), hi, lo, b, s.AxisOf(b), s.enabled)
                     else Has(s.c.inPosition, b)))
  {
    hide Visit, Order, Wanted, Meets, PhaseBit, RotateLeft, AndByte, OrByte, AxisBit, Field, Feedbacks;
    hide ServoSpec.Feedback, SettledAfter, Has;
    s.adc.eoc := false;
    PhaseTests(p);
    if Meets(s.phase, 0x80) || Meets(s.phase, 0x40) {
      StoreSample(s, p, hi);
    } else {
      Control(s, p, hi, lo, hold);
    }
    NextChannel(s, p);
  }

  /**
   The interrupt of an axis's phase in figures: the feedback it stores is the sample above the offset,
   scaled and cut to a byte, and the motor's two port bits are 01 exactly if that lies above the
   setpoint and 10 exactly if it lies below.
  */
  method ServeAxis(s: AxisServo, ghost p: nat, hi: byte, lo: byte, hold: bool)
    requires InPhase(s, p) && PortsOk(s) && PortsFollow(s) && p < AXES
    modifies s, s.adc, s.c.iram, s.c`inPosition, s.c`needMove, s.c`renewed
    ensures InPhase(s, (p + 1) % 8) && PortsOk(s) && PortsFollow(s) && s.enabled == old(s.enabled)
    ensures var sample, setpoint := (hi - OFFSETS[p]) * 256 + lo, old(s.c.iram[0x50 + p]);
            var scaled := sample * GAINS[p] / 0x4000;
            && s.c.iram[0x58 + p] == (if sample < lo then 0 else if scaled > 255 then 255 else scaled)
            && (s.enabled ==>
                  var pair := if p == 0 then s.portA >> 6 else if p == 1 then (s.portA >> 4) & 3
                              else if p == 2 then (s.portA >> 2) & 3 else if p == 3 then s.portA & 3
                              else if p == 4 then s.portC >> 6 else (s.portC >> 4) & 3;
                  && (pair == 1 <==> !hold && sample >= lo && scaled > setpoint)
                  && (pair == 2 <==> !hold && (sample < lo || scaled < setpoint))
                  && pair != 3)
    ensures forall i :: 0x58 <= i < 0x60 && i != 0x58 + p ==> s.c.iram[i] == old(s.c.iram[i])
  {
    AtSetpoint(s, p);
    ghost var setpoint := s.c.iram[0x50 + p];
    ghost var iram := s.c.iram[..];
    Interrupt(s, p, hi, lo, hold);
    if s.enabled {
      assert s.Motor(p) == Wanted(Order(hi, lo, p, setpoint, hold));
      DrivesTowards(s.shadowA, s.shadowC, p, hi, lo, setpoint, hold);
    }
    FeedbackCells(iram, s.c.iram[..], p, ServoSpec.Feedback(hi, lo, OFFSETS[p], GAINS[p]));
    hide Code, Wanted, Order, Field, Feedbacks, Has, Visit, SettledAfter;
  }

  /** The interrupts of the two phases without an axis store the converter's samples of the inputs. */
  method ServeInput(s: AxisServo, ghost p: nat, hi: byte, lo: byte, hold: bool)
    requires InPhase(s, p) && PortsOk(s) && PortsFollow(s) && p >= 6
    modifies s, s.adc, s.c.iram, s.c`inPosition, s.c`needMove, s.c`renewed
    ensures InPhase(s, (p + 1) % 8) && PortsOk(s) && PortsFollow(s) && s.enabled == old(s.enabled)
    ensures s.c.iram[0x58 + p] == hi
    ensures forall i :: 0x58 <= i < 0x60 && i != 0x58 + p ==> s.c.iram[i] == old(s.c.iram[i])
  {
    ghost var iram := s.c.iram[..];
    Interrupt(s, p, hi, lo, hold);
    FeedbackCells(iram, s.c.iram[..], p, hi);
    hide Code, Wanted, Order, Field, Feedbacks, Has, Visit, SettledAfter;
  }

  lemma FeedbackCells(iram: seq<byte>, iram': seq<byte>, p: nat, v: byte)
    requires |iram| == |iram'| == 0x80 && p < 8 && Feedbacks(iram') == Feedbacks(iram)[p := v]
    ensures iram'[0x58 + p] == v
    ensures forall i :: 0x58 <= i < 0x60 && i != 0x58 + p ==> iram'[i] == iram[i]
  {
    forall i | 0x58 <= i < 0x60 ensures iram'[i] == if i == 0x58 + p then v else iram[i] {
      assert Feedbacks(iram')[i - 0x58] == iram'[i] && Feedbacks(iram)[i - 0x58] == iram[i];
    }
  }

  /** A motor that is told what a pass orders turns by the sign of the error: its bit pair in figures. */
  lemma DrivesTowards(portA: bv8, portC: bv8, p: nat, hi: byte, lo: byte, setpoint: byte, hold: bool)
    requires p < AXES
    requires (if p < 4 then Field(portA, p) else Field(portC, p - 4)) == Wanted(Order(hi, lo, p, setpoint, hold))
    ensures var pair := if p == 0 then portA >> 6 else if p == 1 then (portA >> 4) & 3
                        else if p == 2 then (portA >> 2) & 3 else if p == 3 then portA & 3
                        else if p == 4 then portC >> 6 else (portC >> 4) & 3;
            var sample := (hi - OFFSETS[p]) * 256 + lo;
            && (pair == 1 <==> !hold && sample >= lo && sample * GAINS[p] / 0x4000 > setpoint)
            && (pair == 2 <==> !hold && (sample < lo || sample * GAINS[p] / 0x4000 < setpoint))
            && pair != 3
  {
    PairOf(if p < 4 then portA else portC, if p < 4 then p else p - 4);
    hide Field;
    CodeByError(hi, lo, OFFSETS[p], GAINS[p], setpoint);
  }

  /** The direction code is the sign of the error, on the sample as it was measured. */
  lemma CodeByError(hi: byte, lo: byte, offset: byte, gain: byte, setpoint: byte)
    ensures var sample := (hi - offset) * 256 + lo;
            && (Code(hi, lo, offset, gain, setpoint) == 4 <==> sample >= lo && sample * gain / 0x4000 > setpoint)
            && (Code(hi, lo, offset, gain, setpoint) == 8 <==> sample < lo || sample * gain / 0x4000 < setpoint)
  {
  }

  /** 0x00C8 to 0x00DA: the two phases without an axis; the first of them shows the latched tick to the next sweep. */
  method StoreSample(s: AxisServo, ghost p: nat, sample: byte)
    requires InPhase(s, p) && p >= 6
    modifies s`visible, s`latch, s.c.iram
    ensures s.visible == old(if p == 6 then s.latch else s.visible) && s.latch == old(p != 6 && s.latch)
    ensures forall b :: 0 <= b < AXES ==> s.AxisOf(b) == old(s.AxisOf(b))
    ensures Feedbacks(s.c.iram[..]) == old(Feedbacks(s.c.iram[..]))[p := sample]
  {
    hide Meets, PhaseBit, Feedbacks;
    PhaseTests(p);
    if !Meets(s.phase, 0x80) {
      s.visible := s.latch;
      s.latch := false;
    }
    FeedbackApart(s.c.iram[..], p, sample);
    s.c.iram[s.r0 + 0x10] := sample;
    assert s.c.iram[..] == old(s.c.iram[..])[FEEDBACK + p := sample];
    hide CellsOf, Has;
  }

  /** jump_0278: turns the mask and the pointer, and starts the next channel's conversion. */
  method NextChannel(s: AxisServo, ghost p: nat)
    requires s.Valid() && p < 8 && s.phase == PhaseBit(p) && s.r0 == 0x48 + p
    modifies s`phase, s`r0, s.adc`channel, s.adc`countdown, s.adc`started
    ensures InPhase(s, (p + 1) % 8)
    ensures s.adc.countdown == s.adc.delay && s.adc.started == old(s.adc.started) + 1
  {
    hide PhaseBit, RotateLeft, AndByte, OrByte;
    PhaseTurns(p);
    PointerTurns(p);
    s.phase := RotateLeft(s.phase);
    var a := AndByte(Inc(s.r0), 0x07);
    s.adc.StartConversion(a);
    s.r0 := OrByte(a, 0x48);
  }
}
