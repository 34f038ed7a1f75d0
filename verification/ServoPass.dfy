/** One servo interrupt, phase by phase. */
module ServoPass {
  import opened Bytes
  import opened ControllerState
  import opened InterpreterSpec
  import opened ServoSpec
  import opened Adc
  import opened Servo
  import opened Calibration

  /** Which way the motor has to turn: 0 for off, 4 and 8 for its two directions. */
  function Code(hi: byte, lo: byte, offset: byte, gain: byte, setpoint: byte): (code: byte)
    ensures code in {0, 4, 8}
  {
    if hi < offset then 8
    else if Raw(hi, lo, offset, gain) > 255 then 4
    else if Raw(hi, lo, offset, gain) == setpoint then 0
    else if Raw(hi, lo, offset, gain) < setpoint then 8
    else 4
  }

  function Wanted(code: byte): Drive { if code == 4 then A else if code == 8 then B else Off }

  /** 0x00DF: fetches the axis's offset and gain with two MOVCs. */
  method FetchCalibration(r1: byte) returns (offset: byte, gain: byte)
    requires FEEDBACK <= r1 < FEEDBACK + AXES
    ensures offset == OFFSETS[r1 - FEEDBACK] && gain == GAINS[r1 - FEEDBACK]
  {
    var a: int := (r1 as int * 2 + r1 + 0xDE) % 256;
    offset := CALIBRATION[0x00E5 + a - CALIBRATION_AT];
    gain := CALIBRATION[0x00E7 + a - CALIBRATION_AT];
  }

  /** 0x010E to 0x0145: the error's size and direction code, if it is small enough to be looked up. */
  method Compare(band: Band, fb: byte, acc: byte, setpoint: byte) returns (code: byte, looked: bool, e: byte)
    requires band == Inside ==> acc == fb
    ensures band == Below ==> code == 8 && !looked
    ensures band == FarAbove ==> code == 4 && !looked
    ensures band == Above ==> code == 4 && e == acc && (looked <==> acc < 10)
    ensures band == Inside ==> code == (if fb == setpoint then 0 else if fb < setpoint then 8 else 4)
                               && e == Distance(fb, setpoint) && (looked <==> Distance(fb, setpoint) < 10)
  {
    if band == Below {
      return 8, false, 0;
    } else if band == FarAbove {
      return 4, false, 0;
    } else if band == Above {
      code, e := 4, acc;
    } else {
      var borrow := acc < setpoint;
      var a: byte := (acc - setpoint + 256) as int % 256;
      if a == 0 {
        return 0, true, 0;
      }
      if borrow {
        code, e := 8, Inc(255 - a);
      } else {
        code, e := 4, a;
      }
    }
    looked := e < 10;
  }

  /** 0x0145: bit 7 of the pulse table says whether the error is small enough to count as arrived. */
  method Judge(hi: byte, lo: byte, offset: byte, gain: byte, setpoint: byte) returns (fb: byte, code: byte, arrived: bool)
    ensures fb == ServoSpec.Feedback(hi, lo, offset, gain)
    ensures code == Code(hi, lo, offset, gain, setpoint)
    ensures arrived <==> MarksInPosition(hi, lo, offset, gain, setpoint)
  {
    hide Raw;
    var band, acc;
    band, fb, acc := Measure(hi, lo, offset, gain);
    var looked, e;
    code, looked, e := Compare(band, fb, acc, setpoint);
    PulseBits(e);
    arrived := looked && PULSES[e] >= 0x80;
  }

  lemma PulseBits(e: byte)
    ensures e < 10 ==> (PULSES[e] >= 0x80 <==> e <= 2)
  {
  }

  /** The feedback half of a pass: stores the calibrated feedback and marks an axis in position. */
  method Calibrate(s: AxisServo, ghost a: nat, hi: byte, lo: byte) returns (code: byte)
    requires s.Valid() && a < AXES && s.r0 == 0x48 + a && s.phase == AxisBit(a)
    modifies s.c.iram, s.c`inPosition
    ensures s.c.iram[..] == old(s.c.iram[..])[FEEDBACK + a := ServoSpec.Feedback(hi, lo, OFFSETS[a], GAINS[a])]
    ensures code == Code(hi, lo, OFFSETS[a], GAINS[a], s.c.iram[SETPOINT + a])
    ensures s.c.inPosition == if MarksInPosition(hi, lo, OFFSETS[a], GAINS[a], s.c.iram[SETPOINT + a])
                              then With(old(s.c.inPosition), a, true) else old(s.c.inPosition)
  {
    hide Raw, AxisBit, ServoSpec.Feedback, Code, MarksInPosition;
    var r1 := s.r0 + 0x10;
    var offset, gain := FetchCalibration(r1);
    var fb, arrived;
    fb, code, arrived := Judge(hi, lo, offset, gain, s.c.iram[r1 - FEEDBACK + SETPOINT]);
    s.c.iram[r1] := fb;
    if arrived {
      s.c.inPosition := Join(s.c.inPosition, s.phase);
    }
  }

  /** The AND and OR of jump_01B9 on one motor's two bits, on another's, and on the unused half of Port C. */
  lemma FieldSet(port: bv8, i: nat, code: byte)
    requires i < 4 && code in {0, 4, 8}
    ensures Field((port & PortMask(i)) | PortMask(5 + code + i), i) == Wanted(code)
    ensures i < 2 && port & 0x0F == 0 ==> ((port & PortMask(i)) | PortMask(5 + code + i)) & 0x0F == 0
  {
    assert i == 0 || i == 1 || i == 2 || i == 3;
  }

  lemma FieldKept(port: bv8, i: nat, code: byte, j: nat)
    requires i < 4 && j < 4 && i != j && code in {0, 4, 8}
    ensures Field((port & PortMask(i)) | PortMask(5 + code + i), j) == Field(port, j)
  {
    MasksApart(i, code, 9 + j);
    MasksApart(i, code, 13 + j);
    BitKept(port, PortMask(i), PortMask(5 + code + i), PortMask(9 + j));
    BitKept(port, PortMask(i), PortMask(5 + code + i), PortMask(13 + j));
    hide PortMask;
  }

  lemma BitKept(port: bv8, mask: bv8, bits: bv8, b: bv8)
    requires mask & b == b && bits & b == 0
    ensures ((port & mask) | bits) & b == port & b
  {
  }

  lemma MasksApart(i: nat, code: byte, k: nat)
    requires i < 4 && code in {0, 4, 8} && 9 <= k < 17 && k != 9 + i && k != 13 + i
    ensures PortMask(i) & PortMask(k) == PortMask(k) && PortMask(5 + code + i) & PortMask(k) == 0
  {
    assert i == 0 || i == 1 || i == 2 || i == 3;
    assert k == 9 || k == 10 || k == 11 || k == 12 || k == 13 || k == 14 || k == 15 || k == 16;
  }

  /** No motor is driven both ways, and the unused half of Port C stays clear. */
  ghost predicate PortsOk(s: AxisServo)
    reads s`shadowA, s`shadowC
  {
    (forall a :: 0 <= a < AXES ==> s.Motor(a) != Both) && s.shadowC & 0x0F == 0
  }

  /** jump_01B9: both table lookups are relative to the code's own place; x is 0x48 plus the motor's place on the port. */
  method UpdatePort(port: bv8, x: byte, code: byte) returns (port': bv8)
    requires 0x48 <= x < 0x4C && code in {0, 4, 8}
    ensures forall j :: 0 <= j < 4 ==> Field(port', j) == if j == x - 0x48 then Wanted(code) else Field(port, j)
    ensures x < 0x4A && port & 0x0F == 0 ==> port' & 0x0F == 0
  {
    hide PortMask, Field, Wanted;
    var i := x - 0x48;
    FieldSet(port, i, code);
    forall j | 0 <= j < 4 && j != i ensures Field((port & PortMask(i)) | PortMask(5 + code + i), j) == Field(port, j) {
      FieldKept(port, i, code, j);
    }
    port' := MaskPort(port, x, code);
  }

  /** The two look-ups; in figures, they put 01 for code 4, 10 for code 8 and 00 for code 0 into the motor's two bits. */
  method MaskPort(port: bv8, x: byte, code: byte) returns (port': bv8)
    requires 0x48 <= x < 0x4C && code in {0, 4, 8}
    ensures var i := x - 0x48; port' == (port & PortMask(i)) | PortMask(5 + code + i)
    ensures var pair: bv8 := if code == 4 then 1 else if code == 8 then 2 else 0;
            && (x == 0x48 ==> port' == (port & 0x3F) | (pair << 6))
            && (x == 0x49 ==> port' == (port & 0xCF) | (pair << 4))
            && (x == 0x4A ==> port' == (port & 0xF3) | (pair << 2))
            && (x == 0x4B ==> port' == (port & 0xFC) | pair)
  {
    port' := LookUp(port, x, code);
    PairSet(port, x, code);
    hide PortMask;
  }

  method LookUp(port: bv8, x: byte, code: byte) returns (port': bv8)
    requires 0x48 <= x < 0x4C && code in {0, 4, 8}
    ensures var i := x - 0x48; port' == (port & PortMask(i)) | PortMask(5 + code + i)
  {
    hide PortMask;
    port' := port & PortMask(0x01BB + x - PORT_MASKS_AT);
    port' := port' | PortMask(0x01C0 + code + x - PORT_MASKS_AT);
  }

  /** The masks of each motor in figures: 01 in its bit pair for one direction, 10 for the other. */
  lemma PairSet(port: bv8, x: byte, code: byte)
    requires 0x48 <= x < 0x4C && code in {0, 4, 8}
    ensures var pair: bv8 := if code == 4 then 1 else if code == 8 then 2 else 0;
            var i := x - 0x48;
            var port' := (port & PortMask(i)) | PortMask(5 + code + i);
            && (x == 0x48 ==> port' == (port & 0x3F) | (pair << 6))
            && (x == 0x49 ==> port' == (port & 0xCF) | (pair << 4))
            && (x == 0x4A ==> port' == (port & 0xF3) | (pair << 2))
            && (x == 0x4B ==> port' == (port & 0xFC) | pair)
  {
  }

  /** A motor's field is its bit pair read as a number. */
  lemma PairOf(port: bv8, i: nat)
    requires i < 4
    ensures var pair := if i == 0 then port >> 6 else if i == 1 then (port >> 4) & 3
                        else if i == 2 then (port >> 2) & 3 else port & 3;
            Field(port, i) == if pair == 1 then A else if pair == 2 then B else if pair == 3 then Both else Off
  {
  }

  /** jump_01A5 to 0x01C2: read-modify-write of the port the axis's motor belongs to. */
  method WriteMotor(s: AxisServo, ghost a: nat, code: byte)
    requires a < AXES && s.r0 == 0x48 + a && code in {0, 4, 8} && PortsOk(s)
    modifies s`shadowA, s`shadowC, s`portA, s`portC
    ensures s.Motor(a) == Wanted(code)
    ensures forall b :: 0 <= b < AXES && b != a ==> s.Motor(b) == old(s.Motor(b))
    ensures PortsOk(s)
    ensures if a < 4 then s.portA == s.shadowA && s.portC == old(s.portC) && s.shadowC == old(s.shadowC)
            else s.portC == s.shadowC && s.portA == old(s.portA) && s.shadowA == old(s.shadowA)
  {
    hide Field;
    var x := s.r0;
    assert Bit2(x) <==> a >= 4;
    if Bit2(x) {
      s.shadowC := UpdatePort(s.shadowC, x - 4, code);
      s.portC := s.shadowC;
    } else {
      s.shadowA := UpdatePort(s.shadowA, x, code);
      s.portA := s.shadowA;
    }
  }

  /** The pointer arithmetic of 0x0213-0x0276: one axis's cells reached by setting and clearing bits. */
  lemma CellsUp(a: nat)
    requires a < AXES
    ensures OrByte(0x48 + a, 0x78) == COUNTDOWN + a && OrByte(0x70 + a, 0x78) == COUNTDOWN + a
  {
    assert AndByte(22, 16) == 16;
    assert AndByte(17, 16) == 16;
    hide AndByte, OrByte;
    OrAbove(9, 15, a);
    OrAbove(14, 15, a);
  }

  lemma CellsAcross(a: nat)
    requires a < AXES
    ensures OrByte(0x40 + a, 0x50) == SETPOINT + a && OrByte(0x50 + a, 0x70) == FACTOR + a
  {
    assert AndByte(23, 21) == 21;
    assert AndByte(21, 17) == 17;
    hide AndByte, OrByte;
    OrAbove(8, 10, a);
    OrAbove(10, 14, a);
  }

  lemma CellsDown(a: nat)
    requires a < AXES
    ensures AndByte(0x78 + a, 0x77) == FACTOR + a && AndByte(0x78 + a, 0x57) == SETPOINT + a
  {
    assert AndByte(15, 14) == 14;
    assert AndByte(15, 10) == 10;
    hide AndByte, OrByte;
    LowBits(15, 14, a);
    LowBits(15, 10, a);
  }

  lemma CellsBack(a: nat)
    requires a < AXES
    ensures AndByte(0x50 + a, 0x47) == TARGET + a && AndByte(0x48 + a, 0x47) == TARGET + a
  {
    assert AndByte(10, 8) == 8;
    assert AndByte(9, 8) == 8;
    hide AndByte, OrByte;
    LowBits(10, 8, a);
    LowBits(9, 8, a);
  }

  lemma CellsHome(a: nat)
    requires a < AXES
    ensures AndByte(0x70 + a, 0x57) == SETPOINT + a
  {
    assert AndByte(14, 10) == 10;
    hide AndByte, OrByte;
    LowBits(14, 10, a);
  }

  /** Clearing one axis's bit leaves the others' alone. */
  lemma MaskClear(m: bv8, a: nat, b: nat)
    requires a < AXES && b < AXES
    ensures Has(Clear(m, AxisBit(a)), b) <==> a != b && Has(m, b)
  {
    match a {
      case 0 => MaskClear0(m, 0x01, b);
      case 1 => MaskClear0(m, 0x02, b);
      case 2 => MaskClear0(m, 0x04, b);
      case 3 => MaskClear0(m, 0x08, b);
      case 4 => MaskClear0(m, 0x10, b);
      case 5 => MaskClear0(m, 0x20, b);
    }
  }

  lemma MaskClear0(m: bv8, bits: bv8, b: nat)
    requires b < AXES && (bits == AxisBit(b) || bits & AxisBit(b) == 0)
    ensures Has(Clear(m, bits), b) <==> bits != AxisBit(b) && Has(m, b)
  {
    assert b == 0 || b == 1 || b == 2 || b == 3 || b == 4 || b == 5;
  }

  /** So does setting it. */
  lemma MaskJoin(m: bv8, a: nat, b: nat)
    requires a < AXES && b < AXES
    ensures Has(Join(m, AxisBit(a)), b) <==> a == b || Has(m, b)
  {
    assert a == 0 || a == 1 || a == 2 || a == 3 || a == 4 || a == 5;
    assert b == 0 || b == 1 || b == 2 || b == 3 || b == 4 || b == 5;
  }

  /** Setpoint, target, time factor and countdown after a visit that counts down, and whether it arrives. */
  function Ticked(x: Cells, up: bool): Cells {
    if Dec(x.3) != 0 then (x.0, x.1, x.2, Dec(x.3)) else (if up then Inc(x.0) else Dec(x.0), x.1, x.2, x.2)
  }

  predicate Arrives(x: Cells, up: bool) { Dec(x.3) == 0 && Ticked(x, up).0 == x.1 }

  /** The same after the first visit that follows a command, and whether nothing is left to do. */
  function Started(x: Cells): Cells {
    if x.0 == x.1 then x else if x.2 == 0 then (x.1, x.1, x.2, x.3) else (x.0, x.1, x.2, x.2)
  }

  predicate IsDone(x: Cells) { x.0 == x.1 || x.2 == 0 }

  /** Visit, spelled out on cells and bits. */
  lemma VisitByCells(x: Cells, need: bool, renewed: bool, up: bool, tick: bool)
    ensures Visit(AxisFrom(x, need, renewed, up), tick) ==
            if !need || (!renewed && !tick) then AxisFrom(x, need, renewed, up)
            else if renewed then AxisFrom(Started(x), !IsDone(x), false, if IsDone(x) then up else x.0 < x.1)
            else AxisFrom(Ticked(x, up), !Arrives(x, up), false, up)
  {
  }

  /** 0x021B to 0x023B: counts down, and at zero reloads the countdown and steps the setpoint. */
  method StepSetpoint(c: Controller, ghost a: nat, r0: byte, up: bool) returns (arrived: bool)
    requires c.Valid() && a < AXES && r0 == 0x48 + a
    modifies c.iram
    ensures CellsOf(c.iram[..], a) == old(Ticked(CellsOf(c.iram[..], a), up))
    ensures arrived <==> old(Arrives(CellsOf(c.iram[..], a), up))
    ensures forall b :: 0 <= b < AXES && b != a ==> CellsOf(c.iram[..], b) == old(CellsOf(c.iram[..], b))
    ensures Feedbacks(c.iram[..]) == old(Feedbacks(c.iram[..]))
  {
    hide AndByte, OrByte;
    CellsUp(a);
    CellsDown(a);
    CellsBack(a);
    var r1 := OrByte(r0, 0x78);
    c.iram[r1] := Dec(c.iram[r1]);
    if c.iram[r1] != 0 {
      return false;
    }
    r1 := AndByte(r1, 0x77);
    var factor := c.iram[r1];
    r1 := OrByte(r1, 0x78);
    c.iram[r1] := factor;
    r1 := AndByte(r1, 0x57);
    if up {
      c.iram[r1] := Inc(c.iram[r1]);
    } else {
      c.iram[r1] := Dec(c.iram[r1]);
    }
    var setpoint := c.iram[r1];
    r1 := AndByte(r1, 0x47);
    arrived := setpoint == c.iram[r1];
  }

  /** 0x0249 to 0x0270: nothing to do, one jump when the time factor is zero, or a first countdown. */
  method StartSetpoint(c: Controller, ghost a: nat, r0: byte) returns (done: bool, up: bool)
    requires c.Valid() && a < AXES && r0 == 0x48 + a
    modifies c.iram
    ensures CellsOf(c.iram[..], a) == old(Started(CellsOf(c.iram[..], a)))
    ensures done <==> old(IsDone(CellsOf(c.iram[..], a)))
    ensures up <==> old(CellsOf(c.iram[..], a).0 < CellsOf(c.iram[..], a).1)
    ensures forall b :: 0 <= b < AXES && b != a ==> CellsOf(c.iram[..], b) == old(CellsOf(c.iram[..], b))
    ensures Feedbacks(c.iram[..]) == old(Feedbacks(c.iram[..]))
  {
    hide AndByte, OrByte;
    CellsBack(a);
    CellsAcross(a);
    CellsUp(a);
    CellsHome(a);
    var r1 := AndByte(r0, 0x47);
    var target := c.iram[r1];
    r1 := OrByte(r1, 0x50);
    up := c.iram[r1] < target;
    if c.iram[r1] == target {
      return true, up;
    }
    r1 := OrByte(r1, 0x70);
    var factor := c.iram[r1];
    if factor == 0 {
      r1 := AndByte(r1, 0x57);
      c.iram[r1] := target;
      return true, up;
    }
    r1 := OrByte(r1, 0x78);
    c.iram[r1] := factor;
    done := false;
  }

  /** The mask m with axis a's bit set as asked for. */
  function With(m: bv8, a: nat, bit: bool): bv8
    requires a < AXES
  {
    if bit then Join(m, AxisBit(a)) else Clear(m, AxisBit(a))
  }

  lemma WithBits(m: bv8, a: nat, bit: bool)
    requires a < AXES
    ensures forall b :: 0 <= b < AXES ==> (Has(With(m, a, bit), b) <==> if b == a then bit else Has(m, b))
  {
    forall b | 0 <= b < AXES ensures Has(With(m, a, bit), b) <==> if b == a then bit else Has(m, b) {
      MaskClear(m, a, b);
      MaskJoin(m, a, b);
    }
  }

  /** jump_0216: a visit to an axis under way. */
  method Advance(s: AxisServo, ghost a: nat)
    requires s.Valid() && a < AXES && s.r0 == 0x48 + a && s.phase == AxisBit(a)
    modifies s.c.iram, s.c`needMove
    ensures CellsOf(s.c.iram[..], a) == old(if s.visible then Ticked(CellsOf(s.c.iram[..], a), Has(s.rising, a))
                                            else CellsOf(s.c.iram[..], a))
    ensures s.c.needMove == old(if s.visible && Arrives(CellsOf(s.c.iram[..], a), Has(s.rising, a))
                                then With(s.c.needMove, a, false) else s.c.needMove)
    ensures forall b :: 0 <= b < AXES && b != a ==> CellsOf(s.c.iram[..], b) == old(CellsOf(s.c.iram[..], b))
    ensures Feedbacks(s.c.iram[..]) == old(Feedbacks(s.c.iram[..]))
  {
    hide AxisBit, Meets, Clear, Join, CellsOf, Ticked, Arrives;
    if !s.visible {
      return;
    }
    var arrived := StepSetpoint(s.c, a, s.r0, Meets(s.rising, s.phase));
    if arrived {
      s.c.needMove := Clear(s.c.needMove, s.phase);
    }
  }

  /** jump_0246: the first visit after a command. */
  method Begin(s: AxisServo, ghost a: nat)
    requires s.Valid() && a < AXES && s.r0 == 0x48 + a && s.phase == AxisBit(a)
    modifies s.c.iram, s.c`needMove, s.c`renewed, s.c`inPosition, s`rising
    ensures CellsOf(s.c.iram[..], a) == old(Started(CellsOf(s.c.iram[..], a)))
    ensures s.c.renewed == old(With(s.c.renewed, a, false))
    ensures s.c.needMove == old(if IsDone(CellsOf(s.c.iram[..], a)) then With(s.c.needMove, a, false) else s.c.needMove)
    ensures s.c.inPosition == old(if IsDone(CellsOf(s.c.iram[..], a)) then With(s.c.inPosition, a, false) else s.c.inPosition)
    ensures s.rising == old(if IsDone(CellsOf(s.c.iram[..], a)) then s.rising
                            else With(s.rising, a, CellsOf(s.c.iram[..], a).0 < CellsOf(s.c.iram[..], a).1))
    ensures forall b :: 0 <= b < AXES && b != a ==> CellsOf(s.c.iram[..], b) == old(CellsOf(s.c.iram[..], b))
    ensures Feedbacks(s.c.iram[..]) == old(Feedbacks(s.c.iram[..]))
  {
    hide AxisBit, Meets, Clear, Join, CellsOf, Started, IsDone;
    s.c.renewed := Clear(s.c.renewed, s.phase);
    var done, up := StartSetpoint(s.c, a, s.r0);
    if done {
      s.c.needMove := Clear(s.c.needMove, s.phase);
      s.c.inPosition := Clear(s.c.inPosition, s.phase);
    } else if up {
      s.rising := Join(s.rising, s.phase);
    } else {
      s.rising := Clear(s.rising, s.phase);
    }
  }

  /** 0x01C3 to jump_0278: one visit of the setpoint generator to the axis of this phase. */
  method Generate(s: AxisServo, ghost a: nat)
    requires s.Valid() && a < AXES && s.r0 == 0x48 + a && s.phase == AxisBit(a)
    modifies s.c.iram, s.c`needMove, s.c`renewed, s.c`inPosition, s`rising
    ensures s.AxisOf(a) == old(Visit(s.AxisOf(a), s.visible))
    ensures forall b :: 0 <= b < AXES && b != a ==> s.AxisOf(b) == old(s.AxisOf(b))
    ensures Feedbacks(s.c.iram[..]) == old(Feedbacks(s.c.iram[..]))
    ensures s.c.inPosition == if old(Has(s.c.needMove, a) && Has(s.c.renewed, a) && IsDone(CellsOf(s.c.iram[..], a)))
                              then old(With(s.c.inPosition, a, false)) else old(s.c.inPosition)
  {
    hide AxisBit, Meets, Clear, Join, With, CellsOf, Started, IsDone, Ticked, Arrives, Visit;
    VisitByCells(CellsOf(s.c.iram[..], a), Has(s.c.needMove, a), Has(s.c.renewed, a), Has(s.rising, a), s.visible);
    hide AxisFrom;
    WithBits(s.c.needMove, a, false);
    WithBits(s.c.renewed, a, false);
    WithBits(s.rising, a, true);
    WithBits(s.rising, a, false);
    if !Meets(s.c.needMove, s.phase) {
      return;
    }
    if Meets(s.c.renewed, s.phase) {
      Begin(s, a);
    } else {
      Advance(s, a);
    }
  }
}
