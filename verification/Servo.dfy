/** The axis servo interrupt (0x00C0): calibration, motor ports, setpoint generator, round robin. */
module Servo {
  import opened Bytes
  import opened ControllerState
  import opened InterpreterSpec
  import opened ServoSpec
  import opened Adc

  const FEEDBACK: nat := 0x58
  const COUNTDOWN: nat := 0x78
  const CALIBRATION: seq<byte> := [
    0x38, 0x00, 0x7C, 0x50, 0x00, 0xC2, 0x49, 0x00, 0xCD, 0x17, 0x00, 0x54, 0x18, 0x00, 0x53, 0x70, 0x00, 0xFA]
  const CALIBRATION_AT: nat := 0x01CB
  const PULSES: seq<byte> := [0x82, 0x85, 0x84, 0x03, 0x03, 0x02, 0x01, 0x01, 0x01, 0x01]
  const PORT_MASKS_AT: nat := 0x0203

  /** The table at 0x0203: AND masks of four motors, then OR masks for off, one way and the other. */
  function PortMask(k: nat): bv8
    requires k < 17
  {
    match k
    case 0 => 0x3F case 1 => 0xCF case 2 => 0xF3 case 3 => 0xFC
    case 9 => 0x40 case 10 => 0x10 case 11 => 0x04 case 12 => 0x01
    case 13 => 0x80 case 14 => 0x20 case 15 => 0x08 case 16 => 0x02
    case _ => 0x00
  }

  /** The three outputs a motor's bit pair can ask for, and the one it must never ask for. */
  datatype Drive = Off | A | B | Both

  /** The mask byte operations ANL with a complement, ORL, and ANL with a test for zero. */
  function Clear(m: bv8, bits: bv8): bv8 { m & !bits }

  function Join(m: bv8, bits: bv8): bv8 { m | bits }

  predicate Meets(m: bv8, bits: bv8) { m & bits != 0 }

  /** Axis a's bit is set in the mask m. */
  predicate Has(m: bv8, a: nat)
    requires a < AXES
  {
    Meets(m, AxisBit(a))
  }

  /** The setpoint generator's view of axis a, from internal RAM and the three masks. */
  function AxisAt(iram: seq<byte>, need: bv8, renewed: bv8, rising: bv8, a: nat): Axis
    requires |iram| == 0x80 && a < AXES
  {
    AxisFrom(CellsOf(iram, a), Has(need, a), Has(renewed, a), Has(rising, a))
  }

  /** The feedback of the six axes, and the converter's two other channels. */
  function Feedbacks(iram: seq<byte>): (r: seq<byte>)
    requires |iram| == 0x80
    ensures |r| == 8
  {
    iram[FEEDBACK..FEEDBACK + 8]
  }

  /** Setpoint, target, time factor and countdown of an axis. */
  type Cells = (byte, byte, byte, byte)

  function AxisFrom(x: Cells, need: bool, renewed: bool, up: bool): Axis {
    Axis(need, renewed, up, x.0, x.1, x.2, x.3)
  }

  function CellsOf(iram: seq<byte>, a: nat): Cells
    requires |iram| == 0x80 && a < AXES
  {
    (iram[SETPOINT + a], iram[TARGET + a], iram[FACTOR + a], iram[COUNTDOWN + a])
  }

  class AxisServo {
    const c: Controller
    const adc: Converter
    var r0: byte               // R0 of register bank 1
    var phase: bv8             // 22h
    var rising: bv8            // 2Dh
    var enabled: bool          // 20h.0
    var latch: bool            // 23h.4: a timer tick has come
    var visible: bool          // 23h.3: the tick this sweep sees
    var shadowA: bv8           // 4Eh
    var shadowC: bv8           // 4Fh
    var portA: bv8
    var portC: bv8

    constructor (c: Controller, adc: Converter)
      ensures this.c == c && this.adc == adc && r0 == 0x48 && phase == 1
      ensures shadowA == shadowC == portA == portC == 0 && !latch && !visible
    {
      this.c := c;
      this.adc := adc;
      r0, phase, rising := 0x48, 1, 0;
      enabled, latch, visible := false, false, false;
      shadowA, shadowC, portA, portC := 0, 0, 0, 0;
    }

    ghost predicate Valid()
      reads this, c, adc
    {
      c.Valid() && adc.Valid()
    }

    /** The setpoint generator's view of axis a. */
    function AxisOf(a: nat): Axis
      requires c.Valid() && a < AXES
      reads this`rising, c`needMove, c`renewed, c.iram
    {
      AxisAt(c.iram[..], c.needMove, c.renewed, rising, a)
    }

    /** What axis a's motor is told by the port shadows. */
    function Motor(a: nat): Drive
      requires a < AXES
      reads this`shadowA, this`shadowC
    {
      if a < 4 then Field(shadowA, a) else Field(shadowC, a - 4)
    }
  }

  /** The bit pair of motor i, counted from the port's high end. */
  function Field(port: bv8, i: nat): Drive
    requires i < 4
  {
    var a := port & PortMask(9 + i) != 0;
    var b := port & PortMask(13 + i) != 0;
    if a then (if b then Both else A) else if b then B else Off
  }
}
