/** What executing the instruction at the program counter means, opcode class by opcode class. */
module InterpreterSpec {
  import opened Bytes
  import opened ProgramLayout

  /** The interpreter's flags and masks, as one value. */
  datatype Control = Control(
    running: bool, motion: bool, stepping: bool,
    waitArrival: bool, waitTime: bool, waitInput: bool,
    opcode: byte, inPosition: bv8, needMove: bv8, renewed: bv8, outputs: byte, r7: byte)

  predicate IsHalt(op: byte) { op >= 0x80 }

  /** Timed move of all axes: setpoints in one slot, time factors in the next. */
  predicate IsDouble(op: byte) { 0x60 <= op < 0x80 && op % 8 == 7 }

  predicate IsJump(op: byte) { 0x32 <= op < 0x38 }

  predicate IsCounted(op: byte) { op == 0x36 || op == 0x37 }

  /** Counter and limit of the counted GOTO at pc; it falls through when the incremented counter meets the limit. */
  predicate FallsThrough(mem: Memory, pc: word)
    requires pc < 0xFF00
  {
    Inc(mem[pc + 3]) == mem[pc + 2]
  }

  /** Whether the jump instruction at pc is taken on input port value p1. */
  predicate Taken(mem: Memory, pc: word, p1: byte)
    requires pc < 0xFF00
  {
    match mem[pc]
    case 0x32 => OrByte(mem[pc + 2], p1) == 0xFF
    case 0x33 => AndByte(mem[pc + 2], p1) == 0
    case 0x34 => true
    case 0x35 => true
    case _ => IsCounted(mem[pc]) && !FallsThrough(mem, pc)
  }

  function NextPc(mem: Memory, p: SramPage, pc: word, p1: byte): word
    requires pc < 0xFF00
  {
    var op := mem[pc];
    if IsHalt(op) then pc
    else if IsJump(op) && Taken(mem, pc, p1) then TableEntry(mem, p, mem[pc + 1])
    else if IsDouble(op) then pc + 16
    else pc + 8
  }

  function NextMem(mem: Memory, pc: word): Memory
    requires pc < 0xFF00
  {
    if !IsCounted(mem[pc]) then mem
    else mem[pc + 3 := if FallsThrough(mem, pc) then 0 else Inc(mem[pc + 3])]
  }

  /** Axis a's bit in the masks, from the table at 0x09A3; entry 6 is the byte that follows the table. */
  function AxisBit(a: nat): bv8
    requires a < 7
  {
    match a
    case 0 => 0x01 case 1 => 0x02 case 2 => 0x04 case 3 => 0x08 case 4 => 0x10 case 5 => 0x20 case _ => 0xA3
  }

  /** OR, AND, XOR or plain replacement of the digital outputs. */
  function NewOutputs(code: nat, outputs: byte, x: byte): byte {
    if code == 1 then OrByte(outputs, x)
    else if code == 2 then AndByte(outputs, x)
    else if code == 3 then XorByte(outputs, x)
    else x
  }

  /** The mask bits of a timed move. */
  function MoveMask(op: byte): bv8 { if op % 8 == 7 then 0x3F else AxisBit(op % 8) }

  /** The axes of a timed move get under way, and the program waits for arrival if bit 3 asks for it. */
  function Started(c: Control, op: byte): Control {
    c.(waitArrival := Bit3(op), stepping := Bit3(op), needMove := c.needMove | MoveMask(op), renewed := c.renewed | MoveMask(op))
  }

  /** A timed move leaves the size of its instruction in R7. */
  function MoveControl(c: Control, op: byte): Control {
    Started(c.(r7 := if op % 8 == 7 then 16 else 8), op)
  }

  /** Opcodes 0x10 to 0x1F: set the outputs, wait for a time, or mark a label. */
  function MiscellaneousControl(c: Control, op: byte, x: byte): Control {
    if op < 0x18 then c.(outputs := NewOutputs(op % 4, c.outputs, x))
    else if op < 0x1C then c.(waitTime := true, stepping := true)
    else c
  }

  /** Opcodes 0x20 to 0x3F: the wait for inputs keeps its operand in R7, a counted GOTO its limit. */
  function BranchControl(c: Control, op: byte, x: byte, limit: byte): Control {
    if op == 0x30 || op == 0x31 then c.(waitInput := true, stepping := true, r7 := x)
    else if IsCounted(op) then c.(r7 := limit)
    else c
  }

  function NextControl(c: Control, mem: Memory, pc: word): Control
    requires pc < 0xFF00
  {
    var op := mem[pc];
    var c := c.(stepping := false, opcode := op);
    if IsHalt(op) then c.(running := false, motion := false)
    else if op >= 0x60 then MoveControl(c, op)
    else if op >= 0x40 then c.(motion := false)
    else if op < 0x10 then c.(inPosition := 0, waitArrival := Bit3(op), stepping := Bit3(op), r7 := 0)
    else if op < 0x20 then MiscellaneousControl(c, op, mem[pc + 1])
    else BranchControl(c, op, mem[pc + 1], mem[pc + 2])
  }

  /** Copies n bytes of memory from src into internal RAM at dst. */
  function Copied(iram: seq<byte>, dst: nat, mem: Memory, src: word, n: nat): seq<byte>
    requires |iram| == 0x80 && dst + n <= 0x80 && src + n <= 0xFFFF
  {
    iram[..dst] + mem[src..src + n] + iram[dst + n..]
  }

  /** Positions, time factors and wait counters the instruction at pc loads; outputs leave DPH in the scratch cell 0x7F. */
  function Loaded(iram: seq<byte>, mem: Memory, pc: word): (r: seq<byte>)
    requires |iram| == 0x80 && pc < 0xFF00
    ensures |r| == 0x80
  {
    var op := mem[pc];
    var a := op % 8;
    if op < 0x10 then
      if a == 7 then Copied(iram, 0x50, mem, pc + 1, 6) else iram[0x50 + a := mem[pc + 1]]
    else if 0x10 <= op < 0x18 then iram[0x7F := Hi(pc + 1)]
    else if 0x18 <= op < 0x1C then iram[0x1A := mem[pc + 1]][0x1B := Inc(mem[pc + 2])]
    else if 0x60 <= op < 0x80 then
      if a == 7 then Copied(Copied(iram, 0x40, mem, pc + 1, 6), 0x70, mem, pc + 9, 6)
      else iram[0x40 + a := mem[pc + 1]][0x70 + a := mem[pc + 2]]
    else iram
  }

  function NotWaiting(c: Control): Control { c.(waitArrival := false, waitTime := false, waitInput := false) }

  /** The flags after a start that has found the program acceptable, or not. */
  function AfterStart(c: Control, accepted: bool): Control {
    if accepted then c.(running := true, motion := true, outputs := 0xFF)
    else c.(running := false, motion := false, stepping := false)
  }

  /** The flags once the program has been stopped. */
  function Stopped(c: Control): Control { NotWaiting(c).(running := false, motion := false, stepping := false) }

  predicate Waiting(c: Control) { c.waitArrival || c.waitTime || c.waitInput }

  /** The wait the interpreter is in ends on this pass; lo and hi are the wait counters. */
  predicate WaitEnds(c: Control, p1: byte, slowTick: bool, lo: byte, hi: byte) {
    if c.waitArrival then c.inPosition == 0x3F && c.needMove == 0
    else if c.waitTime then slowTick && lo == 1 && hi == 1
    else if Bit0(c.opcode) then AndByte(p1, c.r7) == 0
    else OrByte(p1, c.r7) == 0xFF
  }

  /** The wait counters after a pass that waits: a timed wait counts one slow tick in two bytes. */
  function WaitTicked(c: Control, slowTick: bool, iram: seq<byte>): (r: seq<byte>)
    requires |iram| == 0x80
    ensures |r| == 0x80
  {
    if !c.waitArrival && c.waitTime && slowTick then
      var r := iram[0x1A := Dec(iram[0x1A])];
      if r[0x1A] == 0 then r[0x1B := Dec(r[0x1B])] else r
    else iram
  }
}
