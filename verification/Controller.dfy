/** The controller's memories and the flag bits shared by its routines. */
module ControllerState {
  import opened Bytes
  import opened ProgramLayout
  import opened InterpreterSpec

  /** Internal RAM cells, by their hardware addresses. */
  const WAIT_LO := 0x1A
  const WAIT_HI := 0x1B
  const TARGET := 0x40
  const SETPOINT := 0x50
  const PC_LO := 0x66
  const PC_HI := 0x67
  const FACTOR := 0x70
  const END_LO := 0x76
  const END_HI := 0x77
  const SCRATCH_LO := 0x7E
  const SCRATCH_HI := 0x7F

  class Controller {
    const page: SramPage        // 0x3E; 0x3F holds page + 1
    const xram: array<byte>     // external data space
    const iram: array<byte>     // internal RAM as data bytes
    var ramOk: bool             // 28h.0
    var loaded: bool            // 28h.1
    var running: bool           // 28h.2
    var motion: bool            // 28h.3: the interpreter is running freely
    var stepping: bool          // 28h.4: one instruction is due, or being waited for
    var waitArrival: bool       // 26h.0
    var waitTime: bool          // 26h.1
    var waitInput: bool         // 26h.2
    var opcode: byte            // 27h
    var inPosition: bv8         // 21h
    var needMove: bv8           // 2Bh
    var renewed: bv8            // 2Ch
    var outputs: byte           // 1Fh
    var r7: byte                // R7 of register bank 0
    var atEnd: bool             // 2Ah.0
    var slowTick: bool          // 23h.5

    ghost predicate Valid()
    {
      xram.Length == 0x1_0000 && iram.Length == 0x80 && xram != iram
    }

    /** The program counter. */
    function Pc(): word
      requires Valid()
      reads this, iram
    {
      Pair(iram[PC_HI], iram[PC_LO])
    }

    /** The end pointer: where END stands. */
    function EndPointer(): word
      requires Valid()
      reads this, iram
    {
      Pair(iram[END_HI], iram[END_LO])
    }

    /** The interpreter's flags and masks. */
    function Control(): Control
      reads this
    {
      InterpreterSpec.Control(running, motion, stepping, waitArrival, waitTime, waitInput,
                              opcode, inPosition, needMove, renewed, outputs, r7)
    }

    /** MOVX @DPTR, A. */
    method Store(a: word, v: byte)
      requires Valid()
      modifies xram
      ensures xram[..] == old(xram[..])[a := v]
    {
      xram[a] := v;
    }

    constructor (page: SramPage)
      ensures Valid() && fresh(xram) && fresh(iram) && this.page == page
    {
      this.page := page;
      xram := new byte[0x1_0000];
      iram := new byte[0x80];
    }
  }
}
