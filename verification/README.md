# ROB3 firmware: a verified model

This project models the firmware of the ROB3 robot controller (8031 assembly), three of the simulator devices around it,
and the disassembler that produces its annotated sources, and proves what they are relied on for. Internal RAM and
external memory are arrays of bytes; registers, flag bits and counters are fields; every routine is a method with the
source's own loops and 8-bit arithmetic. Each method is proved against a function on values, and the laws are lemmas
about those functions or invariants of whole runs. `dafny verify dfyconfig.toml` checks everything.

| files | what they hold |
|---|---|
| `Bytes`, `Controller`, `ProgramLayout` | bytes and carries, the controller's memories, how a program is stored |
| `Prepare`, `InterpreterSpec`, `Interpreter`, `ProgramRuns`, `ProgramTermination`, `TeachModes`, `TeachKeys`, `ProgramLaws`, `InstructionLaws`, `CommandLaws` | validator and label table, interpreter, safety of runs, termination, run, step and display mode beside the host; the last three state what programs, instructions and commands do bit by bit and address by address |
| `EditorSpec`, `Editor`, `ProgramEntry` | insert, delete, stepping, typing a program |
| `ReceiveSpec`, `Serial`, `Transmit`, `Dispatch`, `Upload`, `HostFrames`, `PositionReports` | the RS-232 protocol, from bytes to round trips; whole exchanges from the bytes that come in to the bytes that go out |
| `HostMoves`, `ServoSpec`, `Calibration`, `Servo`, `ServoPass`, `ServoSweep`, `ServoRuns`, `SweepTicks`, `MoveRuns`, `MotorPorts`, `Adc` | the axis servo, its clock, whole moves, the motor ports |
| `AutoBaud`, `Rxd` | the line driver's waveform and its measurement |
| `Keypad`, `KeypadRuns`, `Teachbox`, `DecimalEntry` | matrix scan, debounce, decimal entry |
| `Disassembly`, `Disassembler`, `Assembler`, `DisassemblyRoundTrip`, `DisassemblyLaws` | the two-pass disassembler and the assembler that undoes it |

Interrupts have one priority and do not nest, so an interrupt routine and a main-loop section with interrupts off are one
step each.

## Where code and expectation part

Each of these is stated as an exact condition and, where an expectation fails, with a concrete instance.

- Delete tests its source pointer after moving it, so deleting the last slot copies 65536 bytes; and it compares the
  two bytes of PC and END separately. Insert tests nothing. The copies stay inside the program exactly when
  base <= PC <= END (insert) and base <= PC, PC + 8 < END (delete): `Editor.InsertStaysInsideIff`,
  `Editor.DeleteStaysInsideIff`, `Editor.RefusesAtEndIff`. The other inputs are real: at power-up the program counter is
  0, and a shorter program may be uploaded after a run has stopped further on (`Editor.InsertAtPowerUp`,
  `Editor.InsertPastEnd`, `Editor.DeletePastEnd`, `Editor.LastSlotOverrun`). `Editor.Insert` and `Editor.Delete` cover
  them all.
- The readback count loses the carry of `ADD A,#4`: it is right exactly when the low size byte is at most 252
  (`Upload.ReadBackLengthIff`), which holds for every program of whole slots; but a block whose terminator is not ETX is
  never validated and counts as loaded all the same (`Upload.UploadUnchecked`, `Upload.ShortReadBack`).
- A reply armed while something else is still to be sent may be lost or mixed with it. Exactly when it goes out as it
  is: `Dispatch.ResponseIff`, `Dispatch.KeywordIff`, `Dispatch.StatusIff`, `Dispatch.StreamIff`; an instance:
  `Dispatch.LateQueryIsLost`.
- A saturated sample goes through the same look-up as a small error. Raw values 256, 257 and 511 mark the axis as in
  position whatever its setpoint, and a sample below the offset never does (`ServoSpec.MarksCloseIff`,
  `ServoSpec.SaturatedMarkFarOff`).
- The forward key is kept inside the program by the flag that END is shown, and by nothing else
  (`ProgramRuns.ForwardStaysIff`, `ProgramRuns.ForwardPastEnd`). The teachbox's own modes keep the flag right; a host or
  a start input that starts the program while the teachbox displays it does not (`TeachModes.ModesKeepBodyIff`,
  `TeachModes.ModesKeepBody`, `TeachModes.StartWhileShown`).
- The receive timeout leaves bit 4 of 24h set; no later stream can tell (`Serial.SerialPort.SerialTick`,
  `Serial.SerialPort.ReceiveStream`).
- A timed move of the nonexistent axis field 6 writes its time factor to 0x76, the low byte of the end pointer, and ORs
  the byte behind the bit table into the masks, so that it commands other axes, from the host and from a program alike
  (`HostMoves.HostMaskIff`, `HostMoves.MoveMaskIff`, `HostMoves.HostKeepsEndIff`, `HostMoves.MoveKeepsEndIff`;
  `HostMoves.FieldSixMovesEnd`, `HostMoves.FieldSixStartsThree`).
- The disassembler prints a branch target below address zero as `0x-` and digits, which no assembler reads: the round
  trip holds exactly for regions without one (`DisassemblyRoundTrip.AssemblyUndoesDisassembly`,
  `DisassemblyRoundTrip.BelowZeroIsLost`).
- Documentation that calls 0x50 the trajectory target, 0x21 the moving mask or 0xF7 a servo fault is not followed: the
  code makes them servo setpoint, in-position mask and motion timeout.

## Conditions taken from the source's callers

Labels are at most 118 (the table ends there), and what the validator is given fits the SRAM window. In `WellShaped`
programs a two-slot move is followed by its second slot, whose first byte is no mark. That is asked of the instructions
a decoding from slot 0 meets; a second slot may hold anything else. Only where the teachbox's keys can stop at a second
slot and the program can be run from there, in `ProgramRuns.JointRunStaysInBody`, `TeachModes` and `TeachKeys`, is the
same asked of every slot (`ShapedThroughout`). The transmit interrupt and the main loop find R1 and R3 holding either a
response or a stream; the converter starts its first conversion with no signal pending.

## Model

| member | source | states |
|---|---|---|
| `ProgramLayout.FirstMark` | firmware/src/main.asm:1535-1565 | the naive scan: the lowest marked slot from slot 1 on, or slot 0 |
| `ProgramLayout.IndexedStep` | firmware/src/main.asm:1535-1565 | indexing one more slot overwrites its label's table entry, zeroes its counter, or does nothing |
| `ProgramLayout.PreparedBody` | firmware/src/main.asm:1489-1565 | preparing a program changes nothing above the label table but byte 3 of 0x36 slots from slot 1 on |
| `Prepare.ClearTable` | firmware/src/main.asm:1489-1499 | every entry of labels 0 to 118 points at the program start afterwards, no other byte has changed |
| `Prepare.CheckHeader` | firmware/src/main.asm:1500-1519 | the header is good exactly when it promises a whole, positive number of slots closed by END; the end pointer follows |
| `Prepare.StepBack` | firmware/src/main.asm:1522-1534 | the page-crossing step back of the walk is a 16-bit subtraction, and it knows slot 0 when it gets there |
| `Prepare.RecordLabel` | firmware/src/main.asm:1547-1563 | the two table bytes of a label get the slot's address |
| `Prepare.IndexSlot` | firmware/src/main.asm:1535-1565 | one turn of the walk brings memory from slots (k, n) indexed to slots [k, n) indexed |
| `Prepare.Walk` | firmware/src/main.asm:1520-1565 | the whole walk: n steps, table and counters equal to the naive scan; it fails exactly at an opcode above 0x7F |
| `Prepare.Reject` | firmware/src/main.asm:1567-1583 | a rejected program is replaced by the empty one, and nothing else in memory moves |
| `Prepare.Index` | firmware/src/main.asm:1500-1565 | once the table is cleared: the verdict, the naive scan's memory, the end pointer and the number of steps |
| `Prepare.Prepare` | firmware/src/main.asm:1489-1583 | a program is accepted exactly when header and opcodes allow it; accepted memory is the naive scan's, reached in size / 8 steps; rejected memory is the empty program |
| `ProgramRuns.PreparedEntry` | firmware/src/main.asm:1489-1565 | for every label up to 118 the prepared table holds the address the naive scan gives |
| `ProgramLaws.AcceptsIff` | firmware/src/main.asm:1500-1545 | accepted exactly if the stored size is a positive multiple of eight, 0x83 stands right after it, and every eighth byte before is below 0x80 |
| `ProgramLaws.EmptyInFigures` | firmware/src/main.asm:1567-1583 | what is left of a rejected program: bytes 80 00 00 before the body, and 0x83 in its first slot |
| `ProgramLaws.EntryIsLowestMark` | firmware/src/main.asm:1535-1565 | a label's two table bytes hold the lowest address from the second slot on where 0x1F and the label stand, or the first slot if there is none |
| `ProgramLaws.SlotsKept` | firmware/src/main.asm:1489-1565 | every byte of every slot is what it was, but byte 3 of a 0x36 slot after the first, which is zero |
| `Interpreter.Advance` | firmware/src/main.asm:1863-1871 | 8-bit add and carry are a 16-bit add to the program counter |
| `Interpreter.Goto` | firmware/src/main.asm:1903-1914 | a jump loads the program counter from the label table |
| `Interpreter.TimedMove` | firmware/src/main.asm:1738-1798 | targets, time factors, masks and program counter after a one-slot or two-slot timed move |
| `Interpreter.Position` | firmware/src/main.asm:1804-1828 | position instructions load one or six setpoints and clear the in-position mask |
| `Interpreter.Miscellaneous` | firmware/src/main.asm:1830-1852 | output instructions, timed waits, and marks that do nothing |
| `Interpreter.SetOutputs` | firmware/src/main.asm:1436-1463 | the digital outputs after OR, AND, XOR or replacement, and DPH left in the scratch cell |
| `Interpreter.Branch` | firmware/src/main.asm:1854-1871 | which of 0x20 to 0x3F are jumps, waits for inputs, or nothing |
| `Interpreter.Jump` | firmware/src/main.asm:1873-1914 | the six jumps, with the counted GOTO's counter written in place; which inputs jump is `InstructionLaws.InputsDecide` |
| `Interpreter.Execute` | firmware/src/main.asm:1726-1914 | one instruction, all classes: new flags, memory, internal RAM and program counter |
| `Interpreter.PollWait` | firmware/src/main.asm:1693-1722 | when the wait for arrival, time or inputs is over, and what the wait counters and the slow tick are then |
| `Interpreter.Gate` | firmware/src/main.asm:1685-1724 | a main-loop pass executes exactly when the interpreter is active and waits for nothing, and otherwise leaves program and program counter alone |
| `InstructionLaws.InputsDecide` | firmware/src/main.asm:1873-1887 | 0x32 jumps exactly if every bit is set in the operand or in the inputs, 0x33 exactly if none is set in both; otherwise the next slot follows |
| `InstructionLaws.OthersGoOn` | firmware/src/main.asm:1889-1914 | the program counter after every other instruction, by opcode, limit and counter |
| `InstructionLaws.EntryInTable` | firmware/src/main.asm:1903-1914 | a label's address is in the two bytes at twice its number |
| `InstructionLaws.WaitsAreTests` | firmware/src/main.asm:1693-1722 | a wait 0x30 or 0x31 ends on exactly the inputs on which 0x32 or 0x33 with the same operand jumps |
| `InstructionLaws.OutputBit` | firmware/src/main.asm:1436-1463 | each output bit is set to the operand's, set by it, cleared by it or turned over by it |
| `InstructionLaws.OutputsAfter` | firmware/src/main.asm:1830-1836 | which opcodes change the outputs, and how |
| `InstructionLaws.CellsLoaded` | firmware/src/main.asm:1738-1852 | every cell of internal RAM after an instruction: the operand it was loaded from, or what it was |
| `InstructionLaws.WaitsAfter` | firmware/src/main.asm:1738-1871 | which opcodes begin a wait for arrival, for a time or for inputs |
| `InstructionLaws.RunsAfter` | firmware/src/main.asm:1726-1737 | which opcodes end the run, and which just the running on |
| `InstructionLaws.MaskInFigures` | firmware/src/main.asm:1769-1784 | the mask byte of every axis field |
| `InstructionLaws.UnderWay` | firmware/src/main.asm:1769-1798 | a timed move adds that mask to need-move and renewed |
| `InstructionLaws.PositionForgets` | firmware/src/main.asm:1804-1828 | a position instruction clears the in-position mask and leaves the two others |
| `InstructionLaws.TimedWaitLasts` | firmware/src/main.asm:1700-1712 | a timed wait with operands lo and hi ends with slow tick number lo + 256 hi and with none before, lo = 0 standing for 256 |
| `CommandLaws.WaitsInFigures` | firmware/src/main.asm:1693-1712 | a wait for arrival is over when all six axes are in position and none is under way |
| `CommandLaws.PassInFigures` | firmware/src/main.asm:1685-1724 | what a main-loop pass does to program counter, memory and flags, by the flags it finds |
| `ProgramRuns.JumpLands` | firmware/src/main.asm:1903-1914 | label jumps of a prepared program land on slots of it |
| `ProgramRuns.PreparedRuns` | firmware/src/main.asm:1489-1583 | preparing any accepted program indexes it, and makes it runnable if its instructions are well shaped |
| `ProgramRuns.StepReady` | firmware/src/main.asm:1726-1914 | one instruction keeps the program counter on instructions of [base, END] and the program the same up to counters, whatever the second slots of two-slot moves hold |
| `ProgramRuns.RunStaysInBody` | firmware/src/main.asm:1726-1914 | so does any run, for any inputs; the interpreter writes no program byte but counted-GOTO counters |
| `ProgramRuns.RunOnBoundaries` | firmware/src/main.asm:1738-1798 | a run only executes instructions of the program as it was stored, never the second slot of a two-slot move |
| `ProgramRuns.BoundaryIff` | firmware/src/main.asm:1738-1798 | linear decoding passes over exactly the second slots of the two-slot moves it meets |
| `ProgramRuns.SecondSlotIsFree` | firmware/src/main.asm:1738-1798 | an accepted program, ready to run, whose second slot is no well-shaped instruction |
| `ProgramRuns.StepOnSlot` | firmware/src/main.asm:1726-1914 | one instruction from any slot of a program that is well shaped in every slot |
| `ProgramRuns.ForwardStaysIff` | firmware/src/main.asm:2773-2784 | the forward key stays inside the program exactly when END, if it is there, is marked as shown |
| `ProgramRuns.JointRunStaysInBody` | firmware/src/main.asm:2773-2798 | instructions and editor keys in any order keep the program counter on slots of [base, END], given the display is refreshed before a forward key |
| `ProgramRuns.ForwardPastEnd` | firmware/src/main.asm:2773-2784 | a concrete state, program counter at END and the flag down, that the forward key takes out of the program |
| `TeachModes.LaunchedOnSlot` | firmware/src/main.asm:2864-2877 | starting at a label or at the beginning, with the program validated once more, leaves a program that can be run and the program counter on a slot |
| `TeachModes.ActOnSlotIff` | firmware/src/main.asm:1407-1434 | of all that main loop, keys, start input and host can do, only the forward key of display mode, pressed while nothing runs freely, can take the program counter out of the program, and it does exactly when END has been reached and is not shown |
| `TeachModes.ActStandsStill` | firmware/src/main.asm:2773-2896 | display mode is entered with nothing running and the display up to date, and stays so unless the host or the start input sets the program going |
| `TeachModes.ModesKeepBodyIff` | firmware/src/main.asm:1407-1434 | for every sequence of passes, polled keys and start inputs, and host commands: the program counter stays on slots of [base, END] if and only if every forward key of display mode finds END shown when it is reached |
| `TeachModes.ModesKeepBody` | firmware/src/main.asm:2742-2899 | and that is always so while neither host nor start input sets the program going in display mode |
| `TeachModes.StartWhileShown` | firmware/src/main.asm:787-813 | a concrete run that leaves the program: show, host start, two instructions up to END, forward |
| `TeachKeys.Pendant.Fail` | firmware/src/main.asm:2568-2571 | the error display: display and step mode, the END flag and what is being typed are gone |
| `TeachKeys.Pendant.Clear` | firmware/src/main.asm:2466-2470 | the clear key |
| `TeachKeys.Pendant.BreakOrShow` | firmware/src/main.asm:2881-2895 | break and display, with and without a label, are the commands of the mode machine |
| `TeachKeys.Pendant.RunOrStep` | firmware/src/main.asm:2855-2879 | so are run and step mode; with no program loaded they are refused |
| `TeachKeys.Pendant.EnterKey` | firmware/src/main.asm:2644-2648 | the enter key is a command exactly when something that may end here has been typed, and else an error |
| `TeachKeys.Pendant.ArrowKey` | firmware/src/main.asm:2712-2784 | forward and back in display mode, one instruction in step mode |
| `TeachKeys.Pendant.StartRun` | firmware/src/main.asm:1419-1427 | the start input runs the program from its beginning |
| `TeachKeys.Pendant.PollStart` | firmware/src/main.asm:1412-1427 | it is looked at only while the program does not run freely |
| `TeachKeys.Pendant.PollKey` | firmware/src/main.asm:1412-1434 | so are the keys |
| `TeachKeys.Pendant.MainPass` | firmware/src/main.asm:1685-1724 | the main loop's turn of the interpreter is a pass of the mode machine |
| `TeachKeys.Pendant.HostCommand` | firmware/src/main.asm:787-836 | and a host command to a loaded program is its host act |
| `CommandLaws.EnterInFigures` | firmware/src/main.asm:2855-2896 | run, step, break and display by R3, with and without a label: every mode, every flag, program counter and memory |
| `CommandLaws.ArrowsInFigures` | firmware/src/main.asm:2773-2798 | the arrow keys: where the program counter goes, and when END counts as shown |
| `CommandLaws.HostFlags` | firmware/src/main.asm:787-836 | every flag of the interpreter after each of the commands 0x82 to 0x88 |
| `ProgramTermination.StepDescends` | firmware/src/main.asm:1726-1914 | every instruction before END makes the lexicographic measure smaller |
| `ProgramTermination.ReachesEnd` | firmware/src/main.asm:1726-1914 | a program whose only backward jumps, among its instructions, are counted GOTOs reaches END within Measure steps, whatever the inputs |
| `ProgramTermination.StaysAtEnd` | firmware/src/main.asm:1733-1737 | END is where it stays |
| `ProgramTermination.FallsThroughIff` | firmware/src/main.asm:1889-1902 | a counted GOTO falls through exactly when its counter has reached (limit - 1) mod 256 |
| `ProgramTermination.CounterCounts` | firmware/src/main.asm:1889-1902 | in any run, from any counter and limit: the counter goes up by one modulo 256 per jump, the GOTO falls through once it has been taken as often as the counter left open, and from then on after (limit - 1) mod 256 jumps each |
| `EditorSpec.UpReadsOriginalIff` | firmware/src/main.asm:2972-3002 | the copy from the top down reads a byte it has not overwritten yet, whatever memory holds, exactly during its first 0xFFF8 turns |
| `EditorSpec.DownReadsOriginalIff` | firmware/src/main.asm:2945-2964 | so does the copy from the bottom up |
| `EditorSpec.RolledUpStep` | firmware/src/main.asm:2972-3002 | what copying any number of bytes up does, round all 64 K if need be, one byte at a time |
| `EditorSpec.RolledDownStep` | firmware/src/main.asm:2945-2964 | the same for copying down |
| `EditorSpec.InsertedIntact` | firmware/src/main.asm:2972-3015 | inserting a NOP slot keeps a program acceptable, and makes one out of the empty program |
| `EditorSpec.DeletedIntact` | firmware/src/main.asm:2945-2970 | deleting a slot that is not the last keeps it acceptable |
| `EditorSpec.InsertCarries` | firmware/src/main.asm:2972-3015 | where every byte of the program is after an insertion |
| `EditorSpec.DeleteUndoesInsert` | firmware/src/main.asm:2928-3023 | delete after insert restores every body byte but counters zeroed by the validator, the size and the END position |
| `ProgramLaws.SlotAfterInsert` | firmware/src/main.asm:2972-3023 | every byte of every slot after an insertion: below the slot what was there, in it NOP, above it the slot before, counters of 0x36 slots zeroed |
| `ProgramLaws.SlotAfterDelete` | firmware/src/main.asm:2928-2970 | and after a deletion: from the slot on, the slot after |
| `ProgramLaws.EndsAfterEdits` | firmware/src/main.asm:2928-3023 | 0x83 and the stored size move by one slot |
| `Editor.MoveUp` | firmware/src/main.asm:2972-3002 | the copy in 8-bit registers, for every program counter and end pointer: how many bytes it moves, and all of memory afterwards |
| `Editor.MoveDown` | firmware/src/main.asm:2945-2964 | the same downwards, including the run round all 64 K |
| `Editor.InsertStaysInsideIff` | firmware/src/main.asm:2972-3002 | the inserting copy and its NOP write inside the program only, exactly when base <= PC <= END |
| `Editor.DeleteStaysInsideIff` | firmware/src/main.asm:2945-2970 | the deleting copy and its END do, exactly when base <= PC and PC + 8 < END |
| `Editor.RefusesAtEndIff` | firmware/src/main.asm:2928-2944 | delete compares high and low bytes separately: that is PC >= END exactly when the bytes do not point opposite ways |
| `Editor.LastSlotOverrun` | firmware/src/main.asm:2945-2964 | a concrete last slot whose deletion copies 65536 bytes |
| `Editor.InsertAtPowerUp` | firmware/src/main.asm:2972-3002 | with the program counter at 0, inserting writes the label table and the motor port's addresses |
| `Editor.InsertPastEnd` | firmware/src/main.asm:2972-3002 | with the program counter past END, inserting goes round memory |
| `Editor.DeletePastEnd` | firmware/src/main.asm:2928-2964 | with the program counter past END, delete is not refused and writes the label table |
| `Editor.Revalidate` | firmware/src/main.asm:3003-3015 | the stored size follows the end pointer and the program is prepared again |
| `Editor.Insert` | firmware/src/main.asm:2972-3023 | insert for every program counter and end pointer: what is left in memory is validated; on a slot of an intact program with room that is the insertion of the specification |
| `Editor.Delete` | firmware/src/main.asm:2928-2970 | when delete is refused, on the bytes the code compares; else what is left is validated, and on a slot that is not the last of an intact program exactly that slot goes |
| `Editor.RestoredLabels` | firmware/src/main.asm:2928-3023 | after insert and delete every label leads where the naive scan of the original program sends it |
| `Editor.StepForward` | firmware/src/main.asm:2773-2783 | the forward key, tied to the state machine of the joint run |
| `Editor.StepBack` | firmware/src/main.asm:2784-2797 | the backward key, which stops at the first slot |
| `ProgramEntry.StoreOperands` | firmware/src/main.asm:2695-2699 | the operand loop stores the byte at hand and the following cells in order |
| `ProgramEntry.FillSlot` | firmware/src/main.asm:2700-2706 | zeros up to the next slot boundary, at least one |
| `ProgramEntry.EnterInstruction` | firmware/src/main.asm:2657-2709 | a typed instruction is written into the slot at the program counter and nowhere else; the program counter moves to the next slot |
| `ProgramEntry.EnteredByte` | firmware/src/main.asm:2657-2709 | every byte of memory after an instruction has been typed: which cell each operand comes from, by the bits of the opcode |
| `ProgramEntry.EnterHalt` | firmware/src/main.asm:2902-2910 | the same for the halt instruction |
| `ProgramEntry.TypeInstruction` | firmware/src/main.asm:2657-2709 | what has been typed since the program start grows by exactly the new slot |
| `ProgramEntry.EnterEnd` | firmware/src/main.asm:2912-2926 | typing END stores what has been typed as the program: accepted exactly if it is a valid body, and then held byte for byte up to zeroed counters |
| `ReceiveSpec.DispatchedIsFrames` | firmware/src/main.asm:642-744 | on every byte stream the byte-at-a-time parser dispatches exactly the frames of a flat reference definition |
| `ReceiveSpec.StreamIsCut` | firmware/src/main.asm:1400-1407 | with ticks anywhere in the stream: the frames are those of the parts between the timeouts, each parsed on its own |
| `HostFrames.FrameInFigures` | firmware/src/main.asm:645-683 | a stream that begins with a header, one, two, six or twelve operands as its bits say, and a terminator begins with that frame |
| `HostFrames.BlockInFigures` | firmware/src/main.asm:685-723 | one that begins with 0x81, two length bytes and as many bytes begins with that block |
| `HostFrames.NoiseInFigures` | firmware/src/main.asm:645-683 | headers above 0x88 are skipped |
| `HostFrames.OperandsTaken` | firmware/src/main.asm:645-683 | how many operands each header takes, in numbers |
| `Serial.SerialPort.Header` | firmware/src/main.asm:645-683 | the first byte of a frame sets flags and counter for its class; the counts are in `HostFrames.OperandsTaken` |
| `Serial.SerialPort.Operand` | firmware/src/main.asm:725-738 | operand bytes go to 0x60-0x65 and 0x70-0x75 only; the sixth of twelve switches buffers |
| `Serial.SerialPort.StartBlock` | firmware/src/main.asm:710-723 | the length bytes become the stored size, n - 1 |
| `Serial.SerialPort.CountDown` | firmware/src/main.asm:697-700 | two nested DJNZ count n bytes |
| `Serial.SerialPort.BlockByte` | firmware/src/main.asm:690-703 | block bytes go to the body in order; the last one sets the loaded flag exactly if it is END |
| `Serial.SerialPort.ReceiveByte` | firmware/src/main.asm:635-740 | flags, counters and pointers represent the parser state after every byte; a frame is dispatched exactly by the byte after it |
| `Serial.SerialPort.SerialTick` | firmware/src/main.asm:1400-1407 | twenty ticks without a byte make any state idle although the block-count flag survives; every other tick counts down and leaves the state alone |
| `Serial.SerialPort.Happen` | firmware/src/main.asm:635-744 | one byte or tick; the frame it dispatches has its payload in the buffers or the body at that moment |
| `Serial.SerialPort.ReceiveStream` | firmware/src/main.asm:635-744 | a whole stream of bytes and ticks, from any idle state whatever the stale flag: header, payload as found in memory and terminator of every frame are the reference definition's |
| `Transmit.TakenIsFirst` | firmware/src/main.asm:996-1045 | one transmit call takes the first pending byte and leaves the rest in order |
| `Transmit.OrderInFigures` | firmware/src/main.asm:996-1045 | what is sent in which order: response and ETX or program, keyword, the ETX they share, status byte |
| `Transmit.StreamInFigures` | firmware/src/main.asm:1029-1044 | a stream sends the bytes of successive addresses |
| `Transmit.Emit` | firmware/src/main.asm:996-1045 | SBUF is written only while nothing is on the line |
| `Transmit.Transmit` | firmware/src/main.asm:996-1045 | a call sends exactly the next pending byte, or with nothing pending hands back the token |
| `Transmit.ServeInterrupt` | firmware/src/main.asm:968-971 | the interrupt serves a finished byte without disturbing the order |
| `Transmit.ServeIdle` | firmware/src/main.asm:1397-1399 | so does the main loop, only while it holds the token |
| `Transmit.Interleave` | firmware/src/main.asm:968-1045 | for every sequence of finished bytes, interrupts and main-loop calls: what is on the line plus what is pending never changes, and nothing pending means all of it is out |
| `Transmit.Drain` | firmware/src/main.asm:968-1045 | called until the transmitter is idle, everything that was pending is out and the token is back |
| `Dispatch.Query` | firmware/src/main.asm:838-882 | a query arms header and exactly the selected values, whatever is still being sent |
| `Dispatch.BuildResponse` | firmware/src/main.asm:842-877 | which cells a query copies, in which order; what the host gets is `HostFrames.PositionQuery` |
| `Dispatch.SerialNumber` | firmware/src/main.asm:950-962 | the serial number query arms header and the three bytes at 0x0020 |
| `Dispatch.ResponseIff` | firmware/src/main.asm:996-1045 | a response goes out as built and nothing else, exactly when at most an unfinished response precedes it |
| `Dispatch.KeywordIff` | firmware/src/main.asm:996-1045 | the same for a keyword and its ETX |
| `Dispatch.StatusIff` | firmware/src/main.asm:996-1045 | the same for a status byte |
| `Dispatch.StreamIff` | firmware/src/main.asm:996-1045 | the same for the stored program |
| `Dispatch.LateQueryIsLost` | firmware/src/main.asm:996-1010 | a query that comes when only the ETX of an earlier one is left is answered by that ETX alone |
| `Dispatch.ReadBack` | firmware/src/main.asm:762-776 | command 0x80 arms the stream of the announced bytes, or reports 0xF4 |
| `Dispatch.EndUpload` | firmware/src/main.asm:777-785 | the end of an upload validates it and answers keyword or error |
| `Dispatch.Start` | firmware/src/main.asm:799-813 | a start validates first, and runs exactly if the program is accepted |
| `Dispatch.Launch` | firmware/src/main.asm:787-829 | run from the beginning or from a label: program counter, verdict, reply |
| `Dispatch.Stop` | firmware/src/main.asm:803-806 | stop ends run, motion and every wait |
| `Dispatch.Resume` | firmware/src/main.asm:808-824 | continue, single step and halt: flags and reply |
| `Dispatch.ProgramCommand` | firmware/src/main.asm:787-836 | commands 0x82 to 0x88: which are obeyed, where the program counter goes, what is answered |
| `Dispatch.LoadedCommand` | firmware/src/main.asm:790-836 | the same for a loaded program: the chain of DJNZ on R6, with flags, memory, program counter and reply |
| `Dispatch.FlagCommand` | firmware/src/main.asm:801-813 | its links for stop and continue |
| `Dispatch.StepCommand` | firmware/src/main.asm:815-824 | for single step and halt |
| `Dispatch.LabelCommand` | firmware/src/main.asm:826-836 | and for run from a label and stop at a label |
| `Dispatch.ServoCommand` | firmware/src/main.asm:883-897 | servo on and off, the serial number, holding the present position |
| `Dispatch.HoldPosition` | firmware/src/main.asm:890-897 | the six servo setpoints become the six feedbacks |
| `Dispatch.OperatorFrame` | firmware/src/main.asm:838-970 | every header below 0x80: the reply it arms and the cells, outputs and masks it changes |
| `Dispatch.SystemFrame` | firmware/src/main.asm:740-836 | every header from 0x80: the reply it arms |
| `Dispatch.DispatchFrame` | firmware/src/main.asm:740-836 | any complete frame: terminator test, class split and chain on R6 arm exactly the reply of the table ReplyTo whatever is still being sent, and with nothing left to send the line carries exactly its bytes |
| `HostFrames.RepliesInFigures` | firmware/src/main.asm:740-897 | the bytes of the reply to every header, terminator and state of the program |
| `Upload.LengthBytes` | firmware/src/main.asm:710-723 | n mod 256 and (n - 1) div 256 are the length bytes of n |
| `Upload.SendBlock` | firmware/src/main.asm:685-723 | after a block of n bytes the body holds exactly those bytes and the header n - 1 |
| `Upload.ReadBackLengthIff` | firmware/src/main.asm:762-771 | the announced length is right exactly while adding four to the low size byte does not carry |
| `Upload.ReadBackIsProgram` | firmware/src/main.asm:762-776 | for a whole number of slots the readback is three header bytes and the body up to END |
| `Upload.AcceptsBody` | firmware/src/main.asm:1489-1583 | the validator's verdict in terms of the bytes sent |
| `Upload.UploadProgram` | firmware/src/main.asm:685-785 | an upload is accepted exactly if the bytes sent are a valid program, and is then held byte for byte up to zeroed counters |
| `Upload.Exchange` | firmware/src/main.asm:635-1045 | a whole exchange over the serial line: header, operands, terminator in; on the line out exactly the bytes of the reply to that frame |
| `HostFrames.PositionFrame` | firmware/src/main.asm:900-917 | header, operands and ETX on the line: setpoint a is payload[a] for all six axes when h % 8 == 7, else payload[0] for the one axis; nothing is sent |
| `HostFrames.TimedFrame` | firmware/src/main.asm:919-948 | targets and time factors are payload[a] and payload[6 + a], or payload[0] and payload[1] for the one axis |
| `HostFrames.HostMaskInFigures` | firmware/src/main.asm:931-940 | the mask byte of every field of a timed command |
| `HostFrames.PositionQuery` | firmware/src/main.asm:838-877 | h, the measured position of the one axis or of all six in order, and ETX go out |
| `HostFrames.InputQuery` | firmware/src/main.asm:838-877 | h, the selected ones of the two other channels and the input port, in that order, and ETX go out |
| `HostFrames.HoldFrame` | firmware/src/main.asm:883-897 | the six setpoints become the six measured positions, and nothing else changes |
| `HostFrames.ServoFrame` | firmware/src/main.asm:883-889 | servo on and off |
| `HostFrames.OutputFrame` | firmware/src/main.asm:964-967 | the output commands: each output bit is set to the operand bit, set by it, cleared by it or turned over |
| `PositionReports.Sweep` | firmware/src/main.asm:173-286 | eight interrupts store the calibrated samples of the six axes and the two inputs |
| `PositionReports.ReportAxis` | firmware/src/main.asm:173-286 | a sweep and a query of one axis: the byte on the line is that axis's calibrated sample |
| `PositionReports.ReportAll` | firmware/src/main.asm:838-877 | a sweep and a query of all six: their calibrated samples in order |
| `PositionReports.ReportInputs` | firmware/src/main.asm:838-877 | a sweep and a query of the inputs: the samples of phases 6 and 7, and the port |
| `Upload.UploadUnchecked` | firmware/src/main.asm:685-757 | a block not ended by ETX is not validated, and counts as loaded exactly if its last byte is END |
| `Upload.ReadProgram` | firmware/src/main.asm:762-776 | readback sends header bytes, body and ETX |
| `Upload.ShortReadBack` | firmware/src/main.asm:762-776 | a run that leaves a program of stored size 0xFD loaded, and its readback of one byte |
| `Upload.UploadThenReadBack` | firmware/src/main.asm:685-785 | upload then readback is a round trip on the wire |
| `HostFrames.ValidInFigures` | firmware/src/main.asm:1500-1545 | which byte strings are programs, and what validating them changes |
| `HostFrames.UploadAnswer` | firmware/src/main.asm:777-785 | an upload is answered 81 03 or F5, as the bytes on the line are a program or not |
| `HostFrames.RoundTrip` | firmware/src/main.asm:685-785 | and read back byte for byte behind its size, loop counters zeroed |
| `Bytes.Multiply` | firmware/src/main.asm:209-215 | MUL AB |
| `Calibration.ChainIsRaw` | firmware/src/main.asm:208-219 | no carry of the multiply chain is lost, for any sample, offset and gain, and its top ten bits are the scaled sample |
| `Calibration.Shift` | firmware/src/main.asm:216-228 | the addition and the rotates of the scaled sum |
| `Calibration.TestOverflow` | firmware/src/main.asm:225-233 | the two rotates through carry tell one and more ranges above |
| `Calibration.Measure` | firmware/src/main.asm:192-260 | the stored feedback is 0 below the offset and min(255, floor) above it |
| `ServoSpec.FeedbackMonotone` | firmware/src/main.asm:192-260 | a larger sample never gives a smaller feedback |
| `ServoPass.Compare` | firmware/src/main.asm:233-275 | error size and direction |
| `ServoPass.FetchCalibration` | firmware/src/main.asm:374-393 | the two MOVCs read the axis's own offset and gain |
| `ServoPass.Judge` | firmware/src/main.asm:192-286 | feedback, direction and in-position mark, each by its definition |
| `ServoSpec.MarksCloseIff` | firmware/src/main.asm:249-286 | the mark means an error of at most two exactly under these conditions: always inside the range, and else as stated |
| `ServoSpec.SaturatedMarkFarOff` | firmware/src/main.asm:262-276 | a concrete saturated sample that is marked 255 counts off |
| `ServoPass.Calibrate` | firmware/src/main.asm:192-286 | one pass stores its own feedback cell and sets at most its own in-position bit |
| `ServoPass.StepSetpoint` | firmware/src/main.asm:442-465 | the countdown, its reload, the step and the arrival test, on this axis's cells alone |
| `ServoPass.StartSetpoint` | firmware/src/main.asm:474-504 | the first visit after a command: nothing to do, one jump, or a first countdown |
| `ServoPass.VisitByCells` | firmware/src/main.asm:437-504 | the generator's visit spelled out on cells and mask bits |
| `ServoPass.Generate` | firmware/src/main.asm:437-504 | the bit-twiddled code is one visit of the specification to this axis and changes no other axis |
| `ServoSpec.MovingVisits` | firmware/src/main.asm:437-504 | a moving axis after any visits: one count per time factor of visible ticks, no overshoot or wrap, need-move cleared exactly on arrival |
| `ServoSpec.CommandedMove` | firmware/src/main.asm:437-504 | a whole commanded move from any setpoint to any target, with the single jump for time factor 0 |
| `ServoSpec.LapsIsQuotient` | firmware/src/main.asm:444-451 | the step count is the quotient of ticks by time factor |
| `HostMoves.SetpointCommand` | firmware/src/main.asm:900-917 | a host position command writes one or six setpoints and waits for arrival |
| `HostMoves.TimedCommand` | firmware/src/main.asm:919-948 | a host timed command places targets, time factors and mask bits |
| `HostMoves.HostMaskIff` | firmware/src/main.asm:931-940 | the mask bits name exactly the selected axes if and only if the field is not 6 |
| `HostMoves.MoveMaskIff` | firmware/src/main.asm:1769-1784 | the same for the moves of a program |
| `HostMoves.HostKeepsEndIff` | firmware/src/main.asm:931-937 | a host command leaves the end pointer alone if and only if its field is not 6 or its time factor is the byte already there |
| `HostMoves.MoveKeepsEndIff` | firmware/src/main.asm:1769-1778 | the same for the moves of a program |
| `HostMoves.FieldSixMovesEnd` | firmware/src/main.asm:919-948 | header 0x76 moves a concrete program's end and starts axis 1 |
| `HostMoves.FieldSixStartsThree` | firmware/src/main.asm:1769-1784 | opcode 0x66 starts axes 0, 1 and 5 |
| `HostMoves.TimedCommandStarts` | firmware/src/main.asm:919-948 | after a host command, for every field: which axes are commanded, and which have its operands as target and time factor |
| `HostMoves.ProgramMoveStarts` | firmware/src/main.asm:1738-1798 | the same after a timed move of a program |
| `ServoPass.FieldSet` | firmware/src/main.asm:359-369 | AND and OR masks set a motor's two bits to what is asked for, and keep Port C's unused half clear |
| `ServoPass.FieldKept` | firmware/src/main.asm:359-369 | and leave the other motors' bits alone |
| `ServoPass.UpdatePort` | firmware/src/main.asm:359-369 | both table look-ups stay in range and change one motor only; in bits, `ServoPass.MaskPort` |
| `ServoPass.MaskPort` | firmware/src/main.asm:359-369 | the motor's bit pair becomes 01 for code 4, 10 for code 8 and 00 for code 0, and every other bit of the port stays |
| `ServoPass.WriteMotor` | firmware/src/main.asm:342-369 | one pass writes its own motor on its own port; port and shadow agree |
| `MotorPorts.Kill` | firmware/src/annotated/ext0_estop.asm:43-55 | both ports are zero after the kill loop |
| `MotorPorts.AwaitRelease` | firmware/src/annotated/ext0_estop.asm:56-59 | the wait ends exactly with the first 256 successive high samples |
| `MotorPorts.EmergencyOff` | firmware/src/annotated/ext0_estop.asm:43-74 | ports stay zero until released, then show the shadows again; pending motion or key event as the source has it |
| `MotorPorts.StopMotors` | firmware/src/main.asm:1385-1392 | motion timeout: all motors off, ports and shadows zero, servo disabled |
| `MotorPorts.Supervise` | firmware/src/main.asm:1372-1396 | a watched move is reported to the host when it has arrived, and stopped with status 0xF7 exactly when its seconds are used up |
| `ServoSweep.PhaseTurns` | firmware/src/main.asm:505-507 | RL turns the phase mask |
| `ServoSweep.Control` | firmware/src/main.asm:192-504 | one axis's pass: stored feedback, in-position bit, motor order and setpoint visit; every other axis's cells, bits and motor untouched |
| `ServoSweep.StoreSample` | firmware/src/main.asm:178-190 | the two axis-free phases; phase 6 alone moves the latched tick |
| `ServoSweep.NextChannel` | firmware/src/main.asm:505-518 | mask, pointer and converter channel move on together |
| `ServoSweep.Interrupt` | firmware/src/main.asm:173-518 | the whole interrupt in every phase: feedback cell, in-position bits, motors, setpoint generator, tick bits, next conversion |
| `ServoSweep.ServeAxis` | firmware/src/main.asm:173-518 | from the converter's sample to cell and port: the feedback is the calibrated sample, and the motor's bit pair is 01 exactly when it is above the setpoint and 10 exactly when below, servo on and not held |
| `ServoSweep.ServeInput` | firmware/src/main.asm:178-190 | the samples of phases 6 and 7 go to 0x5E and 0x5F |
| `Adc.Converter.StartConversion` | simulator/ucsim-modules/adc/adc.cc:109-134 | a write selects a channel and arms the countdown |
| `Adc.Converter.Tick` | simulator/ucsim-modules/adc/adc.cc:137-157 | a conversion signals its end once, after its delay, however the cycles are split |
| `ServoRuns.Initialise` | firmware/src/annotated/init.asm:140-145 | where the round robin starts |
| `ServoRuns.Happen` | firmware/src/main.asm:173-518 | one event of a run |
| `ServoRuns.Run` | firmware/src/main.asm:173-518 | any run of ticks, conversions, interrupts, enables, stops and emergencies: no motor both ways, ports equal shadows, phase, pointer and channel in step, one signal per conversion, each axis moved by its visits alone |
| `SweepTicks.TickBits` | firmware/src/main.asm:123-128 | from any round on, latch and visible bit are exactly the ticks of the coming and of the current sweep |
| `SweepTicks.SeenIsTicks` | firmware/src/main.asm:173-190 | from any round on, each axis is visited once per eight interrupts, and a tick is seen by all six axes in exactly one sweep |
| `SweepTicks.CommandedRun` | firmware/src/main.asm:437-504 | a commanded move over a run: one step for every time factor's worth of sweeps with a tick, up to the target |
| `SweepTicks.RunCommanded` | firmware/src/main.asm:173-518 | the same of the servo itself: after any run of events the commanded axis stands where the ticks that came have brought it |
| `MoveRuns.RunInstruction` | firmware/src/main.asm:1738-1798 | a timed instruction is executed and the servo runs: after any run that visits the axis its setpoint cell is ticks / factor counts closer to the operand, and no further |
| `MoveRuns.RunFrame` | firmware/src/main.asm:919-948 | the same after a timed command of the host, from the bytes on the line |
| `AutoBaud.Capture` | firmware/src/annotated/init.asm:231-241 | an edge stores the timer where R0 points |
| `AutoBaud.Halve` | firmware/src/annotated/init.asm:249-259 | the rotate loop halves all three widths |
| `AutoBaud.Normalise` | firmware/src/annotated/init.asm:244-264 | the loop ends with the first width in a byte, all widths scaled by the same power of two, and R7 that power mod 256 |
| `AutoBaud.Check` | firmware/src/annotated/init.asm:265-288 | the three window tests and the reload value |
| `AutoBaud.Attempt` | firmware/src/annotated/init.asm:204-288 | one measurement: an overflow, or a fourth edge in time, starts again, and otherwise the windows decide |
| `AutoBaud.LockMeansNear` | firmware/src/annotated/init.asm:244-288 | for any captured widths a lock means 24 * 2^k <= w1 / 6 < 40 * 2^k with k <= 8 and the reload of that k |
| `AutoBaud.LocksIff` | firmware/src/annotated/init.asm:204-288 | for the training byte at c counts a bit it locks exactly when c is in one of the nine windows, with that window's reload |
| `AutoBaud.LocksInFigures` | firmware/src/annotated/init.asm:204-288 | for any widths captured in time: it locks with a unit of 1 to 256 exactly if the first width is 144 to 240 units, the low bytes of the others 24 to 40 and 48 to 80, with 256 less the unit as reload |
| `Rxd.Driver.Drive` | simulator/ucsim-modules/rxd/rxd.cc:101-110 | only P3.0 changes |
| `Rxd.Driver.QueueByte` | simulator/ucsim-modules/rxd/rxd.cc:137-147 | a byte starts with its start bit |
| `Rxd.Driver.Tick` | simulator/ucsim-modules/rxd/rxd.cc:112-133 | any number of cycles at once brings the line to the frame bit it has come to |
| `Rxd.Driver.Send` | simulator/ucsim-modules/rxd/rxd.cc:112-148 | however the cycles are split, the level is frame bit floor(n / c) for n < 10c and high afterwards; the other seven bits never change |
| `Rxd.SamplesReturnTheByte` | simulator/ucsim-modules/rxd/rxd.cc:137-147 | sampling inside the data bits returns the byte |
| `Rxd.TrainingWaveform` | simulator/ucsim-modules/rxd/rxd.cc:112-148 | the waveform of 0x20: low 6c, high c, low 2c, then high |
| `AutoBaud.TrainingEdges` | simulator/ucsim-modules/rxd/rxd.cc:112-148 | the training byte's waveform has exactly the edge widths 6c, c and 2c |
| `AutoBaud.TrainingLocksIff` | firmware/src/annotated/init.asm:204-288 | from line to lock: whatever widths lie between the edges of the training byte at c cycles a bit, the detector locks exactly when c is in one of the nine windows |
| `Keypad.ReadsKeyIff` | firmware/src/main.asm:2369-2397 | a scan reads a key's code exactly when that key and no other is down |
| `Keypad.ReadsNoneIff` | firmware/src/main.asm:2369-2397 | it reads nothing exactly when no key is down |
| `Keypad.ReadsInFigures` | firmware/src/main.asm:2369-2397 | a code is read exactly if the lines of every row are those of that key alone |
| `Keypad.AddRow` | firmware/src/main.asm:2372-2394 | the group bits and the running code of one row |
| `Keypad.ScanMatrix` | firmware/src/main.asm:2366-2399 | all eight rows are strobed; two keys anywhere make the scan invalid |
| `Keypad.Keyboard.Scan` | firmware/src/main.asm:2362-2441 | scan, debounce, auto-repeat and the emergency-off event in one step; over runs, `KeypadRuns.ReportsIff` |
| `Keypad.Keyboard.KeepReporting` | firmware/src/main.asm:2747-2748 | what a jog key does to the debounce state |
| `KeypadRuns.ReportedKeyWasReadTwice` | firmware/src/main.asm:2399-2431 | a matrix key is reported only if read by two consecutive scans |
| `KeypadRuns.ReportsAreSeparated` | firmware/src/main.asm:2399-2431 | without auto-repeat two consecutive empty scans separate any two reports |
| `KeypadRuns.ReportsIff` | firmware/src/main.asm:2399-2431 | without auto-repeat: a key is reported exactly if this scan and the one before read it, and two empty scans in a row have come since the last report |
| `KeypadRuns.NewKeyIsReported` | firmware/src/main.asm:2399-2431 | from any state: after two empty scans the second scan in a row that reads a key reports it, and none before |
| `KeypadRuns.EventIsReported` | firmware/src/main.asm:2362-2441 | a pending emergency-off event is reported by the next scan |
| `KeypadRuns.HeldKeyRepeats` | firmware/src/main.asm:2399-2431 | with it a held key is reported again after 35 scans and then on every third |
| `KeypadRuns.PressedKeyRepeats` | firmware/src/main.asm:2399-2431 | both together: a jog key pressed after two empty scans and held is reported, again after 35 scans, and then on every third |
| `Teachbox.Box.Write` | simulator/ucsim-modules/teachbox/teachbox.cc:88-96 | a strobe selects the row that is read |
| `Teachbox.Box.ScannerReadsThePressedKey` | simulator/ucsim-modules/teachbox/teachbox.cc:61-96 | the scanner decodes exactly the row and group the simulator presses |
| `Teachbox.ScanBox` | simulator/ucsim-modules/teachbox/teachbox.cc:61-96 | a whole scan of the simulated matrix |
| `DecimalEntry.Entry.First` | firmware/src/annotated/teachbox.asm:503-547 | the first digit of a number, leading zero included, or of an axis or output |
| `DecimalEntry.Entry.NameAxis` | firmware/src/main.asm:2573-2589 | an axis or output digit: 0 and 9 are errors, the others name it and choose what comes next |
| `DecimalEntry.Entry.Append` | firmware/src/main.asm:2617-2642 | one more digit through MUL, ADD and the carry chain: exactly a number too large is an error |
| `DecimalEntry.Entry.Key` | firmware/src/annotated/teachbox.asm:499-577 | which of these a digit key does |
| `DecimalEntry.Entry.Type` | firmware/src/main.asm:2617-2642 | a whole number holds its decimal value while it fits; ERR comes with exactly the first digit that makes it too large |
| `DecimalEntry.DecimalInFigures` | firmware/src/main.asm:2617-2642 | the value of one to five digits |
| `DecimalEntry.BitsInFigures` | firmware/src/main.asm:2573-2589 | the bit of axis or output d |
| `Disassembler.OperandTargets` | firmware/src/annotated/d51_to_sdas.py:46-73 | the targets among an instruction's operands |
| `Disassembler.FirstPass` | firmware/src/annotated/d51_to_sdas.py:35-74 | boundaries and in-region targets of the whole region |
| `Disassembler.FormatOperands` | firmware/src/annotated/d51_to_sdas.py:115-143 | the operands as written, or failure when bytes are missing |
| `Disassembler.FormatAt` | firmware/src/annotated/d51_to_sdas.py:91-151 | the line of one instruction |
| `Disassembler.SecondPass` | firmware/src/annotated/d51_to_sdas.py:88-151 | labels, raw bytes and instructions of the whole region |
| `Disassembler.Disassemble` | firmware/src/annotated/d51_to_sdas.py:35-151 | it succeeds exactly on regions that end on an instruction boundary, with the source defined by recursion |
| `DisassemblyRoundTrip.PageArithmetic` | firmware/src/annotated/d51_to_sdas.py:60-63 | 11-bit targets lie in the page of the next instruction, and carry the opcode's page bits |
| `DisassemblyRoundTrip.OperandsEncode` | firmware/src/annotated/d51_to_sdas.py:115-143 | operands assemble to the bytes they came from |
| `DisassemblyRoundTrip.LineEncodes` | firmware/src/annotated/d51_to_sdas.py:91-151 | so does a line |
| `DisassemblyRoundTrip.AssemblyUndoesDisassembly` | firmware/src/annotated/d51_to_sdas.py:35-151 | assembling the emitted source gives the region back if and only if nothing in it branches below address zero |
| `DisassemblyRoundTrip.BelowZeroIsLost` | firmware/src/annotated/d51_to_sdas.py:46-73 | a region of two bytes that does not come back |
| `DisassemblyRoundTrip.ReferencesAreDefinedOnce` | firmware/src/annotated/d51_to_sdas.py:76-86 | every label referred to is defined exactly once, at a decoded boundary |
| `DisassemblyLaws.OperandInFigures` | firmware/src/annotated/d51_to_sdas.py:99-143 | every operand as written, from its bytes: immediate, relative, 16-bit and 11-bit |
| `DisassemblyLaws.BoundaryIff` | firmware/src/annotated/d51_to_sdas.py:35-74 | which addresses are decoded: the origin, and from each the one its length leads to |
| `DisassemblyLaws.LabeledIff` | firmware/src/annotated/d51_to_sdas.py:76-86 | an address has a label exactly if it is decoded and a decoded instruction branches there |

## Left out

- ServoSweep.Interrupt: whether the pulse logic holds a motor off for one pass is an arbitrary input, because its hunting and pulse-length heuristics (main.asm:302-341) only choose between the wanted direction and off.
- ProgramEntry.TypeInstruction: the typed operands are whatever is in their cells; the menus that put them there are not modelled.
- TeachKeys.Pendant.PollKey: starts from any command the menus may have chosen, in R3 and 29h; the menus themselves are not modelled, and digits, instructions and editing keys are in `DecimalEntry`, `ProgramEntry` and `Editor`.
- AutoBaud.Attempt: edge widths are exact timer counts; the polling latency of the wait loops is not modelled.
- Disassembler.Disassemble: lines are values, not text, so column layout, comments and number formatting are not modelled; the instruction table of the disasm51 package is a parameter and its contents are not part of this model.
- Writes of the digital outputs and LEDs to Port B, display codes, and the clamps of a single jog step.
- SRAM probing and the serial-number signature at power-up.
- Devices behind external memory: 0x0000 to 0xFFFF is one array of bytes, so a copy that runs over the I/O pages is a
  copy, without what a device would make of the writes.
- Instruction-set emulation, stack, register-bank switching and cycle counts: routines are modelled, not opcodes; registers are fields of their own, apart from internal RAM.
- Keys that edit the program, and uploads, end a run of the machine in `TeachModes`; what they leave is in `Editor`, `ProgramEntry` and `Upload`.
- Electrical behaviour and the arm itself: converter samples and inputs are arbitrary.
- The Tk and command-line front ends, host monitors, test drivers and simulator plumbing.
