/** The routines behind the teachbox's modes: the main loop's polling, the program commands of the enter key, and the arrows. */
module TeachKeys {
  import opened Bytes
  import opened ProgramLayout
  import opened ControllerState
  import opened InterpreterSpec
  import opened ProgramRuns
  import opened TeachModes
  import opened DecimalEntry
  import opened Serial
  import Interpreter
  import Prepare
  import Editor
  import Dispatch

  /** 0x40 in 29h: only the arrow keys do something. */
  const ARROWS := Mode(false, false, false, false, false, false, true, false)

  /** The values of R3 that stand for a program command. */
  predicate IsCommand(r3: byte) { Bit7(r3) && !Bit3(r3) }

  function CommandOf(r3: byte): Command {
    if Bit2(r3) then (if Bit1(r3) then Show else Break) else if Bit1(r3) then StepProgram else RunProgram
  }

  class Pendant {
    const c: Controller
    const entry: Entry
    var display: bool          // 2Ah.4
    var stepMode: bool         // 2Ah.3

    constructor (c: Controller, entry: Entry)
      ensures this.c == c && this.entry == entry && !display && !stepMode
    {
      this.c, this.entry, display, stepMode := c, entry, false, false;
    }

    /** In display and in step mode the enter key has nothing to end. */
    ghost predicate Valid()
      reads this, entry
    {
      && c.Valid()
      && (entry.error ==> !entry.active)
      && (display || stepMode ==> entry.active && entry.mode == ARROWS)
    }

    ghost function View(): Modes
      requires c.Valid()
      reads this, c, c.xram, c.iram, entry
    {
      Modes(Editor.Viewed(c), c.Control(), display, stepMode, entry.error)
    }

    /** A program that may be run from any of its slots is stored, and the program counter is on one of them. */
    ghost predicate HasProgram()
      requires c.Valid()
      reads this, c, c.xram, c.iram
    {
      OnSlot(Editor.Viewed(c), c.page) && LabelsInRange(c.xram[..], c.page)
    }

    /** The label that has been typed, if one has. */
    ghost function Typed(): Option<Label>
      requires entry.entered ==> entry.lo <= MAX_LABEL
      reads this, entry
    {
      if entry.entered then Some(entry.lo) else None
    }

    /** jump_0D23: ERR. */
    method Fail()
      requires c.Valid()
      modifies this, entry`active, entry`error, entry`entered, entry`more, c`atEnd
      ensures View() == old(Reset(View(), true)) && !entry.active && !display && !stepMode
    {
      entry.Fail();
      display, stepMode, c.atEnd := false, false, false;
    }

    /** jump_0C84: the clear key, and the end of a command. */
    method Clear()
      requires c.Valid()
      modifies this, entry`lo, entry`active, entry`error, entry`entered, entry`more, c`atEnd
      ensures View() == old(Reset(View(), false))
      ensures !entry.active && !entry.error && !display && !stepMode
    {
      entry.lo := 0;
      entry.active, entry.error, entry.entered, entry.more := false, false, false, false;
      display, stepMode, c.atEnd := false, false, false;
    }

    /** jump_0FCE: the program counter from the label table. */
    method GotoTyped()
      requires c.Valid() && entry.lo <= MAX_LABEL
      modifies c.iram
      ensures View() == old(View().(s := AtLabel(View().s, c.page, Some(entry.lo))))
    {
      hide TableEntry;
      Interpreter.PcMoves(c.iram[..], TableEntry(c.xram[..], c.page, entry.lo));
      Interpreter.Goto(c, entry.lo);
    }

    /** jump_0EED: break, and display. */
    method BreakOrShow()
      requires Valid() && HasProgram() && !entry.error && !display && !stepMode && entry.active
      requires IsCommand(entry.kind) && Bit2(entry.kind) && (entry.entered ==> entry.lo <= MAX_LABEL)
      modifies this, entry, c`running, c`motion, c`stepping, c`waitArrival, c`waitTime, c`waitInput, c`atEnd, c.iram
      ensures Valid() && View() == old(Entered(View(), c.page, CommandOf(entry.kind), Typed()))
    {
      HaltedStops(c.Control());
      hide OnSlot, LabelsInRange, NotWaiting, Halted, Stopped, TableEntry, Displayed, Reset;
      Halt();
      if entry.entered {
        GotoTyped();
      }
      if !Bit1(entry.kind) {
        EndRun();
      } else {
        ShowHere();
      }
    }

    lemma HaltedStops(k: Control)
      ensures NotWaiting(Halted(k)).(running := false) == Stopped(k)
    {
    }

    /** ANL 28h,#07h and MOV 26h,#0. */
    method Halt()
      requires c.Valid()
      modifies c`motion, c`stepping, c`waitArrival, c`waitTime, c`waitInput
      ensures View() == old(View().(k := NotWaiting(Halted(View().k))))
    {
      c.motion, c.stepping := false, false;
      ForgetWaits();
    }

    method ForgetWaits()
      requires c.Valid()
      modifies c`waitArrival, c`waitTime, c`waitInput
      ensures View() == old(View().(k := NotWaiting(View().k)))
    {
      c.waitArrival, c.waitTime, c.waitInput := false, false, false;
    }

    /** 0x0EFC. */
    method EndRun()
      requires c.Valid()
      modifies this, entry`lo, entry`active, entry`error, entry`entered, entry`more, c`running, c`atEnd
      ensures View() == old(Reset(View().(k := View().k.(running := false)), false))
      ensures !entry.active && !entry.error && !display && !stepMode
    {
      hide Reset;
      c.running := false;
      Clear();
    }

    /** jump_0F00. */
    method ShowHere()
      requires c.Valid()
      modifies this`display, entry`mode, c`atEnd
      ensures View() == old(View().(s := Displayed(View().s), display := true)) && entry.mode == ARROWS
    {
      display := true;
      entry.mode := ARROWS;
      Editor.Display(c);
    }

    /** What is left of the modes when there is no program that could run. */
    ghost function Refused(t: Modes): Modes { Reset(t.(k := Halted(t.k).(running := false)), true) }

    /** jump_0F07. */
    method Refuse()
      requires c.Valid()
      modifies this, entry`active, entry`error, entry`entered, entry`more, c`running, c`motion, c`stepping, c`atEnd
      ensures View() == old(Refused(View()))
      ensures !entry.active && !display && !stepMode
    {
      c.running, c.motion, c.stepping := false, false, false;
      Fail();
    }

    /** 0x0803 for a program that is known to be acceptable: it is indexed once more. */
    method Revalidate()
      requires c.Valid() && HasProgram()
      modifies c`loaded, c`running, c`motion, c`stepping, c.xram, c.iram
      ensures c.loaded && View() == old(View().(s := View().s.(mem := Prepared(View().s.mem, c.page))))
    {
      HasSlots();
      hide OnSlot, Prepared, Prepare.OutsideIndexing, LabelsInRange, Accepts, IsEmptyProgram;
      ghost var visited := Prepare.Prepare(c);
      Editor.PcStays(old(c.iram[..]), c.iram[..]);
    }

    lemma HasSlots()
      requires c.Valid() && HasProgram()
      ensures Fits(c.xram[..], c.page) && Accepts(c.xram[..], c.page) && Slots(c.xram[..], c.page) >= 1
    {
    }

    /** 0x0EC8: run, and step mode, from a label or where the program stands. */
    method RunOrStep()
      requires Valid() && HasProgram() && !entry.error && !display && !stepMode && entry.active
      requires IsCommand(entry.kind) && !Bit2(entry.kind) && (entry.entered ==> entry.lo <= MAX_LABEL)
      modifies this, entry, c`loaded, c`running, c`motion, c`stepping, c`waitArrival, c`waitTime, c`waitInput, c`outputs,
               c`atEnd, c.xram, c.iram
      ensures Valid() && c.loaded == old(c.loaded)
      ensures View() == old(if c.loaded then Entered(View(), c.page, CommandOf(entry.kind), Typed()) else Refused(View()))
    {
      RefusedStops(c.Control());
      hide OnSlot, LabelsInRange, NotWaiting, Halted, Stopped, Launched, Reset;
      if !c.loaded {
        Refuse();
        return;
      }
      ForgetWaits();
      if entry.entered {
        LaunchTyped();
      } else if !c.running {
        Refuse();
        return;
      }
      GoOn();
    }

    lemma RefusedStops(k: Control)
      ensures Halted(NotWaiting(k)).(running := false) == Stopped(k) && NotWaiting(k).running == k.running
    {
    }

    /** jump_0EE1: off it goes, or waits for the forward key. */
    method GoOn()
      requires c.Valid()
      modifies this`stepMode, entry`mode, c`motion
      ensures View() == old(if Bit1(entry.kind) then View().(stepMode := true) else View().(k := View().k.(motion := true)))
      ensures Bit1(entry.kind) ==> entry.mode == ARROWS
      ensures !Bit1(entry.kind) ==> entry.mode == old(entry.mode)
    {
      if !Bit1(entry.kind) {
        c.motion := true;
      } else {
        stepMode := true;
        entry.mode := ARROWS;
      }
    }

    /** jump_0ED4. */
    method LaunchTyped()
      requires c.Valid() && c.loaded && HasProgram() && entry.lo <= MAX_LABEL
      modifies c`loaded, c`running, c`motion, c`stepping, c`outputs, c.xram, c.iram
      ensures c.loaded
      ensures View() == old(View().(s := Launched(View().s, c.page, Some(entry.lo)),
                                    k := View().k.(running := true, outputs := 0xFF)))
    {
      AtLabelOnSlot(View().s, c.page, Some(entry.lo));
      HasSlots();
      hide TableEntry, OnSlot, LabelsInRange, Prepared;
      GotoTyped();
      Revalidate();
      c.running := true;
      c.outputs := 0xFF;
    }

    /** 0x07A9: the start input runs the program from its beginning. */
    method StartRun()
      requires Valid() && HasProgram()
      modifies c`loaded, c`running, c`motion, c`stepping, c`waitArrival, c`waitTime, c`waitInput, c`outputs, c.xram, c.iram
      ensures Valid() && c.loaded && View() == old(SetGoing(View(), c.page, None))
    {
      BaseInBody(View().s, c.page);
      HasSlots();
      hide OnSlot, LabelsInRange, Prepared, NotWaiting, AfterStart;
      ForgetWaits();
      GotoBase();
      Revalidate();
      SetOff();
    }

    method GotoBase()
      requires c.Valid()
      modifies c.iram
      ensures View() == old(View().(s := View().s.(pc := Base(c.page))))
    {
      c.iram[PC_LO] := 0;
      c.iram[PC_HI] := c.page + 1;
    }

    /** ORL 28h,#0Ch, all outputs on. */
    method SetOff()
      requires c.Valid()
      modifies c`running, c`motion, c`outputs
      ensures View() == old(View().(k := AfterStart(View().k, true)))
    {
      c.outputs := 0xFF;
      c.running, c.motion := true, true;
    }

    /** What pressing the enter key amounts to: a command, if 29h.5 says that it may end here. */
    ghost function EnterInput(): Input
      requires entry.entered ==> entry.lo <= MAX_LABEL
      reads this, entry
    {
      if entry.active && entry.mode.b5 then Enter(CommandOf(entry.kind), Typed()) else WrongKey
    }

    predicate NeedsProgram(input: Input) { input.Enter? && (input.command.RunProgram? || input.command.StepProgram?) }

    /** 0x0D91 and jump_0EC0: the enter key, while no key or a program command has been pressed before. */
    method EnterKey()
      requires Valid() && HasProgram()
      requires (entry.active && entry.mode.b5 ==> IsCommand(entry.kind)) && (entry.entered ==> entry.lo <= MAX_LABEL)
      modifies this, entry, c`loaded, c`running, c`motion, c`stepping, c`waitArrival, c`waitTime, c`waitInput, c`outputs,
               c`atEnd, c.xram, c.iram
      ensures Valid() && c.loaded == old(c.loaded)
      ensures View() == old(if NeedsProgram(EnterInput()) && !c.loaded then Refused(View())
                            else Pressed(View(), c.page, EnterInput()))
    {
      hide Entered, OnSlot, LabelsInRange, Reset, Refused;
      if !entry.active && entry.error {
        return;
      }
      if !entry.active || !entry.mode.b5 {
        Fail();
      } else if Bit2(entry.kind) {
        BreakOrShow();
      } else {
        RunOrStep();
      }
    }

    ghost function ArrowInput(up: bool): Input
      reads this, entry
    {
      if entry.active && entry.mode.b6 then (if up then Up else Down) else WrongKey
    }

    /** jump_0DF4, jump_0E20 and jump_0E43: the arrow keys, in display and step mode. */
    method ArrowKey(up: bool)
      requires Valid() && HasProgram()
      requires entry.active && entry.mode.b6 ==> display || stepMode
      modifies this, entry`active, entry`error, entry`entered, entry`more, c`stepping, c`atEnd, c.iram
      ensures Valid() && c.loaded == old(c.loaded)
      ensures View() == old(if display && !c.loaded then Reset(View(), true) else Pressed(View(), c.page, ArrowInput(up)))
    {
      StandsOnSlot();
      hide OnSlot, LabelsInRange, SteppedForward, SteppedBack;
      if !entry.active && entry.error {
        return;
      }
      if !entry.active || !entry.mode.b6 {
        Fail();
      } else if display && !c.loaded {
        Fail();
      } else if display {
        if up {
          Editor.StepForward(c);
        } else {
          Editor.StepBack(c);
        }
      } else if up {
        c.stepping := true;
      }
    }

    /** 0x07A6: while the program runs freely neither the start input nor the keypad is looked at. */
    method PollStart(low: bool) returns (taken: bool)
      requires Valid() && HasProgram()
      modifies c`loaded, c`running, c`motion, c`stepping, c`waitArrival, c`waitTime, c`waitInput, c`outputs, c.xram, c.iram
      ensures Valid() && (taken <==> old(c.motion) || low)
      ensures View() == old(if low then Does(View(), c.page, Poll(StartLine)) else View())
    {
      hide SetGoing, OnSlot, LabelsInRange;
      taken := c.motion || low;
      if !c.motion && low {
        StartRun();
      }
    }

    /** The same for a key that the scan has reported: enter, forward, back or clear. */
    method PollKey(key: byte)
      requires Valid() && HasProgram() && key in {0x0C, 0x0D, 0x0E, 0x0F}
      requires entry.active && entry.mode.b5 ==> IsCommand(entry.kind)
      requires (entry.active && entry.mode.b6 ==> display || stepMode) && (entry.entered ==> entry.lo <= MAX_LABEL)
      modifies this, entry, c`loaded, c`running, c`motion, c`stepping, c`waitArrival, c`waitTime, c`waitInput, c`outputs,
               c`atEnd, c.xram, c.iram
      ensures Valid() && c.loaded == old(c.loaded)
      ensures old(c.loaded) ==> View() == old(Does(View(), c.page, Poll(KeyInput(key))))
    {
      hide Pressed, OnSlot, LabelsInRange, Refused;
      if c.motion {
        return;
      }
      PressedOther(key);
      var a := Dec(key);
      if a == 0x0E {
        Clear();
      } else if a == 0x0D {
        EnterKey();
      } else {
        ArrowKey(a == 0x0C);
      }
    }

    ghost function KeyInput(key: byte): Input
      requires entry.entered ==> entry.lo <= MAX_LABEL
      reads this, entry
    {
      if key == 0x0F then ClearKey
      else if key == 0x0E then EnterInput()
      else ArrowInput(key == 0x0D)
    }

    lemma PressedOther(key: byte)
      requires c.Valid() && HasProgram()
      ensures Pressed(View(), c.page, ClearKey) == Reset(View(), false)
    {
    }

    /** 0x0797: the main loop's turn of the interpreter. */
    method MainPass(p1: byte) returns (ghost over: bool)
      requires Valid() && HasProgram()
      modifies c`running, c`motion, c`stepping, c`waitArrival, c`waitTime, c`waitInput, c`opcode, c`inPosition, c`needMove,
               c`renewed, c`outputs, c`r7, c`slowTick, c.xram, c.iram
      ensures Valid() && View() == old(Passed(View(), c.page, p1, over))
    {
      StandsOnSlot();
      over := WaitEnds(c.Control(), p1, c.slowTick, c.iram[WAIT_LO], c.iram[WAIT_HI]);
      hide OnSlot, LabelsInRange, NextControl, NextMem, NextPc, WaitEnds, Interpreter.WithPc, Loaded;
      PcAfter(c.iram[..], c.xram[..], c.Pc(), p1);
      var executed := Interpreter.Gate(c, p1);
    }

    lemma PcAfter(iram: seq<byte>, mem: Memory, pc: word, p1: byte)
      requires |iram| == 0x80 && pc < 0xFF00
      ensures var after := Interpreter.WithPc(Loaded(iram, mem, pc), NextPc(mem, c.page, pc, p1));
              Pair(after[PC_HI], after[PC_LO]) == NextPc(mem, c.page, pc, p1)
    {
      hide Loaded, NextPc;
      Interpreter.PcMoves(Loaded(iram, mem, pc), NextPc(mem, c.page, pc, p1));
    }

    lemma StandsOnSlot()
      requires c.Valid() && HasProgram()
      ensures Base(c.page) <= c.Pc() < 0xFF00 && c.Pc() % 8 == 0
    {
    }

    /** jump_03F1: a host command to a loaded program, as the modes see it. */
    method HostCommand(s: SerialPort, ghost h: byte)
      requires Valid() && HasProgram() && c.loaded && s.c == c && 0x82 <= h <= 0x88 && s.r6 == h - 0x81
      requires h >= 0x87 ==> c.iram[BUFFER] <= MAX_LABEL
      modifies s`sendKey, s`sendStatus, s`r4, s`r6, c`loaded, c`running, c`motion, c`stepping, c`waitArrival, c`waitTime,
               c`waitInput, c`outputs, c.xram, c.iram
      ensures Valid() && c.loaded
      ensures View() == old(Does(View(), c.page, HostAct(h, if h >= 0x87 then c.iram[BUFFER] else 0)))
    {
      HasSlots();
      hide OnSlot, LabelsInRange, Dispatch.CommandControl, Does, Accepts, Prepared, TableEntry;
      HostDoes(View(), h, if h >= 0x87 then c.iram[BUFFER] else 0);
      Dispatch.ProgramCommand(s, h);
    }

    lemma HostDoes(t: Modes, h: byte, m: Label)
      requires OnSlot(t.s, c.page) && 0x82 <= h <= 0x88
      ensures Does(t, c.page, HostAct(h, m))
              == t.(s := HostState(t.s, c.page, h, m), k := Dispatch.CommandControl(t.k, h, true, true))
    {
      hide OnSlot, Launched, AtLabel, AfterStart, NotWaiting, Stopped;
    }
  }

  /** Memory and program counter after a host command to a loaded program. */
  function HostState(s: State, p: SramPage, h: byte, m: Label): State
    requires OnSlot(s, p)
  {
    if h == 0x82 then Launched(s, p, None)
    else if h == 0x87 then Launched(s, p, Some(m))
    else if h == 0x88 then AtLabel(s, p, Some(m)) else s
  }

  /** What the host's program commands are to the modes. */
  function HostAct(h: byte, m: Label): Act
    requires 0x82 <= h <= 0x88
  {
    match h
    case 0x82 => HostRun(None)
    case 0x83 => HostStop
    case 0x84 => HostResume
    case 0x85 => HostStep
    case 0x86 => HostPause
    case 0x87 => HostRun(Some(m))
    case _ => HostGoto(m)
  }
}
