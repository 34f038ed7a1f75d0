/** The teachbox's run, step and display modes next to the interpreter and the host: what may move the program counter when. */
module TeachModes {
  import opened Bytes
  import opened ProgramLayout
  import opened InterpreterSpec
  import opened ProgramRuns

  /** A label the program's table has an entry for. */
  type Label = m: byte | m <= MAX_LABEL

  /** Display and step mode are 2Ah.4 and 2Ah.3; error (2Ah.6) is shown until the clear key. */
  datatype Modes = Modes(s: State, k: Control, display: bool, stepMode: bool, error: bool)

  /** The commands the enter key carries out on the stored program, by two bits of R3. */
  datatype Command = RunProgram | StepProgram | Break | Show

  /** What the main loop can find when it polls: the start input, or a key. */
  datatype Input =
    | StartLine
    | Enter(command: Command, mark: Option<Label>)
    | Up
    | Down
    | ClearKey
    | WrongKey

  datatype Act =
    | Pass(p1: byte, over: bool)    // the main loop; over says whether a wait ends
    | Poll(input: Input)            // the main loop, too
    | HostRun(mark: Option<Label>)  // 0x82 and 0x87
    | HostResume                    // 0x84
    | HostStep                      // 0x85
    | HostPause                     // 0x86
    | HostStop                      // 0x83
    | HostGoto(to: Label)           // 0x88

  /** What sets the program going although the teachbox has not asked for it. */
  predicate Starts(a: Act) { a == Poll(StartLine) || a.HostRun? || a.HostResume? || a.HostStep? }

  function Halted(k: Control): Control { k.(motion := false, stepping := false) }

  /** jump_0D23, and jump_0C84 with no error: all of 2Ah goes. */
  function Reset(t: Modes, error: bool): Modes {
    t.(s := t.s.(atEnd := false), display := false, stepMode := false, error := error)
  }

  /** The program counter set from the label table. */
  function AtLabel(s: State, p: SramPage, m: Option<Label>): State {
    if m.None? then s else s.(pc := TableEntry(s.mem, p, m.value))
  }

  /** 0x0900: a main-loop pass executes an instruction, waits, or leaves a program that is not going alone. */
  function Passed(t: Modes, p: SramPage, p1: byte, over: bool): Modes
    requires OnSlot(t.s, p)
  {
    if !t.k.stepping && !t.k.motion then t
    else if Waiting(t.k) then (if over then t.(k := NotWaiting(t.k).(stepping := false)) else t)
    else t.(s := Step(t.s, p, p1), k := NextControl(t.k, t.s.mem, t.s.pc))
  }

  /** 0x0EC0 to 0x0F0A: a command from the enter key; a program that is not running starts at a label only. */
  function Entered(t: Modes, p: SramPage, command: Command, mark: Option<Label>): Modes
    requires OnSlot(t.s, p)
  {
    if t.error then t
    else if t.display || t.stepMode then Reset(t, true)
    else
      match command
      case Break => Reset(t.(s := AtLabel(t.s, p, mark), k := Stopped(t.k)), false)
      case Show => t.(s := Displayed(AtLabel(t.s, p, mark)), k := NotWaiting(Halted(t.k)), display := true)
      case _ =>
        if mark.None? && !t.k.running then Reset(t.(k := Stopped(t.k)), true)
        else
          var k := NotWaiting(t.k);
          var going := if mark.None? then t.(k := k)
                       else t.(s := Launched(t.s, p, mark), k := k.(running := true, outputs := 0xFF));
          if command.RunProgram? then going.(k := going.k.(motion := true)) else going.(stepMode := true)
  }

  /** The program counter set, and the program validated and indexed once more. */
  function Launched(s: State, p: SramPage, mark: Option<Label>): State
    requires OnSlot(s, p)
  {
    var pc := if mark.None? then Base(p) else TableEntry(s.mem, p, mark.value);
    s.(mem := Prepared(s.mem, p), pc := pc)
  }

  /** The program set going from its beginning or from a label. */
  function SetGoing(t: Modes, p: SramPage, mark: Option<Label>): Modes
    requires OnSlot(t.s, p)
  {
    t.(s := Launched(t.s, p, mark), k := AfterStart(if mark.None? then NotWaiting(t.k) else t.k, true))
  }

  /** 0x07A6 to 0x07CC: what is polled while the program is not running freely. */
  function Pressed(t: Modes, p: SramPage, input: Input): Modes
    requires OnSlot(t.s, p)
  {
    match input
    case StartLine => SetGoing(t, p, None)
    case Enter(command, mark) => Entered(t, p, command, mark)
    case Up =>
      if t.display then t.(s := SteppedForward(t.s))
      else if t.stepMode then t.(k := t.k.(stepping := true)) else t
    case Down => if t.display then t.(s := SteppedBack(t.s, p)) else t
    case ClearKey => Reset(t, false)
    case WrongKey => if t.error then t else Reset(t, true)
  }

  function Does(t: Modes, p: SramPage, a: Act): Modes
    requires OnSlot(t.s, p)
  {
    match a
    case Pass(p1, over) => Passed(t, p, p1, over)
    case Poll(input) => if t.k.motion then t else Pressed(t, p, input)
    case HostRun(mark) => SetGoing(t, p, mark)
    case HostResume => t.(k := t.k.(motion := t.k.motion || t.k.running))
    case HostStep => t.(k := t.k.(stepping := t.k.stepping || t.k.running))
    case HostPause => t.(k := t.k.(motion := false))
    case HostStop => t.(k := Stopped(t.k))
    case HostGoto(m) => t.(s := AtLabel(t.s, p, Some(m)), k := Stopped(t.k))
  }

  /** In display mode nothing runs, and END is on display when the program counter is there. */
  predicate StandsStill(t: Modes, p: SramPage) { t.display ==> !t.k.motion && !t.k.stepping && EndShown(t.s, p) }

  /** Nothing but the teachbox sets the program going while display mode lasts. */
  predicate Undisturbed(t: Modes, p: SramPage, acts: seq<Act>)
    decreases |acts|
  {
    acts != [] && OnSlot(t.s, p) ==> (Starts(acts[0]) ==> !t.display) && Undisturbed(Does(t, p, acts[0]), p, acts[1..])
  }

  predicate KeepsOnSlot(t: Modes, p: SramPage, acts: seq<Act>)
    decreases |acts|
  {
    OnSlot(t.s, p) && (acts != [] ==> KeepsOnSlot(Does(t, p, acts[0]), p, acts[1..]))
  }

  /** A label of a runnable program is a slot of it, never END. */
  lemma LabelInBody(s: State, p: SramPage, m: Label)
    requires OnSlot(s, p)
    ensures var to := AtLabel(s, p, Some(m));
            OnSlot(to, p) && !AtEnd(to, p)
  {
    assert TableEntry(s.mem, p, m) == Target(s.mem, p, m);
  }

  lemma BaseInBody(s: State, p: SramPage)
    requires OnSlot(s, p)
    ensures OnSlot(s.(pc := Base(p)), p)
  {
  }

  /** Validating a runnable program again leaves it runnable, with the same body area. */
  lemma LaunchedOnSlot(s: State, p: SramPage, mark: Option<Label>)
    requires OnSlot(s, p)
    ensures OnSlot(Launched(s, p, mark), p)
  {
    PreparedRuns(s.mem, p);
    hide Prepared, Browsable, TableEntry;
    if mark.Some? {
      LabelInBody(s, p, mark.value);
    } else {
      BaseInBody(s, p);
    }
  }

  lemma AtLabelOnSlot(s: State, p: SramPage, mark: Option<Label>)
    requires OnSlot(s, p)
    ensures OnSlot(AtLabel(s, p, mark), p) && (mark.Some? ==> !AtEnd(AtLabel(s, p, mark), p))
  {
    if mark.Some? {
      LabelInBody(s, p, mark.value);
    }
  }

  lemma DisplayedOnSlot(s: State, p: SramPage)
    requires OnSlot(s, p)
    ensures OnSlot(Displayed(s), p) && EndShown(Displayed(s), p)
  {
    HappensOnSlot(s, p, ProgramRuns.Display);
  }

  /** The forward key finds the program standing still in display mode. */
  predicate IsForward(t: Modes, a: Act) { a == Poll(Up) && t.display && !t.k.motion }

  /**
   Every act but the forward key keeps the program counter on slots of the program, and that key
   does exactly if END, when it is reached, is shown.
  */
  lemma ActOnSlotIff(t: Modes, p: SramPage, a: Act)
    requires OnSlot(t.s, p)
    ensures OnSlot(Does(t, p, a).s, p) <==> (IsForward(t, a) ==> EndShown(t.s, p))
  {
    hide Browsable, Launched, AtLabel, Displayed, SteppedForward, SteppedBack, Step, NextControl;
    match a
    case Pass(p1, over) => StepOnSlot(t.s, p, p1);
    case Poll(input) =>
      match input {
        case StartLine => LaunchedOnSlot(t.s, p, None);
        case Enter(command, mark) =>
          AtLabelOnSlot(t.s, p, mark);
          LaunchedOnSlot(t.s, p, mark);
          DisplayedOnSlot(AtLabel(t.s, p, mark), p);
        case Up => ForwardStaysIff(t.s, p);
        case Down => HappensOnSlot(t.s, p, Back);
        case _ =>
      }
    case HostRun(mark) => LaunchedOnSlot(t.s, p, mark);
    case HostGoto(m) => AtLabelOnSlot(t.s, p, Some(m));
    case _ =>
  }

  /** Display mode goes on standing still unless the host or the start input disturbs it. */
  lemma ActStandsStill(t: Modes, p: SramPage, a: Act)
    requires OnSlot(t.s, p) && StandsStill(t, p) && (Starts(a) ==> !t.display)
    ensures StandsStill(Does(t, p, a), p)
  {
    hide Browsable, Launched, AtLabel, Displayed, SteppedForward, SteppedBack, Step, NextControl;
    match a
    case Poll(input) =>
      match input {
        case Enter(command, mark) =>
          AtLabelOnSlot(t.s, p, mark);
          DisplayedOnSlot(AtLabel(t.s, p, mark), p);
        case Up => if t.display { HappensOnSlot(t.s, p, Forward); }
        case Down => HappensOnSlot(t.s, p, Back);
        case _ =>
      }
    case HostGoto(m) => AtLabelOnSlot(t.s, p, Some(m));
    case _ =>
  }

  /** The forward key of display mode only ever finds END on display, when the program counter is there. */
  predicate ForwardShown(t: Modes, p: SramPage, acts: seq<Act>)
    decreases |acts|
  {
    acts != [] && OnSlot(t.s, p) ==>
      && (IsForward(t, acts[0]) ==> EndShown(t.s, p))
      && ForwardShown(Does(t, p, acts[0]), p, acts[1..])
  }

  /**
   For every mix of main-loop passes, keys, the start input and host commands: that is exactly when
   the program counter stays on slots of [base, END].
  */
  lemma {:induction false} ModesKeepBodyIff(t: Modes, p: SramPage, acts: seq<Act>)
    requires OnSlot(t.s, p)
    ensures KeepsOnSlot(t, p, acts) <==> ForwardShown(t, p, acts)
    decreases |acts|
  {
    hide OnSlot, Does, EndShown;
    if acts != [] {
      ActOnSlotIff(t, p, acts[0]);
      if OnSlot(Does(t, p, acts[0]).s, p) {
        ModesKeepBodyIff(Does(t, p, acts[0]), p, acts[1..]);
      }
    }
  }

  /**
   And it always is, as long as neither the host nor the start input sets the program going while
   the teachbox displays it: that the display is up to date is no assumption, the modes see to it.
  */
  lemma {:induction false} ModesKeepBody(t: Modes, p: SramPage, acts: seq<Act>)
    requires OnSlot(t.s, p) && StandsStill(t, p) && Undisturbed(t, p, acts)
    ensures KeepsOnSlot(t, p, acts)
    decreases |acts|
  {
    hide OnSlot, Does;
    if acts != [] {
      ActOnSlotIff(t, p, acts[0]);
      ActStandsStill(t, p, acts[0]);
      ModesKeepBody(Does(t, p, acts[0]), p, acts[1..]);
    }
  }

  /** The teachbox shows a program of one NOP, the host runs it up to and including END, and the forward key then leaves it. */
  lemma StartWhileShown(p: SramPage, k: Control)
    requires !k.motion
    ensures Fits(SingleNop(p), p) && Slots(SingleNop(p), p) >= 1
    ensures var t := Modes(State(Prepared(SingleNop(p), p), Base(p), false), k, false, false, false);
            && OnSlot(t.s, p) && StandsStill(t, p)
            && !KeepsOnSlot(t, p, [Poll(Enter(Show, None)), HostRun(None), Pass(0, false), Pass(0, false), Poll(Up)])
  {
    SingleNopRuns(p);
    var mem := Prepared(SingleNop(p), p);
    PreparedBody(SingleNop(p), p, Base(p));
    PreparedBody(SingleNop(p), p, Base(p) + 8);
    hide SingleNop, Prepared, Browsable;
    StartLeaves(Modes(State(mem, Base(p), false), k, false, false, false), p);
  }

  lemma StartLeaves(t: Modes, p: SramPage)
    requires OnSlot(t.s, p) && Size(t.s.mem, p) == 8 && t.s.mem[Base(p)] == NOP && t.s.mem[Base(p) + 8] == END
    requires t.s.pc == Base(p) && !t.k.motion && !t.display && !t.stepMode && !t.error && !t.s.atEnd
    ensures !KeepsOnSlot(t, p, [Poll(Enter(Show, None)), HostRun(None), Pass(0, false), Pass(0, false), Poll(Up)])
  {
    var shown := Does(t, p, Poll(Enter(Show, None)));
    KeepsNext(t, p, Poll(Enter(Show, None)), [HostRun(None), Pass(0, false), Pass(0, false), Poll(Up)]);
    ActOnSlotIff(t, p, Poll(Enter(Show, None)));
    RunLeaves(shown, p);
  }

  lemma RunLeaves(t: Modes, p: SramPage)
    requires OnSlot(t.s, p) && Size(t.s.mem, p) == 8 && t.s.mem[Base(p)] == NOP && t.s.mem[Base(p) + 8] == END
    requires t.s.pc == Base(p) && t.display && !t.s.atEnd
    ensures !KeepsOnSlot(t, p, [HostRun(None), Pass(0, false), Pass(0, false), Poll(Up)])
  {
    LaunchedOnSlot(t.s, p, None);
    PreparedBody(t.s.mem, p, Base(p));
    PreparedBody(t.s.mem, p, Base(p) + 8);
    hide Prepared, Browsable, KeepsOnSlot;
    KeepsNext(t, p, HostRun(None), [Pass(0, false), Pass(0, false), Poll(Up)]);
    PassesLeave(Does(t, p, HostRun(None)), p);
  }

  lemma PassesLeave(t: Modes, p: SramPage)
    requires OnSlot(t.s, p) && Size(t.s.mem, p) == 8 && t.s.mem[Base(p)] == NOP && t.s.mem[Base(p) + 8] == END
    requires t.s.pc == Base(p) && t.display && !t.s.atEnd && t.k.motion && !Waiting(t.k)
    ensures !KeepsOnSlot(t, p, [Pass(0, false), Pass(0, false), Poll(Up)])
  {
    hide Browsable, KeepsOnSlot;
    var nop := Does(t, p, Pass(0, false));
    assert [Pass(0, false)] + [Pass(0, false), Poll(Up)] == [Pass(0, false), Pass(0, false), Poll(Up)];
    KeepsNext(t, p, Pass(0, false), [Pass(0, false), Poll(Up)]);
    ActOnSlotIff(t, p, Pass(0, false));
    assert [Pass(0, false)] + [Poll(Up)] == [Pass(0, false), Poll(Up)];
    KeepsNext(nop, p, Pass(0, false), [Poll(Up)]);
    ActOnSlotIff(nop, p, Pass(0, false));
    var end := Does(nop, p, Pass(0, false));
    assert end.s == t.s.(pc := Base(p) + 8) && !end.k.motion && end.display;
    assert [Poll(Up)] + [] == [Poll(Up)];
    KeepsNext(end, p, Poll(Up), []);
    ActOnSlotIff(end, p, Poll(Up));
    KeepsNow(Does(end, p, Poll(Up)), p);
  }

  lemma KeepsNext(t: Modes, p: SramPage, a: Act, acts: seq<Act>)
    requires OnSlot(t.s, p)
    ensures KeepsOnSlot(t, p, [a] + acts) <==> KeepsOnSlot(Does(t, p, a), p, acts)
  {
    assert ([a] + acts)[1..] == acts;
  }

  lemma KeepsNow(t: Modes, p: SramPage)
    ensures KeepsOnSlot(t, p, []) ==> OnSlot(t.s, p)
  {
  }
}
