/** The program commands of the host and of the teachbox, in figures: every flag, the program counter and memory. */
module CommandLaws {
  import opened Bytes
  import opened ProgramLayout
  import opened InterpreterSpec
  import opened ProgramRuns
  import opened TeachModes
  import opened TeachKeys
  import Dispatch

  /** What the commands 0x82 to 0x88 make of the interpreter's flags. */
  lemma HostFlags(k: Control, h: byte, accepted: bool)
    requires 0x82 <= h <= 0x88
    ensures Dispatch.CommandControl(k, h, false, accepted) == k
    ensures var r := Dispatch.CommandControl(k, h, true, accepted);
            && (h == 0x82 || h == 0x87 ==> r.running == r.motion == accepted && r.stepping == (accepted && k.stepping))
            && (h == 0x83 || h == 0x88 ==> !r.running && !r.motion && !r.stepping)
            && (0x84 <= h <= 0x86 ==> r.running == k.running)
            && (h == 0x84 ==> r.motion == (k.motion || k.running) && r.stepping == k.stepping)
            && (h == 0x85 ==> r.motion == k.motion && r.stepping == (k.stepping || k.running))
            && (h == 0x86 ==> !r.motion && r.stepping == k.stepping)
            && (r.waitArrival <==> k.waitArrival && 0x84 <= h <= 0x87)
            && (r.waitTime <==> k.waitTime && 0x84 <= h <= 0x87)
            && (r.waitInput <==> k.waitInput && 0x84 <= h <= 0x87)
            && r.outputs == (if (h == 0x82 || h == 0x87) && accepted then 0xFF else k.outputs)
            && r.inPosition == k.inPosition && r.needMove == k.needMove && r.renewed == k.renewed
  {
    if h == 0x82 || h == 0x87 {
    } else if h == 0x83 || h == 0x88 {
    } else {
    }
  }

  /** A command of the enter key when no mode is on: R3 is 0x80 to run, 0x82 to step, 0x84 to break, 0x86 to display. */
  lemma EnterInFigures(t: Modes, p: SramPage, r3: byte, mark: Option<Label>)
    requires OnSlot(t.s, p) && !t.error && !t.display && !t.stepMode && r3 in {0x80, 0x82, 0x84, 0x86}
    ensures var r := Entered(t, p, CommandOf(r3), mark);
            var refused := r3 < 0x84 && mark.None? && !t.k.running;
            && r.error == refused && r.display == (r3 == 0x86) && r.stepMode == (r3 == 0x82 && !refused)
            && r.s.pc == (if mark.None? then t.s.pc else TableEntry(t.s.mem, p, mark.value))
            && r.s.mem == (if r3 < 0x84 && mark.Some? then Prepared(t.s.mem, p) else t.s.mem)
            && (r.k.running <==> (r3 < 0x84 && mark.Some?) || (r3 != 0x84 && t.k.running))
            && (r.k.motion <==> !refused && (r3 == 0x80 || (r3 == 0x82 && t.k.motion)))
            && (r.k.stepping <==> !refused && r3 < 0x84 && t.k.stepping)
            && !r.k.waitArrival && !r.k.waitTime && !r.k.waitInput
            && r.k.outputs == (if r3 < 0x84 && mark.Some? then 0xFF else t.k.outputs)
            && (r3 == 0x84 || refused ==> !r.s.atEnd)
            && (r3 == 0x86 ==> (r.s.atEnd <==> t.s.atEnd || r.s.mem[r.s.pc] >= 0x80))
  {
    hide OnSlot, Prepared, TableEntry;
  }

  /** The arrow keys: to the next slot unless END has been shown, back unless this is the first; a step in step mode. */
  lemma ArrowsInFigures(t: Modes, p: SramPage)
    requires OnSlot(t.s, p)
    ensures var r := Pressed(t, p, Up);
            && r.s.mem == t.s.mem && r.s.pc == t.s.pc + (if t.display && !t.s.atEnd then 8 else 0)
            && r.s.atEnd == (t.s.atEnd || (t.display && r.s.mem[r.s.pc] >= 0x80))
            && r.k == t.k.(stepping := t.k.stepping || (t.stepMode && !t.display))
            && r.display == t.display && r.stepMode == t.stepMode && r.error == t.error
    ensures var r := Pressed(t, p, Down);
            var back := t.display && t.s.pc >= p as int * 256 + 264;
            && r.s.mem == t.s.mem && r.s.pc == t.s.pc - (if back then 8 else 0)
            && r.s.atEnd == (if back then r.s.mem[r.s.pc] >= 0x80 else t.s.atEnd)
            && r.k == t.k && r.display == t.display && r.stepMode == t.stepMode && r.error == t.error
  {
    OnSlotIsIn(t.s, p);
    hide OnSlot;
  }

  lemma OnSlotIsIn(s: State, p: SramPage)
    requires OnSlot(s, p)
    ensures p as int * 256 + 256 <= s.pc < 0xFF00
  {
  }

  /** A pass of the main loop: an instruction exactly if the program runs or steps and waits for nothing; else waits may end. */
  lemma PassInFigures(t: Modes, p: SramPage, p1: byte, over: bool)
    requires OnSlot(t.s, p)
    ensures var r := Passed(t, p, p1, over);
            var waits := t.k.waitArrival || t.k.waitTime || t.k.waitInput;
            && r.display == t.display && r.stepMode == t.stepMode && r.error == t.error && r.s.atEnd == t.s.atEnd
            && (if (t.k.motion || t.k.stepping) && !waits then
                  && r.s.pc == NextPc(t.s.mem, p, t.s.pc, p1)
                  && r.s.mem == NextMem(t.s.mem, t.s.pc) && r.k == NextControl(t.k, t.s.mem, t.s.pc)
                else
                  && r.s == t.s && r.k.running == t.k.running && r.k.motion == t.k.motion && r.k.outputs == t.k.outputs
                  && (if (t.k.motion || t.k.stepping) && over then
                        !r.k.waitArrival && !r.k.waitTime && !r.k.waitInput && !r.k.stepping
                      else r.k == t.k))
  {
    OnSlotIsIn(t.s, p);
    hide OnSlot, NextPc, NextMem, NextControl;
  }

  /** A wait for arrival is over when all six axes are in position and none is under way, a timed one with its last tick. */
  lemma WaitsInFigures(k: Control, p1: byte, slowTick: bool, lo: byte, hi: byte)
    ensures k.waitArrival ==> (WaitEnds(k, p1, slowTick, lo, hi) <==> k.inPosition == 0x3F && k.needMove == 0)
    ensures !k.waitArrival && k.waitTime ==> (WaitEnds(k, p1, slowTick, lo, hi) <==> slowTick && lo == 1 && hi == 1)
  {
  }
}
