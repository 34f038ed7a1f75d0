/** The instruction executor (0x0941), its label resolver (0x0A33) and the main-loop gate (0x0900). */
module Interpreter {
  import opened Bytes
  import opened ProgramLayout
  import opened InterpreterSpec
  import opened ControllerState

  /** Internal RAM with the program counter set to pc. */
  function WithPc(iram: seq<byte>, pc: word): seq<byte>
    requires |iram| == 0x80
  {
    iram[PC_LO := Lo(pc)][PC_HI := Hi(pc)]
  }

  lemma PcMoves(iram: seq<byte>, pc: word)
    requires |iram| == 0x80
    ensures Pair(WithPc(iram, pc)[PC_HI], WithPc(iram, pc)[PC_LO]) == pc
  {
  }

  /** jump_0A03: adds n to the program counter with an 8-bit add and a carry into the high byte. */
  method Advance(c: Controller, n: byte)
    requires c.Valid() && c.Pc() < 0xFF00
    modifies c.iram
    ensures c.iram[..] == old(WithPc(c.iram[..], c.Pc() + n))
  {
    var sum: int := n + c.iram[PC_LO];
    PairAdds(c.iram[PC_HI], c.iram[PC_LO], n);
    c.iram[PC_LO] := sum % 256;
    if sum >= 256 {
      c.iram[PC_HI] := Inc(c.iram[PC_HI]);
    }
  }

  /** No instruction's data reaches the program counter's own cells. */
  lemma LoadedKeepsPc(iram: seq<byte>, mem: Memory, pc: word)
    requires |iram| == 0x80 && pc < 0xFF00
    ensures Loaded(iram, mem, pc)[PC_LO] == iram[PC_LO] && Loaded(iram, mem, pc)[PC_HI] == iram[PC_HI]
  {
  }

  /** jump_0A34: loads the program counter from the label table. */
  method Goto(c: Controller, m: byte)
    requires c.Valid()
    modifies c.iram
    ensures c.iram[..] == old(WithPc(c.iram[..], TableEntry(c.xram[..], c.page, m)))
  {
    var dpl: byte := (m * 2) as int % 256 + m / 128;
    var dptr := Pair(c.page, dpl);
    c.iram[PC_LO] := c.xram[dptr];
    dptr := IncWord(dptr);
    c.iram[PC_HI] := c.xram[dptr];
    PairSplits(c.iram[PC_HI], c.iram[PC_LO]);
  }

  /** The six-byte copy loops at 0x096A, 0x0976 and 0x09C9. */
  method CopyBytes(c: Controller, dptr: word, dst: byte, count: byte) returns (end: word)
    requires c.Valid() && 1 <= count && dst + count <= 0x80 && dptr + count <= 0xFFFF
    modifies c`r7, c.iram
    ensures c.iram[..] == old(Copied(c.iram[..], dst, c.xram[..], dptr, count))
    ensures end == dptr + count && c.r7 == 0
  {
    end := dptr;
    var r0: int := dst;
    c.r7 := count;
    ghost var n := 0;
    while c.r7 != 0
      invariant n <= count && c.r7 == count - n && r0 == dst + n && end == dptr + n
      invariant c.iram[..] == old(Copied(c.iram[..], dst, c.xram[..], dptr, n))
      decreases c.r7
    {
      c.iram[r0] := c.xram[end];
      end := end + 1;
      r0 := r0 + 1;
      c.r7 := c.r7 - 1;
      n := n + 1;
    }
  }

  /** 0x0966 and 0x0982: loads the targets and time factors of a timed move. */
  method LoadMove(c: Controller, op: byte, dptr: word) returns (mask: bv8)
    requires c.Valid() && 0x60 <= op < 0x80 && dptr < 0xFF00 && c.xram[dptr] == op
    modifies c`r7, c.iram
    ensures c.iram[..] == old(Loaded(c.iram[..], c.xram[..], dptr))
    ensures mask == MoveMask(op) && c.r7 == if op % 8 == 7 then 16 else 8
  {
    var dptr := dptr + 1;
    if op % 8 == 7 {
      dptr := CopyBytes(c, dptr, TARGET, 6);
      dptr := dptr + 2;
      dptr := CopyBytes(c, dptr, FACTOR, 6);
      mask := 0x3F;
      c.r7 := 0x10;
    } else {
      var r0 := op % 8 + TARGET;
      c.iram[r0] := c.xram[dptr];
      r0 := r0 + (FACTOR - TARGET);
      dptr := dptr + 1;
      c.iram[r0] := c.xram[dptr];
      c.r7 := 8;
      mask := AxisBit(r0 - FACTOR);
    }
  }

  /** 0x095A and 0x0993: the flags and masks of a timed move. */
  method StartMove(c: Controller, op: byte, mask: bv8)
    requires mask == MoveMask(op)
    modifies c`waitArrival, c`stepping, c`needMove, c`renewed
    ensures c.Control() == old(Started(c.Control(), op))
  {
    hide Bit3, MoveMask;
    c.waitArrival := Bit3(op);
    c.stepping := Bit3(op);
    c.needMove := c.needMove | mask;
    c.renewed := c.renewed | mask;
  }

  lemma DoubleIff(op: byte)
    ensures 0x60 <= op < 0x80 ==> (IsDouble(op) <==> op % 8 == 7)
  {
  }

  /** 0x095A: timed moves. */
  method TimedMove(c: Controller, op: byte, dptr: word)
    requires c.Valid() && 0x60 <= op < 0x80 && dptr < 0xFF00 && c.xram[dptr] == op && c.Pc() == dptr
    modifies c`waitArrival, c`stepping, c`needMove, c`renewed, c`r7, c.iram
    ensures c.Control() == old(MoveControl(c.Control(), op))
    ensures c.iram[..] == old(WithPc(Loaded(c.iram[..], c.xram[..], dptr), if IsDouble(op) then dptr + 16 else dptr + 8))
  {
    DoubleIff(op);
    hide Loaded, WithPc, MoveMask, Started, IsDouble;
    var mask := LoadMove(c, op, dptr);
    StartMove(c, op, mask);
    LoadedKeepsPc(old(c.iram[..]), c.xram[..], dptr);
    Advance(c, c.r7);
  }

  /** 0x09BB: loads six setpoints, or one axis's. */
  method LoadPositions(c: Controller, op: byte, dptr: word)
    requires c.Valid() && op < 0x10 && dptr < 0xFF00 && c.xram[dptr] == op
    modifies c`r7, c.iram
    ensures c.iram[..] == old(Loaded(c.iram[..], c.xram[..], dptr)) && c.r7 == 0
  {
    var end;
    if op % 8 == 7 {
      end := CopyBytes(c, dptr + 1, SETPOINT, 6);
    } else {
      end := CopyBytes(c, dptr + 1, op % 8 + SETPOINT, 1);
    }
  }

  /** 0x09B0: positions without a time factor. */
  method Position(c: Controller, op: byte, dptr: word)
    requires c.Valid() && op < 0x10 && dptr < 0xFF00 && c.xram[dptr] == op && c.Pc() == dptr
    modifies c`inPosition, c`waitArrival, c`stepping, c`r7, c.iram
    ensures c.Control() == old(c.Control()).(inPosition := 0, waitArrival := Bit3(op), stepping := Bit3(op), r7 := 0)
    ensures c.iram[..] == old(WithPc(Loaded(c.iram[..], c.xram[..], dptr), dptr + 8))
  {
    hide Loaded, WithPc, Bit3;
    c.inPosition := 0;
    c.waitArrival := Bit3(op);
    c.stepping := Bit3(op);
    LoadPositions(c, op, dptr);
    LoadedKeepsPc(old(c.iram[..]), c.xram[..], dptr);
    Advance(c, 8);
  }

  /** Writes to the program body leave the label table alone. */
  lemma TableEntryKept(mem: Memory, p: SramPage, m: byte, a: word, v: byte)
    requires a > Base(p)
    ensures TableEntry(mem[a := v], p, m) == TableEntry(mem, p, m)
  {
  }

  /** 0x0A0C: the jumps 0x32 to 0x37. */
  method Jump(c: Controller, op: byte, dptr: word, p1: byte)
    requires c.Valid() && IsJump(op) && Base(c.page) <= dptr < 0xFF00 && c.xram[dptr] == op && c.Pc() == dptr
    modifies c`r7, c.xram, c.iram
    ensures c.r7 == if IsCounted(op) then old(c.xram[dptr + 2]) else old(c.r7)
    ensures c.xram[..] == old(NextMem(c.xram[..], dptr))
    ensures c.iram[..] == old(WithPc(c.iram[..], NextPc(c.xram[..], c.page, dptr, p1)))
  {
    hide WithPc, TableEntry;
    var dptr := dptr + 1;
    var r0 := c.xram[dptr];
    dptr := dptr + 1;
    if Bit2(op) {
      if !Bit1(op) {
        Goto(c, r0);
        return;
      }
      c.r7 := c.xram[dptr];
      dptr := dptr + 1;
      var a := Inc(c.xram[dptr]);
      if a == c.r7 {
        c.Store(dptr, 0);
        Advance(c, 8);
      } else {
        TableEntryKept(c.xram[..], c.page, r0, dptr, a);
        c.Store(dptr, a);
        Goto(c, r0);
      }
    } else if Bit0(op) {
      if AndByte(c.xram[dptr], p1) != 0 { Advance(c, 8); } else { Goto(c, r0); }
    } else {
      if OrByte(c.xram[dptr], p1) != 0xFF { Advance(c, 8); } else { Goto(c, r0); }
    }
  }

  /** 0x07D3: combines a byte with the digital outputs as R2 says. */
  method SetOutputs(c: Controller, r2: byte, r0: byte, dph: byte)
    requires c.Valid() && r2 < 4
    modifies c`outputs, c.iram
    ensures c.outputs == old(NewOutputs(r2, c.outputs, r0))
    ensures c.iram[..] == old(c.iram[..])[SCRATCH_HI := dph]
  {
    var a := c.outputs;
    if r2 == 1 {
      a := OrByte(a, r0);
    } else if r2 == 2 {
      a := AndByte(a, r0);
    } else if r2 == 3 {
      a := XorByte(a, r0);
    } else {
      a := r0;
    }
    c.iram[SCRATCH_HI] := dph;
    c.outputs := a;
  }

  /** 0x09D1: digital outputs, timed waits, and the marks, which do nothing. */
  method Miscellaneous(c: Controller, op: byte, dptr: word)
    requires c.Valid() && 0x10 <= op < 0x20 && dptr < 0xFF00 && c.xram[dptr] == op && c.Pc() == dptr
    modifies c`outputs, c`waitTime, c`stepping, c.iram
    ensures c.Control() == old(MiscellaneousControl(c.Control(), op, c.xram[dptr + 1]))
    ensures c.iram[..] == old(WithPc(Loaded(c.iram[..], c.xram[..], dptr), dptr + 8))
  {
    hide Loaded, WithPc, MiscellaneousControl;
    SetOrWait(c, op, dptr);
    LoadedKeepsPc(old(c.iram[..]), c.xram[..], dptr);
    Advance(c, 8);
  }

  /** 0x09D1 to 0x09EF: the effect before the program counter moves on. */
  method SetOrWait(c: Controller, op: byte, dptr: word)
    requires c.Valid() && 0x10 <= op < 0x20 && dptr < 0xFF00 && c.xram[dptr] == op
    modifies c`outputs, c`waitTime, c`stepping, c.iram
    ensures c.Control() == old(MiscellaneousControl(c.Control(), op, c.xram[dptr + 1]))
    ensures c.iram[..] == old(Loaded(c.iram[..], c.xram[..], dptr))
  {
    hide NewOutputs;
    if !Bit3(op) {
      SetOutputs(c, op % 4, c.xram[dptr + 1], Hi(dptr + 1));
    } else if !Bit2(op) {
      c.waitTime := true;
      c.stepping := true;
      c.iram[WAIT_LO] := c.xram[dptr + 1];
      c.iram[WAIT_HI] := Inc(c.xram[dptr + 2]);
    }
  }

  /** Instructions outside the position, wait and timed-move classes load no data. */
  lemma LoadsNothing(iram: seq<byte>, mem: Memory, pc: word)
    requires |iram| == 0x80 && pc < 0xFF00
    ensures !(mem[pc] < 0x1C || 0x60 <= mem[pc] < 0x80) ==> Loaded(iram, mem, pc) == iram
  {
  }

  lemma PcKept(iram: seq<byte>, pc: word)
    requires |iram| == 0x80 && pc == Pair(iram[PC_HI], iram[PC_LO])
    ensures WithPc(iram, pc) == iram
  {
    PairSplits(iram[PC_HI], iram[PC_LO]);
  }

  /** The ranges of opcodes the executor's bit tests select. */
  lemma Ranges(op: byte)
    requires op < 0x80
    ensures Bit6(op) <==> op >= 0x40
    ensures op >= 0x40 ==> (Bit5(op) <==> op >= 0x60)
    ensures op < 0x40 ==> (Bit5(op) <==> op >= 0x20)
    ensures op < 0x20 ==> (Bit4(op) <==> op >= 0x10)
    ensures 0x20 <= op < 0x40 ==> (Bit4(op) && !Bit3(op) <==> 0x30 <= op < 0x38)
  {
  }

  /** 0x09F1: opcodes 0x20 to 0x3F, the jumps and the wait for inputs. */
  method Branch(c: Controller, op: byte, dptr: word, p1: byte)
    requires c.Valid() && 0x20 <= op < 0x40 && Base(c.page) <= dptr < 0xFF00 && c.xram[dptr] == op && c.Pc() == dptr
    modifies c`stepping, c`waitInput, c`r7, c.xram, c.iram
    ensures c.Control() == old(BranchControl(c.Control(), op, c.xram[dptr + 1], c.xram[dptr + 2]))
    ensures c.xram[..] == old(NextMem(c.xram[..], dptr))
    ensures c.iram[..] == old(WithPc(c.iram[..], NextPc(c.xram[..], c.page, dptr, p1)))
  {
    Ranges(op);
    hide Bit3, Bit4, WithPc, TableEntry;
    if !Bit4(op) || Bit3(op) {
      Advance(c, 8);
    } else if op as int + 0xCE >= 0x100 {
      Jump(c, op, dptr, p1);
    } else {
      c.r7 := c.xram[dptr + 1];
      c.waitInput := true;
      c.stepping := true;
      Advance(c, 8);
    }
  }

  /** 0x0941: executes the instruction at the program counter. */
  method Execute(c: Controller, p1: byte)
    requires c.Valid() && Base(c.page) <= c.Pc() < 0xFF00
    modifies c`running, c`motion, c`stepping, c`waitArrival, c`waitTime, c`waitInput, c`opcode,
             c`inPosition, c`needMove, c`renewed, c`outputs, c`r7, c.xram, c.iram
    ensures c.Control() == old(NextControl(c.Control(), c.xram[..], c.Pc()))
    ensures c.xram[..] == old(NextMem(c.xram[..], c.Pc()))
    ensures c.iram[..] == old(WithPc(Loaded(c.iram[..], c.xram[..], c.Pc()), NextPc(c.xram[..], c.page, c.Pc(), p1)))
    ensures c.Pc() == old(NextPc(c.xram[..], c.page, c.Pc(), p1))
  {
    PcMoves(Loaded(c.iram[..], c.xram[..], c.Pc()), NextPc(c.xram[..], c.page, c.Pc(), p1));
    hide Loaded, WithPc, TableEntry, Taken, FallsThrough, MoveControl, MiscellaneousControl, BranchControl;
    hide Bit3, Bit4, Bit5, Bit6;
    var dptr := c.Pc();
    PcKept(c.iram[..], dptr);
    LoadsNothing(c.iram[..], c.xram[..], dptr);
    var op := c.xram[dptr];
    c.stepping := false;
    c.opcode := op;
    if op >= 0x80 {
      c.running, c.motion, c.stepping := false, false, false;
      return;
    }
    Ranges(op);
    if Bit6(op) {
      if Bit5(op) {
        TimedMove(c, op, dptr);
      } else {
        c.motion, c.stepping := false, false;
        Advance(c, 8);
      }
    } else if Bit5(op) {
      Branch(c, op, dptr, p1);
    } else if Bit4(op) {
      Miscellaneous(c, op, dptr);
    } else {
      Position(c, op, dptr);
    }
  }

  lemma WaitKeepsPc(c: Control, slowTick: bool, iram: seq<byte>)
    requires |iram| == 0x80
    ensures var after := WaitTicked(c, slowTick, iram); after[PC_LO] == iram[PC_LO] && after[PC_HI] == iram[PC_HI]
  {
  }

  /** 0x092E: counts the wait time down and tests the awaited inputs. */
  method PollWait(c: Controller, p1: byte) returns (over: bool)
    requires c.Valid() && Waiting(c.Control())
    modifies c`slowTick, c.iram
    ensures over <==> old(WaitEnds(c.Control(), p1, c.slowTick, c.iram[WAIT_LO], c.iram[WAIT_HI]))
    ensures c.iram[..] == old(WaitTicked(c.Control(), c.slowTick, c.iram[..]))
    ensures c.slowTick == old(c.slowTick && (c.waitArrival || !c.waitTime))
  {
    hide AndByte, OrByte;
    if c.waitArrival {
      over := c.inPosition == 0x3F && c.needMove == 0;
    } else if c.waitTime {
      if !c.slowTick {
        return false;
      }
      c.slowTick := false;
      c.iram[WAIT_LO] := Dec(c.iram[WAIT_LO]);
      if c.iram[WAIT_LO] != 0 {
        return false;
      }
      c.iram[WAIT_HI] := Dec(c.iram[WAIT_HI]);
      over := c.iram[WAIT_HI] == 0;
    } else if Bit0(c.opcode) {
      over := AndByte(p1, c.r7) == 0;
    } else {
      over := OrByte(p1, c.r7) == 0xFF;
    }
  }

  /**
   0x0900: one main-loop pass. An instruction is executed when the interpreter is active and
   waits for nothing; every other pass leaves program and program counter alone.
  */
  method Gate(c: Controller, p1: byte) returns (executed: bool)
    requires c.Valid() && Base(c.page) <= c.Pc() < 0xFF00
    modifies c`running, c`motion, c`stepping, c`waitArrival, c`waitTime, c`waitInput, c`opcode,
             c`inPosition, c`needMove, c`renewed, c`outputs, c`r7, c`slowTick, c.xram, c.iram
    ensures executed <==> old((c.stepping || c.motion) && !Waiting(c.Control()))
    ensures executed ==> c.Control() == old(NextControl(c.Control(), c.xram[..], c.Pc()))
    ensures c.xram[..] == if executed then old(NextMem(c.xram[..], c.Pc())) else old(c.xram[..])
    ensures executed ==> c.iram[..] == old(WithPc(Loaded(c.iram[..], c.xram[..], c.Pc()), NextPc(c.xram[..], c.page, c.Pc(), p1)))
    ensures !executed ==> c.Pc() == old(c.Pc())
    ensures !executed ==>
              c.iram[..] == old(if c.stepping || c.motion then WaitTicked(c.Control(), c.slowTick, c.iram[..]) else c.iram[..])
    ensures c.slowTick == old(c.slowTick && !((c.stepping || c.motion) && !c.waitArrival && c.waitTime))
    ensures !executed ==> c.Control() == old(
              if (c.stepping || c.motion) && WaitEnds(c.Control(), p1, c.slowTick, c.iram[WAIT_LO], c.iram[WAIT_HI])
              then c.Control().(waitArrival := false, waitTime := false, waitInput := false, stepping := false)
              else c.Control())
  {
    hide Loaded, WithPc, NextMem, NextPc, NextControl, WaitEnds, WaitTicked;
    WaitKeepsPc(c.Control(), c.slowTick, c.iram[..]);
    executed := false;
    if !c.stepping && !c.motion {
      return;
    }
    if !c.waitArrival && !c.waitTime && !c.waitInput {
      Execute(c, p1);
      return true;
    }
    var over := PollWait(c, p1);
    if over {
      c.waitArrival, c.waitTime, c.waitInput := false, false, false;
      c.stepping := false;
    }
  }
}
