/** Moves commanded by the host (0x04AF-0x0504) and by programs, as the axis servo sees them. */
module HostMoves {
  import opened Bytes
  import opened ProgramLayout
  import opened ControllerState
  import opened InterpreterSpec
  import opened Serial
  import opened ServoSpec
  import opened Servo
  import opened ServoPass

  /** The mask of a host command, from the table at 0x053B; field 6 reads the byte that follows it. */
  function HostMask(h: byte): bv8 {
    if h % 8 == 7 then 0x3F else if h % 8 == 6 then 0xC2 else AxisBit(h % 8)
  }

  /** A command's low three bits select one axis, or all of them. */
  predicate Selects(h: byte, b: nat) { h % 8 == 7 || h % 8 == b }

  /** The axes whose mask bits a host command raises, and those a program's move raises. */
  predicate HostStarts(h: byte, b: nat) { Selects(h, b) || (h % 8 == 6 && b == 1) }

  predicate MoveStarts(op: byte, b: nat) { Selects(op, b) || (op % 8 == 6 && (b == 0 || b == 1 || b == 5)) }

  /** Axis x with its move started, or not, and its target and time factor replaced, or not. */
  function Commanded(x: Axis, starts: bool, selected: bool, target: byte, factor: byte): Axis {
    var y := if starts then x.(need := true, renewed := true) else x;
    if selected then y.(target := target, factor := factor) else y
  }

  /** The receive buffer's first byte, or its first six, placed from dst on. */
  function Placed(iram: seq<byte>, dst: nat, h: byte): (r: seq<byte>)
    requires |iram| == 0x80 && dst + 7 <= BUFFER
    ensures |r| == 0x80
  {
    if h % 8 == 7 then iram[..dst] + iram[BUFFER..BUFFER + 6] + iram[dst + 6..] else iram[dst + h % 8 := iram[BUFFER]]
  }

  /** A timed command's targets, and its time factor where the receiver has not put it in place already. */
  function Timed(iram: seq<byte>, h: byte): seq<byte>
    requires |iram| == 0x80
  {
    if h % 8 == 7 then Placed(iram, TARGET, h) else Placed(iram, TARGET, h)[FACTOR + h % 8 := iram[BUFFER + 1]]
  }

  /** MOV between two cells. */
  method Move(c: Controller, dst: nat, src: nat)
    requires c.Valid() && dst < 0x80 && src < 0x80
    modifies c.iram
    ensures c.iram[..] == old(c.iram[..])[dst := old(c.iram[src])]
  {
    c.iram[dst] := c.iram[src];
  }

  lemma SixMoves(iram: seq<byte>, dst: nat)
    requires |iram| == 0x80 && dst + 6 <= BUFFER
    ensures iram[dst := iram[BUFFER]][dst + 1 := iram[BUFFER + 1]][dst + 2 := iram[BUFFER + 2]]
                [dst + 3 := iram[BUFFER + 3]][dst + 4 := iram[BUFFER + 4]][dst + 5 := iram[BUFFER + 5]]
            == iram[..dst] + iram[BUFFER..BUFFER + 6] + iram[dst + 6..]
  {
  }

  /** The six MOVs of 0x04BA and 0x04DA, or the one of 0x04D1 and 0x04F3. */
  method Place(c: Controller, dst: nat, h: byte)
    requires c.Valid() && dst + 7 <= BUFFER
    modifies c.iram
    ensures c.iram[..] == old(Placed(c.iram[..], dst, h))
  {
    if h % 8 == 7 {
      ghost var iram := c.iram[..];
      SixMoves(iram, dst);
      Move(c, dst, BUFFER);
      Move(c, dst + 1, BUFFER + 1);
      Move(c, dst + 2, BUFFER + 2);
      Move(c, dst + 3, BUFFER + 3);
      Move(c, dst + 4, BUFFER + 4);
      Move(c, dst + 5, BUFFER + 5);
    } else {
      Move(c, dst + h % 8, BUFFER);
    }
  }

  /** jump_04AF: headers below 0x40 without bit 4 write servo setpoints outright. */
  method SetpointCommand(s: SerialPort, h: byte) returns (seconds: byte)
    requires s.c.Valid() && h < 0x40 && !Bit4(h)
    modifies s`awaiting, s`wantsKey, s.c`inPosition, s.c.iram
    ensures s.awaiting && s.wantsKey == Bit3(h) && seconds == 100
    ensures s.c.inPosition == if h % 8 == 7 then 0 else old(s.c.inPosition)
    ensures s.c.iram[..] == old(Placed(s.c.iram[..], SETPOINT, h))
  {
    if h % 8 == 7 {
      s.c.inPosition := 0;
    }
    Place(s.c, SETPOINT, h);
    s.wantsKey := Bit3(h);
    s.awaiting := true;
    seconds := 100;
  }

  /** jump_04D5: headers 0x70 to 0x7F start timed moves. */
  method TimedCommand(s: SerialPort, h: byte) returns (seconds: byte)
    requires s.c.Valid() && 0x70 <= h < 0x80
    modifies s`awaiting, s`wantsKey, s.c`needMove, s.c`renewed, s.c.iram
    ensures s.awaiting && s.wantsKey == Bit3(h) && seconds == 100
    ensures s.c.iram[..] == old(Timed(s.c.iram[..], h))
    ensures s.c.needMove == Join(old(s.c.needMove), HostMask(h)) && s.c.renewed == Join(old(s.c.renewed), HostMask(h))
  {
    hide HostMask, Join;
    var mask := HostMask(h);
    var factor := s.c.iram[BUFFER + 1];
    Place(s.c, TARGET, h);
    if h % 8 != 7 {
      s.c.iram[FACTOR + h % 8] := factor;
    }
    s.c.needMove := Join(s.c.needMove, mask);
    s.c.renewed := Join(s.c.renewed, mask);
    s.wantsKey := Bit3(h);
    s.awaiting := true;
    seconds := 100;
  }

  lemma HostMaskNames(n: bv8, h: byte, b: nat)
    requires b < AXES
    ensures Has(Join(n, HostMask(h)), b) <==> Has(n, b) || HostStarts(h, b)
  {
    if h % 8 >= 6 {
      assert b == 0 || b == 1 || b == 2 || b == 3 || b == 4 || b == 5;
    } else {
      MaskJoin(n, h % 8, b);
    }
  }

  lemma MoveMaskNames(n: bv8, op: byte, b: nat)
    requires b < AXES
    ensures Has(Join(n, MoveMask(op)), b) <==> Has(n, b) || MoveStarts(op, b)
  {
    if op % 8 >= 6 {
      assert b == 0 || b == 1 || b == 2 || b == 3 || b == 4 || b == 5;
    } else {
      MaskJoin(n, op % 8, b);
    }
  }

  /** Raising the bits of a mask starts exactly the axes the low bits of h select. */
  ghost predicate StartsSelected(mask: bv8, h: byte) {
    forall n: bv8, b: nat :: b < AXES ==> (Has(Join(n, mask), b) <==> Has(n, b) || Selects(h, b))
  }

  lemma StartsAnother(mask: bv8, h: byte, b: nat)
    requires b < AXES && !Selects(h, b) && Has(Join(0, mask), b)
    ensures !StartsSelected(mask, h)
  {
    var n: bv8 := 0;
    assert Has(Join(n, mask), b);
    assert !Has(n, b) by { NoneIn(n, b); }
    hide Has, Join;
  }

  /** A host command's mask does if and only if its field is an axis, or all of them. */
  lemma HostMaskIff(h: byte)
    ensures StartsSelected(HostMask(h), h) <==> h % 8 != 6
  {
    hide Has, Join, HostMask;
    if h % 8 == 6 {
      HostMaskNames(0, h, 1);
      StartsAnother(HostMask(h), h, 1);
    } else {
      forall n: bv8, b: nat | b < AXES ensures Has(Join(n, HostMask(h)), b) <==> Has(n, b) || Selects(h, b) {
        HostMaskNames(n, h, b);
      }
    }
  }

  /** And so does the mask of a program's move. */
  lemma MoveMaskIff(op: byte)
    ensures StartsSelected(MoveMask(op), op) <==> op % 8 != 6
  {
    hide Has, Join, MoveMask;
    if op % 8 == 6 {
      MoveMaskNames(0, op, 1);
      StartsAnother(MoveMask(op), op, 1);
    } else {
      forall n: bv8, b: nat | b < AXES ensures Has(Join(n, MoveMask(op)), b) <==> Has(n, b) || Selects(op, b) {
        MoveMaskNames(n, op, b);
      }
    }
  }

  lemma NoneIn(n: bv8, b: nat)
    requires n == 0 && b < AXES
    ensures !Has(n, b)
  {
  }

  /**
   Where the program ends survives a host command exactly if its field is not 6, or its time factor is
   the byte that is there.
  */
  lemma HostKeepsEndIff(iram: seq<byte>, h: byte)
    requires |iram| == 0x80 && 0x70 <= h < 0x80
    ensures Timed(iram, h)[END_LO] == iram[END_LO] <==> h % 8 != 6 || iram[BUFFER + 1] == iram[END_LO]
    ensures Timed(iram, h)[END_HI] == iram[END_HI]
  {
  }

  /** And a program's move. */
  lemma MoveKeepsEndIff(iram: seq<byte>, mem: Memory, pc: word)
    requires |iram| == 0x80 && pc < 0xFF00 && 0x60 <= mem[pc] < 0x80
    ensures Loaded(iram, mem, pc)[END_LO] == iram[END_LO] <==> mem[pc] % 8 != 6 || mem[pc + 2] == iram[END_LO]
    ensures Loaded(iram, mem, pc)[END_HI] == iram[END_HI]
  {
  }

  /** Header 0x76 with time factor 0x10 moves the end of a program from 0x8180 to 0x8110, and starts axis 1. */
  lemma FieldSixMovesEnd()
    ensures var iram: seq<byte> := seq(0x80, (i: nat) => if i == END_LO then 0x80 else if i == END_HI then 0x81 else 0x10);
            && Pair(iram[END_HI], iram[END_LO]) == 0x8180
            && Pair(Timed(iram, 0x76)[END_HI], Timed(iram, 0x76)[END_LO]) == 0x8110
    ensures !Has(0, 1) && Has(Join(0, HostMask(0x76)), 1)
  {
  }

  /** Opcode 0x66 starts axes 0, 1 and 5, none of which it names. */
  lemma FieldSixStartsThree()
    ensures forall b :: b in {0, 1, 5} ==> !Has(0, b) && Has(Join(0, MoveMask(0x66)), b) && !Selects(0x66, b)
  {
  }

  lemma TimedCells(iram: seq<byte>, h: byte, b: nat)
    requires |iram| == 0x80 && 0x70 <= h < 0x80 && b < AXES
    ensures CellsOf(Timed(iram, h), b) ==
            var x := CellsOf(iram, b);
            if !Selects(h, b) then x
            else if h % 8 == 7 then (x.0, iram[BUFFER + b], iram[BUFFER_2 + b], x.3)
            else (x.0, iram[BUFFER], iram[BUFFER + 1], x.3)
  {
  }

  /** After a timed host command: which axes start, and whose targets and time factors are its operands. */
  lemma TimedCommandStarts(iram: seq<byte>, need: bv8, renewed: bv8, rising: bv8, h: byte, b: nat)
    requires |iram| == 0x80 && 0x70 <= h < 0x80 && b < AXES
    ensures AxisAt(Timed(iram, h), Join(need, HostMask(h)), Join(renewed, HostMask(h)), rising, b) ==
            Commanded(AxisAt(iram, need, renewed, rising, b), HostStarts(h, b), Selects(h, b),
                      if h % 8 == 7 then iram[BUFFER + b] else iram[BUFFER],
                      if h % 8 == 7 then iram[BUFFER_2 + b] else iram[BUFFER + 1])
  {
    hide Has, HostMask, Timed, CellsOf, Join, HostStarts, Selects;
    HostMaskNames(need, h, b);
    HostMaskNames(renewed, h, b);
    TimedCells(iram, h, b);
  }

  lemma MoveCells(iram: seq<byte>, mem: Memory, pc: word, b: nat)
    requires |iram| == 0x80 && pc < 0xFF00 && 0x60 <= mem[pc] < 0x80 && b < AXES
    ensures CellsOf(Loaded(iram, mem, pc), b) ==
            var x := CellsOf(iram, b);
            if !Selects(mem[pc], b) then x
            else if mem[pc] % 8 == 7 then (x.0, mem[pc + 1 + b], mem[pc + 9 + b], x.3)
            else (x.0, mem[pc + 1], mem[pc + 2], x.3)
  {
  }

  lemma MaskAfterMove(c: Control, mem: Memory, pc: word)
    requires pc < 0xFF00 && 0x60 <= mem[pc] < 0x80
    ensures var after := NextControl(c, mem, pc);
            after.needMove == Join(c.needMove, MoveMask(mem[pc])) && after.renewed == Join(c.renewed, MoveMask(mem[pc]))
  {
    hide MoveMask, Bit3, MiscellaneousControl, BranchControl;
  }

  /** After a timed move of a program: the operands of its first slot are targets, those of its second time factors. */
  lemma ProgramMoveStarts(iram: seq<byte>, c: Control, mem: Memory, pc: word, rising: bv8, b: nat)
    requires |iram| == 0x80 && pc < 0xFF00 && 0x60 <= mem[pc] < 0x80 && b < AXES
    ensures var after := NextControl(c, mem, pc);
            AxisAt(Loaded(iram, mem, pc), after.needMove, after.renewed, rising, b) ==
            Commanded(AxisAt(iram, c.needMove, c.renewed, rising, b), MoveStarts(mem[pc], b), Selects(mem[pc], b),
                      if mem[pc] % 8 == 7 then mem[pc + 1 + b] else mem[pc + 1],
                      if mem[pc] % 8 == 7 then mem[pc + 9 + b] else mem[pc + 2])
  {
    hide Has, Loaded, CellsOf, NextControl, MoveMask, Join, MoveStarts, Selects;
    MoveCells(iram, mem, pc, b);
    MaskAfterMove(c, mem, pc);
    MoveMaskNames(c.needMove, mem[pc], b);
    MoveMaskNames(c.renewed, mem[pc], b);
  }
}
