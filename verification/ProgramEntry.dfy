/** Typing a program on the teachbox: instructions (0x0DA5), the halt (0x0F0C) and END (0x0F1E). */
module ProgramEntry {
  import opened Bytes
  import opened ProgramLayout
  import opened ControllerState
  import opened Interpreter
  import opened Upload
  import Prepare

  const HALT: byte := 0x40

  /** Cells that hold what has been typed: numbers, the taught positions, and the outputs shown on the LEDs. */
  const NUMBER: nat := 0x6C
  const LEDS: nat := 0x47

  /** Memory with the bytes bs from a on. */
  function Written(mem: Memory, a: word, bs: seq<byte>): Memory
    requires a + |bs| <= 0x1_0000
  {
    seq(0x1_0000, (i: nat) requires i < 0x1_0000 => if a <= i < a + |bs| then bs[i - a] else mem[i])
  }

  lemma WrittenNothing(mem: Memory, a: word)
    ensures Written(mem, a, []) == mem
  {
  }

  lemma WrittenSnoc(mem: Memory, a: word, bs: seq<byte>, v: byte)
    requires a + |bs| + 1 <= 0x1_0000
    ensures Written(mem, a, bs)[a + |bs| := v] == Written(mem, a, bs + [v])
  {
  }

  /** Where an instruction's operands are taken from, and how many follow the first. */
  function Operands(op: byte, iram: seq<byte>): (r: seq<byte>)
    requires |iram| == 0x80
    ensures 1 <= |r| <= 6
  {
    if Bit5(op) then
      if !Bit1(op) then [iram[NUMBER + 1]]
      else if Bit2(op) then [iram[NUMBER], iram[NUMBER + 1], iram[NUMBER + 2]]
      else [iram[NUMBER + 1], iram[NUMBER]]
    else if Bit4(op) then
      if op == 0x10 then [iram[LEDS]]
      else if op == 0x19 then [iram[NUMBER + 1], iram[NUMBER + 2]]
      else [iram[NUMBER + 1]]
    else iram[SETPOINT..SETPOINT + 6]
  }

  function Zeros(n: nat): (r: seq<byte>)
    ensures |r| == n && forall i :: 0 <= i < n ==> r[i] == 0
  {
    seq(n, i => 0)
  }

  /** The slot an instruction is stored in: opcode, operands, and zeros up to eight bytes. */
  function SlotBytes(op: byte, operands: seq<byte>): (slot: seq<byte>)
    requires |operands| <= 6
    ensures |slot| == 8 && slot[0] == op
  {
    [op] + operands + Zeros(7 - |operands|)
  }

  /** jump_0DDB: stores the byte already fetched, and r6 - 1 more from internal RAM. */
  method StoreOperands(c: Controller, dptr: word, a: byte, r1: byte, r6: byte) returns (dptr': word)
    requires c.Valid() && 1 <= r6 <= 6 && r1 as int + r6 <= 0x80 && dptr < 0xFF00
    modifies c.xram
    ensures c.xram[..] == old(Written(c.xram[..], dptr, [a] + c.iram[r1 + 1..r1 + r6]))
    ensures dptr' == dptr + r6
  {
    hide Written;
    ghost var mem: Memory := c.xram[..];
    ghost var bs := [a] + c.iram[r1 + 1..r1 + r6];
    ghost var k := 0;
    var v, at, n := a, r1, r6;
    dptr' := dptr;
    WrittenNothing(mem, dptr);
    assert bs[..0] == [];
    while true
      invariant 1 <= n <= r6 && k == r6 - n && at == r1 + k && dptr' == dptr + k && v == bs[k]
      invariant c.xram[..] == Written(mem, dptr, bs[..k]) && bs == [a] + c.iram[r1 + 1..r1 + r6]
      decreases n
    {
      WrittenSnoc(mem, dptr, bs[..k], v);
      assert bs[..k] + [v] == bs[..k + 1];
      c.Store(dptr', v);
      at, dptr', n, k := at + 1, dptr' + 1, n - 1, k + 1;
      if n == 0 {
        break;
      }
      v := c.iram[at];
    }
    assert bs[..k] == bs;
  }

  /** jump_0DE1: zeros up to the next slot, at least one. */
  method FillSlot(c: Controller, dptr: word) returns (dptr': word)
    requires c.Valid() && dptr < 0xFF00 && dptr % 8 > 0
    modifies c.xram
    ensures c.xram[..] == old(Written(c.xram[..], dptr, Zeros(8 - dptr % 8)))
    ensures dptr' == dptr + (8 - dptr % 8)
  {
    hide Written;
    ghost var mem: Memory := c.xram[..];
    ghost var k := 0;
    dptr' := dptr;
    WrittenNothing(mem, dptr);
    assert Zeros(0) == [];
    while true
      invariant k < 8 - dptr % 8 && dptr' == dptr + k
      invariant c.xram[..] == Written(mem, dptr, Zeros(k))
      decreases 8 - k
    {
      WrittenSnoc(mem, dptr, Zeros(k), 0);
      assert Zeros(k) + [0] == Zeros(k + 1);
      c.Store(dptr', 0);
      dptr', k := dptr' + 1, k + 1;
      if dptr' % 8 == 0 {
        break;
      }
    }
  }

  /** The program counter moves on to what DPTR has reached. */
  method MoveOn(c: Controller, dptr: word)
    requires c.Valid()
    modifies c.iram
    ensures c.iram[..] == old(WithPc(c.iram[..], dptr))
  {
    c.iram[PC_LO] := Lo(dptr);
    c.iram[PC_HI] := Hi(dptr);
  }

  lemma InSlot(pc: nat, n: nat)
    requires pc % 8 == 0 && n < 8
    ensures (pc + n) % 8 == n
  {
  }

  lemma WrittenTwice(mem: Memory, a: word, bs: seq<byte>, cs: seq<byte>)
    requires a + |bs| + |cs| < 0x1_0000
    ensures Written(Written(mem, a, bs), a + |bs|, cs) == Written(mem, a, bs + cs)
  {
  }

  /** jump_0DA5: stores an instruction in the slot at the program counter, exactly there, and moves on. */
  method EnterInstruction(c: Controller, r3: byte)
    requires c.Valid() && c.Pc() % 8 == 0 && c.Pc() < 0xFE00
    modifies c`outputs, c.xram, c.iram
    ensures c.xram[..] == old(Written(c.xram[..], c.Pc(), SlotBytes(r3, Operands(r3, c.iram[..]))))
    ensures c.iram[..] == old(WithPc(c.iram[..], c.Pc() + 8))
    ensures c.outputs == old(if r3 == 0x10 then c.iram[LEDS] else c.outputs)
  {
    hide Written, WithPc;
    var dptr := c.Pc();
    ghost var pc := dptr;
    ghost var mem: Memory := c.xram[..];
    ghost var operands := Operands(r3, c.iram[..]);
    assert SlotBytes(r3, operands) == [r3] + operands + Zeros(7 - |operands|);
    hide SlotBytes, Operands, Zeros;
    c.Store(dptr, r3);
    WrittenNothing(mem, pc);
    WrittenSnoc(mem, pc, [], r3);
    assert [] + [r3] == [r3];
    var a, r1, r6 := FetchFirst(c, r3);
    dptr := StoreOperands(c, dptr + 1, a, r1, r6);
    InSlot(pc, 1 + r6);
    WrittenTwice(mem, pc, [r3], operands);
    var end := FillSlot(c, dptr);
    WrittenTwice(mem, pc, [r3] + operands, Zeros(7 - r6));
    MoveOn(c, end);
  }

  /** 0x0DAA to jump_0DDC: which cells the operands come from, by the opcode's bits. */
  method FetchFirst(c: Controller, op: byte) returns (a: byte, r1: byte, r6: byte)
    requires c.Valid()
    modifies c`outputs
    ensures 1 <= r6 <= 6 && r1 as int + r6 <= 0x80
    ensures [a] + c.iram[r1 + 1..r1 + r6] == Operands(op, c.iram[..])
    ensures c.outputs == if op == 0x10 then c.iram[LEDS] else old(c.outputs)
  {
    r1, r6 := 0x6C, 1;
    if Bit5(op) {
      if !Bit1(op) {
        a := c.iram[0x6D];
      } else if Bit2(op) {
        r6 := 3;
        a := c.iram[r1];
      } else {
        r6 := 2;
        a := c.iram[0x6D];
        r1 := r1 - 1;
      }
    } else if Bit4(op) {
      if op == 0x10 {
        a := c.iram[0x47];
        c.outputs := a;
      } else {
        r1 := r1 + 1;
        if op == 0x19 {
          r6 := 2;
        }
        a := c.iram[r1];
      }
    } else {
      r1, r6 := 0x50, 6;
      a := c.iram[r1];
    }
  }

  /**
   Memory after an instruction has been entered, in figures: numbers come from 0x6C to 0x6E, taught
   positions from 0x50 to 0x55 and the outputs from 0x47, and zeros fill the slot.
  */
  lemma EnteredByte(mem: Memory, pc: word, op: byte, iram: seq<byte>, a: word)
    requires |iram| == 0x80 && pc < 0xFE00
    ensures Written(mem, pc, SlotBytes(op, Operands(op, iram)))[a] ==
            if a < pc || a >= pc + 8 then mem[a]
            else if a == pc then op
            else if op / 32 % 2 == 1 then
              (if op / 2 % 2 == 0 then (if a == pc + 1 then iram[0x6D] else 0)
               else if op / 4 % 2 == 1 then (if a <= pc + 3 then iram[0x6C + (a - pc - 1)] else 0)
               else if a == pc + 1 then iram[0x6D] else if a == pc + 2 then iram[0x6C] else 0)
            else if op / 16 % 2 == 0 then (if a <= pc + 6 then iram[0x50 + (a - pc - 1)] else 0)
            else if op == 0x10 then (if a == pc + 1 then iram[0x47] else 0)
            else if a == pc + 1 then iram[0x6D] else if a == pc + 2 && op == 0x19 then iram[0x6E] else 0
  {
    var slot := SlotBytes(op, Operands(op, iram));
    assert Bit5(op) == (op / 32 % 2 == 1) && Bit4(op) == (op / 16 % 2 == 1);
    assert Bit2(op) == (op / 4 % 2 == 1) && Bit1(op) == (op / 2 % 2 == 1);
    hide Bit5, Bit4, Bit2, Bit1;
  }

  /** 0x0F17: the halt instruction, which has no operands. */
  method EnterHalt(c: Controller)
    requires c.Valid() && c.Pc() % 8 == 0 && c.Pc() < 0xFE00
    modifies c.xram, c.iram
    ensures c.xram[..] == old(Written(c.xram[..], c.Pc(), SlotBytes(HALT, [])))
    ensures c.iram[..] == old(WithPc(c.iram[..], c.Pc() + 8))
  {
    hide Written, WithPc;
    var dptr := c.Pc();
    ghost var mem: Memory := c.xram[..];
    c.Store(dptr, HALT);
    WrittenNothing(mem, dptr);
    WrittenSnoc(mem, dptr, [], HALT);
    assert [] + [HALT] == [HALT];
    var end := FillSlot(c, dptr + 1);
    WrittenTwice(mem, dptr, [HALT], Zeros(7));
    assert SlotBytes(HALT, []) == [HALT] + Zeros(7);
    MoveOn(c, end);
  }

  /** What has been typed since the program's start: slot after slot, up to the program counter. */
  ghost predicate HasTyped(c: Controller, body: seq<byte>)
    requires c.Valid()
    reads c, c.xram, c.iram
  {
    Typed(c.xram[..], c.page, c.Pc(), body)
  }

  predicate Typed(mem: Memory, p: SramPage, pc: word, body: seq<byte>) {
    && |body| % 8 == 0 && |body| <= 0x1EF8 && pc == Base(p) + |body| && mem[Base(p)..Base(p) + |body|] == body
  }

  /** Every instruction typed adds its slot to what has been typed before. */
  method TypeInstruction(c: Controller, op: byte, ghost body: seq<byte>)
    requires c.Valid() && HasTyped(c, body) && |body| < 0x1EF8
    modifies c`outputs, c.xram, c.iram
    ensures HasTyped(c, body + old(if op == HALT then SlotBytes(HALT, []) else SlotBytes(op, Operands(op, c.iram[..]))))
  {
    hide Written, SlotBytes, Operands, WithPc, Typed, Base, Pair;
    ghost var slot := if op == HALT then SlotBytes(HALT, []) else SlotBytes(op, Operands(op, c.iram[..]));
    TypedMore(c.xram[..], c.page, c.Pc(), body, slot);
    PcMoves(c.iram[..], c.Pc() + 8);
    if op == HALT {
      EnterHalt(c);
    } else {
      EnterInstruction(c, op);
    }
  }

  lemma TypedMore(mem: Memory, p: SramPage, pc: word, body: seq<byte>, slot: seq<byte>)
    requires Typed(mem, p, pc, body) && |body| < 0x1EF8 && |slot| == 8
    ensures pc % 8 == 0 && pc < 0xFE00 && Typed(Written(mem, pc, slot), p, pc + 8, body + slot)
  {
    WrittenSlice(mem, Base(p), body, slot);
  }

  lemma WrittenSlice(mem: Memory, a: word, body: seq<byte>, slot: seq<byte>)
    requires a + |body| + |slot| < 0x1_0000 && mem[a..a + |body|] == body
    ensures Written(mem, a + |body|, slot)[a..a + |body + slot|] == body + slot
  {
    var mem' := Written(mem, a + |body|, slot);
    forall i | 0 <= i < |body + slot| ensures mem'[a..a + |body + slot|][i] == (body + slot)[i] {
      assert i < |body| ==> mem[a..a + |body|][i] == mem[a + i];
    }
  }

  /** jump_0F1E: END at the program counter, the size that goes with it, and validation. */
  method EnterEnd(c: Controller, ghost body: seq<byte>)
    requires c.Valid() && HasTyped(c, body) && ProperLabels(body + [END])
    modifies c`loaded, c`running, c`motion, c`stepping, c.xram, c.iram
    ensures c.loaded <==> ValidBody(body + [END])
    ensures c.loaded ==> Fits(c.xram[..], c.page) && Holds(c.xram[..], c.page, ZeroedBody(body + [END]))
    ensures !c.loaded ==> IsEmptyProgram(c.xram[..], c.page)
  {
    hide Holds, ValidBody, ProperLabels, Accepts, LabelsInRange, Prepared, ZeroedBody, IsEmptyProgram;
    ghost var mem: Memory := c.xram[..];
    ghost var p := c.page;
    EndHolds(mem, p, body);
    c.Store(c.Pc(), END);
    c.Store(Pair(c.page, 0xFE), c.iram[PC_LO]);
    c.Store(Pair(c.page, 0xFF), c.iram[PC_HI] - (c.page + 1));
    PairSplits(c.iram[PC_HI], c.iram[PC_LO]);
    ghost var mem': Memory := c.xram[..];
    AcceptsBody(mem', p, body + [END]);
    ghost var visited := Prepare.Prepare(c);
    if c.loaded {
      PreparedHolds(mem', p, body + [END]);
    }
  }

  lemma EndHolds(mem: Memory, p: SramPage, body: seq<byte>)
    requires |body| % 8 == 0 && |body| <= 0x1EF8 && mem[Base(p)..Base(p) + |body|] == body
    ensures var end := Base(p) + |body|;
            var mem' := mem[end := END][p * 256 + 0xFE := Lo(end)][p * 256 + 0xFF := Hi(end) - (p + 1)];
            Fits(mem', p) && Holds(mem', p, body + [END])
  {
    var end := Base(p) + |body|;
    var mem' := mem[end := END][p * 256 + 0xFE := Lo(end)][p * 256 + 0xFF := Hi(end) - (p + 1)];
    forall i | 0 <= i < |body| + 1 ensures mem'[Base(p) + i] == (body + [END])[i] {
      assert i < |body| ==> mem[Base(p)..Base(p) + |body|][i] == mem[Base(p) + i];
    }
    assert mem'[Base(p)..Base(p) + |body| + 1] == body + [END];
  }
}
