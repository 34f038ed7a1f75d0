/** The disassembler that turns a ROM region into assembler source, and the assembler that undoes it. */
module Disassembly {
  import opened Bytes

  /** The kinds of operand bytes: immediate, direct address, bit address, relative, 16-bit and 11-bit target. */
  datatype Arg = Imm | Data | BitAddr | Rel | Label16 | Addr11

  /** One row of the instruction table; the mnemonic stands for its whole template. */
  datatype Ins = Ins(length: nat, mnemonic: string, args: seq<Arg>)

  type Table = map<byte, Ins>

  datatype Operand = Num(n: int) | Ref(symbol: int)

  /** Emitted source; a symbol is named by the address it is made from. */
  datatype Line = Org(a: nat) | Symbol(name: int) | Db(b: byte) | Code(mnemonic: string, operands: seq<Operand>)

  function ArgSize(a: Arg): nat { if a == Label16 then 2 else 1 }

  function Sizes(args: seq<Arg>): nat {
    if args == [] then 0 else ArgSize(args[0]) + Sizes(args[1..])
  }

  predicate IsTarget(a: Arg) { a == Rel || a == Label16 || a == Addr11 }

  /** What the instruction table has to satisfy: honest lengths, and mnemonics that tell opcodes apart up to the page bits. */
  ghost predicate WellFormed(table: Table) {
    && (forall op :: op in table ==> table[op].length == 1 + Sizes(table[op].args))
    && forall op, op' :: op in table && op' in table && table[op].mnemonic == table[op'].mnemonic ==>
         && table[op].args == table[op'].args
         && (Addr11 !in table[op].args || op / 32 == op' / 32 ==> op == op')
  }

  function Signed(b: byte): int { if b > 127 then b - 256 else b }

  /** The 2K page of the address after an instruction, in 16 bits: x AND 0xF800. */
  function PageOf(x: nat): nat { x / 0x800 % 0x20 * 0x800 }

  /** How long the instruction at pc is; an unknown opcode is one raw byte. */
  function Size(table: Table, op: byte): nat { if op in table then table[op].length else 1 }

  lemma SizeIsPositive(table: Table, op: byte)
    requires WellFormed(table)
    ensures Size(table, op) > 0
  {
  }

  /** Where an operand points that is a target; bytes are the operand bytes, from off on. */
  function TargetOf(a: Arg, op: byte, next: nat, bytes: seq<byte>, off: nat): int
    requires IsTarget(a) && off + ArgSize(a) <= |bytes|
  {
    match a
    case Rel => next + Signed(bytes[off])
    case Label16 => Pair(bytes[off], bytes[off + 1])
    case _ => PageOf(next) + op / 32 * 256 + bytes[off]
  }

  function OperandOf(a: Arg, op: byte, next: nat, bytes: seq<byte>, off: nat, labeled: set<int>): Operand
    requires off + ArgSize(a) <= |bytes|
  {
    if !IsTarget(a) then Num(bytes[off])
    else
      var target := TargetOf(a, op, next, bytes, off);
      if a == Rel && target in labeled then Ref(target) else Num(target)
  }

  function OperandsOf(args: seq<Arg>, op: byte, next: nat, bytes: seq<byte>, off: nat, labeled: set<int>): (r: seq<Operand>)
    requires off + Sizes(args) <= |bytes|
    decreases |args|
    ensures |r| == |args|
  {
    if args == [] then []
    else [OperandOf(args[0], op, next, bytes, off, labeled)]
         + OperandsOf(args[1..], op, next, bytes, off + ArgSize(args[0]), labeled)
  }

  function TargetsOf(args: seq<Arg>, op: byte, next: nat, bytes: seq<byte>, off: nat): set<int>
    requires off + Sizes(args) <= |bytes|
    decreases |args|
  {
    if args == [] then {}
    else (if IsTarget(args[0]) then {TargetOf(args[0], op, next, bytes, off)} else {})
         + TargetsOf(args[1..], op, next, bytes, off + ArgSize(args[0]))
  }

  /** Decoding from pc on reaches exactly the end of the region. */
  ghost predicate EndsExactly(table: Table, data: seq<byte>, pc: nat)
    requires WellFormed(table) && pc <= |data|
    decreases |data| - pc
  {
    if pc == |data| then true
    else
      SizeIsPositive(table, data[pc]);
      pc + Size(table, data[pc]) <= |data| && EndsExactly(table, data, pc + Size(table, data[pc]))
  }

  /** The addresses at which instructions are decoded from pc on. */
  ghost function BoundariesFrom(table: Table, data: seq<byte>, org: nat, pc: nat): set<int>
    requires WellFormed(table) && pc <= |data| && EndsExactly(table, data, pc)
    decreases |data| - pc
  {
    if pc == |data| then {}
    else
      SizeIsPositive(table, data[pc]);
      {org + pc} + BoundariesFrom(table, data, org, pc + Size(table, data[pc]))
  }

  predicate InRegion(a: int, org: nat, length: nat) { org <= a < org + length }

  /** The targets of the instruction at pc that lie in the region. */
  ghost function TargetsAt(table: Table, data: seq<byte>, org: nat, pc: nat): set<int>
    requires WellFormed(table) && pc < |data| && pc + Size(table, data[pc]) <= |data|
  {
    var op := data[pc];
    if op !in table then {}
    else
      var ins := table[op];
      set t | t in TargetsOf(ins.args, op, org + pc + ins.length, data[pc + 1..pc + ins.length], 0)
              && InRegion(t, org, |data|)
  }

  /** All targets of the instruction at pc, inside the region or not. */
  ghost function AllTargetsAt(table: Table, data: seq<byte>, org: nat, pc: nat): set<int>
    requires WellFormed(table) && pc < |data| && pc + Size(table, data[pc]) <= |data|
  {
    var op := data[pc];
    if op !in table then {}
    else
      var ins := table[op];
      TargetsOf(ins.args, op, org + pc + ins.length, data[pc + 1..pc + ins.length], 0)
  }

  predicate NonNegative(s: set<int>) { forall t :: t in s ==> t >= 0 }

  /** No instruction from pc on branches below address zero. */
  ghost predicate NoneBelowZero(table: Table, data: seq<byte>, org: nat, pc: nat)
    requires WellFormed(table) && pc <= |data| && EndsExactly(table, data, pc)
    decreases |data| - pc
  {
    if pc == |data| then true
    else
      SizeIsPositive(table, data[pc]);
      NonNegative(AllTargetsAt(table, data, org, pc))
      && NoneBelowZero(table, data, org, pc + Size(table, data[pc]))
  }

  ghost function TargetsFrom(table: Table, data: seq<byte>, org: nat, pc: nat): set<int>
    requires WellFormed(table) && pc <= |data| && EndsExactly(table, data, pc)
    decreases |data| - pc
  {
    if pc == |data| then {}
    else
      SizeIsPositive(table, data[pc]);
      TargetsAt(table, data, org, pc) + TargetsFrom(table, data, org, pc + Size(table, data[pc]))
  }

  /** The line for the instruction at pc. */
  ghost function LineAt(table: Table, data: seq<byte>, org: nat, pc: nat, labeled: set<int>): Line
    requires WellFormed(table) && pc < |data| && pc + Size(table, data[pc]) <= |data|
  {
    var op := data[pc];
    if op !in table then Db(op)
    else
      var ins := table[op];
      Code(ins.mnemonic, OperandsOf(ins.args, op, org + pc + ins.length, data[pc + 1..pc + ins.length], 0, labeled))
  }

  function Here(org: nat, pc: nat, labeled: set<int>): seq<Line> {
    if org + pc in labeled then [Symbol(org + pc)] else []
  }

  /** The source of the region from pc on. */
  ghost function Emitted(table: Table, data: seq<byte>, org: nat, pc: nat, labeled: set<int>): seq<Line>
    requires WellFormed(table) && pc <= |data| && EndsExactly(table, data, pc)
    decreases |data| - pc
  {
    if pc == |data| then []
    else
      SizeIsPositive(table, data[pc]);
      Here(org, pc, labeled) + [LineAt(table, data, org, pc, labeled)]
      + Emitted(table, data, org, pc + Size(table, data[pc]), labeled)
  }

  /** The targets that lie on decoded boundaries. */
  ghost function Labeled(table: Table, data: seq<byte>, org: nat): set<int>
    requires WellFormed(table) && EndsExactly(table, data, 0)
  {
    TargetsFrom(table, data, org, 0) * BoundariesFrom(table, data, org, 0)
  }

  /** The whole source. */
  ghost function Source(table: Table, data: seq<byte>, org: nat): seq<Line>
    requires WellFormed(table) && EndsExactly(table, data, 0)
  {
    [Org(org)] + Emitted(table, data, org, 0, Labeled(table, data, org))
  }

  lemma EmittedStep(table: Table, data: seq<byte>, org: nat, pc: nat, labeled: set<int>)
    requires WellFormed(table) && pc < |data| && EndsExactly(table, data, pc)
    ensures var next := pc + Size(table, data[pc]);
            && pc < next <= |data| && EndsExactly(table, data, next)
            && (var rest := [LineAt(table, data, org, pc, labeled)] + Emitted(table, data, org, next, labeled);
                Emitted(table, data, org, pc, labeled) == if org + pc in labeled then [Symbol(org + pc)] + rest else rest)
  {
    SizeIsPositive(table, data[pc]);
    hide LineAt, WellFormed;
  }

  lemma BoundariesStep(table: Table, data: seq<byte>, org: nat, pc: nat)
    requires WellFormed(table) && pc < |data| && EndsExactly(table, data, pc)
    ensures var next := pc + Size(table, data[pc]);
            && pc < next <= |data| && EndsExactly(table, data, next)
            && BoundariesFrom(table, data, org, pc) == {org + pc} + BoundariesFrom(table, data, org, next)
  {
    SizeIsPositive(table, data[pc]);
    hide WellFormed;
  }

  lemma TargetsStep(table: Table, data: seq<byte>, org: nat, pc: nat)
    requires WellFormed(table) && pc < |data| && EndsExactly(table, data, pc)
    ensures var next := pc + Size(table, data[pc]);
            && pc < next <= |data| && EndsExactly(table, data, next)
            && TargetsFrom(table, data, org, pc) == TargetsAt(table, data, org, pc) + TargetsFrom(table, data, org, next)
  {
    SizeIsPositive(table, data[pc]);
    hide WellFormed, TargetsAt;
  }

  lemma BelowStep(table: Table, data: seq<byte>, org: nat, pc: nat)
    requires WellFormed(table) && pc < |data| && EndsExactly(table, data, pc)
    ensures var next := pc + Size(table, data[pc]);
            && pc < next <= |data| && EndsExactly(table, data, next)
            && (NoneBelowZero(table, data, org, pc) <==>
                  NonNegative(AllTargetsAt(table, data, org, pc)) && NoneBelowZero(table, data, org, next))
  {
    SizeIsPositive(table, data[pc]);
    hide WellFormed, AllTargetsAt;
  }

  lemma EndsStep(table: Table, data: seq<byte>, pc: nat)
    requires WellFormed(table) && pc < |data|
    ensures var next := pc + Size(table, data[pc]);
            pc < next && (EndsExactly(table, data, pc) <==> next <= |data| && EndsExactly(table, data, next))
  {
    SizeIsPositive(table, data[pc]);
    hide WellFormed;
  }

  lemma NothingEmitted(table: Table, data: seq<byte>, org: nat, labeled: set<int>)
    requires WellFormed(table)
    ensures EndsExactly(table, data, |data|) && Emitted(table, data, org, |data|, labeled) == []
    ensures BoundariesFrom(table, data, org, |data|) == {} && TargetsFrom(table, data, org, |data|) == {}
  {
  }
}
