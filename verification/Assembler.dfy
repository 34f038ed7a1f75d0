/** A two-pass assembler for the emitted source: symbols first, then bytes. */
module Assembler {
  import opened Bytes
  import opened Disassembly

  /** The lowest opcode from k on that has the mnemonic and, if one is asked for, the page bits. */
  function Search(table: Table, mnemonic: string, page: Option<nat>, k: nat): Option<byte>
    decreases 256 - k
  {
    if k >= 256 then None
    else if k in table && table[k].mnemonic == mnemonic && (page.None? || page.value == k / 32) then Some(k)
    else Search(table, mnemonic, page, k + 1)
  }

  /** A number below zero has been printed as 0x- and digits, which is no number to an assembler. */
  function Value(symbols: map<int, int>, o: Operand): Option<int> {
    match o
    case Num(n) => if n >= 0 then Some(n) else None
    case Ref(s) => if s in symbols then Some(symbols[s]) else None
  }

  /** The bytes of one operand: relative targets must be within reach, 11-bit ones in the page of the next instruction. */
  function EncodeOperand(a: Arg, o: Operand, next: nat, symbols: map<int, int>): Option<seq<byte>> {
    var v := Value(symbols, o);
    if v.None? then None
    else
      var v := v.value;
      match a
      case Rel => if -128 <= v - next <= 127 then Some([(v - next) % 256]) else None
      case Label16 => if 0 <= v < 0x1_0000 then Some([Hi(v), Lo(v)]) else None
      case Addr11 => if 0 <= v && PageOf(v) == PageOf(next) then Some([v % 256]) else None
      case _ => if 0 <= v < 256 then Some([v]) else None
  }

  function EncodeOperands(args: seq<Arg>, operands: seq<Operand>, next: nat, symbols: map<int, int>): Option<seq<byte>>
    decreases |args|
  {
    if args == [] then (if operands == [] then Some([]) else None)
    else if operands == [] then None
    else
      Joined(EncodeOperand(args[0], operands[0], next, symbols), EncodeOperands(args[1..], operands[1..], next, symbols))
  }

  /** What comes first and what follows it, if both are there. */
  function Joined(first: Option<seq<byte>>, rest: Option<seq<byte>>): Option<seq<byte>> {
    if first.None? || rest.None? then None else Some(first.value + rest.value)
  }

  /** The three page bits an 11-bit target puts into the opcode. */
  function PageBits(args: seq<Arg>, operands: seq<Operand>, symbols: map<int, int>): Option<nat>
    decreases |args|
  {
    if args == [] || operands == [] then None
    else if args[0] == Addr11 then
      var v := Value(symbols, operands[0]);
      if v.None? || v.value < 0 then None else Some(v.value / 256 % 8)
    else PageBits(args[1..], operands[1..], symbols)
  }

  function LineSize(table: Table, line: Line): nat {
    match line
    case Db(_) => 1
    case Code(mnemonic, _) =>
      var op := Search(table, mnemonic, None, 0);
      if op.None? || op.value !in table then 0 else table[op.value].length
    case _ => 0
  }

  function LineBytes(table: Table, line: Line, at: nat, symbols: map<int, int>): Option<seq<byte>> {
    match line
    case Db(b) => Some([b])
    case Code(mnemonic, operands) =>
      var form := Search(table, mnemonic, None, 0);
      if form.None? || form.value !in table then None
      else
        var ins := table[form.value];
        var op := Search(table, mnemonic, PageBits(ins.args, operands, symbols), 0);
        var bytes := EncodeOperands(ins.args, operands, at + ins.length, symbols);
        if op.None? || bytes.None? then None else Some([op.value] + bytes.value)
    case _ => Some([])
  }

  /** Where the first pass puts each symbol, from address at on. */
  function SymbolsFrom(table: Table, lines: seq<Line>, at: nat): map<int, int> {
    if lines == [] then map[]
    else
      var rest := SymbolsFrom(table, lines[1..], at + LineSize(table, lines[0]));
      if lines[0].Symbol? then rest[lines[0].name := at] else rest
  }

  function BytesFrom(table: Table, lines: seq<Line>, at: nat, symbols: map<int, int>): Option<seq<byte>> {
    if lines == [] then Some([])
    else
      Joined(LineBytes(table, lines[0], at, symbols), BytesFrom(table, lines[1..], at + LineSize(table, lines[0]), symbols))
  }

  /** Source that starts with .org, to bytes. */
  function Assemble(table: Table, lines: seq<Line>): Option<seq<byte>> {
    if lines == [] || !lines[0].Org? then None
    else BytesFrom(table, lines[1..], lines[0].a, SymbolsFrom(table, lines[1..], lines[0].a))
  }
}
