/** Assembling what the disassembler emits gives the region back. */
module DisassemblyRoundTrip {
  import opened Bytes
  import opened Disassembly
  import opened Assembler

  /** The search finds an opcode of the mnemonic it is given, in the page if one is asked for. */
  lemma {:induction false} SearchFinds(table: Table, op: byte, page: Option<nat>, k: nat)
    requires op in table && k <= op && (page.None? || page.value == op / 32)
    ensures var found := Search(table, table[op].mnemonic, page, k);
            && found.Some? && found.value in table && table[found.value].mnemonic == table[op].mnemonic
            && (page.Some? ==> page.value == found.value / 32)
    decreases op - k
  {
    if k < op {
      SearchFinds(table, op, page, k + 1);
    }
  }

  /** By its mnemonic alone an opcode's form is found, with the page bits the opcode itself. */
  lemma FormFound(table: Table, op: byte)
    requires WellFormed(table) && op in table
    ensures var form := Search(table, table[op].mnemonic, None, 0);
            && form.Some? && form.value in table
            && table[form.value].args == table[op].args && table[form.value].length == table[op].length
  {
    SearchFinds(table, op, None, 0);
  }

  lemma OpcodeFound(table: Table, op: byte)
    requires WellFormed(table) && op in table
    ensures Search(table, table[op].mnemonic, if Addr11 in table[op].args then Some(op / 32) else None, 0) == Some(op)
  {
    SearchFinds(table, op, if Addr11 in table[op].args then Some(op / 32) else None, 0);
    hide Search;
  }

  /** An operand, a list of them, a line and a source that an assembler can read. */
  predicate Readable(o: Operand) { o.Num? ==> o.n >= 0 }

  predicate AllReadable(operands: seq<Operand>) {
    operands != [] ==> Readable(operands[0]) && AllReadable(operands[1..])
  }

  predicate LineReadable(line: Line) { line.Code? ==> AllReadable(line.operands) }

  predicate LinesReadable(lines: seq<Line>) {
    lines != [] ==> LineReadable(lines[0]) && LinesReadable(lines[1..])
  }

  predicate Resolves(symbols: map<int, int>, labeled: set<int>) {
    forall s :: s in labeled ==> s in symbols && symbols[s] == s
  }

  lemma PageArithmetic(next: nat, op: byte, b: byte)
    ensures var v := PageOf(next) + op / 32 * 256 + b;
            && PageOf(v) == PageOf(next) && v / 256 % 8 == op / 32 && v % 256 == b
  {
    var p := next / 0x800 % 0x20;
    var low: int := op / 32 * 256 + b;
    assert 0 <= low < 0x800;
    assert (p * 0x800 + low) / 0x800 == p;
    assert (p * 0x800 + low) / 256 == p * 8 + op / 32;
  }

  lemma OperandEncodes(a: Arg, op: byte, next: nat, bytes: seq<byte>, off: nat, labeled: set<int>, symbols: map<int, int>)
    requires off + ArgSize(a) <= |bytes| && Resolves(symbols, labeled)
    ensures var o := OperandOf(a, op, next, bytes, off, labeled);
            && EncodeOperand(a, o, next, symbols) == (if Readable(o) then Some(bytes[off..off + ArgSize(a)]) else None)
            && (a == Addr11 ==> Readable(o) && Value(symbols, o) == Some(TargetOf(a, op, next, bytes, off)))
  {
    assert ArgSize(a) == 1 ==> bytes[off..off + 1] == [bytes[off]];
    assert a == Label16 ==> bytes[off..off + 2] == [bytes[off], bytes[off + 1]];
    match a {
      case Rel =>
      case Label16 => PairSplits(bytes[off], bytes[off + 1]);
      case Addr11 => PageArithmetic(next, op, bytes[off]);
      case _ =>
    }
  }

  lemma {:induction false} OperandsEncode(args: seq<Arg>, op: byte, next: nat, bytes: seq<byte>, off: nat,
                                          labeled: set<int>, symbols: map<int, int>)
    requires off + Sizes(args) <= |bytes| && Resolves(symbols, labeled)
    ensures var operands := OperandsOf(args, op, next, bytes, off, labeled);
            EncodeOperands(args, operands, next, symbols)
            == if AllReadable(operands) then Some(bytes[off..off + Sizes(args)]) else None
    decreases |args|
  {
    OperandsHead(args, op, next, bytes, off, labeled, symbols);
    hide *;
    if args != [] {
      var end := off + ArgSize(args[0]);
      OperandEncodes(args[0], op, next, bytes, off, labeled, symbols);
      OperandsEncode(args[1..], op, next, bytes, end, labeled, symbols);
      JoinedSlices(bytes, off, end, end + Sizes(args[1..]));
    }
  }

  /** What the definitions say of an empty list of operands, and of the first of several. */
  lemma OperandsHead(args: seq<Arg>, op: byte, next: nat, bytes: seq<byte>, off: nat,
                     labeled: set<int>, symbols: map<int, int>)
    requires off + Sizes(args) <= |bytes|
    ensures var operands := OperandsOf(args, op, next, bytes, off, labeled);
            if args == [] then
              EncodeOperands(args, operands, next, symbols) == Some(bytes[off..off + Sizes(args)]) && AllReadable(operands)
            else
              var o := OperandOf(args[0], op, next, bytes, off, labeled);
              var rest := OperandsOf(args[1..], op, next, bytes, off + ArgSize(args[0]), labeled);
              && Sizes(args) == ArgSize(args[0]) + Sizes(args[1..])
              && (AllReadable(operands) <==> Readable(o) && AllReadable(rest))
              && EncodeOperands(args, operands, next, symbols)
                 == Joined(EncodeOperand(args[0], o, next, symbols), EncodeOperands(args[1..], rest, next, symbols))
  {
    hide EncodeOperand, OperandOf, Readable, ArgSize, Joined;
    var operands := OperandsOf(args, op, next, bytes, off, labeled);
    if args == [] {
      assert bytes[off..off] == [];
    } else {
      assert operands[1..] == OperandsOf(args[1..], op, next, bytes, off + ArgSize(args[0]), labeled);
    }
  }

  lemma JoinedSlices(bytes: seq<byte>, i: nat, j: nat, k: nat)
    requires i <= j <= k <= |bytes|
    ensures Joined(Some(bytes[i..j]), Some(bytes[j..k])) == Some(bytes[i..k])
    ensures Joined(None, Some(bytes[j..k])) == Joined(Some(bytes[i..j]), None) == Joined(None, None) == None
  {
    assert bytes[i..k] == bytes[i..j] + bytes[j..k];
  }

  lemma {:induction false} PageBitsAreOpcodes(args: seq<Arg>, op: byte, next: nat, bytes: seq<byte>, off: nat,
                                              labeled: set<int>, symbols: map<int, int>)
    requires off + Sizes(args) <= |bytes| && Resolves(symbols, labeled)
    ensures PageBits(args, OperandsOf(args, op, next, bytes, off, labeled), symbols)
            == if Addr11 in args then Some(op / 32) else None
    decreases |args|
  {
    if args != [] {
      if args[0] == Addr11 {
        OperandEncodes(args[0], op, next, bytes, off, labeled, symbols);
        PageArithmetic(next, op, bytes[off]);
      } else {
        PageBitsAreOpcodes(args[1..], op, next, bytes, off + ArgSize(args[0]), labeled, symbols);
      }
    }
  }

  /** The line for an instruction has its size, and encodes to its bytes. */
  lemma LineEncodes(table: Table, data: seq<byte>, org: nat, pc: nat, labeled: set<int>, symbols: map<int, int>)
    requires WellFormed(table) && pc < |data| && pc + Size(table, data[pc]) <= |data|
    requires Resolves(symbols, labeled)
    ensures LineSize(table, LineAt(table, data, org, pc, labeled)) == Size(table, data[pc])
    ensures var line := LineAt(table, data, org, pc, labeled);
            LineBytes(table, line, org + pc, symbols)
            == if LineReadable(line) then Some(data[pc..pc + Size(table, data[pc])]) else None
  {
    hide Search, OperandsOf, EncodeOperands, PageBits, Sizes, Resolves, AllReadable;
    var op := data[pc];
    if op in table {
      var ins := table[op];
      var next := org + pc + ins.length;
      var bytes := data[pc + 1..pc + ins.length];
      OperandsEncode(ins.args, op, next, bytes, 0, labeled, symbols);
      PageBitsAreOpcodes(ins.args, op, next, bytes, 0, labeled, symbols);
      FormFound(table, op);
      OpcodeFound(table, op);
      hide WellFormed;
      assert bytes[0..|bytes|] == bytes;
      assert data[pc..pc + ins.length] == [op] + bytes;
    } else {
      assert data[pc..pc + 1] == [op];
    }
  }

  /** Every symbol the source places resolves to the address it is named after. */
  lemma {:induction false} SymbolsResolve(table: Table, data: seq<byte>, org: nat, pc: nat, labeled: set<int>)
    requires WellFormed(table) && pc <= |data| && EndsExactly(table, data, pc)
    ensures Resolves(SymbolsFrom(table, Emitted(table, data, org, pc, labeled), org + pc),
                     labeled * BoundariesFrom(table, data, org, pc))
    decreases |data| - pc
  {
    hide LineAt, LineSize, Size, Emitted, SymbolsFrom, BoundariesFrom, EndsExactly, WellFormed;
    if pc < |data| {
      var size := Size(table, data[pc]);
      EmittedStep(table, data, org, pc, labeled);
      BoundariesStep(table, data, org, pc);
      SymbolsResolve(table, data, org, pc + size, labeled);
      LineSizeSame(table, data, org, pc, labeled);
      var line := LineAt(table, data, org, pc, labeled);
      var rest := Emitted(table, data, org, pc + size, labeled);
      SkipLine(table, line, rest, org + pc);
      PlaceSymbol(table, org + pc, [line] + rest);
    } else {
      NothingLeft(table, data, org, labeled, map[]);
    }
  }

  /** A line's size does not depend on how its targets are written. */
  lemma LineSizeSame(table: Table, data: seq<byte>, org: nat, pc: nat, labeled: set<int>)
    requires WellFormed(table) && pc < |data| && pc + Size(table, data[pc]) <= |data|
    ensures LineSize(table, LineAt(table, data, org, pc, labeled)) == Size(table, data[pc])
    ensures !LineAt(table, data, org, pc, labeled).Symbol?
  {
    var op := data[pc];
    if op in table {
      SearchFinds(table, op, None, 0);
    }
  }

  lemma SkipLine(table: Table, line: Line, rest: seq<Line>, at: nat)
    requires !line.Symbol?
    ensures SymbolsFrom(table, [line] + rest, at) == SymbolsFrom(table, rest, at + LineSize(table, line))
  {
    assert ([line] + rest)[1..] == rest;
  }

  lemma PlaceSymbol(table: Table, name: nat, rest: seq<Line>)
    ensures SymbolsFrom(table, [Symbol(name)] + rest, name) == SymbolsFrom(table, rest, name)[name := name]
  {
    assert ([Symbol(name)] + rest)[1..] == rest;
  }

  lemma ConcatBytes(table: Table, line: Line, rest: seq<Line>, at: nat, symbols: map<int, int>)
    ensures BytesFrom(table, [line] + rest, at, symbols) ==
            Joined(LineBytes(table, line, at, symbols), BytesFrom(table, rest, at + LineSize(table, line), symbols))
  {
    assert ([line] + rest)[1..] == rest;
  }

  lemma PassSymbol(table: Table, line: Line, rest: seq<Line>, at: nat, symbols: map<int, int>)
    requires line.Symbol?
    ensures BytesFrom(table, [line] + rest, at, symbols) == BytesFrom(table, rest, at, symbols)
  {
    ConcatBytes(table, line, rest, at, symbols);
    var more := BytesFrom(table, rest, at, symbols);
    assert more.Some? ==> [] + more.value == more.value;
  }

  lemma ReadableStep(line: Line, rest: seq<Line>)
    ensures LinesReadable([line] + rest) <==> LineReadable(line) && LinesReadable(rest)
  {
    assert ([line] + rest)[1..] == rest;
  }

  lemma PassReadable(line: Line, rest: seq<Line>)
    requires line.Symbol?
    ensures LinesReadable([line] + rest) <==> LinesReadable(rest)
  {
    ReadableStep(line, rest);
  }

  lemma {:induction false} EmittedAssembles(table: Table, data: seq<byte>, org: nat, pc: nat, labeled: set<int>,
                                            symbols: map<int, int>)
    requires WellFormed(table) && pc <= |data| && EndsExactly(table, data, pc) && Resolves(symbols, labeled)
    ensures var lines := Emitted(table, data, org, pc, labeled);
            BytesFrom(table, lines, org + pc, symbols) == if LinesReadable(lines) then Some(data[pc..]) else None
    decreases |data| - pc
  {
    hide *;
    if pc < |data| {
      var size := Size(table, data[pc]);
      EmittedStep(table, data, org, pc, labeled);
      EmittedAssembles(table, data, org, pc + size, labeled, symbols);
      LineEncodes(table, data, org, pc, labeled, symbols);
      var line := LineAt(table, data, org, pc, labeled);
      var rest := Emitted(table, data, org, pc + size, labeled);
      ConcatBytes(table, line, rest, org + pc, symbols);
      ReadableStep(line, rest);
      PassSymbol(table, Symbol(org + pc), [line] + rest, org + pc, symbols);
      PassReadable(Symbol(org + pc), [line] + rest);
      JoinedSlices(data, pc, pc + size, |data|);
      assert data[pc..|data|] == data[pc..] && data[pc + size..|data|] == data[pc + size..];
    } else {
      NothingLeft(table, data, org, labeled, symbols);
    }
  }

  lemma NothingLeft(table: Table, data: seq<byte>, org: nat, labeled: set<int>, symbols: map<int, int>)
    requires WellFormed(table) && EndsExactly(table, data, |data|)
    ensures BytesFrom(table, Emitted(table, data, org, |data|, labeled), org + |data|, symbols) == Some(data[|data|..])
    ensures LinesReadable(Emitted(table, data, org, |data|, labeled))
    ensures SymbolsFrom(table, Emitted(table, data, org, |data|, labeled), org + |data|) == map[]
    ensures BoundariesFrom(table, data, org, |data|) == {}
  {
    assert data[|data|..] == [];
  }

  lemma {:induction false} OperandsReadableIff(args: seq<Arg>, op: byte, next: nat, bytes: seq<byte>, off: nat, labeled: set<int>)
    requires off + Sizes(args) <= |bytes| && NonNegative(labeled)
    ensures AllReadable(OperandsOf(args, op, next, bytes, off, labeled)) <==>
            NonNegative(TargetsOf(args, op, next, bytes, off))
    decreases |args|
  {
    hide OperandOf, TargetOf, Readable, IsTarget;
    if args != [] {
      var end := off + ArgSize(args[0]);
      var operands := OperandsOf(args, op, next, bytes, off, labeled);
      OperandsReadableIff(args[1..], op, next, bytes, end, labeled);
      OperandReadableIff(args[0], op, next, bytes, off, labeled);
      assert operands[0] == OperandOf(args[0], op, next, bytes, off, labeled);
      assert operands[1..] == OperandsOf(args[1..], op, next, bytes, end, labeled);
      var first: set<int> := if IsTarget(args[0]) then {TargetOf(args[0], op, next, bytes, off)} else {};
      var more := TargetsOf(args[1..], op, next, bytes, end);
      assert TargetsOf(args, op, next, bytes, off) == first + more;
      assert NonNegative(first) <==> Readable(operands[0]);
      assert NonNegative(first + more) <==> NonNegative(first) && NonNegative(more);
    }
  }

  lemma OperandReadableIff(a: Arg, op: byte, next: nat, bytes: seq<byte>, off: nat, labeled: set<int>)
    requires off + ArgSize(a) <= |bytes| && NonNegative(labeled)
    ensures Readable(OperandOf(a, op, next, bytes, off, labeled)) <==> !IsTarget(a) || TargetOf(a, op, next, bytes, off) >= 0
  {
  }

  lemma LineReadableIff(table: Table, data: seq<byte>, org: nat, pc: nat, labeled: set<int>)
    requires WellFormed(table) && pc < |data| && pc + Size(table, data[pc]) <= |data|
    requires NonNegative(labeled)
    ensures LineReadable(LineAt(table, data, org, pc, labeled)) <==>
            NonNegative(AllTargetsAt(table, data, org, pc))
  {
    var op := data[pc];
    if op in table {
      var ins := table[op];
      var bytes := data[pc + 1..pc + ins.length];
      OperandsReadableIff(ins.args, op, org + pc + ins.length, bytes, 0, labeled);
      hide AllReadable, TargetsOf, OperandsOf;
      var targets := TargetsOf(ins.args, op, org + pc + ins.length, bytes, 0);
      assert AllTargetsAt(table, data, org, pc) == targets;
      assert LineReadable(LineAt(table, data, org, pc, labeled)) <==> NonNegative(targets);
    } else {
      assert AllTargetsAt(table, data, org, pc) == {};
    }
  }

  lemma {:induction false} EmittedReadableIff(table: Table, data: seq<byte>, org: nat, pc: nat, labeled: set<int>)
    requires WellFormed(table) && pc <= |data| && EndsExactly(table, data, pc)
    requires NonNegative(labeled)
    ensures LinesReadable(Emitted(table, data, org, pc, labeled)) <==> NoneBelowZero(table, data, org, pc)
    decreases |data| - pc
  {
    hide *;
    if pc < |data| {
      var next := pc + Size(table, data[pc]);
      EmittedStep(table, data, org, pc, labeled);
      BelowStep(table, data, org, pc);
      EmittedReadableIff(table, data, org, next, labeled);
      LineReadableIff(table, data, org, pc, labeled);
      var line := LineAt(table, data, org, pc, labeled);
      var rest := Emitted(table, data, org, next, labeled);
      ReadableStep(line, rest);
      PassReadable(Symbol(org + pc), [line] + rest);
    } else {
      NothingLeft(table, data, org, labeled, map[]);
      NothingBelow(table, data, org);
    }
  }

  lemma NothingBelow(table: Table, data: seq<byte>, org: nat)
    requires WellFormed(table) && EndsExactly(table, data, |data|)
    ensures NoneBelowZero(table, data, org, |data|)
  {
  }

  /**
   Disassembly is undone by assembly, for any region that ends on an instruction boundary, exactly if
   nothing in it branches below address zero: such a target is printed as 0x- and digits.
  */
  lemma AssemblyUndoesDisassembly(table: Table, data: seq<byte>, org: nat)
    requires WellFormed(table) && EndsExactly(table, data, 0)
    ensures Assemble(table, Source(table, data, org)) == if NoneBelowZero(table, data, org, 0) then Some(data) else None
  {
    SourceIs(table, data, org);
    hide *;
    var labeled := Labeled(table, data, org);
    var lines := Emitted(table, data, org, 0, labeled);
    SymbolsResolve(table, data, org, 0, labeled);
    EmittedAssembles(table, data, org, 0, labeled, SymbolsFrom(table, lines, org));
    EmittedReadableIff(table, data, org, 0, labeled);
    assert data[0..] == data;
  }

  lemma SourceIs(table: Table, data: seq<byte>, org: nat)
    requires WellFormed(table) && EndsExactly(table, data, 0)
    ensures var labeled := Labeled(table, data, org);
            var lines := Emitted(table, data, org, 0, labeled);
            && labeled * BoundariesFrom(table, data, org, 0) == labeled && NonNegative(labeled)
            && Source(table, data, org) == [Org(org)] + lines
            && Assemble(table, Source(table, data, org)) == BytesFrom(table, lines, org, SymbolsFrom(table, lines, org))
  {
    BoundariesAfter(table, data, org, 0);
    hide BoundariesFrom, TargetsFrom, Emitted, BytesFrom, SymbolsFrom, EndsExactly, WellFormed;
    assert Source(table, data, org)[1..] == Emitted(table, data, org, 0, Labeled(table, data, org));
  }

  /** A region at address 0 that starts with SJMP to -126 does not survive. */
  lemma BelowZeroIsLost()
    ensures var table: Table := map[0x80 := Ins(2, "sjmp {0}", [Rel])];
            && WellFormed(table) && EndsExactly(table, [0x80, 0x80], 0)
            && Assemble(table, Source(table, [0x80, 0x80], 0)) == None
  {
    var table: Table := map[0x80 := Ins(2, "sjmp {0}", [Rel])];
    var data: seq<byte> := [0x80, 0x80];
    assert Sizes([Rel]) == 1 + Sizes([]) by { assert [Rel][1..] == []; }
    assert WellFormed(table);
    assert EndsExactly(table, data, 2) && EndsExactly(table, data, 0);
    assert data[1..2] == [0x80];
    assert TargetOf(Rel, 0x80, 2, [0x80], 0) == -126;
    assert -126 in TargetsOf([Rel], 0x80, 2, [0x80], 0);
    assert -126 in AllTargetsAt(table, data, 0, 0);
    assert !NoneBelowZero(table, data, 0, 0);
    AssemblyUndoesDisassembly(table, data, 0);
  }

  /** How often the source defines a symbol. */
  function Definitions(lines: seq<Line>, name: int): nat {
    if lines == [] then 0
    else (if lines[0] == Symbol(name) then 1 else 0) + Definitions(lines[1..], name)
  }

  /** Whether a line refers to a symbol. */
  predicate Refers(line: Line, name: int) { line.Code? && Ref(name) in line.operands }

  lemma DefinitionsStep(line: Line, rest: seq<Line>, name: int)
    ensures Definitions([line] + rest, name) == (if line == Symbol(name) then 1 else 0) + Definitions(rest, name)
  {
    assert ([line] + rest)[1..] == rest;
  }

  lemma {:induction false} BoundariesAfter(table: Table, data: seq<byte>, org: nat, pc: nat)
    requires WellFormed(table) && pc <= |data| && EndsExactly(table, data, pc)
    ensures forall b :: b in BoundariesFrom(table, data, org, pc) ==> org + pc <= b
    decreases |data| - pc
  {
    if pc < |data| {
      SizeIsPositive(table, data[pc]);
      BoundariesAfter(table, data, org, pc + Size(table, data[pc]));
    }
  }

  /** The part of the source from pc on defines each label on its boundaries once, and nothing else. */
  lemma {:induction false} EmittedDefines(table: Table, data: seq<byte>, org: nat, pc: nat, labeled: set<int>, name: int)
    requires WellFormed(table) && pc <= |data| && EndsExactly(table, data, pc)
    ensures Definitions(Emitted(table, data, org, pc, labeled), name)
            == if name in labeled && name in BoundariesFrom(table, data, org, pc) then 1 else 0
    decreases |data| - pc
  {
    hide *;
    if pc < |data| {
      var next := pc + Size(table, data[pc]);
      EmittedStep(table, data, org, pc, labeled);
      BoundariesStep(table, data, org, pc);
      EmittedDefines(table, data, org, next, labeled, name);
      BoundariesAfter(table, data, org, next);
      LineSizeSame(table, data, org, pc, labeled);
      var line := LineAt(table, data, org, pc, labeled);
      var rest := Emitted(table, data, org, next, labeled);
      DefinitionsStep(line, rest, name);
      DefinitionsStep(Symbol(org + pc), [line] + rest, name);
    } else {
      NothingDefined(table, data, org, labeled, name);
    }
  }

  lemma NothingDefined(table: Table, data: seq<byte>, org: nat, labeled: set<int>, name: int)
    requires WellFormed(table) && EndsExactly(table, data, |data|)
    ensures Definitions(Emitted(table, data, org, |data|, labeled), name) == 0
    ensures BoundariesFrom(table, data, org, |data|) == {}
  {
  }

  lemma {:induction false} OperandsRefer(args: seq<Arg>, op: byte, next: nat, bytes: seq<byte>, off: nat,
                                         labeled: set<int>, name: int)
    requires off + Sizes(args) <= |bytes|
    ensures Ref(name) in OperandsOf(args, op, next, bytes, off, labeled) ==> name in labeled
    decreases |args|
  {
    if args != [] {
      OperandsRefer(args[1..], op, next, bytes, off + ArgSize(args[0]), labeled, name);
    }
  }

  lemma {:induction false} EmittedRefers(table: Table, data: seq<byte>, org: nat, pc: nat, labeled: set<int>, i: nat, name: int)
    requires WellFormed(table) && pc <= |data| && EndsExactly(table, data, pc)
    requires i < |Emitted(table, data, org, pc, labeled)| && Refers(Emitted(table, data, org, pc, labeled)[i], name)
    ensures name in labeled
    decreases |data| - pc
  {
    EmittedAtEnd(table, data, org, pc, labeled);
    hide *;
    var next := pc + Size(table, data[pc]);
    EmittedStep(table, data, org, pc, labeled);
    var before := if org + pc in labeled then 1 else 0;
    if i > before {
      EmittedRefers(table, data, org, next, labeled, i - 1 - before, name);
    } else if i == before {
      LineRefers(table, data, org, pc, labeled, name);
    } else {
      SymbolRefersToNone(org + pc, name);
    }
  }

  lemma EmittedAtEnd(table: Table, data: seq<byte>, org: nat, pc: nat, labeled: set<int>)
    requires WellFormed(table) && pc <= |data| && EndsExactly(table, data, pc)
    ensures pc == |data| ==> Emitted(table, data, org, pc, labeled) == []
  {
  }

  lemma SymbolRefersToNone(at: int, name: int)
    ensures !Refers(Symbol(at), name)
  {
  }

  lemma LineRefers(table: Table, data: seq<byte>, org: nat, pc: nat, labeled: set<int>, name: int)
    requires WellFormed(table) && pc < |data| && pc + Size(table, data[pc]) <= |data|
    ensures Refers(LineAt(table, data, org, pc, labeled), name) ==> name in labeled
  {
    hide OperandsOf, Sizes;
    if data[pc] in table {
      var ins := table[data[pc]];
      OperandsRefer(ins.args, data[pc], org + pc + ins.length, data[pc + 1..pc + ins.length], 0, labeled, name);
    }
  }

  lemma OrgRefersToNone(org: nat, name: int)
    ensures !Refers(Org(org), name) && Org(org) != Symbol(name)
  {
  }

  /** Every symbol the source refers to is defined exactly once, at a decoded boundary inside the region. */
  lemma ReferencesAreDefinedOnce(table: Table, data: seq<byte>, org: nat, i: nat, name: int)
    requires WellFormed(table) && EndsExactly(table, data, 0)
    requires i < |Source(table, data, org)| && Refers(Source(table, data, org)[i], name)
    ensures Definitions(Source(table, data, org), name) == 1
    ensures name in BoundariesFrom(table, data, org, 0)
  {
    SourceIs(table, data, org);
    OrgRefersToNone(org, name);
    hide *;
    var labeled := Labeled(table, data, org);
    var lines := Emitted(table, data, org, 0, labeled);
    EmittedRefers(table, data, org, 0, labeled, i - 1, name);
    EmittedDefines(table, data, org, 0, labeled, name);
    DefinitionsStep(Org(org), lines, name);
  }
}
