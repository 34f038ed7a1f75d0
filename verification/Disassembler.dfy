/** The two passes of d51_to_sdas.py, loop by loop. */
module Disassembler {
  import opened Bytes
  import opened Disassembly

  /** data[i..j] as Python slices it. */
  function Slice(data: seq<byte>, i: nat, j: nat): (s: seq<byte>)
    ensures i <= j <= |data| ==> s == data[i..j]
  {
    var j' := if j < |data| then j else |data|;
    if i <= j' then data[i..j'] else []
  }

  /** The operand loop of the first pass: the targets among the operands; not ok when a byte it needs is missing. */
  method OperandTargets(args: seq<Arg>, op: byte, next: nat, bytes: seq<byte>, org: nat, length: nat)
    returns (ok: bool, found: set<int>)
    ensures Sizes(args) <= |bytes| ==>
              ok && found == set t | t in TargetsOf(args, op, next, bytes, 0) && InRegion(t, org, length)
  {
    ok, found := true, {};
    var aidx: nat := 0;
    var i := 0;
    while i < |args|
      invariant i <= |args| && ok && aidx + Sizes(args[i..]) == Sizes(args)
      invariant Sizes(args) <= |bytes| ==>
                  (set t | t in TargetsOf(args, op, next, bytes, 0) && InRegion(t, org, length))
                  == found + set t | t in TargetsOf(args[i..], op, next, bytes, aidx) && InRegion(t, org, length)
    {
      var atype := args[i];
      assert args[i..][1..] == args[i + 1..];
      if IsTarget(atype) {
        if aidx + ArgSize(atype) > |bytes| {
          return false, found;
        }
        var target := TargetOf(atype, op, next, bytes, aidx);
        if InRegion(target, org, length) {
          found := found + {target};
        }
      }
      aidx := aidx + ArgSize(atype);
      i := i + 1;
    }
  }

  /** The body of the first pass's loop. */
  method CollectAt(table: Table, data: seq<byte>, org: nat, pc: nat) returns (ok: bool, found: set<int>, size: nat)
    requires WellFormed(table) && pc < |data|
    ensures size == Size(table, data[pc])
    ensures pc + size <= |data| ==> ok && found == TargetsAt(table, data, org, pc)
  {
    hide TargetsOf, Sizes, InRegion;
    ok, found, size := true, {}, 1;
    var opcode := data[pc];
    if opcode in table {
      var ins := table[opcode];
      size := ins.length;
      ok, found := OperandTargets(ins.args, opcode, org + pc + size, Slice(data, pc + 1, pc + size), org, |data|);
    }
  }

  /** First pass: instruction boundaries, and the targets inside the region. */
  method FirstPass(table: Table, data: seq<byte>, org: nat) returns (ok: bool, boundaries: set<int>, targets: set<int>)
    requires WellFormed(table)
    ensures EndsExactly(table, data, 0) ==>
              ok && boundaries == BoundariesFrom(table, data, org, 0) && targets == TargetsFrom(table, data, org, 0)
  {
    hide *;
    NothingEmitted(table, data, org, {});
    ok, boundaries, targets := true, {}, {};
    var pc := 0;
    while pc < |data|
      invariant EndsExactly(table, data, 0) ==>
                  && pc <= |data| && EndsExactly(table, data, pc)
                  && boundaries + BoundariesFrom(table, data, org, pc) == BoundariesFrom(table, data, org, 0)
                  && targets + TargetsFrom(table, data, org, pc) == TargetsFrom(table, data, org, 0)
      decreases |data| - pc
    {
      EndsStep(table, data, pc);
      if EndsExactly(table, data, pc) {
        BoundariesStep(table, data, org, pc);
        TargetsStep(table, data, org, pc);
      }
      boundaries := boundaries + {org + pc};
      var found, size;
      ok, found, size := CollectAt(table, data, org, pc);
      if !ok {
        return;
      }
      targets := targets + found;
      pc := pc + size;
    }
  }

  /** The operand loop of the second pass. */
  method FormatOperands(args: seq<Arg>, op: byte, next: nat, bytes: seq<byte>, labeled: set<int>)
    returns (ok: bool, operands: seq<Operand>)
    ensures ok <==> Sizes(args) <= |bytes|
    ensures ok ==> operands == OperandsOf(args, op, next, bytes, 0, labeled)
  {
    hide OperandOf, ArgSize;
    ok, operands := true, [];
    var aidx: nat := 0;
    var i := 0;
    while i < |args|
      invariant i <= |args| && ok && aidx <= |bytes| && aidx + Sizes(args[i..]) == Sizes(args)
      invariant Sizes(args) <= |bytes| ==>
                  OperandsOf(args, op, next, bytes, 0, labeled)
                  == operands + OperandsOf(args[i..], op, next, bytes, aidx, labeled)
    {
      var atype := args[i];
      assert args[i..][1..] == args[i + 1..];
      if aidx + ArgSize(atype) > |bytes| {
        return false, operands;
      }
      operands := operands + [OperandOf(atype, op, next, bytes, aidx, labeled)];
      aidx := aidx + ArgSize(atype);
      i := i + 1;
    }
  }

  /** The line for the instruction at pc; not ok when the region breaks off inside it. */
  method FormatAt(table: Table, data: seq<byte>, org: nat, pc: nat, labeled: set<int>)
    returns (ok: bool, line: Line, size: nat)
    requires WellFormed(table) && pc < |data|
    ensures size == Size(table, data[pc]) && (ok <==> pc + size <= |data|)
    ensures ok ==> line == LineAt(table, data, org, pc, labeled)
  {
    hide OperandsOf, Sizes;
    var opcode := data[pc];
    if opcode !in table {
      return true, Db(opcode), 1;
    }
    var ins := table[opcode];
    size := ins.length;
    var operands;
    ok, operands := FormatOperands(ins.args, opcode, org + pc + size, Slice(data, pc + 1, pc + size), labeled);
    line := Code(ins.mnemonic, operands);
  }

  /** Second pass: labels, raw bytes for unknown opcodes, and instructions with their operands written out. */
  method SecondPass(table: Table, data: seq<byte>, org: nat, labeled: set<int>) returns (ok: bool, lines: seq<Line>)
    requires WellFormed(table)
    ensures ok <==> EndsExactly(table, data, 0)
    ensures ok ==> lines == [Org(org)] + Emitted(table, data, org, 0, labeled)
  {
    hide *;
    NothingEmitted(table, data, org, labeled);
    ok, lines := true, [Org(org)];
    var pc := 0;
    while pc < |data|
      invariant ok && pc <= |data| && (EndsExactly(table, data, 0) <==> EndsExactly(table, data, pc))
      invariant EndsExactly(table, data, 0) ==>
                  [Org(org)] + Emitted(table, data, org, 0, labeled) == lines + Emitted(table, data, org, pc, labeled)
    {
      EndsStep(table, data, pc);
      if EndsExactly(table, data, pc) {
        EmittedStep(table, data, org, pc, labeled);
      }
      if org + pc in labeled {
        lines := lines + [Symbol(org + pc)];
      }
      var line, size;
      ok, line, size := FormatAt(table, data, org, pc, labeled);
      if !ok {
        return;
      }
      lines := lines + [line];
      pc := pc + size;
    }
  }

  /** The whole program; a region that breaks off inside an instruction is an error. */
  method Disassemble(table: Table, data: seq<byte>, org: nat) returns (result: Option<seq<Line>>)
    requires WellFormed(table)
    ensures result.Some? <==> EndsExactly(table, data, 0)
    ensures result.Some? ==> result.value == Source(table, data, org)
  {
    var ok, boundaries, targets := FirstPass(table, data, org);
    if !ok {
      return None;
    }
    var lines;
    ok, lines := SecondPass(table, data, org, targets * boundaries);
    result := if ok then Some(lines) else None;
  }
}
