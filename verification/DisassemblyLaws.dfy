/** What the disassembler writes, in figures: every operand from its bytes, and every label from the branches to it. */
module DisassemblyLaws {
  import opened Bytes
  import opened Disassembly
  import opened DisassemblyRoundTrip

  /** Where the operands from the i-th on begin: each takes a byte, and a 16-bit one two. */
  lemma {:induction false} OperandAt(args: seq<Arg>, op: byte, next: nat, bytes: seq<byte>, off: nat, labeled: set<int>, i: nat)
    requires off + Sizes(args) <= |bytes| && i < |args|
    ensures var k := off + i + multiset(args[..i])[Label16];
            && k + ArgSize(args[i]) <= |bytes|
            && OperandsOf(args, op, next, bytes, off, labeled)[i] == OperandOf(args[i], op, next, bytes, k, labeled)
            && (IsTarget(args[i]) ==> TargetOf(args[i], op, next, bytes, k) in TargetsOf(args, op, next, bytes, off))
    decreases i
  {
    hide OperandOf, TargetOf, IsTarget;
    if i > 0 {
      OperandAt(args[1..], op, next, bytes, off + ArgSize(args[0]), labeled, i - 1);
      assert args[..i] == [args[0]] + args[1..][..i - 1];
    } else {
      assert args[..0] == [];
    }
  }

  /** And no other target is there. */
  lemma {:induction false} TargetComesFrom(args: seq<Arg>, op: byte, next: nat, bytes: seq<byte>, off: nat, t: int)
    returns (i: nat)
    requires off + Sizes(args) <= |bytes| && t in TargetsOf(args, op, next, bytes, off)
    ensures i < |args| && IsTarget(args[i])
    ensures var k := off + i + multiset(args[..i])[Label16];
            k + ArgSize(args[i]) <= |bytes| && t == TargetOf(args[i], op, next, bytes, k)
    decreases |args|
  {
    hide TargetOf, IsTarget;
    if IsTarget(args[0]) && t == TargetOf(args[0], op, next, bytes, off) {
      i := 0;
      assert args[..0] == [];
    } else {
      var j := TargetComesFrom(args[1..], op, next, bytes, off + ArgSize(args[0]), t);
      i := j + 1;
      assert args[..i] == [args[0]] + args[1..][..j];
    }
  }

  /** The i-th operand of the instruction at pc as it is written; k is the place of its first byte. */
  lemma OperandInFigures(table: Table, data: seq<byte>, org: nat, pc: nat, labeled: set<int>, i: nat, k: nat)
    requires WellFormed(table) && pc < |data| && data[pc] in table && pc + table[data[pc]].length <= |data|
    requires i < |table[data[pc]].args| && k == pc + 1 + i + multiset(table[data[pc]].args[..i])[Label16]
    ensures k < |data| && (table[data[pc]].args[i] == Label16 ==> k + 1 < |data|)
    ensures var ins, line, next := table[data[pc]], LineAt(table, data, org, pc, labeled), org + pc + table[data[pc]].length;
            && line.Code? && line.mnemonic == ins.mnemonic && |line.operands| == |ins.args|
            && line.operands[i] ==
               match ins.args[i]
               case Imm => Num(data[k])
               case Data => Num(data[k])
               case BitAddr => Num(data[k])
               case Rel => (var t := if data[k] < 128 then next + data[k] as int else next + data[k] as int - 256;
                            if t in labeled then Ref(t) else Num(t))
               case Label16 => Num(data[k] as int * 256 + data[k + 1])
               case Addr11 => Num(next / 2048 % 32 * 2048 + data[pc] as int / 32 * 256 + data[k])
  {
    var ins := table[data[pc]];
    var bytes := data[pc + 1..pc + ins.length];
    TableHonest(table, data[pc]);
    hide WellFormed, OperandsOf, TargetsOf, Sizes, OperandOf, TargetOf, IsTarget;
    OperandAt(ins.args, data[pc], org + pc + ins.length, bytes, 0, labeled, i);
    assert bytes[k - pc - 1] == data[k];
    assert ins.args[i] == Label16 ==> bytes[k - pc] == data[k + 1];
    WrittenAs(ins.args[i], data[pc], org + pc + ins.length, bytes, k - pc - 1, labeled);
  }

  lemma WrittenAs(a: Arg, op: byte, next: nat, bytes: seq<byte>, k: nat, labeled: set<int>)
    requires k + ArgSize(a) <= |bytes|
    ensures OperandOf(a, op, next, bytes, k, labeled) ==
            match a
            case Imm => Num(bytes[k])
            case Data => Num(bytes[k])
            case BitAddr => Num(bytes[k])
            case Rel => (var t := if bytes[k] < 128 then next + bytes[k] as int else next + bytes[k] as int - 256;
                         if t in labeled then Ref(t) else Num(t))
            case Label16 => Num(bytes[k] as int * 256 + bytes[k + 1])
            case Addr11 => Num(next / 2048 % 32 * 2048 + op as int / 32 * 256 + bytes[k])
  {
  }

  /** The instruction at pc branches to t: relative to its end, to a 16-bit address, or within the 2K page of its end. */
  ghost predicate Branches(table: Table, data: seq<byte>, org: nat, pc: nat, t: int) {
    && pc < |data| && data[pc] in table
    && exists i :: 0 <= i < |table[data[pc]].args| && BranchesAs(table, data, org, pc, i, t)
  }

  ghost predicate BranchesAs(table: Table, data: seq<byte>, org: nat, pc: nat, i: nat, t: int)
    requires pc < |data| && data[pc] in table && i < |table[data[pc]].args|
  {
    var ins, k, next := table[data[pc]], pc + 1 + i + multiset(table[data[pc]].args[..i])[Label16],
                        org + pc + table[data[pc]].length;
    && k < |data|
    && match ins.args[i]
       case Rel => t == if data[k] < 128 then next + data[k] as int else next + data[k] as int - 256
       case Label16 => k + 1 < |data| && t == data[k] as int * 256 + data[k + 1]
       case Addr11 => t == next / 2048 % 32 * 2048 + data[pc] as int / 32 * 256 + data[k]
       case _ => false
  }

  lemma BranchIs(table: Table, data: seq<byte>, org: nat, pc: nat, i: nat, t: int)
    requires WellFormed(table) && pc < |data| && data[pc] in table && pc + table[data[pc]].length <= |data|
    requires i < |table[data[pc]].args|
    ensures var args, off := table[data[pc]].args, i + multiset(table[data[pc]].args[..i])[Label16];
            var bytes, next := data[pc + 1..pc + table[data[pc]].length], org + pc + table[data[pc]].length;
            && off + ArgSize(args[i]) <= |bytes|
            && (BranchesAs(table, data, org, pc, i, t) <==>
                  IsTarget(args[i]) && t == TargetOf(args[i], data[pc], next, bytes, off))
  {
    var ins := table[data[pc]];
    var bytes := data[pc + 1..pc + ins.length];
    OperandAt(ins.args, data[pc], org + pc + ins.length, bytes, 0, {}, i);
    var k := i + multiset(ins.args[..i])[Label16];
    assert bytes[k] == data[pc + 1 + k];
    hide WellFormed, OperandsOf, TargetsOf, Sizes;
  }

  lemma BranchesIff(table: Table, data: seq<byte>, org: nat, pc: nat, t: int)
    requires WellFormed(table) && pc < |data| && pc + Size(table, data[pc]) <= |data|
    ensures t in AllTargetsAt(table, data, org, pc) <==> Branches(table, data, org, pc, t)
  {
    hide TargetsOf, TargetOf, BranchesAs, WellFormed;
    if data[pc] in table {
      TableHonest(table, data[pc]);
      var ins := table[data[pc]];
      var bytes := data[pc + 1..pc + ins.length];
      if t in AllTargetsAt(table, data, org, pc) {
        var i := TargetComesFrom(ins.args, data[pc], org + pc + ins.length, bytes, 0, t);
        BranchIs(table, data, org, pc, i, t);
      }
      if Branches(table, data, org, pc, t) {
        var i :| 0 <= i < |ins.args| && BranchesAs(table, data, org, pc, i, t);
        BranchIs(table, data, org, pc, i, t);
        OperandAt(ins.args, data[pc], org + pc + ins.length, bytes, 0, {}, i);
      }
    }
  }

  lemma TableHonest(table: Table, op: byte)
    requires WellFormed(table) && op in table
    ensures table[op].length == 1 + Sizes(table[op].args)
  {
  }

  /** Decoding begins at the origin, and goes on after every instruction by its length: no other address is a boundary. */
  lemma {:induction false} BoundaryIff(table: Table, data: seq<byte>, org: nat, start: nat, b: int)
    requires WellFormed(table) && start <= |data| && EndsExactly(table, data, start)
    ensures b in BoundariesFrom(table, data, org, start) <==>
            && org + start <= b < org + |data|
            && (b == org + start
                || exists pc :: start <= pc < |data| && org + pc in BoundariesFrom(table, data, org, start)
                                && b == org + pc + if data[pc] in table then table[data[pc]].length else 1)
    decreases |data| - start
  {
    hide WellFormed, EndsExactly, BoundariesFrom;
    if start < |data| {
      var next := start + Size(table, data[start]);
      BoundariesStep(table, data, org, start);
      BoundaryIff(table, data, org, next, b);
      BoundariesAfter(table, data, org, next);
      if b == org + next {
        assert org + start in BoundariesFrom(table, data, org, start);
      }
    } else {
      NothingEmitted(table, data, org, {});
    }
  }

  lemma {:induction false} TargetIff(table: Table, data: seq<byte>, org: nat, start: nat, t: int)
    requires WellFormed(table) && start <= |data| && EndsExactly(table, data, start)
    ensures t in TargetsFrom(table, data, org, start) <==>
            && org <= t < org + |data|
            && exists pc :: start <= pc < |data| && org + pc in BoundariesFrom(table, data, org, start)
                            && Branches(table, data, org, pc, t)
    decreases |data| - start
  {
    hide WellFormed, EndsExactly, BoundariesFrom, TargetsFrom, TargetsAt, Branches;
    if start < |data| {
      var next := start + Size(table, data[start]);
      BoundariesStep(table, data, org, start);
      TargetsStep(table, data, org, start);
      TargetIff(table, data, org, next, t);
      BoundariesAfter(table, data, org, next);
      assert org + start in BoundariesFrom(table, data, org, start);
      BranchesIff(table, data, org, start, t);
      InRegionAt(table, data, org, start, t);
    } else {
      NothingEmitted(table, data, org, {});
    }
  }

  lemma InRegionAt(table: Table, data: seq<byte>, org: nat, pc: nat, t: int)
    requires WellFormed(table) && pc < |data| && pc + Size(table, data[pc]) <= |data|
    ensures t in TargetsAt(table, data, org, pc) <==> t in AllTargetsAt(table, data, org, pc) && org <= t < org + |data|
  {
    hide TargetsOf, WellFormed;
  }

  /** An address gets a label exactly if decoding comes by it and an instruction that is decoded branches there. */
  lemma LabeledIff(table: Table, data: seq<byte>, org: nat, t: int)
    requires WellFormed(table) && EndsExactly(table, data, 0)
    ensures t in Labeled(table, data, org) <==>
            && t in BoundariesFrom(table, data, org, 0)
            && exists pc :: 0 <= pc < |data| && org + pc in BoundariesFrom(table, data, org, 0)
                            && Branches(table, data, org, pc, t)
  {
    TargetIff(table, data, org, 0, t);
    BoundaryIff(table, data, org, 0, t);
    hide WellFormed, EndsExactly, BoundariesFrom, TargetsFrom, Branches;
  }
}
