/**
 Programs whose only backward jumps are counted GOTOs come to an end whatever the inputs are,
 and a counted GOTO with limit n is taken (n - 1) mod 256 times between two fall-throughs.
*/
module ProgramTermination {
  import opened Bytes
  import opened ProgramLayout
  import opened InterpreterSpec
  import opened ProgramRuns

  /** An unconditional or input-dependent jump at slot k leads to a higher slot. */
  predicate ForwardSlot(mem: Memory, p: SramPage, k: nat)
    requires Fits(mem, p) && k < Slots(mem, p)
  {
    IsJump(Op(mem, p, k)) && !IsCounted(Op(mem, p, k)) ==> Target(mem, p, mem[Slot(p, k) + 1]) > Slot(p, k)
  }

  predicate OnlyCountedLoops(mem: Memory, p: SramPage)
    requires Fits(mem, p)
  {
    forall k :: 0 <= k < Slots(mem, p) && Boundary(mem, p, k) ==> ForwardSlot(mem, p, k)
  }

  /** How often the counted GOTO at slot k is still taken before it falls through. */
  function Remaining(mem: Memory, p: SramPage, k: nat): (r: nat)
    requires k < MAX_SLOTS
    ensures r < 256
  {
    Left(mem[Slot(p, k) + 3], mem[Slot(p, k) + 2])
  }

  /** How far a counter is from the value with which its limit is met at the next turn. */
  function Left(counter: byte, limit: byte): (r: nat)
    ensures r < 256
  {
    (limit as int + 255 - counter) % 256
  }

  /** The share of slot k in the measure: nothing once the program counter has passed it. */
  function Share(mem: Memory, p: SramPage, k: nat, at: nat): (r: nat)
    requires k < MAX_SLOTS
    ensures r < 256
  {
    if k < at || !IsCounted(Op(mem, p, k)) then 0 else Remaining(mem, p, k)
  }

  /** The shares of slots [k, n), read as the digits of a number with the highest slot first. */
  function Rank(mem: Memory, p: SramPage, k: nat, n: nat, at: nat): nat
    requires k <= n <= MAX_SLOTS
    decreases n - k
  {
    if k == n then 0 else Rank(mem, p, k + 1, n, at) * 256 + Share(mem, p, k, at)
  }

  function Weigh(r: nat, n: nat, x: nat): nat {
    ScaledGap(r, n + 1);
    r * (n + 1) + x
  }

  /** An upper bound on the number of instructions still to be executed. */
  function Measure(s: State, p: SramPage): nat
    requires Ready(s, p)
  {
    var n := Slots(s.mem, p);
    SlotOfBody(s.mem, p, s.pc);
    Weigh(Rank(s.mem, p, 0, n, SlotOf(s.pc, p)), n, n - SlotOf(s.pc, p))
  }

  /** Smaller digits everywhere make a smaller number. */
  lemma {:induction false} RankMonotone(m: Memory, m': Memory, p: SramPage, k: nat, n: nat, at: nat, at': nat)
    requires k <= n <= MAX_SLOTS
    requires forall j :: k <= j < n ==> Share(m', p, j, at') <= Share(m, p, j, at)
    ensures Rank(m', p, k, n, at') <= Rank(m, p, k, n, at)
    decreases n - k
  {
    if k < n {
      RankMonotone(m, m', p, k + 1, n, at, at');
    }
  }

  /** A smaller digit at slot g outweighs anything that happens below it. */
  lemma {:induction false} RankDrops(m: Memory, m': Memory, p: SramPage, k: nat, n: nat, at: nat, at': nat, g: nat)
    requires k <= g < n <= MAX_SLOTS
    requires Share(m', p, g, at') < Share(m, p, g, at)
    requires forall j :: g < j < n ==> Share(m', p, j, at') <= Share(m, p, j, at)
    ensures Rank(m', p, k, n, at') < Rank(m, p, k, n, at)
    decreases n - k
  {
    if k == g {
      RankMonotone(m, m', p, k + 1, n, at, at');
    } else {
      RankDrops(m, m', p, k + 1, n, at, at', g);
    }
  }

  lemma ScaledGap(d: nat, n: nat)
    ensures d * n >= 0
  {
  }

  lemma Weighed(r: nat, r': nat, n: nat, x: nat, x': nat)
    requires x <= n && x' <= n
    requires r' < r || (r' == r && x' < x)
    ensures Weigh(r', n, x') < Weigh(r, n, x)
  {
    if r' < r {
      ScaledGap(r - r' - 1, n + 1);
      assert r * (n + 1) == r' * (n + 1) + (r - r' - 1) * (n + 1) + (n + 1);
    }
  }

  /** Executing a taken counted GOTO uses up one of its remaining turns. */
  lemma TakenUsesOne(mem: Memory, p: SramPage, k: nat)
    requires k < MAX_SLOTS && IsCounted(Op(mem, p, k)) && !FallsThrough(mem, Slot(p, k))
    ensures Remaining(NextMem(mem, Slot(p, k)), p, k) == Remaining(mem, p, k) - 1
  {
  }

  /** The shares of slots other than the executed one do not move unless they are passed. */
  lemma OtherShares(s: State, p: SramPage, j: nat, at': nat)
    requires Ready(s, p) && j < Slots(s.mem, p) && j != SlotOf(s.pc, p)
    ensures Share(NextMem(s.mem, s.pc), p, j, at') == Share(s.mem, p, j, at')
  {
    SlotOfBody(s.mem, p, s.pc);
  }

  /** Every instruction executed before END makes the measure smaller. */
  lemma StepDescends(s: State, p: SramPage, p1: byte)
    requires Ready(s, p) && OnlyCountedLoops(s.mem, p) && !AtEnd(s, p)
    ensures Ready(Step(s, p, p1), p) && Measure(Step(s, p, p1), p) < Measure(s, p)
  {
    StepReady(s, p, p1);
    var s' := Step(s, p, p1);
    var n, k, k' := Slots(s.mem, p), SlotOf(s.pc, p), SlotOf(s'.pc, p);
    SlotOfBody(s.mem, p, s.pc);
    SlotOfBody(s'.mem, p, s'.pc);
    var r, r' := Rank(s.mem, p, 0, n, k), Rank(s'.mem, p, 0, n, k');
    forall j | k < j < n ensures Share(s'.mem, p, j, k') <= Share(s.mem, p, j, k) {
      OtherShares(s, p, j, k');
    }
    if k < k' {
      forall j | 0 <= j < n ensures Share(s'.mem, p, j, k') <= Share(s.mem, p, j, k) {}
      RankMonotone(s.mem, s'.mem, p, 0, n, k, k');
    } else {
      BackwardIsCounted(s, p, p1);
      TakenUsesOne(s.mem, p, k);
      assert Op(s'.mem, p, k) == Op(s.mem, p, k);
      RankDrops(s.mem, s'.mem, p, 0, n, k, k', k);
    }
    Weighed(r, r', n, n - k, n - k');
  }

  lemma BackwardIsCounted(s: State, p: SramPage, p1: byte)
    requires Ready(s, p) && OnlyCountedLoops(s.mem, p) && !AtEnd(s, p)
    requires NextPc(s.mem, p, s.pc, p1) <= s.pc
    ensures IsCounted(Op(s.mem, p, SlotOf(s.pc, p))) && !FallsThrough(s.mem, s.pc)
  {
    hide TableEntry, TableAgrees;
    var k := SlotOf(s.pc, p);
    SlotOfBody(s.mem, p, s.pc);
    assert Op(s.mem, p, k) < 0x80 && ForwardSlot(s.mem, p, k) && ShapedSlot(s.mem, p, k);
    if IsJump(Op(s.mem, p, k)) {
      JumpLands(s.mem, p, k);
    }
  }

  lemma OnlyCountedLoopsKept(mem: Memory, mem': Memory, p: SramPage)
    requires Runnable(mem, p) && OnlyCountedLoops(mem, p) && SameProgram(mem, mem', p)
    ensures Runnable(mem', p) && OnlyCountedLoops(mem', p)
  {
    SameProgramRuns(mem, mem', p);
    SameProgramSkeleton(mem, mem', p);
    forall k | 0 <= k < Slots(mem, p) && Boundary(mem', p, k) ensures ForwardSlot(mem', p, k) {
      BoundarySame(mem, mem', p, k);
      assert ForwardSlot(mem, p, k) && ShapedSlot(mem, p, k);
      assert Op(mem', p, k) == Op(mem, p, k) && mem'[Slot(p, k) + 1] == mem[Slot(p, k) + 1];
    }
  }

  /**
   A runnable program without uncounted backward jumps reaches END for every input sequence:
   any sequence as long as the measure of the starting state has brought it there.
  */
  lemma {:induction false} ReachesEnd(s: State, p: SramPage, inputs: seq<byte>)
    requires Ready(s, p) && OnlyCountedLoops(s.mem, p) && |inputs| >= Measure(s, p)
    ensures AtEnd(Run(s, p, inputs), p)
    decreases |inputs|
  {
    if AtEnd(s, p) {
      StaysAtEnd(s, p, inputs);
    } else {
      StepDescends(s, p, inputs[0]);
      var next := Step(s, p, inputs[0]);
      StepReady(s, p, inputs[0]);
      OnlyCountedLoopsKept(s.mem, next.mem, p);
      ReachesEnd(next, p, inputs[1..]);
    }
  }

  lemma {:induction false} StaysAtEnd(s: State, p: SramPage, inputs: seq<byte>)
    requires Ready(s, p) && AtEnd(s, p)
    ensures Run(s, p, inputs) == s
    decreases |inputs|
  {
    if inputs != [] {
      assert s.mem[s.pc] == END;
      StepReady(s, p, inputs[0]);
      StaysAtEnd(s, p, inputs[1..]);
    }
  }

  function Limit(mem: Memory, p: SramPage, g: nat): byte
    requires g < MAX_SLOTS
  {
    mem[Slot(p, g) + 2]
  }

  function Counter(mem: Memory, p: SramPage, g: nat): byte
    requires g < MAX_SLOTS
  {
    mem[Slot(p, g) + 3]
  }

  /** What the limit byte asks for: the number of jumps, (limit - 1) mod 256. */
  function JumpsAsked(limit: byte): byte { (limit + 255) as int % 256 }

  /** How often a counted GOTO has been taken since it last fell through, or since the beginning if it has not. */
  datatype Tally = Tally(taken: nat, fell: bool)

  function Tallied(s: State, p: SramPage, g: nat, t: Tally): Tally
    requires s.pc < 0xFF00 && g < MAX_SLOTS
  {
    if s.pc != Slot(p, g) then t else if FallsThrough(s.mem, s.pc) then Tally(0, true) else t.(taken := t.taken + 1)
  }

  /** The tally of the GOTO at slot g after a run, if it was t before. */
  function TallyOf(s: State, p: SramPage, inputs: seq<byte>, g: nat, t: Tally): Tally
    requires Ready(s, p) && g < MAX_SLOTS
    decreases |inputs|
  {
    if inputs == [] then t
    else
      StepReady(s, p, inputs[0]);
      TallyOf(Step(s, p, inputs[0]), p, inputs[1..], g, Tallied(s, p, g, t))
  }

  /** Executing the GOTO falls through exactly when the counter has reached the number of turns. */
  lemma FallsThroughIff(mem: Memory, p: SramPage, g: nat)
    requires g < MAX_SLOTS
    ensures FallsThrough(mem, Slot(p, g)) <==> Counter(mem, p, g) == JumpsAsked(Limit(mem, p, g))
  {
  }

  /** One instruction counts a taken jump of g, resets a fallen-through one, and touches no other counter. */
  lemma StepCounts(s: State, p: SramPage, p1: byte, g: nat)
    requires Ready(s, p) && g < Slots(s.mem, p) && IsCounted(Op(s.mem, p, g))
    ensures s.pc < 0xFF00
    ensures var mem' := Step(s, p, p1).mem;
            && Limit(mem', p, g) == Limit(s.mem, p, g)
            && Op(mem', p, g) == Op(s.mem, p, g)
            && Counter(mem', p, g) ==
               if s.pc != Slot(p, g) then Counter(s.mem, p, g)
               else if FallsThrough(s.mem, s.pc) then 0 else Inc(Counter(s.mem, p, g))
  {
    ReadyExecutes(s, p);
    SlotOfBody(s.mem, p, s.pc);
    NextMemAt(s.mem, s.pc, Slot(p, g));
    NextMemAt(s.mem, s.pc, Slot(p, g) + 2);
    NextMemAt(s.mem, s.pc, Slot(p, g) + 3);
    hide NextMem, FallsThrough, IsCounted, Runnable, Inc;
  }

  lemma NextMemAt(mem: Memory, pc: word, a: word)
    requires pc < 0xFF00
    ensures NextMem(mem, pc)[a] == if IsCounted(mem[pc]) && a == pc + 3 then (if FallsThrough(mem, pc) then 0 else Inc(mem[a]))
                                   else mem[a]
  {
  }

  /** A counter that holds what its tally says: count and the jumps taken, modulo 256, or those alone after a fall-through. */
  predicate Counts(counter: byte, count: byte, t: Tally) {
    counter == if t.fell then t.taken else (count + t.taken) % 256
  }

  /** The jumps taken and those left are as many as were left at first, or as the limit asks for after a fall-through. */
  predicate AddsUp(counter: byte, limit: byte, first: nat, t: Tally) {
    Left(counter, limit) + t.taken == if t.fell then JumpsAsked(limit) else first
  }

  lemma Turn(counter: byte, limit: byte)
    ensures Inc(counter) == limit <==> Left(counter, limit) == 0
    ensures Left(counter, limit) > 0 ==> Left(Inc(counter), limit) == Left(counter, limit) - 1
    ensures Left(0, limit) == JumpsAsked(limit)
  {
  }

  lemma NextCount(count: byte, n: nat)
    ensures Inc((count + n) % 256) == (count + (n + 1)) % 256
  {
  }

  /** A turn keeps both. */
  lemma TurnTallied(counter: byte, limit: byte, count: byte, first: nat, t: Tally)
    requires Counts(counter, count, t) && AddsUp(counter, limit, first, t)
    ensures Inc(counter) == limit ==> Counts(0, count, Tally(0, true)) && AddsUp(0, limit, first, Tally(0, true))
    ensures Inc(counter) != limit ==>
              && Counts(Inc(counter), count, t.(taken := t.taken + 1))
              && AddsUp(Inc(counter), limit, first, t.(taken := t.taken + 1))
  {
    Turn(counter, limit);
    NextCount(count, t.taken);
    assert t.fell ==> t.taken < 256;
    hide Left;
  }

  lemma StepTallies(s: State, p: SramPage, p1: byte, g: nat, count: byte, first: nat, t: Tally)
    requires Ready(s, p) && s.pc < 0xFF00 && g < Slots(s.mem, p) < MAX_SLOTS && IsCounted(Op(s.mem, p, g))
    requires Counts(Counter(s.mem, p, g), count, t) && AddsUp(Counter(s.mem, p, g), Limit(s.mem, p, g), first, t)
    ensures var mem', t' := Step(s, p, p1).mem, Tallied(s, p, g, t);
            Counts(Counter(mem', p, g), count, t') && AddsUp(Counter(mem', p, g), Limit(mem', p, g), first, t')
  {
    hide Ready, Step, FallsThrough, Counter, Limit, Counts, AddsUp, IsCounted, Inc;
    StepCounts(s, p, p1, g);
    MeetsLimit(s.mem, p, g);
    TurnTallied(Counter(s.mem, p, g), Limit(s.mem, p, g), count, first, t);
  }

  lemma MeetsLimit(mem: Memory, p: SramPage, g: nat)
    requires g < MAX_SLOTS
    ensures FallsThrough(mem, Slot(p, g)) <==> Inc(Counter(mem, p, g)) == Limit(mem, p, g)
  {
  }

  /**
   The loop counter counts: in every run, from any counter and any limit, it has gone up by one
   modulo 256 for every jump taken since the last fall-through, and the GOTO falls through once it
   has been taken as often as its counter still allowed, and from then on (limit - 1) mod 256 times.
  */
  lemma CounterCounts(s: State, p: SramPage, inputs: seq<byte>, g: nat)
    requires Ready(s, p) && g < Slots(s.mem, p) && IsCounted(Op(s.mem, p, g))
    ensures var end := Run(s, p, inputs);
            var t := TallyOf(s, p, inputs, g, Tally(0, false));
            var turns := if t.fell then JumpsAsked(Limit(s.mem, p, g)) else Remaining(s.mem, p, g);
            && Limit(end.mem, p, g) == Limit(s.mem, p, g)
            && Counter(end.mem, p, g) == (if t.fell then t.taken else (Counter(s.mem, p, g) + t.taken) % 256)
            && t.taken <= turns && (FallsThrough(end.mem, Slot(p, g)) <==> t.taken == turns)
            && (FallsThrough(end.mem, Slot(p, g)) ==> Counter(NextMem(end.mem, Slot(p, g)), p, g) == 0)
  {
    ReadySlots(s, p);
    assert Remaining(s.mem, p, g) == Left(Counter(s.mem, p, g), Limit(s.mem, p, g));
    assert Counts(Counter(s.mem, p, g), Counter(s.mem, p, g), Tally(0, false));
    RunTallies(s, p, inputs, g, Counter(s.mem, p, g), Remaining(s.mem, p, g), Tally(0, false));
    var end, t := Run(s, p, inputs), TallyOf(s, p, inputs, g, Tally(0, false));
    EndTurns(Counter(end.mem, p, g), Limit(end.mem, p, g), Counter(s.mem, p, g), Remaining(s.mem, p, g), t);
    MeetsLimit(end.mem, p, g);
    FallResets(end.mem, p, g);
    hide *;
  }

  /** So a counter's limit is met at the next turn exactly when all the jumps there were to be have been taken. */
  lemma EndTurns(counter: byte, limit: byte, count: byte, first: nat, t: Tally)
    requires Counts(counter, count, t) && AddsUp(counter, limit, first, t)
    ensures var turns := if t.fell then JumpsAsked(limit) else first;
            t.taken <= turns && (Inc(counter) == limit <==> t.taken == turns)
    ensures counter == if t.fell then t.taken else (count + t.taken) % 256
  {
    Turn(counter, limit);
    hide Left, JumpsAsked, Inc;
  }

  lemma FallResets(mem: Memory, p: SramPage, g: nat)
    requires g < MAX_SLOTS && IsCounted(Op(mem, p, g))
    ensures FallsThrough(mem, Slot(p, g)) ==> Counter(NextMem(mem, Slot(p, g)), p, g) == 0
  {
  }

  lemma ReadySlots(s: State, p: SramPage)
    requires Ready(s, p)
    ensures Slots(s.mem, p) < MAX_SLOTS
  {
  }

  lemma {:induction false} RunTallies(s: State, p: SramPage, inputs: seq<byte>, g: nat, count: byte, first: nat, t: Tally)
    requires Ready(s, p) && g < Slots(s.mem, p) < MAX_SLOTS && IsCounted(Op(s.mem, p, g))
    requires Counts(Counter(s.mem, p, g), count, t) && AddsUp(Counter(s.mem, p, g), Limit(s.mem, p, g), first, t)
    ensures var end, t' := Run(s, p, inputs), TallyOf(s, p, inputs, g, t);
            && Limit(end.mem, p, g) == Limit(s.mem, p, g) && Op(end.mem, p, g) == Op(s.mem, p, g)
            && Counts(Counter(end.mem, p, g), count, t') && AddsUp(Counter(end.mem, p, g), Limit(end.mem, p, g), first, t')
    decreases |inputs|
  {
    hide Counts, AddsUp, Tallied, IsCounted, Ready, Step;
    if inputs != [] {
      StepReady(s, p, inputs[0]);
      ReadySlots(Step(s, p, inputs[0]), p);
      StepCounts(s, p, inputs[0], g);
      StepTallies(s, p, inputs[0], g, count, first, t);
      RunTallies(Step(s, p, inputs[0]), p, inputs[1..], g, count, first, Tallied(s, p, g, t));
    }
  }
}
