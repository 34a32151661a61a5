/**
 * Day 11, the monkeys as the source keeps them: `Monkey` objects whose methods change their own
 * items, residue vectors and inspection counter, and round loops that move items between them.
 * Each method is proved against the state functions of module Day11.
 */
module Day11Troop {
  import opened Wrappers
  import opened Day11

  class Monkey {
    var id: nat
    var items: seq<nat>
    var modItems: seq<seq<nat>>
    var op: Operation
    var divisor: nat
    var trueTo: nat
    var falseTo: nat
    var inspectCounter: nat

    function State(): MonkeyState
      reads this
    {
      MonkeyState(id, items, modItems, op, divisor, trueTo, falseTo, inspectCounter)
    }

    /** A monkey with the given fields (the deep copy `clone` makes). */
    constructor FromState(s: MonkeyState)
      ensures State() == s
    {
      id, items, modItems, op := s.id, s.items, s.modItems, s.op;
      divisor, trueTo, falseTo, inspectCounter := s.divisor, s.trueTo, s.falseTo, s.counter;
    }

    /** `add_item`: the item joins the end of the list. */
    method AddItem(worry: nat)
      modifies this
      ensures State() == old(State()).(items := old(items) + [worry])
    {
      items := items + [worry];
    }

    /** `add_mod_item`. */
    method AddModItem(residues: seq<nat>)
      modifies this
      ensures State() == old(State()).(modItems := old(modItems) + [residues])
    {
      modItems := modItems + [residues];
    }

    /** `inspect`: the throws of every item, the counter raised, the item list cleared. */
    method Inspect(worryDivisor: nat) returns (r: Result<seq<Throw>>)
      requires worryDivisor > 0
      modifies this
      ensures r == Inspected(old(State()), worryDivisor)
      ensures r.Ok? ==> State() == AfterInspect(old(State()))
    {
      var result: seq<Throw> := [];
      for i := 0 to |items|
        invariant State() == old(State())
        invariant |result| == i && (i > 0 ==> divisor > 0)
        invariant forall j :: 0 <= j < i ==> result[j] == Route(State(), BinOp(op, items[j]) / worryDivisor)
      {
        if divisor == 0 {
          return Panic(RemainderByZero);
        }
        var newW := BinOp(op, items[i]) / worryDivisor;
        if newW % divisor == 0 {
          result := result + [Throw(trueTo, newW)];
        } else {
          result := result + [Throw(falseTo, newW)];
        }
      }
      assert items == [] || result == Inspected(State(), worryDivisor).value;
      inspectCounter := inspectCounter + |items|;
      items := [];
      return Ok(result);
    }

    /** `initialize_mods`: the residues of every item modulo every divisor. */
    method InitializeMods(divisors: seq<nat>) returns (r: Result<()>)
      modifies this
      ensures r.Panic? <==> InitMods(old(State()), divisors).Panic?
      ensures r.Panic? ==> r.msg == InitMods(old(State()), divisors).msg
      ensures r.Ok? ==> State() == InitMods(old(State()), divisors).value
    {
      if items == [] {
        modItems := [];
        return Ok(());
      }
      for i := 0 to |divisors|
        invariant State() == old(State())
        invariant forall j :: 0 <= j < i ==> divisors[j] > 0
      {
        if divisors[i] == 0 {
          return Panic(RemainderByZero);
        }
      }
      var its := items;
      modItems := seq(|its|, k requires 0 <= k < |its| => Residues(its[k], divisors));
      return Ok(());
    }

    /** `inspect_mods`: every residue vector reduced and routed, the vectors drained. */
    method InspectMods(divisors: seq<nat>) returns (r: Result<seq<ModThrow>>)
      modifies this
      ensures r == ModThrows(old(State()), divisors, |old(modItems)|)
      ensures r.Ok? ==> State() == AfterInspectMods(old(State()))
    {
      var result: seq<ModThrow> := [];
      for i := 0 to |modItems|
        invariant State() == old(State())
        invariant ModThrows(State(), divisors, i) == Ok(result)
      {
        var m := Reduce(op, modItems[i], divisors);
        ModThrowsStep(State(), divisors, i, result, m);
        if m.Panic? || id >= |m.value| {
          return if m.Panic? then Panic(m.msg) else Panic(OutOfBounds);
        }
        if m.value[id] == 0 {
          result := result + [ModThrow(trueTo, m.value)];
        } else {
          result := result + [ModThrow(falseTo, m.value)];
        }
      }
      inspectCounter := inspectCounter + |result|;
      modItems := [];
      return Ok(result);
    }
  }

  /** Throw i of `inspect_mods`, given the reduction of residue vector i: a panic ends them all. */
  lemma ModThrowsStep(s: MonkeyState, divisors: seq<nat>, i: nat, done: seq<ModThrow>, m: Result<seq<nat>>)
    requires i < |s.modItems| && ModThrows(s, divisors, i) == Ok(done)
    requires m == Reduced(s.op, s.modItems[i], divisors, |s.modItems[i]|)
    ensures m.Panic? ==> ModThrows(s, divisors, |s.modItems|) == Panic(m.msg)
    ensures m.Ok? && s.id >= |m.value| ==> ModThrows(s, divisors, |s.modItems|) == Panic(OutOfBounds)
    ensures m.Ok? && s.id < |m.value| ==>
      ModThrows(s, divisors, i + 1) == Ok(done + [ModThrow(if m.value[s.id] == 0 then s.trueTo else s.falseTo, m.value)])
  {
    if m.Panic? || s.id >= |m.value| {
      ModThrowsPanic(s, divisors, i + 1, |s.modItems|);
    }
  }

  /** `Monkey::new`: a monkey may not throw to itself. */
  method NewMonkey(id: nat, items: seq<nat>, op: Operation, divisor: nat, trueTo: nat, falseTo: nat)
    returns (r: Result<Monkey>)
    ensures r.Panic? <==> trueTo == id || falseTo == id
    ensures r.Ok? ==> fresh(r.value) && r.value.State() == MonkeyState(id, items, [], op, divisor, trueTo, falseTo, 0)
  {
    if trueTo == id || falseTo == id {
      return Panic("Targets are expected to be different than source");
    }
    var m := new Monkey.FromState(MonkeyState(id, items, [], op, divisor, trueTo, falseTo, 0));
    return Ok(m);
  }

  /** One residue vector through `inspect_mods`' in-place update: entry i becomes op(w_i) mod d_i. */
  method Reduce(op: Operation, m: seq<nat>, divisors: seq<nat>) returns (r: Result<seq<nat>>)
    ensures r == Reduced(op, m, divisors, |m|)
  {
    var w := m;
    for i := 0 to |m|
      invariant |w| == |m| && Reduced(op, m, divisors, i) == Ok(w[..i]) && w[i..] == m[i..]
    {
      if i >= |divisors| {
        ReducedPanic(op, m, divisors, i + 1, |m|);
        return Panic(OutOfBounds);
      }
      if divisors[i] == 0 {
        ReducedPanic(op, m, divisors, i + 1, |m|);
        return Panic(RemainderByZero);
      }
      assert w[i] == m[i] by { assert w[i..][0] == m[i..][0]; }
      w := w[i := BinOp(op, w[i]) % divisors[i]];
      assert w[..i + 1] == w[..i] + [w[i]];
    }
    assert w[..|m|] == w;
    return Ok(w);
  }

  // ------------------------------------------------------------------
  // the troop
  // ------------------------------------------------------------------

  predicate Distinct(ms: seq<Monkey>)
  {
    forall i, j :: 0 <= i < j < |ms| ==> ms[i] != ms[j]
  }

  function States(ms: seq<Monkey>): (r: seq<MonkeyState>)
    reads ms
    ensures |r| == |ms| && forall i {:trigger r[i]} :: 0 <= i < |ms| ==> r[i] == ms[i].State()
  {
    seq(|ms|, i requires 0 <= i < |ms| reads ms => ms[i].State())
  }

  /** The source clones the monkeys before a part: fresh objects with the same fields. */
  method CloneAll(monkeys: seq<Monkey>) returns (ms: seq<Monkey>)
    ensures Distinct(ms) && States(ms) == States(monkeys)
    ensures forall i :: 0 <= i < |ms| ==> fresh(ms[i])
  {
    ms := [];
    for i := 0 to |monkeys|
      invariant |ms| == i && Distinct(ms) && forall j :: 0 <= j < i ==> fresh(ms[j])
      invariant forall j :: 0 <= j < i ==> ms[j].State() == monkeys[j].State()
    {
      var m := new Monkey.FromState(monkeys[i].State());
      ms := ms + [m];
    }
  }

  /** `monkeys[to].add_item(worry)`: only the target changes. */
  method Give(ms: seq<Monkey>, to: nat, worry: nat)
    requires Distinct(ms) && to < |ms|
    modifies ms[to]
    ensures States(ms) == old(States(ms))[to := old(States(ms))[to].(items := old(States(ms))[to].items + [worry])]
  {
    ms[to].AddItem(worry);
  }

  method GiveMod(ms: seq<Monkey>, to: nat, residues: seq<nat>)
    requires Distinct(ms) && to < |ms|
    modifies ms[to]
    ensures States(ms) == old(States(ms))[to := old(States(ms))[to].(modItems := old(States(ms))[to].modItems + [residues])]
  {
    ms[to].AddModItem(residues);
  }

  /** The delivery loop of a part 1 turn: each throw, in order, added to its target. */
  method Deliver(ms: seq<Monkey>, ts: seq<Throw>, k: nat) returns (r: Result<seq<MonkeyState>>)
    requires Distinct(ms)
    modifies ms
    ensures r == Delivered(old(States(ms)), ts, k, |ts|)
    ensures r.Ok? ==> States(ms) == r.value
  {
    ghost var start := States(ms);
    for j := 0 to |ts|
      invariant Delivered(start, ts, k, j) == Ok(States(ms))
    {
      var t := ts[j];
      if t.to >= |ms| || t.to == k {
        DeliveredPanic(start, ts, k, j + 1, |ts|);
        return if t.to >= |ms| then Panic(OutOfBounds) else Panic(AlreadyBorrowed);
      }
      Give(ms, t.to, t.worry);
    }
    return Ok(States(ms));
  }

  method DeliverMod(ms: seq<Monkey>, ts: seq<ModThrow>, k: nat) returns (r: Result<seq<MonkeyState>>)
    requires Distinct(ms)
    modifies ms
    ensures r == ModDelivered(old(States(ms)), ts, k, |ts|)
    ensures r.Ok? ==> States(ms) == r.value
  {
    ghost var start := States(ms);
    for j := 0 to |ts|
      invariant ModDelivered(start, ts, k, j) == Ok(States(ms))
    {
      var t := ts[j];
      if t.to >= |ms| || t.to == k {
        ModDeliveredPanic(start, ts, k, j + 1, |ts|);
        return if t.to >= |ms| then Panic(OutOfBounds) else Panic(AlreadyBorrowed);
      }
      GiveMod(ms, t.to, t.residues);
    }
    return Ok(States(ms));
  }

  /** Monkey k's turn in part 1: it inspects, then its throws are delivered. */
  method RunTurn(ms: seq<Monkey>, k: nat, worryDivisor: nat) returns (r: Result<seq<MonkeyState>>)
    requires Distinct(ms) && k < |ms| && worryDivisor > 0
    modifies ms
    ensures r == Turn(old(States(ms)), k, worryDivisor)
    ensures r.Ok? ==> States(ms) == r.value
  {
    ghost var before := States(ms);
    var throws := ms[k].Inspect(worryDivisor);
    if throws.Panic? {
      return Panic(throws.msg);
    }
    assert States(ms) == before[k := AfterInspect(before[k])];
    r := Deliver(ms, throws.value, k);
  }

  /** Monkey k's turn in part 2: it reduces and routes its residue vectors, then delivers them. */
  method RunModTurn(ms: seq<Monkey>, k: nat, divisors: seq<nat>) returns (r: Result<seq<MonkeyState>>)
    requires Distinct(ms) && k < |ms|
    modifies ms
    ensures r == ModTurn(old(States(ms)), k, divisors)
    ensures r.Ok? ==> States(ms) == r.value
  {
    ghost var before := States(ms);
    var throws := ms[k].InspectMods(divisors);
    if throws.Panic? {
      return Panic(throws.msg);
    }
    assert States(ms) == before[k := AfterInspectMods(before[k])];
    r := DeliverMod(ms, throws.value, k);
  }

  /** One round of part 1: every monkey's turn, in order. */
  method RunRound(ms: seq<Monkey>, worryDivisor: nat) returns (r: Result<seq<MonkeyState>>)
    requires Distinct(ms) && worryDivisor > 0
    modifies ms
    ensures r == Round(old(States(ms)), worryDivisor, |ms|)
    ensures r.Ok? ==> States(ms) == r.value
  {
    ghost var start := States(ms);
    for k := 0 to |ms|
      invariant Round(start, worryDivisor, k) == Ok(States(ms))
    {
      RoundStep(start, worryDivisor, k, States(ms));
      var turn := RunTurn(ms, k, worryDivisor);
      if turn.Panic? {
        return Panic(turn.msg);
      }
    }
    return Ok(States(ms));
  }

  method RunModRound(ms: seq<Monkey>, divisors: seq<nat>) returns (r: Result<seq<MonkeyState>>)
    requires Distinct(ms)
    modifies ms
    ensures r == ModRound(old(States(ms)), divisors, |ms|)
    ensures r.Ok? ==> States(ms) == r.value
  {
    ghost var start := States(ms);
    for k := 0 to |ms|
      invariant ModRound(start, divisors, k) == Ok(States(ms))
    {
      ghost var cur := States(ms);
      ModRoundStep(start, divisors, k, cur);
      var turn := RunModTurn(ms, k, divisors);
      assert turn == ModTurn(cur, k, divisors);
      if turn.Panic? {
        return Panic(turn.msg);
      }
    }
    return Ok(States(ms));
  }

  /** `initialize_mods` on every monkey, in order. */
  method InitializeAll(ms: seq<Monkey>, divisors: seq<nat>) returns (r: Result<seq<MonkeyState>>)
    requires Distinct(ms)
    modifies ms
    ensures r == InitAll(old(States(ms)), divisors, |ms|)
    ensures r.Ok? ==> States(ms) == r.value
  {
    ghost var st0 := States(ms);
    for k := 0 to |ms|
      invariant InitAll(st0, divisors, k) == Ok(States(ms))
    {
      ghost var cur := States(ms);
      var init := ms[k].InitializeMods(divisors);
      if init.Panic? {
        InitAllPanic(st0, divisors, k + 1, |st0|);
        return Panic(init.msg);
      }
      assert States(ms) == cur[k := InitMods(cur[k], divisors).value];
    }
    return Ok(States(ms));
  }

  /** Sort the counters and multiply the two largest. */
  method MonkeyBusiness(counts: seq<nat>) returns (r: Result<nat>)
    ensures r == Business(counts)
  {
    var sorted := SortCounts(counts);
    if |sorted| == 0 {
      return Panic(NoneUnwrapped);
    }
    if |sorted| < 2 {
      return Panic("attempt to subtract with overflow");
    }
    BusinessOfSorted(counts, sorted);
    return Ok(sorted[|sorted| - 1] * sorted[|sorted| - 2]);
  }

  /** n rounds of part 1 in a row. */
  method RunRounds(ms: seq<Monkey>, worryDivisor: nat, n: nat) returns (r: Result<seq<MonkeyState>>)
    requires Distinct(ms) && worryDivisor > 0
    modifies ms
    ensures r == Rounds(old(States(ms)), worryDivisor, n)
    ensures r.Ok? ==> States(ms) == r.value
  {
    ghost var st0 := States(ms);
    for round := 0 to n
      invariant Rounds(st0, worryDivisor, round) == Ok(States(ms))
    {
      var next := RunRound(ms, worryDivisor);
      if next.Panic? {
        RoundsPanic(st0, worryDivisor, round + 1, n);
        return Panic(next.msg);
      }
    }
    return Ok(States(ms));
  }

  /** n rounds of part 2 in a row. */
  method RunModRounds(ms: seq<Monkey>, divisors: seq<nat>, n: nat) returns (r: Result<seq<MonkeyState>>)
    requires Distinct(ms)
    modifies ms
    ensures r == ModRounds(old(States(ms)), divisors, n)
    ensures r.Ok? ==> States(ms) == r.value
  {
    ghost var st0 := States(ms);
    for round := 0 to n
      invariant ModRounds(st0, divisors, round) == Ok(States(ms))
    {
      var next := RunModRound(ms, divisors);
      if next.Panic? {
        ModRoundsPanic(st0, divisors, round + 1, n);
        return Panic(next.msg);
      }
    }
    return Ok(States(ms));
  }

  /** The inspection counters of all the monkeys, in order. */
  method InspectionCounts(ms: seq<Monkey>) returns (counts: seq<nat>)
    ensures counts == Counters(States(ms))
  {
    counts := seq(|ms|, i requires 0 <= i < |ms| reads ms => ms[i].inspectCounter);
  }

  /** The body of `part1` on monkeys it may change. */
  method Play1(ms: seq<Monkey>) returns (r: Result<nat>)
    requires Distinct(ms)
    modifies ms
    ensures r == Part1Spec(old(States(ms)))
  {
    var after := RunRounds(ms, WorryDivisor, 20);
    if after.Panic? {
      return Panic(after.msg);
    }
    var counts := InspectionCounts(ms);
    r := MonkeyBusiness(counts);
  }

  /** The body of `part2` on monkeys it may change. */
  method Play2(ms: seq<Monkey>) returns (r: Result<nat>)
    requires Distinct(ms)
    modifies ms
    ensures r == Part2Spec(old(States(ms)))
  {
    var divisors := seq(|ms|, i requires 0 <= i < |ms| reads ms => ms[i].divisor);
    assert divisors == Divisors(States(ms));
    var init := InitializeAll(ms, divisors);
    if init.Panic? {
      return Panic(init.msg);
    }
    var after := RunModRounds(ms, divisors, 10000);
    if after.Panic? {
      return Panic(after.msg);
    }
    var counts := InspectionCounts(ms);
    r := MonkeyBusiness(counts);
  }

  /** `part1`: twenty rounds on a copy of the monkeys, worry divided by 3 after each inspection. */
  method Part1(monkeys: seq<Monkey>) returns (r: Result<nat>)
    ensures r == Part1Spec(States(monkeys))
  {
    ghost var st0 := States(monkeys);
    var ms := CloneAll(monkeys);
    r := Play1(ms);
    assert States(monkeys) == st0;
  }

  /**
   * `part2`: residue vectors for every item, then ten thousand rounds on a copy of the monkeys, no
   * worry division.
   */
  method Part2(monkeys: seq<Monkey>) returns (r: Result<nat>)
    ensures r == Part2Spec(States(monkeys))
  {
    ghost var st0 := States(monkeys);
    var ms := CloneAll(monkeys);
    r := Play2(ms);
    assert States(monkeys) == st0;
  }
}
