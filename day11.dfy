/**
 * Day 11: monkeys pass items around, each changing the item's worry level by its operation and
 * throwing it to one of two monkeys by a divisibility test. Part 1 divides worry by 3 after each
 * inspection; part 2 keeps, for every item, only its residues modulo every monkey's divisor.
 *
 * This module holds the operations and the rounds as functions over monkey states; the `Monkey`
 * class and the round loops are in module Day11Troop.
 */
module Day11 {
  import opened Wrappers
  import opened Text
  import opened Arith

  const U32Max: nat := 0xffff_ffff
  const WorryDivisor: nat := 3

  const NoneUnwrapped := "called `Option::unwrap()` on a `None` value"
  const RemainderByZero := "attempt to calculate the remainder with a divisor of zero"
  const OutOfBounds := "index out of bounds"
  const AlreadyBorrowed := "already mutably borrowed"

  datatype Operation = Mul(n: nat) | Add(n: nat) | Pow(n: nat)

  function Power(b: nat, e: nat): nat
    decreases e
  {
    if e == 0 then 1 else b * Power(b, e - 1)
  }

  /** `Operation::bin_op`: the new worry level of an item. */
  function BinOp(op: Operation, w: nat): nat
  {
    match op
    case Mul(n) => w * n
    case Add(n) => w + n
    case Pow(n) => Power(w, n)
  }

  /**
   * `get_operation`: "old + old" doubles, "old * old" squares, "old + n" and "old * n" take a `u32`
   * operand; any other first word, operator or operand panics.
   */
  function GetOperation(input: string): (r: Result<Operation>)
    ensures r.Ok? ==> |SplitWhitespace(input)| >= 3 && SplitWhitespace(input)[0] == "old"
                      && SplitWhitespace(input)[1] in {"+", "*"}
  {
    var words := SplitWhitespace(input);
    if |words| == 0 || words[0] != "old" then Panic("Unexpected value for operation " + input)
    else if |words| < 3 then Panic(NoneUnwrapped)
    else if words[1] == "+" then
      if words[2] == "old" then Ok(Mul(2))
      else
        match ParseUnsigned(words[2], U32Max)
        case None => Panic("Expecting operand as number")
        case Some(n) => Ok(Add(n))
    else if words[1] == "*" then
      if words[2] == "old" then Ok(Pow(2))
      else
        match ParseUnsigned(words[2], U32Max)
        case None => Panic("Expecting operand as number")
        case Some(n) => Ok(Mul(n))
    else Panic("explicit panic")
  }

  /** The expression "old op operand" evaluated directly, the operand being "old" or a number. */
  function EvalExpr(words: seq<string>, w: nat): Option<nat>
    requires |words| >= 3
  {
    var operand := if words[2] == "old" then Some(w) else ParseUnsigned(words[2], U32Max);
    match operand
    case None => None
    case Some(v) =>
      if words[1] == "+" then Some(w + v) else if words[1] == "*" then Some(w * v) else None
  }

  /** The operation `get_operation` picks computes what its text says, for every worry level. */
  lemma OperationMeaning(input: string, w: nat)
    requires GetOperation(input).Ok?
    ensures EvalExpr(SplitWhitespace(input), w) == Some(BinOp(GetOperation(input).value, w))
  {
    var words := SplitWhitespace(input);
    if words[2] == "old" {
      assert Power(w, 2) == w * w;
    }
  }

  /** The residue of an operation's result depends only on the residue of its argument. */
  lemma BinOpMod(op: Operation, w: nat, d: nat)
    requires d > 0
    ensures BinOp(op, w) % d == BinOp(op, w % d) % d
  {
    var q, r := w / d, w % d;
    assert w == q * d + r;
    match op
    case Mul(n) =>
      calc {
        (w * n) % d;
        { assert w * n == (q * n) * d + r * n; }
        ((q * n) * d + r * n) % d;
        { ModMultiple(q * n, r * n, d); }
        (r * n) % d;
      }
    case Add(n) =>
      calc {
        (w + n) % d;
        { assert w + n == q * d + (r + n); }
        (q * d + (r + n)) % d;
        { ModMultiple(q, r + n, d); }
        (r + n) % d;
      }
    case Pow(n) => PowerMod(w, n, d);
  }

  lemma {:induction false} PowerMod(w: nat, n: nat, d: nat)
    requires d > 0
    ensures Power(w, n) % d == Power(w % d, n) % d
    decreases n
  {
    if n > 0 {
      PowerMod(w, n - 1, d);
      ModStep(w, Power(w, n - 1), w % d, Power(w % d, n - 1), d);
    }
  }

  /** One step of `PowerMod`: w·a and (w mod d)·b agree mod d when a and b do. */
  lemma ModStep(w: nat, a: nat, r: nat, b: nat, d: nat)
    requires d > 0 && r == w % d && a % d == b % d
    ensures (w * a) % d == (r * b) % d
  {
    MulMod(w, a, d);
    MulMod(r, b, d);
    ModOfInRange(r, d);
  }

  /** (a·b) mod d depends only on a mod d and b mod d. */
  lemma MulMod(a: nat, b: nat, d: nat)
    requires d > 0
    ensures (a * b) % d == ((a % d) * (b % d)) % d
  {
    var qa, ra := a / d, a % d;
    var qb, rb := b / d, b % d;
    assert a * b == (qa * b) * d + ra * b by {
      assert a == qa * d + ra;
    }
    ModMultiple(qa * b, ra * b, d);
    assert ra * b == (ra * qb) * d + ra * rb by {
      assert b == qb * d + rb;
    }
    ModMultiple(ra * qb, ra * rb, d);
  }

  // ------------------------------------------------------------------
  // monkey states
  // ------------------------------------------------------------------

  /** The fields of a `Monkey`. */
  datatype MonkeyState = MonkeyState(id: nat, items: seq<nat>, modItems: seq<seq<nat>>, op: Operation,
                                     divisor: nat, trueTo: nat, falseTo: nat, counter: nat)

  datatype Throw = Throw(to: nat, worry: nat)
  datatype ModThrow = ModThrow(to: nat, residues: seq<nat>)

  /** Where a monkey throws an item of worry w: `true_to` iff w is divisible by its divisor. */
  function Route(s: MonkeyState, w: nat): (t: Throw)
    requires s.divisor > 0
    ensures t.worry == w && (t.to == s.trueTo <==> w % s.divisor == 0 || s.trueTo == s.falseTo)
  {
    Throw(if w % s.divisor == 0 then s.trueTo else s.falseTo, w)
  }

  /**
   * `inspect`: every item, in order, gets its new worry level op(w) / wd and is routed; a zero
   * divisor panics as soon as there is an item to test.
   */
  function Inspected(s: MonkeyState, wd: nat): (r: Result<seq<Throw>>)
    requires wd > 0
    ensures r.Panic? <==> s.items != [] && s.divisor == 0
    ensures r.Ok? ==> |r.value| == |s.items|
  {
    if s.items == [] then Ok([])
    else if s.divisor == 0 then Panic(RemainderByZero)
    else Ok(seq(|s.items|, i requires 0 <= i < |s.items| => Route(s, BinOp(s.op, s.items[i]) / wd)))
  }

  /** The state `inspect` leaves: no items, and the counter raised by the number inspected. */
  function AfterInspect(s: MonkeyState): MonkeyState
  {
    s.(items := [], counter := s.counter + |s.items|)
  }

  /** The residues of w modulo each divisor. */
  function Residues(w: nat, divisors: seq<nat>): (r: seq<nat>)
    requires forall i :: 0 <= i < |divisors| ==> divisors[i] > 0
    ensures |r| == |divisors| && forall i {:trigger r[i]} :: 0 <= i < |divisors| ==> r[i] == w % divisors[i]
  {
    seq(|divisors|, i requires 0 <= i < |divisors| => w % divisors[i])
  }

  predicate Positive(divisors: seq<nat>) { forall i :: 0 <= i < |divisors| ==> divisors[i] > 0 }

  /** `initialize_mods`: one residue vector per item; a zero divisor panics once there is an item. */
  function InitMods(s: MonkeyState, divisors: seq<nat>): (r: Result<MonkeyState>)
    ensures r.Panic? <==> s.items != [] && !Positive(divisors)
    ensures r.Ok? ==> r.value == s.(modItems := r.value.modItems) && |r.value.modItems| == |s.items|
  {
    if s.items == [] then Ok(s.(modItems := []))
    else if !Positive(divisors) then Panic(RemainderByZero)
    else Ok(s.(modItems := seq(|s.items|, k requires 0 <= k < |s.items| => Residues(s.items[k], divisors))))
  }

  /**
   * The first k entries of a residue vector after `inspect_mods` replaces entry i by
   * op(w_i) mod divisors[i]; an entry without a divisor, or a zero divisor, panics.
   */
  function Reduced(op: Operation, m: seq<nat>, divisors: seq<nat>, k: nat): (r: Result<seq<nat>>)
    requires k <= |m|
    ensures r.Ok? ==> |r.value| == k && k <= |divisors|
    decreases k
  {
    if k == 0 then Ok([])
    else
      match Reduced(op, m, divisors, k - 1)
      case Panic(msg) => Panic(msg)
      case Ok(p) =>
        if k - 1 >= |divisors| then Panic(OutOfBounds)
        else if divisors[k - 1] == 0 then Panic(RemainderByZero)
        else Ok(p + [BinOp(op, m[k - 1]) % divisors[k - 1]])
  }

  /**
   * Reducing succeeds exactly when the first k entries all have a nonzero divisor, and entry i
   * then holds op(m_i) mod divisors[i].
   */
  lemma {:induction false} ReducedValues(op: Operation, m: seq<nat>, divisors: seq<nat>, k: nat)
    requires k <= |m|
    ensures var r := Reduced(op, m, divisors, k);
      (r.Panic? <==> k > |divisors| || exists i :: 0 <= i < k && i < |divisors| && divisors[i] == 0) &&
      (r.Ok? ==> forall i :: 0 <= i < k ==> divisors[i] > 0 && r.value[i] == BinOp(op, m[i]) % divisors[i])
    decreases k
  {
    if k > 0 {
      ReducedValues(op, m, divisors, k - 1);
    }
  }

  lemma {:induction false} ReducedPanic(op: Operation, m: seq<nat>, divisors: seq<nat>, k: nat, j: nat)
    requires k <= j <= |m| && Reduced(op, m, divisors, k).Panic?
    ensures Reduced(op, m, divisors, j) == Reduced(op, m, divisors, k)
    decreases j
  {
    if j > k {
      ReducedPanic(op, m, divisors, k, j - 1);
    }
  }

  /** The first k throws of `inspect_mods`: each residue vector reduced, then routed by entry `id`. */
  function ModThrows(s: MonkeyState, divisors: seq<nat>, k: nat): (r: Result<seq<ModThrow>>)
    requires k <= |s.modItems|
    ensures r.Ok? ==> |r.value| == k
    decreases k
  {
    if k == 0 then Ok([])
    else
      match ModThrows(s, divisors, k - 1)
      case Panic(msg) => Panic(msg)
      case Ok(p) =>
        var m := s.modItems[k - 1];
        match Reduced(s.op, m, divisors, |m|)
        case Panic(msg) => Panic(msg)
        case Ok(m') =>
          if s.id >= |m'| then Panic(OutOfBounds)
          else Ok(p + [ModThrow(if m'[s.id] == 0 then s.trueTo else s.falseTo, m')])
  }

  /** The state `inspect_mods` leaves: residue vectors drained, counter raised by their number. */
  function AfterInspectMods(s: MonkeyState): MonkeyState
  {
    s.(modItems := [], counter := s.counter + |s.modItems|)
  }

  // ------------------------------------------------------------------
  // rounds
  // ------------------------------------------------------------------

  /**
   * The first j throws of monkey k delivered, in order, to the end of their targets' item lists. A
   * target out of range, or monkey k itself (still borrowed while its throws are delivered), panics.
   */
  function Delivered(ms: seq<MonkeyState>, throws: seq<Throw>, k: nat, j: nat): (r: Result<seq<MonkeyState>>)
    requires j <= |throws|
    ensures r.Ok? ==> |r.value| == |ms|
    decreases j
  {
    if j == 0 then Ok(ms)
    else
      match Delivered(ms, throws, k, j - 1)
      case Panic(msg) => Panic(msg)
      case Ok(ms') =>
        var t := throws[j - 1];
        if t.to >= |ms'| then Panic(OutOfBounds)
        else if t.to == k then Panic(AlreadyBorrowed)
        else Ok(ms'[t.to := ms'[t.to].(items := ms'[t.to].items + [t.worry])])
  }

  lemma {:induction false} DeliveredPanic(ms: seq<MonkeyState>, throws: seq<Throw>, k: nat, i: nat, j: nat)
    requires i <= j <= |throws| && Delivered(ms, throws, k, i).Panic?
    ensures Delivered(ms, throws, k, j) == Delivered(ms, throws, k, i)
    decreases j
  {
    if j > i {
      DeliveredPanic(ms, throws, k, i, j - 1);
    }
  }

  /** Monkey k's turn in part 1. */
  function Turn(ms: seq<MonkeyState>, k: nat, wd: nat): (r: Result<seq<MonkeyState>>)
    requires k < |ms| && wd > 0
    ensures r.Ok? ==> |r.value| == |ms|
  {
    match Inspected(ms[k], wd)
    case Panic(msg) => Panic(msg)
    case Ok(ts) => Delivered(ms[k := AfterInspect(ms[k])], ts, k, |ts|)
  }

  /** The first k turns of a round. */
  function Round(ms: seq<MonkeyState>, wd: nat, k: nat): (r: Result<seq<MonkeyState>>)
    requires k <= |ms| && wd > 0
    ensures r.Ok? ==> |r.value| == |ms|
    decreases k
  {
    if k == 0 then Ok(ms)
    else
      match Round(ms, wd, k - 1)
      case Panic(msg) => Panic(msg)
      case Ok(ms') => Turn(ms', k - 1, wd)
  }

  /** The round so far, followed by monkey k's turn. */
  lemma RoundStep(ms: seq<MonkeyState>, wd: nat, k: nat, cur: seq<MonkeyState>)
    requires k < |ms| && wd > 0 && Round(ms, wd, k) == Ok(cur)
    ensures k < |cur| && Round(ms, wd, k + 1) == Turn(cur, k, wd)
    ensures Turn(cur, k, wd).Panic? ==> Round(ms, wd, |ms|) == Turn(cur, k, wd)
  {
    if Turn(cur, k, wd).Panic? {
      RoundPanic(ms, wd, k + 1, |ms|);
    }
  }

  function Rounds(ms: seq<MonkeyState>, wd: nat, n: nat): (r: Result<seq<MonkeyState>>)
    requires wd > 0
    ensures r.Ok? ==> |r.value| == |ms|
    decreases n
  {
    if n == 0 then Ok(ms)
    else
      match Rounds(ms, wd, n - 1)
      case Panic(msg) => Panic(msg)
      case Ok(ms') => Round(ms', wd, |ms'|)
  }

  /** A panic in the first k turns of a round is the round's panic. */
  lemma {:induction false} RoundPanic(ms: seq<MonkeyState>, wd: nat, k: nat, j: nat)
    requires wd > 0 && k <= j <= |ms| && Round(ms, wd, k).Panic?
    ensures Round(ms, wd, j) == Round(ms, wd, k)
    decreases j
  {
    if j > k {
      RoundPanic(ms, wd, k, j - 1);
    }
  }

  lemma {:induction false} RoundsPanic(ms: seq<MonkeyState>, wd: nat, n: nat, m: nat)
    requires wd > 0 && n <= m && Rounds(ms, wd, n).Panic?
    ensures Rounds(ms, wd, m) == Rounds(ms, wd, n)
    decreases m
  {
    if m > n {
      RoundsPanic(ms, wd, n, m - 1);
    }
  }

  /** Part 2's delivery: residue vectors appended to their targets' `mod_items`. */
  function ModDelivered(ms: seq<MonkeyState>, throws: seq<ModThrow>, k: nat, j: nat): (r: Result<seq<MonkeyState>>)
    requires j <= |throws|
    ensures r.Ok? ==> |r.value| == |ms|
    decreases j
  {
    if j == 0 then Ok(ms)
    else
      match ModDelivered(ms, throws, k, j - 1)
      case Panic(msg) => Panic(msg)
      case Ok(ms') =>
        var t := throws[j - 1];
        if t.to >= |ms'| then Panic(OutOfBounds)
        else if t.to == k then Panic(AlreadyBorrowed)
        else Ok(ms'[t.to := ms'[t.to].(modItems := ms'[t.to].modItems + [t.residues])])
  }

  lemma {:induction false} ModDeliveredPanic(ms: seq<MonkeyState>, throws: seq<ModThrow>, k: nat, i: nat, j: nat)
    requires i <= j <= |throws| && ModDelivered(ms, throws, k, i).Panic?
    ensures ModDelivered(ms, throws, k, j) == ModDelivered(ms, throws, k, i)
    decreases j
  {
    if j > i {
      ModDeliveredPanic(ms, throws, k, i, j - 1);
    }
  }

  lemma {:induction false} ModThrowsPanic(s: MonkeyState, divisors: seq<nat>, i: nat, j: nat)
    requires i <= j <= |s.modItems| && ModThrows(s, divisors, i).Panic?
    ensures ModThrows(s, divisors, j) == ModThrows(s, divisors, i)
    decreases j
  {
    if j > i {
      ModThrowsPanic(s, divisors, i, j - 1);
    }
  }

  function ModTurn(ms: seq<MonkeyState>, k: nat, divisors: seq<nat>): (r: Result<seq<MonkeyState>>)
    requires k < |ms|
    ensures r.Ok? ==> |r.value| == |ms|
  {
    match ModThrows(ms[k], divisors, |ms[k].modItems|)
    case Panic(msg) => Panic(msg)
    case Ok(ts) => ModDelivered(ms[k := AfterInspectMods(ms[k])], ts, k, |ts|)
  }

  function ModRound(ms: seq<MonkeyState>, divisors: seq<nat>, k: nat): (r: Result<seq<MonkeyState>>)
    requires k <= |ms|
    ensures r.Ok? ==> |r.value| == |ms|
    decreases k
  {
    if k == 0 then Ok(ms)
    else
      match ModRound(ms, divisors, k - 1)
      case Panic(msg) => Panic(msg)
      case Ok(ms') => ModTurn(ms', k - 1, divisors)
  }

  function ModRounds(ms: seq<MonkeyState>, divisors: seq<nat>, n: nat): (r: Result<seq<MonkeyState>>)
    ensures r.Ok? ==> |r.value| == |ms|
    decreases n
  {
    if n == 0 then Ok(ms)
    else
      match ModRounds(ms, divisors, n - 1)
      case Panic(msg) => Panic(msg)
      case Ok(ms') => ModRound(ms', divisors, |ms'|)
  }

  /** The round so far, followed by monkey k's turn. */
  lemma ModRoundStep(ms: seq<MonkeyState>, divisors: seq<nat>, k: nat, cur: seq<MonkeyState>)
    requires k < |ms| && ModRound(ms, divisors, k) == Ok(cur)
    ensures k < |cur| && ModRound(ms, divisors, k + 1) == ModTurn(cur, k, divisors)
    ensures ModTurn(cur, k, divisors).Panic? ==> ModRound(ms, divisors, |ms|) == ModTurn(cur, k, divisors)
  {
    if ModTurn(cur, k, divisors).Panic? {
      ModRoundPanic(ms, divisors, k + 1, |ms|);
    }
  }

  lemma {:induction false} ModRoundPanic(ms: seq<MonkeyState>, divisors: seq<nat>, k: nat, j: nat)
    requires k <= j <= |ms| && ModRound(ms, divisors, k).Panic?
    ensures ModRound(ms, divisors, j) == ModRound(ms, divisors, k)
    decreases j
  {
    if j > k {
      ModRoundPanic(ms, divisors, k, j - 1);
    }
  }

  lemma {:induction false} ModRoundsPanic(ms: seq<MonkeyState>, divisors: seq<nat>, n: nat, m: nat)
    requires n <= m && ModRounds(ms, divisors, n).Panic?
    ensures ModRounds(ms, divisors, m) == ModRounds(ms, divisors, n)
    decreases m
  {
    if m > n {
      ModRoundsPanic(ms, divisors, n, m - 1);
    }
  }

  /** `initialize_mods` on the first k monkeys. */
  function InitAll(ms: seq<MonkeyState>, divisors: seq<nat>, k: nat): (r: Result<seq<MonkeyState>>)
    requires k <= |ms|
    ensures r.Ok? ==> |r.value| == |ms|
    decreases k
  {
    if k == 0 then Ok(ms)
    else
      match InitAll(ms, divisors, k - 1)
      case Panic(msg) => Panic(msg)
      case Ok(ms') =>
        match InitMods(ms'[k - 1], divisors)
        case Panic(msg) => Panic(msg)
        case Ok(s) => Ok(ms'[k - 1 := s])
  }

  lemma {:induction false} InitAllPanic(ms: seq<MonkeyState>, divisors: seq<nat>, k: nat, j: nat)
    requires k <= j <= |ms| && InitAll(ms, divisors, k).Panic?
    ensures InitAll(ms, divisors, j) == InitAll(ms, divisors, k)
    decreases j
  {
    if j > k {
      InitAllPanic(ms, divisors, k, j - 1);
    }
  }

  function Divisors(ms: seq<MonkeyState>): (r: seq<nat>)
    ensures |r| == |ms| && forall k {:trigger r[k]} :: 0 <= k < |ms| ==> r[k] == ms[k].divisor
  {
    seq(|ms|, k requires 0 <= k < |ms| => ms[k].divisor)
  }

  function Counters(ms: seq<MonkeyState>): (r: seq<nat>)
    ensures |r| == |ms| && forall k {:trigger r[k]} :: 0 <= k < |ms| ==> r[k] == ms[k].counter
  {
    seq(|ms|, k requires 0 <= k < |ms| => ms[k].counter)
  }

  // ------------------------------------------------------------------
  // monkey business
  // ------------------------------------------------------------------

  function MaxOf(s: seq<nat>): (m: nat)
    requires s != []
    ensures m in s && forall i :: 0 <= i < |s| ==> s[i] <= m
  {
    if |s| == 1 then s[0]
    else
      var m := MaxOf(s[1..]);
      assert forall i :: 1 <= i < |s| ==> s[i] == s[1..][i - 1];
      if s[0] >= m then s[0] else m
  }

  function RemoveOne(s: seq<nat>, x: nat): (r: seq<nat>)
    requires x in s
    ensures multiset(r) + multiset{x} == multiset(s) && |r| == |s| - 1
  {
    assert s == [s[0]] + s[1..];
    if s[0] == x then s[1..] else [s[0]] + RemoveOne(s[1..], x)
  }

  /**
   * The product of the two largest counters (two copies of the largest when it occurs twice); with
   * fewer than two monkeys the source's indexing panics.
   */
  function Business(counts: seq<nat>): Result<nat>
  {
    if |counts| < 2 then Panic(if counts == [] then NoneUnwrapped else "attempt to subtract with overflow")
    else
      var top := MaxOf(counts);
      var second := MaxOf(RemoveOne(counts, top));
      MulNonneg(top, second);
      Ok(top * second)
  }

  predicate Sorted(s: seq<nat>) { forall i, j :: 0 <= i < j < |s| ==> s[i] <= s[j] }

  /**
   * What the source computes: after sorting the counters, the last times the second to last. That is
   * `Business`, whichever way the sort arranges equal counters.
   */
  lemma BusinessOfSorted(counts: seq<nat>, sorted: seq<nat>)
    requires |counts| >= 2 && |sorted| == |counts| && Sorted(sorted) && multiset(sorted) == multiset(counts)
    ensures Business(counts) == Ok(sorted[|sorted| - 1] * sorted[|sorted| - 2])
  {
    MaxOfSorted(counts, sorted);
    SecondOfSorted(counts, sorted);
  }

  /** Once one copy of the largest is removed, the largest left is the second to last of the sorted list. */
  lemma SecondOfSorted(counts: seq<nat>, sorted: seq<nat>)
    requires |counts| >= 2 && |sorted| == |counts| && Sorted(sorted) && multiset(sorted) == multiset(counts)
    requires MaxOf(counts) == sorted[|sorted| - 1]
    ensures MaxOf(RemoveOne(counts, MaxOf(counts))) == sorted[|sorted| - 2]
  {
    var n := |sorted|;
    var top := sorted[n - 1];
    var rest := RemoveOne(counts, top);
    var init := sorted[..n - 1];
    DropLast(sorted);
    assert multiset(rest) == multiset(counts) - multiset{top};
    assert multiset(init) == multiset(rest);
    MaxOfSorted(rest, init);
  }

  /** Dropping the last element of a sorted list leaves it sorted, and takes one copy of it away. */
  lemma DropLast(sorted: seq<nat>)
    requires sorted != [] && Sorted(sorted)
    ensures Sorted(sorted[..|sorted| - 1])
    ensures multiset(sorted[..|sorted| - 1]) == multiset(sorted) - multiset{sorted[|sorted| - 1]}
  {
    var n := |sorted|;
    assert sorted == sorted[..n - 1] + [sorted[n - 1]];
  }

  /** The largest element is the last one of any sorted arrangement. */
  lemma MaxOfSorted(s: seq<nat>, sorted: seq<nat>)
    requires s != [] && |sorted| == |s| && Sorted(sorted) && multiset(sorted) == multiset(s)
    ensures MaxOf(s) == sorted[|sorted| - 1]
  {
    var n := |sorted|;
    var top := MaxOf(s);
    assert top in multiset(sorted);
    var i :| 0 <= i < n && sorted[i] == top;
    assert sorted[n - 1] in multiset(s);
    var j :| 0 <= j < |s| && s[j] == sorted[n - 1];
    assert sorted[n - 1] <= top;
    assert top <= sorted[n - 1] by { assert i <= n - 1; }
  }

  /** Inserting into a sorted list keeps it sorted. */
  function Insert(sorted: seq<nat>, x: nat): (r: seq<nat>)
    requires Sorted(sorted)
    ensures Sorted(r) && multiset(r) == multiset(sorted) + multiset{x} && |r| == |sorted| + 1
    decreases |sorted|
  {
    if sorted == [] || x <= sorted[0] then
      SortedCons(x, sorted);
      [x] + sorted
    else
      assert sorted == [sorted[0]] + sorted[1..];
      var rest := Insert(sorted[1..], x);
      LowerBound(sorted, x, rest);
      SortedCons(sorted[0], rest);
      [sorted[0]] + rest
  }

  lemma SortedCons(a: nat, rest: seq<nat>)
    requires Sorted(rest) && forall i :: 0 <= i < |rest| ==> a <= rest[i]
    ensures Sorted([a] + rest)
  {
    var s := [a] + rest;
    forall i, j | 0 <= i < j < |s| ensures s[i] <= s[j] {
      if i > 0 {
        assert s[i] == rest[i - 1] && s[j] == rest[j - 1];
      }
    }
  }

  lemma LowerBound(sorted: seq<nat>, x: nat, rest: seq<nat>)
    requires Sorted(sorted) && sorted != [] && sorted[0] < x
    requires multiset(rest) == multiset(sorted[1..]) + multiset{x}
    ensures forall i :: 0 <= i < |rest| ==> sorted[0] <= rest[i]
  {
    forall i | 0 <= i < |rest| ensures sorted[0] <= rest[i] {
      assert rest[i] in multiset(rest);
      if rest[i] != x {
        assert rest[i] in multiset(sorted[1..]);
        var j :| 0 <= j < |sorted[1..]| && sorted[1..][j] == rest[i];
        assert sorted[j + 1] == rest[i];
      }
    }
  }

  /** `slice::sort` on the counters, as an insertion sort. */
  function SortCounts(s: seq<nat>): (r: seq<nat>)
    ensures Sorted(r) && multiset(r) == multiset(s) && |r| == |s|
    decreases |s|
  {
    if s == [] then []
    else
      assert s == s[..|s| - 1] + [s[|s| - 1]];
      Insert(SortCounts(s[..|s| - 1]), s[|s| - 1])
  }

  // ------------------------------------------------------------------
  // the answers
  // ------------------------------------------------------------------

  /** Part 1: twenty rounds dividing worry by 3, then the monkey business. */
  function Part1Spec(ms: seq<MonkeyState>): Result<nat>
  {
    match Rounds(ms, WorryDivisor, 20)
    case Panic(msg) => Panic(msg)
    case Ok(ms') => Business(Counters(ms'))
  }

  /** Part 2: residue vectors for every item, ten thousand rounds on them, then the monkey business. */
  function Part2Spec(ms: seq<MonkeyState>): Result<nat>
  {
    match InitAll(ms, Divisors(ms), |ms|)
    case Panic(msg) => Panic(msg)
    case Ok(ms') =>
      match ModRounds(ms', Divisors(ms), 10000)
      case Panic(msg) => Panic(msg)
      case Ok(ms'') => Business(Counters(ms''))
  }
}
