/**
 * Day 1, calorie counting: the input lists each elf's snacks, elves separated by a blank line.
 * Part 1 is the largest per-elf total, part 2 the sum of the three largest.
 */
module Day1 {
  import opened Wrappers
  import opened Text

  predicate IsI32(x: int) { I32Min <= x <= I32Max }

  predicate AllI32(xs: seq<int>) { forall i :: 0 <= i < |xs| ==> IsI32(xs[i]) }

  // ------------------------------------------------------------------
  // generator
  // ------------------------------------------------------------------

  function Sum(xs: seq<int>): int
    decreases |xs|
  {
    if xs == [] then 0 else Sum(xs[..|xs| - 1]) + xs[|xs| - 1]
  }

  /** Parses every line of one elf's group as an i32 and adds them up. */
  function GroupTotal(lines: seq<string>): Result<int>
    decreases |lines|
  {
    if lines == [] then Ok(0)
    else
      var init := GroupTotal(lines[..|lines| - 1]);
      if init.Panic? then init
      else match ParseI32(lines[|lines| - 1])
        case None => Panic("Expecting number")
        case Some(v) => Ok(init.value + v)
  }

  function Totals(groups: seq<string>): (r: Result<seq<int>>)
    ensures r.Ok? ==> |r.value| == |groups|
    decreases |groups|
  {
    if groups == [] then Ok([])
    else
      var head := GroupTotal(Lines(groups[0]));
      if head.Panic? then Panic(head.msg)
      else
        var tail := Totals(groups[1..]);
        if tail.Panic? then tail else Ok([head.value] + tail.value)
  }

  /** `generator`: one total per blank-line-separated group. */
  function Generator(input: string): (r: Result<seq<int>>)
    ensures r.Ok? ==> |r.value| == |SplitStr(input, "\n\n")|
  {
    Totals(SplitStr(input, "\n\n"))
  }

  /** A group's total is the sum of the numbers on its lines. */
  lemma {:induction false} GroupTotalSums(nums: seq<nat>, lines: seq<string>)
    requires |lines| == |nums|
    requires forall i :: 0 <= i < |nums| ==> nums[i] <= I32Max && lines[i] == DigitsOf(nums[i])
    ensures GroupTotal(lines) == Ok(Sum(nums))
    decreases |nums|
  {
    if nums != [] {
      var k := |nums| - 1;
      GroupTotalSums(nums[..k], lines[..k]);
      ParseSignedDigits(nums[k], I32Min, I32Max);
    }
  }

  // ------------------------------------------------------------------
  // find_max_calories
  // ------------------------------------------------------------------

  /** `find_max_calories`: the largest total, or 0 when there are no elves. */
  function FindMax(elfs: seq<int>): (r: int)
    ensures elfs == [] ==> r == 0
    ensures elfs != [] ==> r in elfs && forall i :: 0 <= i < |elfs| ==> elfs[i] <= r
    decreases |elfs|
  {
    if elfs == [] then 0
    else if |elfs| == 1 then elfs[0]
    else
      var m := FindMax(elfs[1..]);
      assert forall i :: 1 <= i < |elfs| ==> elfs[i] == elfs[1..][i - 1];
      if elfs[0] >= m then elfs[0] else m
  }

  // ------------------------------------------------------------------
  // find_top_n_calories
  // ------------------------------------------------------------------

  /** The n slots the stack starts with, each `i32::MIN`. */
  function Pad(n: nat): (r: seq<int>)
    ensures |r| == n && forall i :: 0 <= i < n ==> r[i] == I32Min
  {
    seq(n, _ => I32Min)
  }

  /**
   * `top` holds n of the values in `pool`, and every value of the pool left out is at most every value kept:
   * the n largest values.
   */
  ghost predicate IsTop(top: seq<int>, pool: multiset<int>, n: nat)
  {
    |top| == n && multiset(top) <= pool &&
    forall x, y :: x in pool - multiset(top) && y in multiset(top) ==> x <= y
  }

  ghost predicate IsMin(m: int, s: seq<int>)
  {
    m in s && forall i :: 0 <= i < |s| ==> m <= s[i]
  }

  /** Replacing the smallest kept value by a value at least as large keeps the n largest. */
  lemma ReplaceMin(top: seq<int>, pool: multiset<int>, n: nat, k: nat, e: int)
    requires IsTop(top, pool, n) && k < |top| && IsMin(top[k], top) && top[k] <= e
    ensures IsTop(top[k := e], pool + multiset{e}, n)
  {
    var t, m := top[k := e], top[k];
    var mt0 := multiset(top);
    UpdateMultiset(top, k, e);
    var p := pool + multiset{e};
    assert p - multiset(t) == pool - mt0 + multiset{m};
    forall x, y | x in p - multiset(t) && y in multiset(t) ensures x <= y {
      assert x in pool - mt0 || x == m;
      assert y in mt0 || y == e;
      if y in mt0 {
        var j :| 0 <= j < |top| && top[j] == y;
      }
    }
  }

  /** Overwriting one slot trades its value for the new one. */
  lemma UpdateMultiset(s: seq<int>, k: nat, e: int)
    requires k < |s|
    ensures multiset(s[k := e]) == multiset(s) - multiset{s[k]} + multiset{e}
  {
    assert s == s[..k] + [s[k]] + s[k + 1..];
    assert s[k := e] == s[..k] + [e] + s[k + 1..];
  }

  /** A value below the smallest kept value is left out. */
  lemma SkipSmall(top: seq<int>, pool: multiset<int>, n: nat, m: int, e: int)
    requires IsTop(top, pool, n) && (n > 0 ==> IsMin(m, top)) && e < m
    ensures IsTop(top, pool + multiset{e}, n)
  {
    var mt := multiset(top);
    assert pool + multiset{e} - mt == pool - mt + multiset{e};
    forall x, y | x in pool + multiset{e} - mt && y in mt ensures x <= y {
      assert x in pool - mt || x == e;
      var j :| 0 <= j < |top| && top[j] == y;
    }
  }

  /**
   * One pass of the inner loop: the first slot holding `low` (the stack's minimum) becomes `e`, and the new
   * minimum is returned.
   */
  method ReplaceFirst(stack: array<int>, low: int, e: int) returns (newMin: int, ghost k: nat)
    requires stack.Length > 0 && IsMin(low, stack[..]) && low <= e <= I32Max && AllI32(stack[..])
    modifies stack
    ensures k < stack.Length && old(stack[k]) == low && stack[..] == old(stack[..])[k := e]
    ensures IsMin(newMin, stack[..])
  {
    ghost var before := stack[..];
    newMin := I32Max;
    var pending := true;
    k := 0;
    ghost var w: nat := 0;
    for j := 0 to stack.Length
      invariant pending ==> stack[..] == before && forall i :: 0 <= i < j ==> before[i] != low
      invariant !pending ==> k < j && before[k] == low && stack[..] == before[k := e]
      invariant j == 0 ==> newMin == I32Max
      invariant j > 0 ==> w < j && stack[w] == newMin
      invariant forall i :: 0 <= i < j ==> newMin <= stack[i]
      invariant newMin <= I32Max
    {
      if stack[j] == low && pending {
        stack[j] := e;
        k := j;
        pending := false;
      }
      assert stack[j] <= I32Max by {
        if stack[j] != e { assert stack[j] == before[j]; }
      }
      if stack[j] < newMin {
        newMin := stack[j];
        w := j;
      } else if j == 0 {
        w := 0;
      }
    }
    if pending {
      assert false;
    }
  }

  /** The values the stack has competed with after i totals: the padding and the first i totals. */
  function Pool(elfs: seq<int>, n: nat, i: nat): multiset<int>
    requires i <= |elfs|
  {
    multiset(Pad(n) + elfs[..i])
  }

  lemma PoolGrows(elfs: seq<int>, n: nat, i: nat)
    requires i < |elfs|
    ensures Pool(elfs, n, i + 1) == Pool(elfs, n, i) + multiset{elfs[i]}
  {
    assert Pad(n) + elfs[..i + 1] == Pad(n) + elfs[..i] + [elfs[i]];
  }

  /** One turn of the `for e in elfs` loop: a total below the minimum is skipped, otherwise it replaces the first minimal slot. */
  method Offer(stack: array<int>, stackMin: int, e: int, ghost pool: multiset<int>) returns (newMin: int)
    requires AllI32(stack[..]) && IsI32(e) && IsTop(stack[..], pool, stack.Length)
    requires stack.Length > 0 ==> IsMin(stackMin, stack[..])
    modifies stack
    ensures AllI32(stack[..]) && IsTop(stack[..], pool + multiset{e}, stack.Length)
    ensures stack.Length > 0 ==> IsMin(newMin, stack[..])
  {
    if e < stackMin {
      SkipSmall(stack[..], pool, stack.Length, stackMin, e);
      return stackMin;
    }
    if stack.Length > 0 {
      ghost var top := stack[..];
      ghost var k;
      newMin, k := ReplaceFirst(stack, stackMin, e);
      ReplaceMin(top, pool, stack.Length, k, e);
    } else {
      newMin := I32Max;
    }
  }

  /** `find_top_n_calories`: n slots that end holding the n largest totals (with `i32::MIN` padding), summed. */
  method FindTopN(elfs: seq<int>, n: nat) returns (r: int)
    requires AllI32(elfs)
    ensures exists top :: IsTop(top, multiset(Pad(n) + elfs), n) && r == Sum(top)
  {
    var stack := new int[n](_ => I32Min);
    var stackMin := I32Min;
    assert stack[..] == Pad(n);
    assert n > 0 ==> stack[..][0] == I32Min;
    assert Pool(elfs, n, 0) == multiset(stack[..]) by {
      assert Pad(n) + elfs[..0] == Pad(n);
    }
    for i := 0 to |elfs|
      invariant AllI32(stack[..])
      invariant IsTop(stack[..], Pool(elfs, n, i), n)
      invariant n > 0 ==> IsMin(stackMin, stack[..])
    {
      PoolGrows(elfs, n, i);
      stackMin := Offer(stack, stackMin, elfs[i], Pool(elfs, n, i));
    }
    assert elfs[..|elfs|] == elfs;
    r := SumArray(stack);
  }

  /** `stack.iter().sum()`. */
  method SumArray(a: array<int>) returns (r: int)
    ensures r == Sum(a[..])
  {
    r := 0;
    for i := 0 to a.Length
      invariant r == Sum(a[..i])
    {
      assert a[..i + 1][..i] == a[..i];
      r := r + a[i];
    }
    assert a[..a.Length] == a[..];
  }

  /** With one slot, the kept value is the largest total. */
  lemma TopOneIsMax(elfs: seq<int>, top: seq<int>)
    requires elfs != [] && AllI32(elfs)
    requires IsTop(top, multiset(Pad(1) + elfs), 1)
    ensures Sum(top) == FindMax(elfs)
  {
    var pool := multiset(Pad(1) + elfs);
    assert Pad(1) == [I32Min];
    assert pool == multiset{I32Min} + multiset(elfs);
    var m := FindMax(elfs);
    var t := top[0];
    assert top == [t];
    assert Sum(top) == t by { assert top[..0] == []; }
    var j :| 0 <= j < |elfs| && elfs[j] == m;
    assert IsI32(elfs[j]) && m in pool;
    assert m == t || m in pool - multiset(top);
    assert t in pool;
    if t in multiset(elfs) {
      var q :| 0 <= q < |elfs| && elfs[q] == t;
    }
  }

  // ------------------------------------------------------------------
  // part1 / part2
  // ------------------------------------------------------------------

  function Part1(elfs: seq<int>): int { FindMax(elfs) }

  method Part2(elfs: seq<int>) returns (r: int)
    requires AllI32(elfs)
    ensures exists top :: IsTop(top, multiset(Pad(3) + elfs), 3) && r == Sum(top)
  {
    r := FindTopN(elfs, 3);
  }

  lemma SampleMax()
    ensures FindMax([6000, 4000, 11000, 24000, 10000]) == 24000
  {
  }

  /** The three largest of the example's totals, which sum to 45000. */
  /** A pool split into the kept values and the rest, every rest value at most every kept value. */
  lemma TopOfSplit(top: seq<int>, rest: multiset<int>, n: nat)
    requires |top| == n && forall x, y :: x in rest && y in multiset(top) ==> x <= y
    ensures IsTop(top, rest + multiset(top), n)
  {
    assert rest + multiset(top) - multiset(top) == rest;
  }

  /** The example's padded pool: three `i32::MIN` slots, the two smallest totals, and the three largest. */
  lemma SamplePool()
    ensures multiset(Pad(3) + [6000, 4000, 11000, 24000, 10000])
         == multiset{I32Min, I32Min, I32Min, 6000, 4000} + multiset([24000, 11000, 10000])
  {
    assert Pad(3) + [6000, 4000, 11000, 24000, 10000] == (Pad(3) + [6000, 4000]) + [11000, 24000, 10000];
    SamplePadded();
    SampleLargest();
  }

  lemma SamplePadded()
    ensures multiset(Pad(3) + [6000, 4000]) == multiset{I32Min, I32Min, I32Min, 6000, 4000}
  {
    assert Pad(3) == [I32Min, I32Min, I32Min];
  }

  lemma SampleLargest()
    ensures multiset([11000, 24000, 10000]) == multiset([24000, 11000, 10000])
  {
    assert [11000, 24000, 10000] == [11000] + [24000, 10000];
    assert [24000, 11000, 10000] == [24000, 11000] + [10000];
  }

  /** The three largest of the example's totals, which sum to 45000. */
  lemma SampleTop()
    ensures IsTop([24000, 11000, 10000], multiset(Pad(3) + [6000, 4000, 11000, 24000, 10000]), 3)
    ensures Sum([24000, 11000, 10000]) == 45000
  {
    var top := [24000, 11000, 10000];
    var rest := multiset{I32Min, I32Min, I32Min, 6000, 4000};
    SamplePool();
    assert forall x, y :: x in rest && y in multiset(top) ==> x <= y;
    TopOfSplit(top, rest, 3);
    SampleTopSum();
  }

  lemma SampleTopSum()
    ensures Sum([24000, 11000, 10000]) == 45000
  {
    var top := [24000, 11000, 10000];
    assert [24000][..0] == [] && [24000, 11000][..1] == [24000] && top[..2] == [24000, 11000];
    assert Sum([24000]) == 24000;
    assert Sum([24000, 11000]) == 35000;
  }
}
