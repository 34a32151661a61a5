/**
 * Day 20, grove positioning system. The numbers sit on a circular doubly linked list: for every
 * index, `links` holds the indices just before and just after it on the ring. `mix` moves each
 * number, in input order, as many places along the ring as its value says, counted on the ring of
 * the n - 1 other numbers.
 */
module Day20 {
  import opened Wrappers
  import opened Text
  import opened Arith

  const DecryptionKey: int := 811589153
  const I64Min: int := -0x8000_0000_0000_0000
  const I64Max: int := 0x7fff_ffff_ffff_ffff

  predicate InI64(x: int) { I64Min <= x <= I64Max }

  // ------------------------------------------------------------------
  // generator
  // ------------------------------------------------------------------

  /** Every line read as an i64; the first line that is not one panics (`unwrap`). */
  function ParseAll(lines: seq<string>): (r: Result<seq<int>>)
    ensures r.Ok? ==> |r.value| == |lines|
    ensures r.Ok? ==> forall k :: 0 <= k < |lines| ==> ParseSigned(lines[k], I64Min, I64Max) == Some(r.value[k])
    ensures r.Panic? ==> exists k :: 0 <= k < |lines| && ParseSigned(lines[k], I64Min, I64Max).None?
    decreases |lines|
  {
    if lines == [] then Ok([])
    else
      var head := ParseSigned(lines[0], I64Min, I64Max);
      var tail := ParseAll(lines[1..]);
      if head.None? then Panic("called `Result::unwrap()` on an `Err` value")
      else if tail.Panic? then
        assert forall k :: 0 <= k < |lines| - 1 ==> lines[1..][k] == lines[k + 1];
        tail
      else Ok([head.value] + tail.value)
  }

  function Generator(input: string): Result<seq<int>>
  {
    ParseAll(Lines(input))
  }

  function ShowAll(nums: seq<int>): (r: seq<string>)
    ensures |r| == |nums| && forall k :: 0 <= k < |nums| ==> r[k] == IntText(nums[k])
    decreases |nums|
  {
    if nums == [] then [] else [IntText(nums[0])] + ShowAll(nums[1..])
  }

  lemma {:induction false} ParseShown(nums: seq<int>)
    requires forall k :: 0 <= k < |nums| ==> InI64(nums[k])
    ensures ParseAll(ShowAll(nums)) == Ok(nums)
    decreases |nums|
  {
    if nums != [] {
      ParseIntText(nums[0], I64Min, I64Max);
      ParseShown(nums[1..]);
      assert ShowAll(nums)[1..] == ShowAll(nums[1..]);
      assert nums == [nums[0]] + nums[1..];
    }
  }

  /** Numbers written one per line are read back unchanged. */
  lemma GeneratorRoundTrip(nums: seq<int>)
    requires forall k :: 0 <= k < |nums| ==> InI64(nums[k])
    ensures Generator(Unlines(ShowAll(nums))) == Ok(nums)
  {
    forall k | 0 <= k < |nums| ensures FreeOf(ShowAll(nums)[k], {'\n'}) {
      IntTextFree(nums[k], {'\n'});
    }
    LinesUnlines(ShowAll(nums));
    ParseShown(nums);
  }

  // ------------------------------------------------------------------
  // Rings of indices
  // ------------------------------------------------------------------

  /** The indices 0 .. n - 1 in order: the ring `Numbers::from` builds. */
  function Upto(n: nat): (r: seq<nat>)
    ensures |r| == n
  {
    if n == 0 then [] else Upto(n - 1) + [n - 1]
  }

  lemma {:induction false} UptoAt(n: nat, k: nat)
    requires k < n
    ensures Upto(n)[k] == k
  {
    if k < n - 1 {
      UptoAt(n - 1, k);
    }
  }

  predicate Distinct(c: seq<nat>)
  {
    forall j, k :: 0 <= j < k < |c| ==> c[j] != c[k]
  }

  /** c holds each index 0 .. n - 1 exactly once: a ring over all n numbers, read from some start. */
  ghost predicate IsRing(c: seq<nat>, n: nat)
  {
    && |c| == n
    && (forall k :: 0 <= k < n ==> c[k] < n)
    && (forall x :: 0 <= x < n ==> x in c)
    && Distinct(c)
  }

  lemma CountSnoc(u: seq<nat>, y: nat, x: nat)
    ensures multiset(u + [y])[x] == multiset(u)[x] + if x == y then 1 else 0
  {
    assert multiset(u + [y]) == multiset(u) + multiset{y};
  }

  /** An index occurs at most once in a sequence that repeats none. */
  lemma {:induction false} CountedOnce(c: seq<nat>, x: nat)
    requires Distinct(c)
    ensures multiset(c)[x] <= 1
    decreases |c|
  {
    if c != [] {
      var init := c[..|c| - 1];
      assert c == init + [c[|c| - 1]];
      assert Distinct(init);
      CountedOnce(init, x);
      CountSnoc(init, c[|c| - 1], x);
      if x == c[|c| - 1] {
        assert x !in init;
      }
    }
  }

  lemma TwiceCounted(c: seq<nat>, j: nat, k: nat)
    requires j < k < |c| && c[j] == c[k]
    ensures multiset(c)[c[j]] >= 2
  {
    assert c == c[..k] + [c[k]] + c[k + 1..];
    assert c[..k][j] == c[j];
  }

  /** A rearrangement of a ring is a ring. */
  lemma Rearranged(c: seq<nat>, r: seq<nat>, n: nat)
    requires IsRing(c, n) && |r| == n && multiset(r) == multiset(c)
    ensures IsRing(r, n)
  {
    forall k | 0 <= k < n ensures r[k] < n {
      assert r[k] in multiset(c);
      var j := IndexOf(c, r[k]);
    }
    forall x | 0 <= x < n ensures x in r {
      assert x in c;
      assert x in multiset(r);
    }
    forall j, k | 0 <= j < k < n ensures r[j] != r[k] {
      if r[j] == r[k] {
        TwiceCounted(r, j, k);
        CountedOnce(c, r[j]);
      }
    }
  }

  /** The position of x on c. */
  function IndexOf(c: seq<nat>, x: nat): (p: nat)
    requires x in c
    ensures p < |c| && c[p] == x
  {
    if c[0] == x then 0 else 1 + IndexOf(c[1..], x)
  }

  /** The same ring read from position p on. */
  function Rot(c: seq<nat>, p: nat): (r: seq<nat>)
    requires p <= |c|
    ensures |r| == |c| && multiset(r) == multiset(c)
  {
    assert c == c[..p] + c[p..];
    c[p..] + c[..p]
  }

  /** The index just before position k on the ring c, wrapping around at the front. */
  function Before(c: seq<nat>, k: nat): nat
    requires k < |c|
  {
    if k == 0 then c[|c| - 1] else c[k - 1]
  }

  /** The index just after position k on the ring c, wrapping around at the back. */
  function After(c: seq<nat>, k: nat): nat
    requires k < |c|
  {
    if k == |c| - 1 then c[0] else c[k + 1]
  }

  /** `links` holds, for every index on the ring c, the pair (index before it, index after it). */
  ghost predicate Linked(links: seq<(nat, nat)>, c: seq<nat>)
  {
    forall k :: 0 <= k < |c| ==> LinkedAt(links, c, k)
  }

  /** The links of the index at position k of c are its two neighbours there. */
  predicate LinkedAt(links: seq<(nat, nat)>, c: seq<nat>, k: nat)
    requires k < |c|
  {
    c[k] < |links| && links[c[k]] == (Before(c, k), After(c, k))
  }

  /** Position q of the ring read from p is position RotIndex(n, p, q) of the ring read from 0. */
  function RotIndex(n: nat, p: nat, q: nat): nat
    requires p < n && q < n
  {
    if q < n - p then p + q else q - (n - p)
  }

  lemma RotAt(c: seq<nat>, p: nat, q: nat)
    requires p < |c| && q < |c|
    ensures var k := RotIndex(|c|, p, q); k < |c| && Rot(c, p)[q] == c[k]
    ensures var k := RotIndex(|c|, p, q); Before(Rot(c, p), q) == Before(c, k) && After(Rot(c, p), q) == After(c, k)
  {
  }

  /** The links describe the ring, wherever one starts reading it. */
  lemma LinkedRot(links: seq<(nat, nat)>, c: seq<nat>, p: nat)
    requires Linked(links, c) && p < |c|
    ensures Linked(links, Rot(c, p))
  {
    forall q | 0 <= q < |c| ensures LinkedAt(links, Rot(c, p), q) {
      RotAt(c, p, q);
      assert LinkedAt(links, c, RotIndex(|c|, p, q));
    }
  }

  /** A ring over all n indices determines the links completely. */
  lemma LinkedUnique(a: seq<(nat, nat)>, b: seq<(nat, nat)>, c: seq<nat>)
    requires IsRing(c, |a|) && |b| == |a| && Linked(a, c) && Linked(b, c)
    ensures a == b
  {
    forall x | 0 <= x < |a| ensures a[x] == b[x] {
      var k := IndexOf(c, x);
      assert LinkedAt(a, c, k) && LinkedAt(b, c, k);
    }
  }

  // ------------------------------------------------------------------
  // move_steps, as a change of ring
  // ------------------------------------------------------------------

  /** The places number x moves among n numbers: Rust's `x % (n - 1)`, which keeps the sign of x. */
  function Steps(x: int, n: nat): (s: int)
    requires n >= 2
    ensures -(n - 1) < s < n - 1 && (x >= 0 ==> s >= 0) && (x < 0 ==> s <= 0)
  {
    TruncRemRange(x, n - 1);
    TruncRem(x, n - 1)
  }

  /** Where a move of s places lands on a ring of m others: s mod m, counted from the old successor. */
  function Shift(s: int, m: nat): (k: nat)
    requires m >= 1
    ensures k < m
  {
    s % m
  }

  /** The other indices, read from the one just after i round to the one just before it. */
  function Others(c: seq<nat>, i: nat): (rest: seq<nat>)
    requires i in c
    ensures |rest| == |c| - 1 && Rot(c, IndexOf(c, i)) == [i] + rest
  {
    var r := Rot(c, IndexOf(c, i));
    assert r == [r[0]] + r[1..];
    r[1..]
  }

  /**
   * The ring after moving index i by s places: i leaves its place and re-enters the ring of the
   * others k = s mod (n - 1) places after its old successor (so s < 0 walks backwards).
   */
  function Moved(c: seq<nat>, i: nat, s: int): (r: seq<nat>)
    requires |c| >= 2 && i in c
    ensures |r| == |c| && multiset(r) == multiset(c)
  {
    var rest := Others(c, i);
    var k := Shift(s, |rest|);
    assert rest == rest[..k] + rest[k..];
    rest[..k] + [i] + rest[k..]
  }

  /** `mix`, j moves in: indices 0 .. j - 1 have each been moved once, in order. */
  ghost function Mixed(c: seq<nat>, nums: seq<int>, j: nat): (r: seq<nat>)
    requires |nums| >= 2 && IsRing(c, |nums|) && j <= |nums|
    ensures IsRing(r, |nums|)
  {
    if j == 0 then c
    else
      var prev := Mixed(c, nums, j - 1);
      var r := Moved(prev, j - 1, Steps(nums[j - 1], |nums|));
      Rearranged(prev, r, |nums|);
      r
  }

  /** One more index moved: the fold of moves extends by one step. */
  lemma MixedNext(c: seq<nat>, nums: seq<int>, j: nat, prev: seq<nat>, r: seq<nat>)
    requires |nums| >= 2 && IsRing(c, |nums|) && j < |nums| && prev == Mixed(c, nums, j)
    requires j in prev && r == Moved(prev, j, Steps(nums[j], |nums|))
    ensures r == Mixed(c, nums, j + 1)
  {
  }

  /** `rounds` calls of `mix`. */
  ghost function MixedRounds(c: seq<nat>, nums: seq<int>, rounds: nat): (r: seq<nat>)
    requires |nums| >= 2 && IsRing(c, |nums|)
    ensures IsRing(r, |nums|)
  {
    if rounds == 0 then c else Mixed(MixedRounds(c, nums, rounds - 1), nums, |nums|)
  }

  /** The numbers in ring order: `nums[c[0]], nums[c[1]], ...`. */
  function Values(nums: seq<int>, c: seq<nat>): (v: seq<int>)
    requires forall k :: 0 <= k < |c| ==> c[k] < |nums|
    ensures |v| == |c| && forall k :: 0 <= k < |c| ==> v[k] == nums[c[k]]
    decreases |c|
  {
    if c == [] then [] else [nums[c[0]]] + Values(nums, c[1..])
  }

  // ------------------------------------------------------------------
  // What a move does to the ring
  // ------------------------------------------------------------------

  /** Read from i, the others come out rotated by s mod (n - 1): i has moved that many places past them. */
  lemma MovedShifts(c: seq<nat>, i: nat, s: int)
    requires |c| >= 2 && IsRing(c, |c|) && i in c
    ensures var r := Moved(c, i, s); i in r && Others(r, i) == Rot(Others(c, i), Shift(s, |c| - 1))
  {
    var rest := Others(c, i);
    OthersFree(c, i);
    InsertedAt(rest, i, Shift(s, |c| - 1));
  }

  /** Inserting i at position k of a ring free of i, then reading from i, reads the ring from k. */
  lemma InsertedAt(rest: seq<nat>, i: nat, k: nat)
    requires i !in rest && k <= |rest|
    ensures var d := rest[..k] + [i] + rest[k..]; i in d && IndexOf(d, i) == k && Rot(d, k)[1..] == Rot(rest, k)
  {
    var d := rest[..k] + [i] + rest[k..];
    assert d[k] == i;
    forall q | 0 <= q < k ensures d[q] != i {
      assert d[q] == rest[q];
    }
    IndexOfFirst(d, i, k);
    assert d[k..] == [i] + rest[k..];
    assert d[..k] == rest[..k];
  }

  /** The ring without i is free of i and repeats no index. */
  lemma OthersFree(c: seq<nat>, i: nat)
    requires IsRing(c, |c|) && i in c
    ensures Distinct([i] + Others(c, i)) && i !in Others(c, i)
  {
    var rest := Others(c, i);
    Rearranged(c, Rot(c, IndexOf(c, i)), |c|);
    forall q | 0 <= q < |rest| ensures rest[q] != i {
      assert ([i] + rest)[q + 1] == rest[q];
    }
  }

  lemma IndexOfFirst(c: seq<nat>, x: nat, k: nat)
    requires k < |c| && c[k] == x && forall q :: 0 <= q < k ==> c[q] != x
    ensures IndexOf(c, x) == k
  {
    if k > 0 {
      IndexOfFirst(c[1..], x, k - 1);
    }
  }

  /** A move of zero places (a multiple of n - 1) leaves the ring as it was, read from i. */
  lemma ZeroStepsKeep(c: seq<nat>, i: nat, s: int)
    requires |c| >= 2 && i in c && Shift(s, |c| - 1) == 0
    ensures Moved(c, i, s) == Rot(c, IndexOf(c, i))
  {
  }

  /** The numbers in ring order, read from position p round to the one before it. */
  function ReadFrom(nums: seq<int>, c: seq<nat>, p: nat): (v: seq<int>)
    requires p < |c| && forall k :: 0 <= k < |c| ==> c[k] < |nums|
    ensures |v| == |c|
  {
    Values(nums, c[p..]) + Values(nums, c[..p])
  }

  /** `Numbers::from` then `to_vec`: the numbers come back in input order. */
  lemma FromToVec(nums: seq<int>)
    requires |nums| >= 1
    ensures IsRing(Upto(|nums|), |nums|) && 0 in Upto(|nums|) && IndexOf(Upto(|nums|), 0) == 0
    ensures ReadFrom(nums, Upto(|nums|), 0) == nums
  {
    var c := Upto(|nums|);
    UptoRing(|nums|);
    UptoAt(|nums|, 0);
    assert c[0..] == c && c[..0] == [];
    ValuesUpto(nums);
  }

  /** Read in input order, the numbers are the input. */
  lemma ValuesUpto(nums: seq<int>)
    ensures forall k :: 0 <= k < |nums| ==> Upto(|nums|)[k] < |nums|
    ensures Values(nums, Upto(|nums|)) == nums
  {
    var c := Upto(|nums|);
    forall k | 0 <= k < |nums| ensures c[k] == k {
      UptoAt(|nums|, k);
    }
  }

  lemma UptoRing(n: nat)
    ensures IsRing(Upto(n), n)
  {
    forall k | 0 <= k < n ensures Upto(n)[k] == k {
      UptoAt(n, k);
    }
    forall x | 0 <= x < n ensures x in Upto(n) {
      assert Upto(n)[x] == x;
    }
  }

  // ------------------------------------------------------------------
  // Relinking: the two link surgeries of move_steps
  // ------------------------------------------------------------------

  /** Position q of rest is position q + 1 of [i] + rest, with the same neighbours away from the ends. */
  lemma ConsAt(i: nat, rest: seq<nat>, q: nat)
    requires |rest| >= 2 && q < |rest|
    ensures ([i] + rest)[q + 1] == rest[q]
    ensures q > 0 ==> Before([i] + rest, q + 1) == Before(rest, q)
    ensures q < |rest| - 1 ==> After([i] + rest, q + 1) == After(rest, q)
  {
  }

  /** Unlinking i, the first index of the ring: its neighbours now point at each other. */
  lemma Unlink(links: seq<(nat, nat)>, links': seq<(nat, nat)>, i: nat, rest: seq<nat>)
    requires |rest| >= 2 && Linked(links, [i] + rest) && Distinct([i] + rest)
    requires rest[0] < |links| && rest[|rest| - 1] < |links| && |links'| == |links|
    requires links'[rest[0]] == (rest[|rest| - 1], links[rest[0]].1)
    requires links'[rest[|rest| - 1]] == (links[rest[|rest| - 1]].0, rest[0])
    requires forall x :: 0 <= x < |links| && x != rest[0] && x != rest[|rest| - 1] ==> links'[x] == links[x]
    ensures Linked(links', rest)
  {
    var c, m := [i] + rest, |rest|;
    forall q | 0 <= q < m ensures LinkedAt(links', rest, q) {
      ConsAt(i, rest, q);
      assert LinkedAt(links, c, q + 1);
      assert c[1] == rest[0] && c[m] == rest[m - 1];
      if 0 < q < m - 1 {
        assert c[1] != c[q + 1] && c[m] != c[q + 1];
      }
    }
  }

  /** Position q of rest[..k] + [i] + rest[k..], and its neighbours, in terms of rest. */
  lemma InsertAt(i: nat, rest: seq<nat>, k: nat, q: nat)
    requires 1 <= k < |rest| && q <= |rest|
    ensures var d := rest[..k] + [i] + rest[k..];
      && (q < k ==> d[q] == rest[q])
      && (q == k ==> d[q] == i && Before(d, q) == rest[k - 1] && After(d, q) == rest[k])
      && (q > k ==> d[q] == rest[q - 1])
      && (q < k - 1 ==> Before(d, q) == Before(rest, q) && After(d, q) == After(rest, q))
      && (q == k - 1 ==> Before(d, q) == Before(rest, q) && After(d, q) == i)
      && (q == k + 1 ==> Before(d, q) == i && After(d, q) == After(rest, k))
      && (q > k + 1 ==> Before(d, q) == Before(rest, q - 1) && After(d, q) == After(rest, q - 1))
  {
  }

  /** Linking i back in between positions k - 1 and k of the ring of the others. */
  lemma Insert(links: seq<(nat, nat)>, links': seq<(nat, nat)>, i: nat, rest: seq<nat>, k: nat)
    requires Linked(links, rest) && Distinct(rest) && i !in rest && 1 <= k < |rest|
    requires i < |links| && rest[k - 1] < |links| && rest[k] < |links| && |links'| == |links|
    requires links'[i] == (rest[k - 1], rest[k])
    requires links'[rest[k - 1]] == (links[rest[k - 1]].0, i)
    requires links'[rest[k]] == (i, links[rest[k]].1)
    requires forall x :: 0 <= x < |links| && x != i && x != rest[k - 1] && x != rest[k] ==> links'[x] == links[x]
    ensures Linked(links', rest[..k] + [i] + rest[k..])
  {
    var d := rest[..k] + [i] + rest[k..];
    forall q | 0 <= q < |d| ensures LinkedAt(links', d, q) {
      InsertAt(i, rest, k, q);
      if q < k {
        assert LinkedAt(links, rest, q);
        assert q < k - 1 ==> rest[q] != rest[k - 1] && rest[q] != rest[k];
      } else if q > k {
        assert LinkedAt(links, rest, q - 1);
        assert q > k + 1 ==> rest[q - 1] != rest[k - 1] && rest[q - 1] != rest[k];
      }
    }
  }

  // ------------------------------------------------------------------
  // Numbers
  // ------------------------------------------------------------------

  /** `Numbers`: the input numbers and their ring links; `ring` is the ring they describe. */
  class Numbers {
    var numbers: seq<int>
    var links: seq<(nat, nat)>
    ghost var ring: seq<nat>

    ghost predicate Valid()
      reads this
    {
      |links| == |numbers| && IsRing(ring, |numbers|) && Linked(links, ring)
    }

    /** `Numbers::from`: index i is linked to (i - 1) mod n and (i + 1) mod n, so the ring is the input order. */
    constructor (nums: seq<int>)
      ensures Valid() && numbers == nums && ring == Upto(|nums|)
      ensures forall i :: 0 <= i < |nums| ==> links[i] == ((i - 1) % |nums|, (i + 1) % |nums|)
    {
      var n := |nums|;
      var ls: seq<(nat, nat)> := [];
      var i := 0;
      while i < n
        invariant 0 <= i <= n && |ls| == i
        invariant forall j :: 0 <= j < i ==> ls[j] == ((j - 1) % n, (j + 1) % n)
      {
        ls := ls + [((i - 1) % n, (i + 1) % n)];
        i := i + 1;
      }
      numbers, links, ring := nums, ls, Upto(n);
      UptoRing(n);
      forall k | 0 <= k < n ensures LinkedAt(ls, Upto(n), k) {
        UptoAt(n, k);
        if k == 0 {
          UptoAt(n, n - 1);
          DivModUnique(-1, n, -1, n - 1);
        } else {
          UptoAt(n, k - 1);
          ModOfInRange(k - 1, n);
        }
        if k + 1 < n {
          UptoAt(n, k + 1);
          ModOfInRange(k + 1, n);
        } else {
          UptoAt(n, 0);
        }
      }
    }

    /** `move_steps(i)`: number i moves `numbers[i] % (n - 1)` places along the ring; nothing else changes. */
    method MoveSteps(i: nat)
      requires Valid() && |numbers| >= 2 && i < |numbers|
      modifies this
      ensures Valid() && numbers == old(numbers)
      ensures i in old(ring) && ring == Moved(old(ring), i, Steps(numbers[i], |numbers|))
    {
      var n := |numbers|;
      var steps := Steps(numbers[i], n);
      ghost var rest := MoveSetup(links, ring, i);
      if steps == 0 {
        StillRing(links, ring, i, rest);
        ring := Moved(ring, i, 0);
        return;
      }
      ghost var old_ring := ring;
      ghost var k := Shift(steps, |rest|);
      links := MoveLinks(links, i, steps, rest);
      MovedRing(links, old_ring, i, steps, rest, k);
      ring := Moved(old_ring, i, steps);
    }

    /** `mix`: every index, in input order, is moved once. */
    method Mix()
      requires Valid() && |numbers| >= 2
      modifies this
      ensures Valid() && numbers == old(numbers)
      ensures ring == Mixed(old(ring), numbers, |numbers|)
    {
      ghost var start := ring;
      ghost var nums := numbers;
      for i := 0 to |numbers|
        invariant Mixing(start, nums, i)
      {
        MixOne(start, nums, i);
      }
    }

    /** The first i indices of nums have each been moved once, in order, starting from the ring start. */
    ghost predicate Mixing(start: seq<nat>, nums: seq<int>, i: nat)
      reads this
    {
      && Valid() && numbers == nums && |nums| >= 2 && IsRing(start, |nums|) && i <= |nums|
      && ring == Mixed(start, nums, i)
    }

    /** One iteration of `mix`: index i moves, and the ring is the fold of moves up to i + 1. */
    method MixOne(ghost start: seq<nat>, ghost nums: seq<int>, i: nat)
      requires Mixing(start, nums, i) && i < |numbers|
      modifies this
      ensures Mixing(start, nums, i + 1)
    {
      ghost var prev := ring;
      MoveSteps(i);
      MixedNext(start, nums, i, prev, ring);
    }

    /** `to_vec`: the numbers read from index 0, following the after-links until they come back to 0. */
    method ToVec() returns (v: seq<int>)
      requires Valid() && |numbers| >= 1
      ensures 0 in ring && v == ReadFrom(numbers, ring, IndexOf(ring, 0))
    {
      var n := |numbers|;
      ghost var r := ReadSetup(links, ring, n);
      v := [numbers[0]];
      var next := links[0].1;
      while next != 0
        invariant 1 <= |v| <= n && v == Values(numbers, r[..|v|]) && next == After(r, |v| - 1)
        decreases n - |v|
      {
        ReadStep(links, numbers, r, v);
        v := v + [numbers[next]];
        next := links[next].1;
      }
      ReadEnd(numbers, ring, r, |v|);
    }
  }

  /** The ring read from index 0, as to_vec walks it. */
  lemma ReadSetup(links: seq<(nat, nat)>, ring: seq<nat>, n: nat) returns (r: seq<nat>)
    requires IsRing(ring, n) && Linked(links, ring) && |links| == n && n >= 1
    ensures 0 in ring && r == Rot(ring, IndexOf(ring, 0)) && IsRing(r, n) && Linked(links, r)
    ensures r[0] == 0 && links[0].1 == After(r, 0) && r[..1] == [0]
  {
    r := Rot(ring, IndexOf(ring, 0));
    LinkedRot(links, ring, IndexOf(ring, 0));
    Rearranged(ring, r, n);
    assert LinkedAt(links, r, 0);
  }

  /** One step of to_vec: while the walk has not come back to 0, it reads the next index of the ring. */
  lemma ReadStep(links: seq<(nat, nat)>, nums: seq<int>, r: seq<nat>, v: seq<int>)
    requires 1 <= |v| <= |nums| && IsRing(r, |nums|) && Linked(links, r) && r[0] == 0
    requires v == Values(nums, r[..|v|]) && After(r, |v| - 1) != 0
    ensures |v| < |nums| && After(r, |v| - 1) == r[|v|] && r[|v|] < |links| && links[r[|v|]].1 == After(r, |v|)
    ensures v + [nums[r[|v|]]] == Values(nums, r[..|v| + 1])
  {
    if |v| == |nums| {
      assert false;
    }
    assert LinkedAt(links, r, |v|);
    PrefixSnoc(r, |v|);
    ValuesAppend(nums, r[..|v|], [r[|v|]]);
  }

  lemma PrefixSnoc(r: seq<nat>, m: nat)
    requires m < |r|
    ensures r[..m + 1] == r[..m] + [r[m]]
  {
  }

  /** The walk of to_vec ends after all n indices: it has read the whole ring. */
  lemma ReadEnd(nums: seq<int>, ring: seq<nat>, r: seq<nat>, len: nat)
    requires IsRing(r, |nums|) && 1 <= len <= |nums| && r[0] == 0 && After(r, len - 1) == 0
    requires 0 in ring && r == Rot(ring, IndexOf(ring, 0)) && IsRing(ring, |nums|)
    ensures len == |nums| && Values(nums, r[..len]) == ReadFrom(nums, ring, IndexOf(ring, 0))
  {
    if len < |nums| {
      assert false;
    }
    var p := IndexOf(ring, 0);
    assert r[..len] == ring[p..] + ring[..p];
    ValuesAppend(nums, ring[p..], ring[..p]);
  }

  lemma {:induction false} ValuesAppend(nums: seq<int>, a: seq<nat>, b: seq<nat>)
    requires forall k :: 0 <= k < |a| ==> a[k] < |nums|
    requires forall k :: 0 <= k < |b| ==> b[k] < |nums|
    ensures Values(nums, a + b) == Values(nums, a) + Values(nums, b)
  {
    assert forall k :: 0 <= k < |a + b| ==> (a + b)[k] < |nums|;
    assert Values(nums, a + b) == Values(nums, a) + Values(nums, b);
  }

  // ------------------------------------------------------------------
  // part1 / part2
  // ------------------------------------------------------------------

  /** The position of the first 0 (`position(|n| n == 0)`). */
  function FirstZero(v: seq<int>): (z: nat)
    requires 0 in v
    ensures z < |v| && v[z] == 0 && forall k :: 0 <= k < z ==> v[k] != 0
  {
    if v[0] == 0 then 0 else 1 + FirstZero(v[1..])
  }

  /** i64 `+=`: an overflow panics. */
  function AddI64(acc: Result<int>, x: int): (r: Result<int>)
    ensures r.Ok? <==> acc.Ok? && InI64(acc.value + x)
    ensures r.Ok? ==> r.value == acc.value + x
  {
    if acc.Panic? then acc
    else if InI64(acc.value + x) then Ok(acc.value + x)
    else Panic("attempt to add with overflow")
  }

  /** The numbers 1000, 2000 and 3000 places after the first 0, wrapping around, added up. */
  function Grove(v: seq<int>): (r: Result<int>)
    requires |v| >= 1
  {
    if 0 !in v then Panic("called `Option::unwrap()` on a `None` value")
    else
      var z := FirstZero(v);
      AddI64(AddI64(AddI64(Ok(0), v[(z + 1000) % |v|]), v[(z + 2000) % |v|]), v[(z + 3000) % |v|])
  }

  /** The answer after `rounds` mixes of nums, read from index 0 as `to_vec` does. */
  ghost function Answer(nums: seq<int>, rounds: nat): Result<int>
  {
    if |nums| == 0 then Panic("index out of bounds: the len is 0 but the index is 0")
    else if |nums| == 1 then Panic("attempt to calculate the remainder with a divisor of zero")
    else
      UptoRing(|nums|);
      var c := MixedRounds(Upto(|nums|), nums, rounds);
      Grove(ReadFrom(nums, c, IndexOf(c, 0)))
  }

  lemma AnswerIs(nums: seq<int>, rounds: nat, c: seq<nat>)
    requires |nums| >= 2 && IsRing(Upto(|nums|), |nums|) && c == MixedRounds(Upto(|nums|), nums, rounds)
    ensures 0 in c && Answer(nums, rounds) == Grove(ReadFrom(nums, c, IndexOf(c, 0)))
  {
  }

  /** The coordinate loop of part1 and part2. */
  method Coordinates(v: seq<int>) returns (r: Result<int>)
    requires |v| >= 1
    ensures r == Grove(v)
  {
    if 0 !in v {
      return Panic("called `Option::unwrap()` on a `None` value");
    }
    var z := FirstZero(v);
    var offsets := [1000, 2000, 3000];
    r := Ok(0);
    for j := 0 to 3
      invariant r == (if j == 0 then Ok(0) else if j == 1 then AddI64(Ok(0), v[(z + 1000) % |v|])
        else if j == 2 then AddI64(AddI64(Ok(0), v[(z + 1000) % |v|]), v[(z + 2000) % |v|])
        else Grove(v))
    {
      if r.Ok? {
        r := AddI64(r, v[(z + offsets[j]) % |v|]);
      }
    }
  }

  /** `part1`: one mix, then the grove coordinates. */
  method Part1(nums: seq<int>) returns (r: Result<int>)
    ensures r == Answer(nums, 1)
  {
    if |nums| == 0 {
      return Panic("index out of bounds: the len is 0 but the index is 0");
    }
    if |nums| == 1 {
      return Panic("attempt to calculate the remainder with a divisor of zero");
    }
    var numbers := new Numbers(nums);
    numbers.Mix();
    ghost var c := numbers.ring;
    assert c == MixedRounds(Upto(|nums|), nums, 1);
    var v := numbers.ToVec();
    assert v == ReadFrom(nums, c, IndexOf(c, 0));
    r := Coordinates(v);
    AnswerIs(nums, 1, c);
  }

  /** The numbers times the decryption key; an i64 overflow panics. */
  function Keyed(nums: seq<int>): (r: Result<seq<int>>)
    ensures r.Ok? <==> forall k :: 0 <= k < |nums| ==> InI64(nums[k] * DecryptionKey)
    ensures r.Ok? ==> |r.value| == |nums| && forall k :: 0 <= k < |nums| ==> r.value[k] == nums[k] * DecryptionKey
  {
    if forall k :: 0 <= k < |nums| ==> InI64(nums[k] * DecryptionKey) then
      Ok(seq(|nums|, k requires 0 <= k < |nums| => nums[k] * DecryptionKey))
    else Panic("attempt to multiply with overflow")
  }

  /** `part2`: the numbers times the key, ten mixes, then the grove coordinates. */
  method Part2(nums: seq<int>) returns (r: Result<int>)
    ensures Keyed(nums).Panic? ==> r == Panic(Keyed(nums).msg)
    ensures Keyed(nums).Ok? ==> r == Answer(Keyed(nums).value, 10)
  {
    var keyed := Keyed(nums);
    if keyed.Panic? {
      return Panic(keyed.msg);
    }
    var ks := keyed.value;
    if |ks| == 0 {
      return Panic("index out of bounds: the len is 0 but the index is 0");
    }
    if |ks| == 1 {
      return Panic("attempt to calculate the remainder with a divisor of zero");
    }
    var numbers := new Numbers(ks);
    ghost var start := numbers.ring;
    for t := 0 to 10
      invariant numbers.Valid() && numbers.numbers == ks && fresh(numbers)
      invariant numbers.ring == MixedRounds(start, ks, t)
    {
      numbers.Mix();
    }
    ghost var c := numbers.ring;
    var v := numbers.ToVec();
    assert v == ReadFrom(ks, c, IndexOf(c, 0));
    r := Coordinates(v);
    AnswerIs(ks, 10, c);
  }

  /** After the surgery the links describe the moved ring, and it is a ring over all n indices. */
  lemma MovedRing(links: seq<(nat, nat)>, ring: seq<nat>, i: nat, steps: int, rest: seq<nat>, k: nat)
    requires IsRing(ring, |links|) && |links| >= 2 && i in ring && rest == Others(ring, i)
    requires k == Shift(steps, |rest|) && Linked(links, rest[..k] + [i] + rest[k..])
    ensures IsRing(Moved(ring, i, steps), |links|) && Linked(links, Moved(ring, i, steps))
  {
    MovedForm(ring, i, steps);
    MovedIsRing(ring, i, steps);
  }

  /** A move of zero places: the links already describe the moved ring. */
  lemma StillRing(links: seq<(nat, nat)>, ring: seq<nat>, i: nat, rest: seq<nat>)
    requires IsRing(ring, |links|) && |links| >= 2 && i in ring && rest == Others(ring, i)
    requires Linked(links, [i] + rest)
    ensures IsRing(Moved(ring, i, 0), |links|) && Linked(links, Moved(ring, i, 0))
  {
    ModOfInRange(0, |links| - 1);
    ZeroStepsKeep(ring, i, 0);
    MovedIsRing(ring, i, 0);
  }

  lemma MovedIsRing(c: seq<nat>, i: nat, s: int)
    requires IsRing(c, |c|) && |c| >= 2 && i in c
    ensures IsRing(Moved(c, i, s), |c|)
  {
    Rearranged(c, Moved(c, i, s), |c|);
  }



  lemma MovedForm(c: seq<nat>, i: nat, s: int)
    requires |c| >= 2 && i in c
    ensures var rest := Others(c, i); var k := Shift(s, |rest|); Moved(c, i, s) == rest[..k] + [i] + rest[k..]
  {
  }

  /** The links read from i: i, then the others (at least two), none repeated. */
  ghost predicate Prepared(links: seq<(nat, nat)>, i: nat, rest: seq<nat>)
  {
    && |rest| >= 2 && Linked(links, [i] + rest) && Distinct([i] + rest) && i !in rest
    && i < |links| && links[i] == (rest[|rest| - 1], rest[0])
    && (forall q :: 0 <= q < |rest| ==> rest[q] < |links|)
  }

  /** The link surgery of move_steps for a non-zero move: unlink i, walk, and link i back in. */
  method MoveLinks(links: seq<(nat, nat)>, i: nat, steps: int, ghost rest: seq<nat>) returns (ls: seq<(nat, nat)>)
    requires Prepared(links, i, rest) && steps != 0 && -|rest| < steps < |rest|
    ensures |ls| == |links|
    ensures var k := Shift(steps, |rest|); Linked(ls, rest[..k] + [i] + rest[k..])
  {
    var m := |rest|;
    DistinctTail(i, rest);
    var cur := links[i];
    ls := links;
    var left: nat, right: nat;
    if steps < 0 {
      // Unlink, walk left -steps times, and take the index after the stop.
      left := cur.0;
      ls := ls[left := (ls[left].0, cur.1)];
      ls := ls[cur.1 := (cur.0, ls[cur.1].1)];
      Unlink(links, ls, i, rest);
      left := WalkBack(ls, rest, left, steps);
      right := ls[left].1;
      Step(ls, rest, m - 1 + steps);
      DivModUnique(steps, m, -1, m + steps);
    } else {
      // Unlink, walk right steps times, and take the index before the stop.
      right := cur.1;
      ls := ls[right := (cur.0, ls[right].1)];
      ls := ls[cur.0 := (ls[cur.0].0, cur.1)];
      Unlink(links, ls, i, rest);
      right := WalkOn(ls, rest, right, steps);
      left := ls[right].0;
      Step(ls, rest, steps - 1);
      ModOfInRange(steps, m);
    }
    ghost var unlinked := ls;
    ls := ls[i := (ls[right].0, ls[left].1)];
    ls := ls[left := (ls[left].0, i)];
    ls := ls[right := (i, ls[right].1)];
    Insert(unlinked, ls, i, rest, Shift(steps, m));
  }

  /** What move_steps relies on before relinking: i is on the ring, and the ring read from i is i, then the others. */
  lemma MoveSetup(links: seq<(nat, nat)>, ring: seq<nat>, i: nat) returns (rest: seq<nat>)
    requires IsRing(ring, |links|) && Linked(links, ring) && i < |links| && |links| >= 2
    ensures i in ring && rest == Others(ring, i) && |rest| == |links| - 1 && Linked(links, [i] + rest)
    ensures |links| >= 3 ==> Prepared(links, i, rest)
  {
    rest := Others(ring, i);
    LinkedRot(links, ring, IndexOf(ring, i));
    OthersFree(ring, i);
    if |links| >= 3 {
      PreparedFrom(links, i, rest);
    }
  }

  lemma PreparedFrom(links: seq<(nat, nat)>, i: nat, rest: seq<nat>)
    requires |rest| >= 2 && Linked(links, [i] + rest) && Distinct([i] + rest) && i !in rest
    ensures Prepared(links, i, rest)
  {
    assert LinkedAt(links, [i] + rest, 0);
    forall q | 0 <= q < |rest| ensures rest[q] < |links| {
      assert LinkedAt(links, [i] + rest, q + 1);
    }
  }

  lemma DistinctTail(i: nat, rest: seq<nat>)
    requires Distinct([i] + rest) && |rest| >= 2
    ensures Distinct(rest) && rest[0] != rest[|rest| - 1]
  {
    var c := [i] + rest;
    forall j, k | 0 <= j < k < |rest| ensures rest[j] != rest[k] {
      assert c[j + 1] == rest[j] && c[k + 1] == rest[k];
    }
  }

  /** One link step on a linked ring away from its ends. */
  lemma Step(links: seq<(nat, nat)>, c: seq<nat>, q: nat)
    requires Linked(links, c) && q + 1 < |c|
    ensures c[q] < |links| && c[q + 1] < |links| && links[c[q]].1 == c[q + 1] && links[c[q + 1]].0 == c[q]
  {
    assert LinkedAt(links, c, q) && LinkedAt(links, c, q + 1);
  }

  /** The walk left of move_steps: from the last index of the ring, -steps links back. */
  method WalkBack(links: seq<(nat, nat)>, ghost rest: seq<nat>, start: nat, steps: int) returns (left: nat)
    requires Linked(links, rest) && |rest| >= 1 && start == rest[|rest| - 1] && -|rest| < steps < 0
    ensures left == rest[|rest| - 1 + steps]
  {
    left := start;
    var t := steps;
    while t < 0
      invariant steps <= t <= 0 && left == rest[|rest| - 1 - (t - steps)]
    {
      Step(links, rest, |rest| - 2 - (t - steps));
      left := links[left].0;
      t := t + 1;
    }
  }

  /** The walk right of move_steps: from the first index of the ring, steps links on. */
  method WalkOn(links: seq<(nat, nat)>, ghost rest: seq<nat>, start: nat, steps: int) returns (right: nat)
    requires Linked(links, rest) && |rest| >= 1 && start == rest[0] && 0 < steps < |rest|
    ensures right == rest[steps]
  {
    right := start;
    var t := steps;
    while t > 0
      invariant 0 <= t <= steps && right == rest[steps - t]
    {
      Step(links, rest, steps - t);
      right := links[right].1;
      t := t - 1;
    }
  }
}
