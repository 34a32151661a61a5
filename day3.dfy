/**
 * Day 3, rucksack reorganisation: every line is a rucksack whose two halves are compartments.
 * Part 1 sums, over the rucksacks, one plus the priority index of the item found in both halves;
 * part 2 sums, over groups of three rucksacks, one plus the index of the badge all three carry.
 *
 * The Rust code keeps item sets as `u64` bitmasks indexed by `char_idx`; here a mask is the set of
 * its set bits, so `mask |= 1 << k` is `mask + {k}` and `mask & (1 << k) != 0` is `k in mask`.
 */
module Day3 {
  import opened Wrappers
  import opened Text

  predicate IsLetter(c: char) { 'a' <= c <= 'z' || 'A' <= c <= 'Z' }

  predicate AllLetters(s: seq<char>) { forall i :: 0 <= i < |s| ==> IsLetter(s[i]) }

  /** `char_idx`: 'a'..'z' are 0..25 and 'A'..'Z' are 26..51. */
  function CharIdx(c: char): (r: nat)
    requires IsLetter(c)
    ensures r < 52
    ensures r < 26 <==> 'a' <= c <= 'z'
    ensures 'a' <= c <= 'z' ==> r == (c as int) - ('a' as int)
    ensures 'A' <= c <= 'Z' ==> r == (c as int) - ('A' as int) + 26
  {
    if 'a' <= c <= 'z' then (c as int) - ('a' as int) else (c as int) - ('A' as int) + 26
  }

  /** Distinct letters have distinct indices, so a mask of indices loses nothing. */
  lemma CharIdxInjective(a: char, b: char)
    requires IsLetter(a) && IsLetter(b)
    ensures CharIdx(a) == CharIdx(b) <==> a == b
  {
  }

  /** The bitmask of the items of s: the set of their indices. */
  function Mask(s: seq<char>): (r: set<nat>)
    requires AllLetters(s)
    ensures forall k :: k in r ==> k < 52
  {
    set i | 0 <= i < |s| :: CharIdx(s[i])
  }

  lemma MaskSnoc(s: seq<char>, j: nat)
    requires AllLetters(s) && j < |s|
    ensures Mask(s[..j + 1]) == Mask(s[..j]) + {CharIdx(s[j])}
  {
    var a, b := s[..j + 1], s[..j];
    forall k | k in Mask(a) ensures k in Mask(b) + {CharIdx(s[j])} {
      var i :| 0 <= i < |a| && k == CharIdx(a[i]);
      if i < j { assert a[i] == b[i]; }
    }
    forall k | k in Mask(b) ensures k in Mask(a) {
      var i :| 0 <= i < |b| && k == CharIdx(b[i]);
      assert a[i] == b[i];
    }
    assert a[j] == s[j];
  }

  /** An item is in the mask exactly when the letter occurs. */
  lemma MaskHas(s: seq<char>, c: char)
    requires AllLetters(s) && IsLetter(c)
    ensures CharIdx(c) in Mask(s) <==> c in s
  {
    if CharIdx(c) in Mask(s) {
      var i :| 0 <= i < |s| && CharIdx(c) == CharIdx(s[i]);
      CharIdxInjective(c, s[i]);
    }
    if c in s {
      var i :| 0 <= i < |s| && s[i] == c;
      assert CharIdx(s[i]) in Mask(s);
    }
  }

  // ------------------------------------------------------------------
  // overlap_middle
  // ------------------------------------------------------------------

  /**
   * `overlap_middle`: the index of the first item of the second half that also occurs in the first
   * half; a rucksack whose halves share nothing panics.
   */
  method OverlapMiddle(fills: seq<char>) returns (r: Result<nat>)
    requires AllLetters(fills)
    ensures r.Panic? <==> forall j :: |fills| / 2 <= j < |fills| ==> fills[j] !in fills[..|fills| / 2]
    ensures r.Ok? ==> exists k :: |fills| / 2 <= k < |fills| && r.value == CharIdx(fills[k])
                                  && fills[k] in fills[..|fills| / 2]
                                  && forall j :: |fills| / 2 <= j < k ==> fills[j] !in fills[..|fills| / 2]
  {
    var presence: set<nat> := {};
    var middle := |fills| / 2;
    for i := 0 to middle
      invariant presence == Mask(fills[..i])
    {
      MaskSnoc(fills, i);
      presence := presence + {CharIdx(fills[i])};
    }
    assert fills[..middle][..middle] == fills[..middle];
    for j := middle to |fills|
      invariant forall i :: middle <= i < j ==> fills[i] !in fills[..middle]
    {
      var curr := CharIdx(fills[j]);
      MaskHas(fills[..middle], fills[j]);
      if curr in presence {
        return Ok(curr);
      }
    }
    return Panic("Unexpected, no overlap found");
  }

  /** The value `overlap_middle` computes, as a function (the spec part 1 sums). */
  function FirstShared(fills: seq<char>, j: nat): (r: Result<nat>)
    requires AllLetters(fills) && |fills| / 2 <= j <= |fills|
    decreases |fills| - j
  {
    if j == |fills| then Panic("Unexpected, no overlap found")
    else if fills[j] in fills[..|fills| / 2] then Ok(CharIdx(fills[j]))
    else FirstShared(fills, j + 1)
  }

  /** The function agrees with the method's contract: the first shared item from j on. */
  lemma {:induction false} FirstSharedMeans(fills: seq<char>, j: nat)
    requires AllLetters(fills) && |fills| / 2 <= j <= |fills|
    ensures FirstShared(fills, j).Panic? <==> forall i :: j <= i < |fills| ==> fills[i] !in fills[..|fills| / 2]
    ensures FirstShared(fills, j).Ok? ==>
              exists k :: j <= k < |fills| && FirstShared(fills, j).value == CharIdx(fills[k])
                          && fills[k] in fills[..|fills| / 2]
                          && forall i :: j <= i < k ==> fills[i] !in fills[..|fills| / 2]
    decreases |fills| - j
  {
    if j < |fills| && fills[j] !in fills[..|fills| / 2] {
      FirstSharedMeans(fills, j + 1);
      var r := FirstShared(fills, j + 1);
      if r.Ok? {
        var k :| j + 1 <= k < |fills| && r.value == CharIdx(fills[k]) && fills[k] in fills[..|fills| / 2]
                 && forall i :: j + 1 <= i < k ==> fills[i] !in fills[..|fills| / 2];
        assert forall i :: j <= i < k ==> fills[i] !in fills[..|fills| / 2];
      }
    }
  }

  // ------------------------------------------------------------------
  // overlap_elems
  // ------------------------------------------------------------------

  /** Bits 0..63: the mask `u64::MAX`. */
  function AllBits(): (r: set<nat>)
    ensures forall k: nat :: k in r <==> k < 64
  {
    Below(64)
  }

  function Below(n: nat): (r: set<nat>)
    ensures forall k: nat :: k in r <==> k < n
  {
    if n == 0 then {} else Below(n - 1) + {n - 1}
  }

  /** The mask left after folding `prev &= mask of elem` over the elems. */
  function Common(prev: set<nat>, elems: seq<seq<char>>): set<nat>
    requires forall i :: 0 <= i < |elems| ==> AllLetters(elems[i])
    decreases |elems|
  {
    if elems == [] then prev else Common(prev * Mask(elems[0]), elems[1..])
  }

  /** `u64::trailing_zeros`: the lowest set bit at or above k, or 64 when there is none. */
  function TrailingZeros(mask: set<nat>, k: nat): (r: nat)
    requires k <= 64
    decreases 64 - k
  {
    if k == 64 then 64 else if k in mask then k else TrailingZeros(mask, k + 1)
  }

  lemma {:induction false} TrailingZerosLowest(mask: set<nat>, k: nat)
    requires k <= 64
    ensures k <= TrailingZeros(mask, k) <= 64
    ensures TrailingZeros(mask, k) < 64 ==> TrailingZeros(mask, k) in mask
    ensures forall j :: k <= j < TrailingZeros(mask, k) ==> j !in mask
    decreases 64 - k
  {
    if k < 64 && k !in mask {
      TrailingZerosLowest(mask, k + 1);
    }
  }

  /** The badge: the lowest index common to every elem, or 0 when they share nothing. */
  function Badge(elems: seq<seq<char>>): nat
    requires forall i :: 0 <= i < |elems| ==> AllLetters(elems[i])
  {
    var common := Common(AllBits(), elems);
    if common == {} then 0 else TrailingZeros(common, 0)
  }

  predicate InAll(elems: seq<seq<char>>, k: nat)
    requires forall i :: 0 <= i < |elems| ==> AllLetters(elems[i])
  {
    forall i :: 0 <= i < |elems| ==> k in Mask(elems[i])
  }

  lemma {:induction false} CommonMeans(prev: set<nat>, elems: seq<seq<char>>, k: nat)
    requires forall i :: 0 <= i < |elems| ==> AllLetters(elems[i])
    ensures k in Common(prev, elems) <==> k in prev && InAll(elems, k)
    decreases |elems|
  {
    if elems != [] {
      CommonMeans(prev * Mask(elems[0]), elems[1..], k);
      assert InAll(elems, k) <==> k in Mask(elems[0]) && InAll(elems[1..], k) by {
        if k in Mask(elems[0]) && InAll(elems[1..], k) {
          forall i | 0 <= i < |elems| ensures k in Mask(elems[i]) {
            if i > 0 { assert elems[i] == elems[1..][i - 1]; }
          }
        }
      }
    }
  }

  /**
   * `overlap_elems` computes the smallest item index that every rucksack of the group holds, and 0
   * when there is none (also for an empty group, where the mask stays `u64::MAX`).
   */
  lemma BadgeMeans(elems: seq<seq<char>>)
    requires forall i :: 0 <= i < |elems| ==> AllLetters(elems[i])
    ensures elems != [] && (forall k :: !InAll(elems, k)) ==> Badge(elems) == 0
    ensures elems != [] && InAll(elems, Badge(elems)) ==> forall k :: InAll(elems, k) ==> Badge(elems) <= k
    ensures elems != [] && (exists k :: InAll(elems, k)) ==> InAll(elems, Badge(elems))
    ensures elems == [] ==> Badge(elems) == 0
  {
    var common := Common(AllBits(), elems);
    TrailingZerosLowest(common, 0);
    CommonOfAll(elems);
    if elems == [] {
      assert 0 in common;
    }
  }

  /** Starting from all 64 bits, the common mask holds exactly the indices every elem holds. */
  lemma CommonOfAll(elems: seq<seq<char>>)
    requires forall i :: 0 <= i < |elems| ==> AllLetters(elems[i])
    ensures forall k :: k in Common(AllBits(), elems) <==> k < 64 && InAll(elems, k)
    ensures elems != [] ==> forall k :: InAll(elems, k) ==> k < 52
  {
    forall k ensures k in Common(AllBits(), elems) <==> k < 64 && InAll(elems, k) {
      CommonMeans(AllBits(), elems, k);
    }
    if elems != [] {
      forall k | InAll(elems, k) ensures k < 52 {
        assert k in Mask(elems[0]);
      }
    }
  }

  method OverlapElems(elems: seq<seq<char>>) returns (r: nat)
    requires forall i :: 0 <= i < |elems| ==> AllLetters(elems[i])
    ensures r == Badge(elems)
  {
    var prev := AllBits();
    for e := 0 to |elems|
      invariant Common(AllBits(), elems) == Common(prev, elems[e..])
    {
      var elem := elems[e];
      var presence: set<nat> := {};
      for j := 0 to |elem|
        invariant presence == prev * Mask(elem[..j])
      {
        MaskSnoc(elem, j);
        var cidx := CharIdx(elem[j]);
        if cidx in prev {
          presence := presence + {cidx};
        }
      }
      assert elem[..|elem|] == elem;
      assert elems[e..][1..] == elems[e + 1..];
      prev := presence;
    }
    if prev == {} {
      return 0;
    } else {
      return TrailingZeros(prev, 0);
    }
  }

  // ------------------------------------------------------------------
  // part1 / part2 / generator
  // ------------------------------------------------------------------

  predicate AllSacks(sacks: seq<seq<char>>) { forall i :: 0 <= i < |sacks| ==> AllLetters(sacks[i]) }

  /** `total_overlap_priority`: the sum of one plus the shared index; the first panicking sack aborts. */
  function TotalOverlapPriority(sacks: seq<seq<char>>): (r: Result<nat>)
    requires AllSacks(sacks)
    ensures r.Ok? <==> forall i :: 0 <= i < |sacks| ==> FirstShared(sacks[i], |sacks[i]| / 2).Ok?
    decreases |sacks|
  {
    if sacks == [] then Ok(0)
    else
      var head := FirstShared(sacks[0], |sacks[0]| / 2);
      var tail := TotalOverlapPriority(sacks[1..]);
      if head.Panic? then Panic(head.msg)
      else if tail.Panic? then tail
      else Ok(head.value + 1 + tail.value)
  }

  /** The sum of one plus the badge over consecutive groups of three. */
  function BadgeSum(sacks: seq<seq<char>>): nat
    requires AllSacks(sacks) && |sacks| % 3 == 0
    decreases |sacks|
  {
    if sacks == [] then 0 else Badge(sacks[..3]) + 1 + BadgeSum(sacks[3..])
  }

  /** `total_group_badge_priority`: panics unless the sack count is a multiple of three. */
  method TotalGroupBadgePriority(sacks: seq<seq<char>>) returns (r: Result<nat>)
    requires AllSacks(sacks)
    ensures r.Panic? <==> |sacks| % 3 != 0
    ensures r.Ok? ==> r.value == BadgeSum(sacks) && r.value >= |sacks| / 3
  {
    if |sacks| % 3 != 0 {
      return Panic("Total sacks not a multiple of 3");
    }
    var s := 0;
    var i := 0;
    while i < |sacks|
      invariant 0 <= i <= |sacks| && i % 3 == 0
      invariant s + BadgeSum(sacks[i..]) == BadgeSum(sacks) && 3 * s >= i
    {
      ChunkFits(|sacks|, i);
      BadgeSumStep(sacks, i);
      var b := OverlapElems(sacks[i..i + 3]);
      s := s + b + 1;
      i := i + 3;
    }
    assert sacks[i..] == [];
    return Ok(s);
  }

  /** A chunk of three starting at a multiple of three below a multiple of three fits. */
  lemma ChunkFits(n: nat, i: nat)
    requires n % 3 == 0 && i % 3 == 0 && i < n
    ensures i + 3 <= n && (i + 3) % 3 == 0
  {
    var a, b := i / 3, n / 3;
    assert i == 3 * a && n == 3 * b;
  }

  /** The chunk of three starting at i, then the chunks after it. */
  lemma BadgeSumStep(sacks: seq<seq<char>>, i: nat)
    requires AllSacks(sacks) && |sacks| % 3 == 0 && i % 3 == 0 && i + 3 <= |sacks|
    ensures BadgeSum(sacks[i..]) == Badge(sacks[i..i + 3]) + 1 + BadgeSum(sacks[i + 3..])
  {
    var rest := sacks[i..];
    assert rest[..3] == sacks[i..i + 3];
    assert rest[3..] == sacks[i + 3..];
  }

  /** `generator`: one rucksack per line; a line with an odd number of items panics. */
  function ParseSacks(lines: seq<string>): (r: Result<seq<seq<char>>>)
    ensures r.Ok? <==> forall i :: 0 <= i < |lines| ==> |lines[i]| % 2 == 0
    ensures r.Ok? ==> r.value == lines
    decreases |lines|
  {
    if lines == [] then Ok([])
    else if |lines[0]| % 2 != 0 then Panic("Expecting even number of characters")
    else
      var tail := ParseSacks(lines[1..]);
      if tail.Panic? then tail
      else
        assert [lines[0]] + lines[1..] == lines;
        Ok([lines[0]] + tail.value)
  }

  function Generator(input: string): Result<seq<seq<char>>>
  {
    ParseSacks(Lines(input))
  }

  // ------------------------------------------------------------------
  // The puzzle's example
  // ------------------------------------------------------------------

  /** The fifth sample rucksack "ttgJtRGJ" + "QctTZtZT" shares 't' (index 19). */
  lemma SampleOverlap(fills: seq<char>)
    requires fills == "ttgJtRGJQctTZtZT"
    ensures FirstShared(fills, 8) == Ok(19)
  {
    assert fills[..8] == "ttgJtRGJ";
    assert fills[8] !in fills[..8];
    assert fills[9] !in fills[..8];
    assert fills[10] == fills[..8][0];
    assert FirstShared(fills, 10) == Ok(19);
    assert FirstShared(fills, 9) == Ok(19);
  }

  lemma SampleMasks(a: seq<char>, b: seq<char>, c: seq<char>)
    requires a == "rZx" && b == "Zry" && c == "zrZ"
    ensures Mask(a) == {17, 51, 23} && Mask(b) == {51, 17, 24} && Mask(c) == {25, 17, 51}
  {
    assert Mask(a) == {17, 51, 23} by { assert CharIdx(a[0]) == 17 && CharIdx(a[1]) == 51 && CharIdx(a[2]) == 23; }
    assert Mask(b) == {51, 17, 24} by { assert CharIdx(b[0]) == 51 && CharIdx(b[1]) == 17 && CharIdx(b[2]) == 24; }
    assert Mask(c) == {25, 17, 51} by { assert CharIdx(c[0]) == 25 && CharIdx(c[1]) == 17 && CharIdx(c[2]) == 51; }
  }

  /** Three rucksacks sharing only 'r' and 'Z' have the badge 'r' (index 17, the lower). */
  lemma SampleBadge(a: seq<char>, b: seq<char>, c: seq<char>)
    requires a == "rZx" && b == "Zry" && c == "zrZ"
    ensures Badge([a, b, c]) == 17
  {
    var g := [a, b, c];
    BadgeMeans(g);
    SampleMasks(a, b, c);
    assert InAll(g, 17);
    forall k | InAll(g, k) ensures 17 <= k {
      assert k in Mask(g[0]) && k in Mask(g[1]) && k in Mask(g[2]);
    }
  }
}
