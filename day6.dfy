/**
 * Day 6, tuning trouble: the marker is the end of the first window of `size` characters with no
 * repeated letter. `Marker` keeps the window in a circular buffer together with per-letter counts and
 * the number of surplus copies (`dups`), so each step costs O(1).
 */
module Day6 {
  import opened Wrappers
  import opened Text

  predicate IsLower(c: char) { 'a' <= c <= 'z' }

  /** The k-th lower-case letter. */
  function Letter(k: nat): char
    requires k < 26
  {
    ('a' as int + k) as char
  }

  /** No character of s occurs twice. */
  predicate NoRepeats(s: seq<char>)
  {
    forall i, j :: 0 <= i < j < |s| ==> s[i] != s[j]
  }

  // ------------------------------------------------------------------
  // Multiset facts
  // ------------------------------------------------------------------

  lemma MultisetUpdate(s: seq<char>, i: nat, c: char)
    requires i < |s|
    ensures multiset(s[i := c]) == multiset(s) - multiset{s[i]} + multiset{c}
  {
    assert s == s[..i] + [s[i]] + s[i + 1..];
    assert s[i := c] == s[..i] + [c] + s[i + 1..];
  }

  lemma {:induction false} DistinctCounts(s: seq<char>, x: char)
    requires NoRepeats(s)
    ensures multiset(s)[x] <= 1
    decreases |s|
  {
    if s != [] {
      var n := |s| - 1;
      assert NoRepeats(s[..n]);
      DistinctCounts(s[..n], x);
      assert s == s[..n] + [s[n]];
      assert s[n] !in s[..n];
    }
  }

  lemma RepeatCounted(s: seq<char>, i: nat, j: nat)
    requires i < j < |s| && s[i] == s[j]
    ensures multiset(s)[s[i]] >= 2
  {
    assert s == s[..i] + [s[i]] + s[i + 1..j] + [s[j]] + s[j + 1..];
  }

  lemma NoRepeatsCounts(s: seq<char>)
    ensures NoRepeats(s) <==> forall x :: multiset(s)[x] <= 1
  {
    if NoRepeats(s) {
      forall x ensures multiset(s)[x] <= 1 {
        DistinctCounts(s, x);
      }
    } else {
      var i, j :| 0 <= i < j < |s| && s[i] == s[j];
      RepeatCounted(s, i, j);
    }
  }

  /** A window of lower-case letters has no repeats iff no letter is counted twice. */
  lemma LetterCounts(s: seq<char>)
    requires forall i :: 0 <= i < |s| ==> IsLower(s[i])
    ensures NoRepeats(s) <==> forall k :: 0 <= k < 26 ==> multiset(s)[Letter(k)] <= 1
  {
    NoRepeatsCounts(s);
    if forall k :: 0 <= k < 26 ==> multiset(s)[Letter(k)] <= 1 {
      forall x ensures multiset(s)[x] <= 1 {
        if x in s {
          var i :| 0 <= i < |s| && s[i] == x;
          assert x == Letter(x as int - 'a' as int);
        }
      }
    }
  }

  /** The sum over the first n letters of their counts in m. */
  function LetterSum(m: multiset<char>, n: nat): nat
    requires n <= 26
  {
    if n == 0 then 0 else LetterSum(m, n - 1) + m[Letter(n - 1)]
  }

  lemma {:induction false} LetterSumAdd(m: multiset<char>, c: char, n: nat)
    requires n <= 26
    ensures LetterSum(m + multiset{c}, n) == LetterSum(m, n) + (if 'a' <= c < Letter(0) + n as char then 1 else 0)
    decreases n
  {
    if n > 0 {
      LetterSumAdd(m, c, n - 1);
    }
  }

  // ------------------------------------------------------------------
  // Surplus copies
  // ------------------------------------------------------------------

  /** The copies of a letter beyond the first. */
  function Surplus(count: nat): nat { if count > 0 then count - 1 else 0 }

  /** `dups`: the surplus copies of every letter. */
  function Excess(counts: seq<nat>): nat
    decreases |counts|
  {
    if counts == [] then 0 else Surplus(counts[0]) + Excess(counts[1..])
  }

  lemma {:induction false} ExcessUpdate(counts: seq<nat>, k: nat, v: nat)
    requires k < |counts|
    ensures Excess(counts[k := v]) + Surplus(counts[k]) == Excess(counts) + Surplus(v)
    ensures Excess(counts) >= Surplus(counts[k])
    decreases |counts|
  {
    if k > 0 {
      ExcessUpdate(counts[1..], k - 1, v);
      assert counts[k := v][1..] == counts[1..][k - 1 := v];
    } else {
      assert counts[k := v][1..] == counts[1..];
    }
  }

  lemma {:induction false} ExcessZero(counts: seq<nat>)
    ensures Excess(counts) == 0 <==> forall k :: 0 <= k < |counts| ==> counts[k] <= 1
    decreases |counts|
  {
    if counts != [] {
      ExcessZero(counts[1..]);
      assert forall k :: 1 <= k < |counts| ==> counts[k] == counts[1..][k - 1];
    }
  }

  lemma {:induction false} ExcessOfZeros(counts: seq<nat>)
    requires forall k :: 0 <= k < |counts| ==> counts[k] == 0
    ensures Excess(counts) == 0
    decreases |counts|
  {
    if counts != [] {
      ExcessOfZeros(counts[1..]);
    }
  }

  function Repeat(c: char, n: nat): (r: seq<char>)
    ensures |r| == n && forall i :: 0 <= i < n ==> r[i] == c
  {
    seq(n, _ => c)
  }

  lemma {:induction false} RepeatCount(c: char, n: nat)
    ensures multiset(Repeat(c, n)) == multiset{}[c := n]
    decreases n
  {
    if n > 0 {
      RepeatCount(c, n - 1);
      assert Repeat(c, n) == Repeat(c, n - 1) + [c];
    }
  }

  /** counts[k] is how often the k-th letter occurs in the bag m. */
  ghost predicate CountsOfBag(counts: seq<nat>, m: multiset<char>)
  {
    |counts| == 26 && forall k :: 0 <= k < 26 ==> counts[k] == m[Letter(k)]
  }

  ghost predicate CountsOf(counts: seq<nat>, s: seq<char>)
  {
    CountsOfBag(counts, multiset(s))
  }

  /** Counting one more copy of a letter raises that letter's counter. */
  lemma CountsAdd(counts: seq<nat>, m: multiset<char>, c: char)
    requires CountsOfBag(counts, m) && IsLower(c)
    ensures var k := c as int - 'a' as int;
            CountsOfBag(counts[k := counts[k] + 1], m + multiset{c})
  {
    assert c == Letter(c as int - 'a' as int);
  }

  /** Dropping one copy of a letter lowers that letter's counter. */
  lemma CountsRemove(counts: seq<nat>, m: multiset<char>, c: char)
    requires CountsOfBag(counts, m) && IsLower(c) && c in m
    ensures var k := c as int - 'a' as int;
            counts[k] >= 1 && CountsOfBag(counts[k := counts[k] - 1], m - multiset{c})
  {
    assert c == Letter(c as int - 'a' as int);
  }

  predicate AllLower(s: seq<char>)
  {
    forall i :: 0 <= i < |s| ==> IsLower(s[i])
  }

  /** Writing c over the oldest slot and advancing the slot drops the oldest and appends c. */
  lemma Rotate(s: seq<char>, i: nat, c: char)
    requires i < |s|
    ensures var t := s[i := c];
            var j := (i + 1) % |s|;
            t[j..] + t[..j] == (s[i..] + s[..i])[1..] + [c]
  {
    assert (s[i..] + s[..i])[1..] == s[i + 1..] + s[..i];
    if i + 1 < |s| {
      RotateInside(s, i, c);
    } else {
      RotateWrap(s, i, c);
    }
  }

  lemma RotateInside(s: seq<char>, i: nat, c: char)
    requires i + 1 < |s|
    ensures (i + 1) % |s| == i + 1
    ensures s[i := c][i + 1..] + s[i := c][..i + 1] == (s[i + 1..] + s[..i]) + [c]
  {
    var t := s[i := c];
    assert t[i + 1..] == s[i + 1..] && t[..i + 1] == s[..i] + [c];
  }

  lemma RotateWrap(s: seq<char>, i: nat, c: char)
    requires i + 1 == |s|
    ensures (i + 1) % |s| == 0
    ensures s[i := c][0..] + s[i := c][..0] == (s[i + 1..] + s[..i]) + [c]
  {
    assert s[i := c] == s[..i] + [c];
  }

  /** With counts in step with the window, no surplus copies means no repeated letter. */
  lemma DupsMeanRepeats(counts: seq<nat>, s: seq<char>, idx: nat)
    requires CountsOf(counts, s) && AllLower(s) && idx <= |s|
    ensures Excess(counts) == 0 <==> NoRepeats(s[idx..] + s[..idx])
  {
    assert s == s[..idx] + s[idx..];
    assert multiset(s[idx..] + s[..idx]) == multiset(s);
    ExcessZero(counts);
    LetterCounts(s);
    NoRepeatsCounts(s);
    NoRepeatsCounts(s[idx..] + s[..idx]);
  }

  // ------------------------------------------------------------------
  // Marker
  // ------------------------------------------------------------------

  class Marker {
    /** The window as a circular buffer; `idx` is the oldest slot, the next to be replaced. */
    var chars: array<char>
    var idx: nat
    /** How often each letter occurs in the window. */
    var counts: array<nat>
    var dups: nat

    ghost predicate Valid()
      reads this, chars, counts
    {
      chars.Length >= 1 && counts.Length == 26 && idx < chars.Length
      && AllLower(chars[..]) && CountsOf(counts[..], chars[..])
      && dups == Excess(counts[..])
    }

    /** The window, oldest character first. */
    function Window(): seq<char>
      reads this, chars
      requires idx <= chars.Length
    {
      chars[idx..] + chars[..idx]
    }

    /** `Marker::new`: a window of `size` copies of 'a', so 'a' is counted `size` times. */
    constructor(size: nat)
      requires size >= 1
      ensures Valid() && fresh(chars) && fresh(counts)
      ensures Window() == Repeat('a', size) && dups == size - 1
    {
      chars := new char[size](_ => 'a');
      counts := new nat[26](k => if k == 0 then size else 0);
      idx := 0;
      dups := size - 1;
      new;
      assert chars[..] == Repeat('a', size);
      RepeatCount('a', size);
      var zeros := seq(26, _ => 0);
      ExcessOfZeros(zeros);
      ExcessUpdate(zeros, 0, size);
      assert counts[..] == zeros[0 := size];
    }

    /** The counts add up to the window size. */
    lemma CountsSumToSize()
      requires Valid()
      ensures LetterSum(multiset(chars[..]), 26) == chars.Length
    {
      LowerSum(chars[..]);
    }

    /** The first half of `add`: the oldest character's count drops, and `dups` with it. */
    method Remove()
      requires Valid()
      modifies counts, this`dups
      ensures CountsOfBag(counts[..], multiset(chars[..]) - multiset{chars[idx]})
      ensures dups == Excess(counts[..])
    {
      var cidx := chars[idx] as int - 'a' as int;
      ghost var c0 := counts[..];
      CountsRemove(c0, multiset(chars[..]), chars[idx]);
      ExcessUpdate(c0, cidx, c0[cidx] - 1);
      counts[cidx] := counts[cidx] - 1;
      if counts[cidx] > 0 {
        dups := dups - 1;
      }
      assert counts[..] == c0[cidx := c0[cidx] - 1];
    }

    /** The second half of `add`: c takes the oldest slot, its count rises, and the slot advances. */
    method Put(c: char)
      requires IsLower(c) && chars.Length >= 1 && counts.Length == 26 && idx < chars.Length
      requires AllLower(chars[..]) && CountsOfBag(counts[..], multiset(chars[..]) - multiset{chars[idx]})
      requires dups == Excess(counts[..])
      modifies this, chars, counts
      ensures Valid() && chars == old(chars) && counts == old(counts)
      ensures chars[..] == old(chars[..])[old(idx) := c] && idx == (old(idx) + 1) % chars.Length
    {
      ghost var s0 := chars[..];
      ghost var c1 := counts[..];
      var cidx := c as int - 'a' as int;
      PutKeeps(s0, idx, c, c1, dups);
      chars[idx] := c;
      counts[cidx] := counts[cidx] + 1;
      if counts[cidx] > 1 {
        dups := dups + 1;
      }
      assert counts[..] == c1[cidx := c1[cidx] + 1];
      assert chars[..] == s0[idx := c];
      idx := (idx + 1) % chars.Length;
    }

    /**
     * `add`: the oldest character leaves the window and c enters it, the counts and `dups` follow, and the
     * answer is whether the new window has no repeated letter. A character that is not a lower-case letter
     * panics (the Rust index arithmetic underflows or runs past the 26 counters).
     */
    method Add(c: char) returns (r: Result<bool>)
      requires Valid()
      modifies this, chars, counts
      ensures r.Panic? <==> !IsLower(c)
      ensures r.Ok? ==> Valid() && chars == old(chars) && counts == old(counts)
      ensures r.Ok? ==> Window() == old(Window())[1..] + [c]
      ensures r.Ok? ==> (r.value <==> NoRepeats(Window()))
    {
      if !IsLower(c) {
        return Panic("attempt to subtract with overflow or index out of bounds");
      }
      ghost var s0 := chars[..];
      ghost var i0 := idx;
      Remove();
      Put(c);
      Rotate(s0, i0, c);
      DupsMeanRepeats(counts[..], chars[..], idx);
      return Ok(dups == 0);
    }
  }

  /** What Put's writes do to the window, the counters and `dups`, stated on values. */
  lemma PutKeeps(s0: seq<char>, i: nat, c: char, c1: seq<nat>, dups: nat)
    requires IsLower(c) && i < |s0| && AllLower(s0) && CountsOfBag(c1, multiset(s0) - multiset{s0[i]})
    requires dups == Excess(c1)
    ensures var k := c as int - 'a' as int;
      AllLower(s0[i := c]) && CountsOf(c1[k := c1[k] + 1], s0[i := c]) &&
      (if c1[k] + 1 > 1 then dups + 1 else dups) == Excess(c1[k := c1[k] + 1])
  {
    var k := c as int - 'a' as int;
    MultisetUpdate(s0, i, c);
    CountsAdd(c1, multiset(s0) - multiset{s0[i]}, c);
    ExcessUpdate(c1, k, c1[k] + 1);
  }

  lemma {:induction false} LowerSum(s: seq<char>)
    requires AllLower(s)
    ensures LetterSum(multiset(s), 26) == |s|
    decreases |s|
  {
    if s == [] {
      ZeroSum(26);
    } else {
      var n := |s| - 1;
      LowerSum(s[..n]);
      assert s == s[..n] + [s[n]];
      LetterSumAdd(multiset(s[..n]), s[n], 26);
    }
  }

  lemma {:induction false} ZeroSum(n: nat)
    requires n <= 26
    ensures LetterSum(multiset{}, n) == 0
    decreases n
  {
    if n > 0 {
      ZeroSum(n - 1);
    }
  }

  // ------------------------------------------------------------------
  // find_marker
  // ------------------------------------------------------------------

  /** The window of `size` characters ending at e (exclusive) has no repeated letter. */
  predicate IsMarkerAt(msg: seq<char>, size: nat, e: nat)
    requires size <= e <= |msg|
  {
    NoRepeats(msg[e - size..e])
  }

  /** The first end position at or after e whose window has no repeated letter. */
  function FirstMarker(msg: seq<char>, size: nat, e: nat): (r: Option<nat>)
    requires e >= size
    ensures r.Some? ==> e <= r.value <= |msg| && IsMarkerAt(msg, size, r.value)
    decreases |msg| + 1 - e
  {
    if e > |msg| then None
    else if IsMarkerAt(msg, size, e) then Some(e)
    else FirstMarker(msg, size, e + 1)
  }

  /** The marker found is the first: no earlier end position at or after e has a window without repeats. */
  lemma {:induction false} FirstMarkerFirst(msg: seq<char>, size: nat, e: nat)
    requires e >= size
    ensures FirstMarker(msg, size, e).Some? ==>
              forall f :: e <= f < FirstMarker(msg, size, e).value ==> !IsMarkerAt(msg, size, f)
    ensures FirstMarker(msg, size, e).None? ==> forall f :: e <= f <= |msg| ==> !IsMarkerAt(msg, size, f)
    decreases |msg| + 1 - e
  {
    if e <= |msg| && !IsMarkerAt(msg, size, e) {
      FirstMarkerFirst(msg, size, e + 1);
    }
  }

  /** A search outcome that reports the marker o, or panics when there is none. */
  predicate Reports(r: Result<nat>, o: Option<nat>)
  {
    (r.Ok? <==> o.Some?) && (r.Ok? ==> r.value == o.value)
  }

  /** What the window holds after the first i characters: the last `size` of 'a'^size + msg[..i]. */
  function WindowAfter(msg: seq<char>, size: nat, i: nat): seq<char>
    requires i <= |msg|
  {
    (Repeat('a', size) + msg[..i])[i..]
  }

  lemma WindowAfterStep(msg: seq<char>, size: nat, i: nat)
    requires i < |msg| && size >= 1
    ensures WindowAfter(msg, size, i + 1) == WindowAfter(msg, size, i)[1..] + [msg[i]]
  {
    assert Repeat('a', size) + msg[..i + 1] == (Repeat('a', size) + msg[..i]) + [msg[i]];
  }

  /** Once `size` characters are in, the window is exactly the last `size` characters of the message. */
  lemma WindowAfterFull(msg: seq<char>, size: nat, i: nat)
    requires size <= i <= |msg|
    ensures WindowAfter(msg, size, i) == msg[i - size..i]
  {
  }

  function Max(a: nat, b: nat): nat { if a >= b then a else b }

  /** One step of `find_marker`: the window after character i, and what it says about the search. */
  lemma SearchStep(msg: seq<char>, size: nat, i: nat, w: seq<char>)
    requires size >= 2 && i < |msg| && w == WindowAfter(msg, size, i)[1..] + [msg[i]]
    ensures w == WindowAfter(msg, size, i + 1)
    ensures i + 1 >= size && NoRepeats(w) ==> FirstMarker(msg, size, Max(size, i + 1)) == Some(i + 1)
    ensures i + 1 < size || !NoRepeats(w) ==>
              FirstMarker(msg, size, Max(size, i + 1)) == FirstMarker(msg, size, Max(size, i + 2))
  {
    WindowAfterStep(msg, size, i);
    if i + 1 >= size {
      WindowAfterFull(msg, size, i + 1);
    }
  }

  /**
   * `find_marker`: feeds the message to a `Marker` and returns i + 1 at the first i past the first `size`-1
   * characters whose window has no repeats, panicking when there is none. Sizes 0 and 1 always panic: an
   * unsigned subtraction underflows (size 1 also panics on an empty message, for want of a marker).
   */
  method FindMarker(msg: seq<char>, size: nat) returns (r: Result<nat>)
    ensures size >= 2 ==> Reports(r, FirstMarker(msg[..LowerPrefix(msg)], size, size))
    ensures size >= 2 && AllLower(msg) ==> Reports(r, FirstMarker(msg, size, size))
    ensures size < 2 ==> r.Panic?
  {
    if size == 0 {
      return Panic("attempt to subtract with overflow");
    }
    var m := new Marker(size);
    r := Scan(m, msg, size);
  }

  /** The loop of `find_marker`, feeding each character of the message to the marker m. */
  method Scan(m: Marker, msg: seq<char>, size: nat) returns (r: Result<nat>)
    requires m.Valid() && m.chars.Length == size && m.Window() == WindowAfter(msg, size, 0)
    modifies m, m.chars, m.counts
    ensures size >= 2 ==> Reports(r, FirstMarker(msg[..LowerPrefix(msg)], size, size))
    ensures size >= 2 && AllLower(msg) ==> Reports(r, FirstMarker(msg, size, size))
    ensures size < 2 ==> r.Panic?
  {
    ghost var chars, counts := m.chars, m.counts;
    ghost var low := LowerPrefix(msg);
    ghost var p := msg[..low];
    for i := 0 to |msg|
      invariant m.Valid() && m.chars == chars && m.counts == counts
      invariant m.Window() == WindowAfter(msg, size, i)
      invariant i <= low
      invariant size >= 2 ==> FirstMarker(msg, size, size) == FirstMarker(msg, size, Max(size, i + 1))
      invariant size >= 2 ==> FirstMarker(p, size, size) == FirstMarker(p, size, Max(size, i + 1))
    {
      var ok := Feed(m, msg, size, i);
      if ok.Panic? {
        if size >= 2 {
          LowerPrefixAt(msg, i);
          NoMarkerPast(p, size, Max(size, i + 1));
        }
        return Panic(ok.msg);
      }
      LowerPrefixAt(msg, i);
      if size >= 2 {
        PrefixStep(msg, low, size, i, ok.value);
      }
      if ok.value {
        if size < 2 {
          return Panic("attempt to subtract with overflow");
        }
        if i > size - 2 {
          return Ok(i + 1);
        }
      }
    }
    if size >= 2 {
      NoMarkerPast(p, size, Max(size, |msg| + 1));
    }
    return Panic("Unexpected, a marker was not found");
  }

  /** The length of the message's longest prefix of lower-case letters. */
  function LowerPrefix(msg: seq<char>): (n: nat)
    ensures n <= |msg|
    decreases |msg|
  {
    if msg == [] || !IsLower(msg[0]) then 0 else 1 + LowerPrefix(msg[1..])
  }

  /** The prefix is all lower case, and is followed by the first character that is not. */
  lemma {:induction false} LowerPrefixFacts(msg: seq<char>)
    ensures LowerPrefix(msg) <= |msg| && AllLower(msg[..LowerPrefix(msg)])
    ensures LowerPrefix(msg) < |msg| ==> !IsLower(msg[LowerPrefix(msg)])
    ensures AllLower(msg) ==> LowerPrefix(msg) == |msg|
    decreases |msg|
  {
    if msg != [] && IsLower(msg[0]) {
      LowerPrefixFacts(msg[1..]);
      var n := LowerPrefix(msg);
      forall k | 0 <= k < n
        ensures IsLower(msg[..n][k])
      {
        if k > 0 {
          assert msg[..n][k] == msg[1..][..n - 1][k - 1];
        }
      }
    }
  }

  /** Within the reach of the prefix, a character is lower case exactly when the prefix goes on past it. */
  lemma LowerPrefixAt(msg: seq<char>, i: nat)
    requires i <= LowerPrefix(msg) && i < |msg|
    ensures IsLower(msg[i]) <==> i < LowerPrefix(msg)
  {
    LowerPrefixFacts(msg);
    if i < LowerPrefix(msg) {
      assert msg[..LowerPrefix(msg)][i] == msg[i];
    }
  }

  lemma PrefixSlice(msg: seq<char>, low: nat, a: nat, b: nat)
    requires a <= b <= low <= |msg|
    ensures msg[..low][a..b] == msg[a..b]
  {
  }

  /** No window ends past the end of the message. */
  lemma NoMarkerPast(p: seq<char>, size: nat, e: nat)
    requires e >= size && e > |p|
    ensures FirstMarker(p, size, e) == None
  {
  }

  /**
   * Character i lies in the lower-case prefix, so the window ending after it is the
   * same in the prefix as in the message: the search over the prefix takes the step
   * the search over the message takes.
   */
  lemma PrefixStep(msg: seq<char>, low: nat, size: nat, i: nat, found: bool)
    requires size >= 2 && i < low <= |msg|
    requires found && i + 1 >= size ==> FirstMarker(msg, size, Max(size, i + 1)) == Some(i + 1)
    requires !(found && i + 1 >= size) ==>
               FirstMarker(msg, size, Max(size, i + 1)) == FirstMarker(msg, size, Max(size, i + 2))
    ensures found && i + 1 >= size ==> FirstMarker(msg[..low], size, Max(size, i + 1)) == Some(i + 1)
    ensures !(found && i + 1 >= size) ==>
              FirstMarker(msg[..low], size, Max(size, i + 1)) == FirstMarker(msg[..low], size, Max(size, i + 2))
  {
    var p := msg[..low];
    if i + 1 >= size {
      PrefixSlice(msg, low, i + 1 - size, i + 1);
      if !found {
        assert FirstMarker(msg, size, i + 1) != Some(i + 1);
      }
    }
  }

  /** Character i of the message goes into the window, and what the window then says about the search. */
  method Feed(m: Marker, msg: seq<char>, size: nat, i: nat) returns (ok: Result<bool>)
    requires i < |msg| && m.Valid() && m.chars.Length == size && m.Window() == WindowAfter(msg, size, i)
    modifies m, m.chars, m.counts
    ensures ok.Panic? <==> !IsLower(msg[i])
    ensures ok.Ok? ==> m.Valid() && m.chars == old(m.chars) && m.counts == old(m.counts)
    ensures ok.Ok? ==> m.Window() == WindowAfter(msg, size, i + 1)
    ensures ok.Ok? && size >= 2 && ok.value && i + 1 >= size ==>
              FirstMarker(msg, size, Max(size, i + 1)) == Some(i + 1)
    ensures ok.Ok? && size >= 2 && !(ok.value && i + 1 >= size) ==>
              FirstMarker(msg, size, Max(size, i + 1)) == FirstMarker(msg, size, Max(size, i + 2))
  {
    WindowAfterStep(msg, size, i);
    ok := m.Add(msg[i]);
    if ok.Ok? && size >= 2 {
      SearchStep(msg, size, i, m.Window());
    }
  }

  /** `part1`: the start-of-packet marker, a window of 4. */
  method Part1(msg: seq<char>) returns (r: Result<nat>)
    ensures Reports(r, FirstMarker(msg[..LowerPrefix(msg)], 4, 4))
    ensures AllLower(msg) ==> Reports(r, FirstMarker(msg, 4, 4))
  {
    r := FindMarker(msg, 4);
  }

  /** `part2`: the start-of-message marker, a window of 14. */
  method Part2(msg: seq<char>) returns (r: Result<nat>)
    ensures Reports(r, FirstMarker(msg[..LowerPrefix(msg)], 14, 14))
    ensures AllLower(msg) ==> Reports(r, FirstMarker(msg, 14, 14))
  {
    r := FindMarker(msg, 14);
  }

  /** `_no_duplicates`: no character occurs again later in the window. */
  method NoDuplicates(chars: seq<char>, size: nat) returns (r: bool)
    requires |chars| == size && size >= 1
    ensures r <==> NoRepeats(chars)
  {
    for i := 0 to size - 1
      invariant forall a, b :: 0 <= a < i && a < b < |chars| ==> chars[a] != chars[b]
    {
      if chars[i] in chars[i + 1..] {
        return false;
      }
    }
    return true;
  }

  /**
   * `_find_marker_contains`: the same search over `msg.windows(size)`, checking each window afresh.
   * `windows(0)` panics; with size 1 every single character is a marker.
   */
  method FindMarkerContains(msg: seq<char>, size: nat) returns (r: Result<nat>)
    ensures size >= 1 ==> Reports(r, FirstMarker(msg, size, size))
    ensures size == 0 ==> r.Panic?
  {
    if size == 0 {
      return Panic("window size must be non-zero");
    }
    var i := 0;
    while i + size <= |msg|
      invariant FirstMarker(msg, size, size) == FirstMarker(msg, size, i + size)
      decreases |msg| - i
    {
      var ok := NoDuplicates(msg[i..i + size], size);
      if ok {
        return Ok(i + size);
      }
      i := i + 1;
    }
    return Panic("Unexpected, a marker was not found");
  }

  /** The two searches agree whenever `find_marker` can run at all. */
  lemma SearchesAgree(msg: seq<char>, size: nat, r1: Result<nat>, r2: Result<nat>)
    requires size >= 2
    requires Reports(r1, FirstMarker(msg, size, size)) && Reports(r2, FirstMarker(msg, size, size))
    ensures r1.Ok? <==> r2.Ok?
    ensures r1.Ok? ==> r1.value == r2.value
  {
  }

  /**
   * With a window of one character the two searches disagree on a nonempty message: `find_marker` panics
   * on the unsigned `size - 2`, while the windows search reports position 1.
   */
  lemma SizeOneDiffers(msg: seq<char>)
    requires |msg| >= 1
    ensures FirstMarker(msg, 1, 1) == Some(1)
  {
    assert IsMarkerAt(msg, 1, 1);
  }

  /** Two equal characters inside the window ending at e rule it out. */
  lemma RepeatInWindow(msg: seq<char>, size: nat, e: nat, a: nat, b: nat)
    requires size <= e <= |msg| && e - size <= a < b < e && msg[a] == msg[b]
    ensures !IsMarkerAt(msg, size, e)
  {
    assert msg[e - size..e][a - (e - size)] == msg[e - size..e][b - (e - size)];
  }

  // ------------------------------------------------------------------
  // generator and the examples
  // ------------------------------------------------------------------

  /** `generator`: the characters of the first line; no line at all fails the `unwrap`. */
  function Generator(input: string): Result<seq<char>>
  {
    var lines := Lines(input);
    if lines == [] then Panic("called `Option::unwrap()` on a `None` value") else Ok(lines[0])
  }

  /** The first part 1 sample, written as its first five characters and the rest. */
  lemma SampleMarker4(msg: seq<char>)
    requires msg == "bvwbj" + "plbgvbhsrlpgdmjqwftvncz"
    ensures FirstMarker(msg, 4, 4) == Some(5)
  {
    var pre := "bvwbj";
    assert msg[..5] == pre;
    assert msg[0] == pre[0] && msg[3] == pre[3];
    SkipWindow(msg, 4, 4, 0, 3);
    assert msg[1..5] == pre[1..];
    assert IsMarkerAt(msg, 4, 5);
  }

  lemma SampleWindow14()
    ensures NoRepeats("qmgbljsphdztnv")
  {
  }

  /** A window with a repeated letter sends the search on to the next end position. */
  lemma SkipWindow(msg: seq<char>, size: nat, e: nat, a: nat, b: nat)
    requires size <= e < |msg| && e - size <= a < b < e && msg[a] == msg[b]
    ensures FirstMarker(msg, size, e) == FirstMarker(msg, size, e + 1)
  {
    RepeatInWindow(msg, size, e, a, b);
  }

  lemma SampleMarker14End(msg: seq<char>)
    requires msg == "mjqjp" + "qmgbljsphdztnv" + "jfqwrcgsmlb"
    ensures FirstMarker(msg, 14, 19) == Some(19)
  {
    assert msg[5..19] == "qmgbljsphdztnv" by {
      assert msg[..19] == "mjqjp" + "qmgbljsphdztnv";
    }
    SampleWindow14();
  }

  /** The part 2 sample, written as the text before the marker, the marker window and the text after it. */
  lemma SampleMarker14(msg: seq<char>)
    requires msg == "mjqjp" + "qmgbljsphdztnv" + "jfqwrcgsmlb"
    ensures FirstMarker(msg, 14, 14) == Some(19)
  {
    var pre, w := "mjqjp", "qmgbljsphdztnv";
    SampleMarker14End(msg);
    assert msg[4] == pre[4] && msg[12] == w[7];
    SkipWindow(msg, 14, 18, 4, 12);
    assert msg[3] == pre[3] && msg[10] == w[5];
    SkipWindow(msg, 14, 17, 3, 10);
    assert msg[2] == pre[2] && msg[5] == w[0];
    SkipWindow(msg, 14, 16, 2, 5);
    assert msg[1] == pre[1] && msg[3] == pre[3];
    SkipWindow(msg, 14, 15, 1, 3);
    SkipWindow(msg, 14, 14, 1, 3);
  }

  // The other part 1 and part 2 samples, each written as the text before its marker window, the window and the rest.

  /** A window without repeats at m, after a repeat in every window from e on, is the first marker from e. */
  lemma {:induction false} MarkerAfterRepeats(msg: seq<char>, size: nat, e: nat, m: nat, pairs: seq<(nat, nat)>)
    requires size <= e <= m <= |msg| && |pairs| == m - e && IsMarkerAt(msg, size, m)
    requires forall k :: 0 <= k < |pairs| ==>
               e + k - size <= pairs[k].0 < pairs[k].1 < e + k && msg[pairs[k].0] == msg[pairs[k].1]
    ensures FirstMarker(msg, size, e) == Some(m)
    decreases m - e
  {
    if e < m {
      SkipWindow(msg, size, e, pairs[0].0, pairs[0].1);
      MarkerAfterRepeats(msg, size, e + 1, m, pairs[1..]);
    }
  }

  lemma SampleWindow4b()
    ensures NoRepeats("pdvj")
  {
  }

  lemma SampleMarker4b(msg: seq<char>)
    requires msg == "np" + "pdvj" + "thqldpwncqszvftbrmjlhg"
    ensures FirstMarker(msg, 4, 4) == Some(6)
  {
    var pre, w := "np", "pdvj";
    assert msg[2..6] == w by { assert msg[..6] == pre + w; }
    SampleWindow4b();
    assert msg[1] == pre[1] && msg[2] == w[0];
    MarkerAfterRepeats(msg, 4, 4, 6, [(1, 2), (1, 2)]);
  }

  lemma SampleWindow4c()
    ensures NoRepeats("rfnt")
  {
  }

  lemma SampleMarker4c(msg: seq<char>)
    requires msg == "nznrnf" + "rfnt" + "jfmvfwmzdfjlvtqnbhcprsg"
    ensures FirstMarker(msg, 4, 4) == Some(10)
  {
    var pre, w := "nznrnf", "rfnt";
    assert msg[6..10] == w by { assert msg[..10] == pre + w; }
    SampleWindow4c();
    assert msg[0] == pre[0] && msg[2] == pre[2];
    assert msg[2] == pre[2] && msg[4] == pre[4];
    assert msg[3] == pre[3] && msg[6] == w[0];
    assert msg[5] == pre[5] && msg[7] == w[1];
    MarkerAfterRepeats(msg, 4, 4, 10, [(0, 2), (2, 4), (2, 4), (3, 6), (5, 7), (5, 7)]);
  }

  lemma SampleWindow4d()
    ensures NoRepeats("zqfr")
  {
  }

  lemma SampleMarker4d(msg: seq<char>)
    requires msg == "zcfzfwz" + "zqfr" + "ljwzlrfnpqdbhtmscgvjw"
    ensures FirstMarker(msg, 4, 4) == Some(11)
  {
    var pre, w := "zcfzfwz", "zqfr";
    assert msg[7..11] == w by { assert msg[..11] == pre + w; }
    SampleWindow4d();
    assert msg[0] == pre[0] && msg[3] == pre[3];
    assert msg[2] == pre[2] && msg[4] == pre[4];
    assert msg[3] == pre[3] && msg[6] == pre[6];
    assert msg[6] == pre[6] && msg[7] == w[0];
    MarkerAfterRepeats(msg, 4, 4, 11, [(0, 3), (2, 4), (2, 4), (3, 6), (6, 7), (6, 7), (6, 7)]);
  }

  lemma SampleWindow14b()
    ensures NoRepeats("vbhsrlpgdmjqwf")
  {
  }

  lemma SampleMarker14b(msg: seq<char>)
    requires msg == "bvwbjplbg" + "vbhsrlpgdmjqwf" + "tvncz"
    ensures FirstMarker(msg, 14, 14) == Some(23)
  {
    var pre, w := "bvwbjplbg", "vbhsrlpgdmjqwf";
    assert msg[9..23] == w by { assert msg[..23] == pre + w; }
    SampleWindow14b();
    assert msg[0] == pre[0] && msg[3] == pre[3];
    assert msg[3] == pre[3] && msg[7] == pre[7];
    assert msg[7] == pre[7] && msg[10] == w[1];
    assert msg[8] == pre[8] && msg[16] == w[7];
    MarkerAfterRepeats(msg, 14, 14, 23, [(0, 3), (3, 7), (3, 7), (3, 7), (7, 10), (7, 10), (7, 10), (7, 10), (8, 16)]);
  }

  lemma SampleWindow14c()
    ensures NoRepeats("ldpwncqszvftbr")
  {
  }

  lemma SampleMarker14c(msg: seq<char>)
    requires msg == "nppdvjthq" + "ldpwncqszvftbr" + "mjlhg"
    ensures FirstMarker(msg, 14, 14) == Some(23)
  {
    var pre, w := "nppdvjthq", "ldpwncqszvftbr";
    assert msg[9..23] == w by { assert msg[..23] == pre + w; }
    SampleWindow14c();
    assert msg[1] == pre[1] && msg[2] == pre[2];
    assert msg[3] == pre[3] && msg[10] == w[1];
    assert msg[8] == pre[8] && msg[15] == w[6];
    MarkerAfterRepeats(msg, 14, 14, 23, [(1, 2), (1, 2), (3, 10), (3, 10), (8, 15), (8, 15), (8, 15), (8, 15), (8, 15)]);
  }

  lemma SampleWindow14d()
    ensures NoRepeats("wmzdfjlvtqnbhc")
  {
  }

  lemma SampleMarker14d(msg: seq<char>)
    requires msg == "nznrnfrfntjfmvf" + "wmzdfjlvtqnbhc" + "prsg"
    ensures FirstMarker(msg, 14, 14) == Some(29)
  {
    var pre, w := "nznrnfrfntjfmvf", "wmzdfjlvtqnbhc";
    assert msg[15..29] == w by { assert msg[..29] == pre + w; }
    SampleWindow14d();
    assert msg[0] == pre[0] && msg[2] == pre[2];
    assert msg[2] == pre[2] && msg[4] == pre[4];
    assert msg[3] == pre[3] && msg[6] == pre[6];
    assert msg[5] == pre[5] && msg[7] == pre[7];
    assert msg[7] == pre[7] && msg[11] == pre[11];
    assert msg[11] == pre[11] && msg[14] == pre[14];
    assert msg[12] == pre[12] && msg[16] == w[1];
    assert msg[14] == pre[14] && msg[19] == w[4];
    MarkerAfterRepeats(msg, 14, 14, 29, [(0, 2), (2, 4), (2, 4), (3, 6), (5, 7), (5, 7), (7, 11), (7, 11), (11, 14), (11, 14), (11, 14), (11, 14), (12, 16), (14, 19), (14, 19)]);
  }

  lemma SampleWindow14e()
    ensures NoRepeats("jwzlrfnpqdbhtm")
  {
  }

  lemma SampleMarker14e(msg: seq<char>)
    requires msg == "zcfzfwzzqfrl" + "jwzlrfnpqdbhtm" + "scgvjw"
    ensures FirstMarker(msg, 14, 14) == Some(26)
  {
    var pre, w := "zcfzfwzzqfrl", "jwzlrfnpqdbhtm";
    assert msg[12..26] == w by { assert msg[..26] == pre + w; }
    SampleWindow14e();
    assert msg[0] == pre[0] && msg[3] == pre[3];
    assert msg[2] == pre[2] && msg[4] == pre[4];
    assert msg[3] == pre[3] && msg[6] == pre[6];
    assert msg[6] == pre[6] && msg[7] == pre[7];
    assert msg[7] == pre[7] && msg[14] == w[2];
    assert msg[11] == pre[11] && msg[15] == w[3];
    MarkerAfterRepeats(msg, 14, 14, 26, [(0, 3), (2, 4), (2, 4), (3, 6), (6, 7), (6, 7), (6, 7), (7, 14), (11, 15), (11, 15), (11, 15), (11, 15)]);
  }


  /**
   * The Rust `test_marker` sequence: feeding "abcdd" to a fresh window of 4, only the fourth `add`
   * sees a window without repeats.
   */
  lemma SampleWindows()
    ensures WindowAfter("abcdd", 4, 3) == "aabc" && !NoRepeats(WindowAfter("abcdd", 4, 3))
    ensures WindowAfter("abcdd", 4, 4) == "abcd" && NoRepeats(WindowAfter("abcdd", 4, 4))
    ensures WindowAfter("abcdd", 4, 5) == "bcdd" && !NoRepeats(WindowAfter("abcdd", 4, 5))
  {
    var msg := "abcdd";
    assert msg[..3] == "abc" && msg[..4] == "abcd";
    assert WindowAfter(msg, 4, 3)[0] == WindowAfter(msg, 4, 3)[1] == 'a';
    WindowAfterFull(msg, 4, 4);
    WindowAfterFull(msg, 4, 5);
    assert WindowAfter(msg, 4, 5)[2] == WindowAfter(msg, 4, 5)[3];
  }
}
