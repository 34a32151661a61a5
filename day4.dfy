/**
 * Day 4, camp cleanup: each line holds two section ranges "lo-hi,lo-hi"; part 1 counts the pairs in
 * which one range contains the other, part 2 the pairs that overlap at all.
 */
module Day4 {
  import opened Wrappers
  import opened Text

  /** A section range `(lo, hi)`. */
  datatype Range = Range(lo: int, hi: int)
  datatype Pair = Pair(first: Range, second: Range)

  predicate WellFormed(a: Range) { a.lo <= a.hi }
  predicate In(x: int, a: Range) { a.lo <= x <= a.hi }

  /** Every section of b is a section of a. */
  ghost predicate Covers(a: Range, b: Range) { forall x :: In(x, b) ==> In(x, a) }

  /** `includes`: the differences of the low ends and of the high ends are zero or share a sign. */
  predicate Includes(a: Range, b: Range)
  {
    var l := a.lo - b.lo;
    var h := b.hi - a.hi;
    l == 0 || h == 0 || (l < 0) == (h < 0)
  }

  /** `overlaps`: a starts no later than b ends exactly when b starts no later than a ends. */
  predicate Overlaps(a: Range, b: Range)
  {
    var l := a.lo - b.hi;
    var h := b.lo - a.hi;
    (l <= 0) == (h <= 0)
  }

  /** The sign test is the same as comparing the ends: one range's ends lie inside the other's. */
  lemma IncludesEnds(a: Range, b: Range)
    ensures Includes(a, b) <==> (a.lo <= b.lo && b.hi <= a.hi) || (b.lo <= a.lo && a.hi <= b.hi)
  {
  }

  /** For well-formed ranges, `includes` holds iff one range covers every section of the other. */
  lemma IncludesMeansCovers(a: Range, b: Range)
    requires WellFormed(a) && WellFormed(b)
    ensures Includes(a, b) <==> Covers(a, b) || Covers(b, a)
  {
    IncludesEnds(a, b);
    if Covers(a, b) {
      assert In(b.lo, b) && In(b.hi, b);
    }
    if Covers(b, a) {
      assert In(a.lo, a) && In(a.hi, a);
    }
  }

  /** For well-formed ranges, `overlaps` holds iff some section lies in both. */
  lemma OverlapsMeansShared(a: Range, b: Range)
    requires WellFormed(a) && WellFormed(b)
    ensures Overlaps(a, b) <==> exists x :: In(x, a) && In(x, b)
  {
    if Overlaps(a, b) {
      var x := if a.lo <= b.lo then b.lo else a.lo;
      assert In(x, a) && In(x, b);
    }
  }

  /** Without the well-formedness the Rust code assumes, `overlaps` calls two disjoint ranges overlapping. */
  lemma OverlapsNeedsWellFormed()
    ensures Overlaps(Range(5, 1), Range(3, 4)) && !exists x :: In(x, Range(5, 1))
  {
  }

  lemma IncludesSymmetric(a: Range, b: Range)
    ensures Includes(a, b) <==> Includes(b, a)
  {
    IncludesEnds(a, b);
    IncludesEnds(b, a);
  }

  lemma OverlapsSymmetric(a: Range, b: Range)
    ensures Overlaps(a, b) <==> Overlaps(b, a)
  {
  }

  /** Containment is a special case of overlap. */
  lemma IncludesOverlaps(a: Range, b: Range)
    requires WellFormed(a) && WellFormed(b)
    ensures Includes(a, b) ==> Overlaps(a, b)
  {
    IncludesEnds(a, b);
  }

  // ------------------------------------------------------------------
  // part1 / part2
  // ------------------------------------------------------------------

  /** The number of pairs satisfying `test`. */
  function Count(pairs: seq<Pair>, test: (Range, Range) -> bool): (r: nat)
    ensures r <= |pairs|
    decreases |pairs|
  {
    if pairs == [] then 0
    else
      var last := pairs[|pairs| - 1];
      Count(pairs[..|pairs| - 1], test) + (if test(last.first, last.second) then 1 else 0)
  }

  method Part1(pairs: seq<Pair>) returns (c: nat)
    ensures c == Count(pairs, Includes)
  {
    c := 0;
    for i := 0 to |pairs|
      invariant c == Count(pairs[..i], Includes)
    {
      assert pairs[..i + 1][..i] == pairs[..i];
      if Includes(pairs[i].first, pairs[i].second) {
        c := c + 1;
      }
    }
    assert pairs[..|pairs|] == pairs;
  }

  method Part2(pairs: seq<Pair>) returns (c: nat)
    ensures c == Count(pairs, Overlaps)
  {
    c := 0;
    for i := 0 to |pairs|
      invariant c == Count(pairs[..i], Overlaps)
    {
      assert pairs[..i + 1][..i] == pairs[..i];
      if Overlaps(pairs[i].first, pairs[i].second) {
        c := c + 1;
      }
    }
    assert pairs[..|pairs|] == pairs;
  }

  predicate AllWellFormed(pairs: seq<Pair>)
  {
    forall i :: 0 <= i < |pairs| ==> WellFormed(pairs[i].first) && WellFormed(pairs[i].second)
  }

  /** Every pair part 1 counts, part 2 counts too. */
  lemma {:induction false} Part1AtMostPart2(pairs: seq<Pair>)
    requires AllWellFormed(pairs)
    ensures Count(pairs, Includes) <= Count(pairs, Overlaps)
    decreases |pairs|
  {
    if pairs != [] {
      var init := pairs[..|pairs| - 1];
      assert AllWellFormed(init) by {
        forall i | 0 <= i < |init| ensures WellFormed(init[i].first) && WellFormed(init[i].second) {
          assert init[i] == pairs[i];
        }
      }
      Part1AtMostPart2(init);
      var last := pairs[|pairs| - 1];
      IncludesOverlaps(last.first, last.second);
    }
  }

  /** Swapping the two ranges of every pair changes neither count. */
  lemma {:induction false} CountSwapped(pairs: seq<Pair>, swapped: seq<Pair>)
    requires |swapped| == |pairs|
    requires forall i :: 0 <= i < |pairs| ==> swapped[i] == Pair(pairs[i].second, pairs[i].first)
    ensures Count(swapped, Includes) == Count(pairs, Includes)
    ensures Count(swapped, Overlaps) == Count(pairs, Overlaps)
    decreases |pairs|
  {
    if pairs != [] {
      var n := |pairs| - 1;
      CountSwapped(pairs[..n], swapped[..n]);
      IncludesSymmetric(pairs[n].first, pairs[n].second);
      OverlapsSymmetric(pairs[n].first, pairs[n].second);
    }
  }

  // ------------------------------------------------------------------
  // generator
  // ------------------------------------------------------------------

  /** Reads token k of a line: a missing token fails the `unwrap`, a non-number the `expect`. */
  function Token(tokens: seq<string>, k: nat): Result<int>
  {
    if k >= |tokens| then Panic("called `Option::unwrap()` on a `None` value")
    else match ParseI32(tokens[k])
      case None => Panic("Expecting a number")
      case Some(v) => Ok(v)
  }

  /** One line split on ',' and '-' into two ranges; tokens beyond the fourth are ignored. */
  function ParseLine(line: string): (r: Result<Pair>)
  {
    var tokens := SplitTerminator(line, {',', '-'});
    var t0 := Token(tokens, 0);
    if t0.Panic? then Panic(t0.msg) else
    var t1 := Token(tokens, 1);
    if t1.Panic? then Panic(t1.msg) else
    var t2 := Token(tokens, 2);
    if t2.Panic? then Panic(t2.msg) else
    var t3 := Token(tokens, 3);
    if t3.Panic? then Panic(t3.msg) else
    Ok(Pair(Range(t0.value, t1.value), Range(t2.value, t3.value)))
  }

  function ParseLines(lines: seq<string>): (r: Result<seq<Pair>>)
    ensures r.Ok? ==> |r.value| == |lines|
    decreases |lines|
  {
    if lines == [] then Ok([])
    else
      var head := ParseLine(lines[0]);
      if head.Panic? then Panic(head.msg)
      else
        var tail := ParseLines(lines[1..]);
        if tail.Panic? then Panic(tail.msg) else Ok([head.value] + tail.value)
  }

  /** `generator`: one pair per line. */
  function Generator(input: string): Result<seq<Pair>>
  {
    ParseLines(Lines(input))
  }

  predicate Printable(p: Pair)
  {
    0 <= p.first.lo <= I32Max && 0 <= p.first.hi <= I32Max && 0 <= p.second.lo <= I32Max && 0 <= p.second.hi <= I32Max
  }

  predicate AllPrintable(pairs: seq<Pair>) { forall i :: 0 <= i < |pairs| ==> Printable(pairs[i]) }

  /** How a pair is written in the puzzle input. */
  function Show(p: Pair): string
    requires Printable(p)
  {
    DigitsOf(p.first.lo) + "-" + DigitsOf(p.first.hi) + "," + DigitsOf(p.second.lo) + "-" + DigitsOf(p.second.hi)
  }

  /** The four numbers of a written pair are its four tokens. */
  lemma TokensOfShow(p: Pair)
    requires Printable(p)
    ensures SplitTerminator(Show(p), {',', '-'})
         == [DigitsOf(p.first.lo), DigitsOf(p.first.hi), DigitsOf(p.second.lo), DigitsOf(p.second.hi)]
  {
    var seps := {',', '-'};
    var a, b, c, d := DigitsOf(p.first.lo), DigitsOf(p.first.hi), DigitsOf(p.second.lo), DigitsOf(p.second.hi);
    DigitsFree(p.first.lo, seps);
    DigitsFree(p.first.hi, seps);
    DigitsFree(p.second.lo, seps);
    DigitsFree(p.second.hi, seps);
    var s3 := d;
    var s2 := c + ['-'] + s3;
    var s1 := b + [','] + s2;
    var s0 := a + ['-'] + s1;
    assert Show(p) == s0;
    SplitOnFree(d, seps);
    SplitOnPiece(c, '-', s3, seps);
    assert SplitOn(s2, seps) == [c, d];
    SplitOnPiece(b, ',', s2, seps);
    assert SplitOn(s1, seps) == [b, c, d];
    SplitOnPiece(a, '-', s1, seps);
    assert SplitOn(s0, seps) == [a, b, c, d];
    ValueOfDigits(p.second.hi);
  }

  /** Every pair with numbers in the i32 range is read back from its own line. */
  lemma ParseShow(p: Pair)
    requires Printable(p)
    ensures ParseLine(Show(p)) == Ok(p)
  {
    TokensOfShow(p);
    ParseSignedDigits(p.first.lo, I32Min, I32Max);
    ParseSignedDigits(p.first.hi, I32Min, I32Max);
    ParseSignedDigits(p.second.lo, I32Min, I32Max);
    ParseSignedDigits(p.second.hi, I32Min, I32Max);
  }

  /** The text of a list of pairs, one per line. */
  function Render(pairs: seq<Pair>): string
    requires AllPrintable(pairs)
    decreases |pairs|
  {
    if pairs == [] then [] else Show(pairs[0]) + "\n" + Render(pairs[1..])
  }

  lemma ShowFree(p: Pair)
    requires Printable(p)
    ensures FreeOf(Show(p), {'\n'}) && |Show(p)| >= 1
  {
    DigitsFree(p.first.lo, {'\n'});
    DigitsFree(p.first.hi, {'\n'});
    DigitsFree(p.second.lo, {'\n'});
    DigitsFree(p.second.hi, {'\n'});
  }

  /** `Lines` of the rendered text gives back one line per pair. */
  lemma {:induction false} LinesOfRender(pairs: seq<Pair>)
    requires AllPrintable(pairs)
    ensures SplitOn(Render(pairs), {'\n'}) == ShowAll(pairs) + [[]]
    decreases |pairs|
  {
    if pairs == [] {
    } else {
      ShowFree(pairs[0]);
      LinesOfRender(pairs[1..]);
      SplitOnPiece(Show(pairs[0]), '\n', Render(pairs[1..]), {'\n'});
    }
  }

  function ShowAll(pairs: seq<Pair>): (r: seq<string>)
    requires AllPrintable(pairs)
    ensures |r| == |pairs| && forall i :: 0 <= i < |pairs| ==> r[i] == Show(pairs[i])
    decreases |pairs|
  {
    if pairs == [] then [] else [Show(pairs[0])] + ShowAll(pairs[1..])
  }

  lemma ParseLinesCons(lines: seq<string>, p: Pair, rest: seq<Pair>)
    requires lines != [] && ParseLine(lines[0]) == Ok(p) && ParseLines(lines[1..]) == Ok(rest)
    ensures ParseLines(lines) == Ok([p] + rest)
  {
  }

  lemma {:induction false} ParseShown(pairs: seq<Pair>)
    requires AllPrintable(pairs)
    ensures ParseLines(ShowAll(pairs)) == Ok(pairs)
    decreases |pairs|
  {
    var lines := ShowAll(pairs);
    if pairs != [] {
      ParseShow(pairs[0]);
      ParseShown(pairs[1..]);
      assert lines[1..] == ShowAll(pairs[1..]);
      ParseLinesCons(lines, pairs[0], pairs[1..]);
      assert [pairs[0]] + pairs[1..] == pairs;
    }
  }

  /** `generator` reads back every list of pairs written one per line. */
  lemma GeneratorRoundTrip(pairs: seq<Pair>)
    requires AllPrintable(pairs)
    ensures Generator(Render(pairs)) == Ok(pairs)
  {
    LinesOfRender(pairs);
    var parts := ShowAll(pairs) + [[]];
    assert parts[..|parts| - 1] == ShowAll(pairs);
    assert Lines(Render(pairs)) == ShowAll(pairs);
    ParseShown(pairs);
  }

  // ------------------------------------------------------------------
  // The puzzle's example
  // ------------------------------------------------------------------

  function Sample(): seq<Pair>
  {
    [ Pair(Range(2, 4), Range(6, 8)), Pair(Range(2, 3), Range(4, 5)), Pair(Range(5, 7), Range(7, 9)),
      Pair(Range(2, 8), Range(3, 7)), Pair(Range(6, 6), Range(4, 6)), Pair(Range(2, 6), Range(4, 8)) ]
  }

  lemma SampleAnswers()
    ensures Count(Sample(), Includes) == 2 && Count(Sample(), Overlaps) == 4
  {
    var s := Sample();
    assert s[..1][..0] == [] && s[..2][..1] == s[..1] && s[..3][..2] == s[..2];
    assert s[..4][..3] == s[..3] && s[..5][..4] == s[..4] && s[..5] == s[..|s| - 1];
    assert Count(s[..1], Includes) == 0 && Count(s[..1], Overlaps) == 0;
    assert Count(s[..2], Includes) == 0 && Count(s[..2], Overlaps) == 0;
    assert Count(s[..3], Includes) == 0 && Count(s[..3], Overlaps) == 1;
    assert Count(s[..4], Includes) == 1 && Count(s[..4], Overlaps) == 2;
    assert Count(s[..5], Includes) == 2 && Count(s[..5], Overlaps) == 3;
  }

  /** The hand-picked cases of `includes` and `overlaps`: touching ranges overlap without one holding the other. */
  lemma SampleCases()
    ensures Includes(Range(1, 1), Range(1, 1)) && Includes(Range(1, 2), Range(1, 1)) && Includes(Range(1, 1), Range(1, 2))
    ensures Includes(Range(0, 2), Range(1, 1)) && Includes(Range(1, 1), Range(0, 2))
    ensures !Includes(Range(1, 2), Range(2, 3)) && !Includes(Range(2, 3), Range(1, 2))
    ensures !Includes(Range(1, 2), Range(3, 4)) && !Includes(Range(3, 4), Range(1, 2))
    ensures !Includes(Range(1, 3), Range(2, 4)) && !Includes(Range(2, 4), Range(1, 3))
    ensures Overlaps(Range(1, 1), Range(1, 1)) && Overlaps(Range(1, 2), Range(1, 1)) && Overlaps(Range(1, 1), Range(1, 2))
    ensures Overlaps(Range(0, 2), Range(1, 1)) && Overlaps(Range(1, 1), Range(0, 2))
    ensures Overlaps(Range(1, 2), Range(2, 3)) && Overlaps(Range(2, 3), Range(1, 2))
    ensures !Overlaps(Range(1, 2), Range(3, 4)) && !Overlaps(Range(3, 4), Range(1, 2))
    ensures Overlaps(Range(1, 3), Range(2, 4)) && Overlaps(Range(2, 4), Range(1, 3))
  {
  }
}
