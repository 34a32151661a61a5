/**
 * Text handling shared by the puzzle front ends: decimal digits, Rust's `str::parse` for integers,
 * and the `split` / `split_terminator` / `lines` splitters of `str`.
 */
module Text {
  import opened Wrappers

  predicate IsDigit(c: char) { '0' <= c <= '9' }

  function DigitValue(c: char): nat
    requires IsDigit(c)
  {
    (c as int) - ('0' as int)
  }

  predicate AllDigits(s: string) { forall i :: 0 <= i < |s| ==> IsDigit(s[i]) }

  /** The decimal digits of n, most significant first. */
  function DigitsOf(n: nat): string
    decreases n
  {
    if n < 10 then [('0' as int + n) as char]
    else DigitsOf(n / 10) + [('0' as int + n % 10) as char]
  }

  /** The number a string of decimal digits denotes (most significant first). */
  function Value(s: string): nat
    requires AllDigits(s)
    decreases |s|
  {
    if s == [] then 0 else Value(s[..|s| - 1]) * 10 + DigitValue(s[|s| - 1])
  }

  /** Printing a number and reading it back gives the number. */
  lemma {:induction false} ValueOfDigits(n: nat)
    ensures AllDigits(DigitsOf(n)) && |DigitsOf(n)| >= 1
    ensures Value(DigitsOf(n)) == n
    decreases n
  {
    if n >= 10 {
      ValueOfDigits(n / 10);
      var s := DigitsOf(n);
      assert s[..|s| - 1] == DigitsOf(n / 10);
    }
  }

  /**
   * Rust's `str::parse::<T>()` for a signed integer type whose values are lo..hi: an optional sign
   * followed by at least one decimal digit, the value in range; anything else is an error.
   */
  function ParseSigned(s: string, lo: int, hi: int): (r: Option<int>)
    ensures r.Some? ==> lo <= r.value <= hi
  {
    if |s| >= 2 && s[0] == '-' && AllDigits(s[1..]) && lo <= -(Value(s[1..]) as int) <= hi then Some(-(Value(s[1..]) as int))
    else if |s| >= 2 && s[0] == '+' && AllDigits(s[1..]) && lo <= Value(s[1..]) <= hi then Some(Value(s[1..]))
    else if |s| >= 1 && AllDigits(s) && lo <= Value(s) <= hi then Some(Value(s))
    else None
  }

  const I32Min: int := -0x8000_0000
  const I32Max: int := 0x7fff_ffff

  function ParseI32(s: string): Option<int> { ParseSigned(s, I32Min, I32Max) }

  /** `to_string` of a signed integer: a '-' before the digits of a negative number. */
  function IntText(n: int): string
  {
    if n < 0 then "-" + DigitsOf(-n) else DigitsOf(n)
  }

  /** Every signed number in range is read back from its own decimal form. */
  lemma ParseIntText(n: int, lo: int, hi: int)
    requires lo <= n <= hi
    ensures ParseSigned(IntText(n), lo, hi) == Some(n)
  {
    if n < 0 {
      ValueOfDigits(-n);
      var s := IntText(n);
      assert s[1..] == DigitsOf(-n);
      assert s[0] == '-' && |s| >= 2 && AllDigits(s[1..]) && Value(s[1..]) == -n;
    } else {
      ParseSignedDigits(n, lo, hi);
    }
  }

  /** A signed numeral holds none of a set of separators that are neither digits nor '-'. */
  lemma IntTextFree(n: int, seps: set<char>)
    requires '-' !in seps && forall c :: c in seps ==> !IsDigit(c)
    ensures FreeOf(IntText(n), seps)
  {
    if n < 0 {
      DigitsFree(-n, seps);
    } else {
      DigitsFree(n, seps);
    }
  }

  /** Rust's `str::parse::<T>()` for an unsigned type whose values are 0..hi: an optional '+', then digits. */
  function ParseUnsigned(s: string, hi: nat): (r: Option<nat>)
    ensures r.Some? ==> r.value <= hi
  {
    if |s| >= 2 && s[0] == '+' && AllDigits(s[1..]) && Value(s[1..]) <= hi then Some(Value(s[1..]))
    else if |s| >= 1 && AllDigits(s) && Value(s) <= hi then Some(Value(s))
    else None
  }

  /** Every number in range is read back from its own decimal form. */
  lemma ParseSignedDigits(n: nat, lo: int, hi: int)
    requires lo <= n <= hi
    ensures ParseSigned(DigitsOf(n), lo, hi) == Some(n)
  {
    ValueOfDigits(n);
    var s := DigitsOf(n);
    assert s[0] != '-' && s[0] != '+' by { assert IsDigit(s[0]); }
  }

  lemma ParseUnsignedDigits(n: nat, hi: nat)
    requires n <= hi
    ensures ParseUnsigned(DigitsOf(n), hi) == Some(n)
  {
    ValueOfDigits(n);
    var s := DigitsOf(n);
    assert s[0] != '+' by { assert IsDigit(s[0]); }
  }

  // ------------------------------------------------------------------
  // Splitting
  // ------------------------------------------------------------------

  /** `s.split(|c| seps.contains(c))`: the pieces between separator characters, always at least one. */
  function SplitOn(s: string, seps: set<char>): (r: seq<string>)
    ensures |r| >= 1
    ensures forall i, j :: 0 <= i < |r| && 0 <= j < |r[i]| ==> r[i][j] !in seps
    decreases |s|
  {
    if s == [] then [[]]
    else
      var rest := SplitOn(s[1..], seps);
      if s[0] in seps then [[]] + rest
      else [[s[0]] + rest[0]] + rest[1..]
  }

  /** The pieces glued back together with `sep` between them. */
  function Join(parts: seq<string>, sep: char): string
    decreases |parts|
  {
    if parts == [] then []
    else if |parts| == 1 then parts[0]
    else parts[0] + [sep] + Join(parts[1..], sep)
  }

  /** Appending a piece adds the separator and the piece at the end. */
  lemma {:induction false} JoinSnoc(parts: seq<string>, last: string, sep: char)
    requires parts != []
    ensures Join(parts + [last], sep) == Join(parts, sep) + [sep] + last
    decreases |parts|
  {
    if |parts| > 1 {
      assert (parts + [last])[1..] == parts[1..] + [last];
      JoinSnoc(parts[1..], last, sep);
    }
  }

  /** Splitting on one character loses nothing: joining the pieces restores the text. */
  lemma {:induction false} SplitJoin(s: string, sep: char)
    ensures Join(SplitOn(s, {sep}), sep) == s
    decreases |s|
  {
    if s != [] {
      var rest := SplitOn(s[1..], {sep});
      SplitJoin(s[1..], sep);
      if s[0] != sep {
        if |rest| == 1 {
          assert SplitOn(s, {sep}) == [[s[0]] + rest[0]];
        } else {
          assert rest == [rest[0]] + rest[1..];
          assert Join(rest, sep) == rest[0] + [sep] + Join(rest[1..], sep);
          assert SplitOn(s, {sep})[1..] == rest[1..];
        }
      }
    }
  }

  predicate FreeOf(part: string, seps: set<char>) { forall j :: 0 <= j < |part| ==> part[j] !in seps }

  /** Joining pieces that do not contain the separator and splitting again gives the pieces back. */
  lemma {:induction false} JoinSplit(parts: seq<string>, sep: char)
    requires |parts| >= 1
    requires forall i :: 0 <= i < |parts| ==> FreeOf(parts[i], {sep})
    ensures SplitOn(Join(parts, sep), {sep}) == parts
    decreases |parts|, |parts[0]|
  {
    if parts[0] == [] {
      if |parts| > 1 {
        JoinSplit(parts[1..], sep);
        assert Join(parts, sep) == [sep] + Join(parts[1..], sep);
        assert Join(parts, sep)[1..] == Join(parts[1..], sep);
      }
    } else {
      var p0 := parts[0];
      var shorter := [p0[1..]] + parts[1..];
      ShorterFree(parts, sep);
      JoinSplit(shorter, sep);
      JoinShorter(parts, sep);
      assert Join(parts, sep)[0] != sep by { assert FreeOf(parts[0], {sep}); }
      assert [p0[0]] + p0[1..] == p0;
    }
  }

  lemma ShorterFree(parts: seq<string>, sep: char)
    requires |parts| >= 1 && parts[0] != []
    requires forall i :: 0 <= i < |parts| ==> FreeOf(parts[i], {sep})
    ensures forall i :: 0 <= i < |parts| ==> FreeOf(([parts[0][1..]] + parts[1..])[i], {sep})
  {
    var shorter := [parts[0][1..]] + parts[1..];
    forall i | 0 <= i < |shorter| ensures FreeOf(shorter[i], {sep}) {
      if i == 0 {
        assert FreeOf(parts[0], {sep});
      } else {
        assert shorter[i] == parts[i];
      }
    }
  }

  /** Joining starts with the first character of the first piece, then joins the rest of it. */
  lemma JoinShorter(parts: seq<string>, sep: char)
    requires |parts| >= 1 && parts[0] != []
    ensures Join(parts, sep)[0] == parts[0][0]
    ensures Join(parts, sep)[1..] == Join([parts[0][1..]] + parts[1..], sep)
  {
    var p0 := parts[0];
    var shorter := [p0[1..]] + parts[1..];
    var s := Join(parts, sep);
    if |parts| == 1 {
      assert s == p0;
    } else {
      assert s == p0 + [sep] + Join(parts[1..], sep);
      assert shorter[1..] == parts[1..];
      assert Join(shorter, sep) == p0[1..] + [sep] + Join(parts[1..], sep);
    }
  }

  /** A piece without separators splits to itself. */
  lemma {:induction false} SplitOnFree(x: string, seps: set<char>)
    requires FreeOf(x, seps)
    ensures SplitOn(x, seps) == [x]
    decreases |x|
  {
    if x != [] {
      SplitOnFree(x[1..], seps);
      assert [x[0]] + x[1..] == x;
    }
  }

  /** A separator-free piece followed by a separator is split off as the first piece. */
  lemma {:induction false} SplitOnPiece(x: string, c: char, y: string, seps: set<char>)
    requires FreeOf(x, seps) && c in seps
    ensures SplitOn(x + [c] + y, seps) == [x] + SplitOn(y, seps)
    decreases |x|
  {
    if x == [] {
      assert x + [c] + y == [c] + y;
      assert ([c] + y)[1..] == y;
    } else {
      SplitOnPiece(x[1..], c, y, seps);
      var s := x + [c] + y;
      assert s[0] == x[0] && s[1..] == x[1..] + [c] + y;
      assert [x[0]] + x[1..] == x;
    }
  }

  /** A leading separator splits off an empty piece. */
  lemma SplitOnSep(c: char, y: string, seps: set<char>)
    requires c in seps
    ensures SplitOn([c] + y, seps) == [[]] + SplitOn(y, seps)
  {
    assert ([c] + y)[1..] == y;
  }

  /** Leading separators leave no word behind. */
  lemma SkipSep(c: char, y: string, seps: set<char>)
    requires c in seps
    ensures NonEmpty(SplitOn([c] + y, seps)) == NonEmpty(SplitOn(y, seps))
  {
    SplitOnSep(c, y, seps);
    var r := SplitOn(y, seps);
    assert ([[]] + r)[1..] == r;
  }

  /** A word followed by a separator is the first word. */
  lemma SkipWord(x: string, c: char, y: string, seps: set<char>)
    requires FreeOf(x, seps) && x != [] && c in seps
    ensures NonEmpty(SplitOn(x + [c] + y, seps)) == [x] + NonEmpty(SplitOn(y, seps))
  {
    SplitOnPiece(x, c, y, seps);
    var r := SplitOn(y, seps);
    assert ([x] + r)[1..] == r;
  }

  /** A lone word is the only word. */
  lemma LastWord(x: string, seps: set<char>)
    requires FreeOf(x, seps) && x != []
    ensures NonEmpty(SplitOn(x, seps)) == [x]
  {
    SplitOnFree(x, seps);
    assert [x][1..] == [];
  }

  /** `split_terminator`: `split`, but a trailing empty piece is skipped (so "" has no pieces). */
  function SplitTerminator(s: string, seps: set<char>): (r: seq<string>)
    ensures forall i, j :: 0 <= i < |r| && 0 <= j < |r[i]| ==> r[i][j] !in seps
  {
    var parts := SplitOn(s, seps);
    if parts[|parts| - 1] == [] then parts[..|parts| - 1] else parts
  }

  /** The characters Rust's `char::is_whitespace` accepts (Unicode White_Space). */
  const Whitespace: set<char> :=
    {'\t', '\n', 11 as char, 12 as char, '\r', ' ', 0x85 as char, 0xA0 as char, 0x1680 as char,
     0x2000 as char, 0x2001 as char, 0x2002 as char, 0x2003 as char, 0x2004 as char, 0x2005 as char,
     0x2006 as char, 0x2007 as char, 0x2008 as char, 0x2009 as char, 0x200A as char,
     0x2028 as char, 0x2029 as char, 0x202F as char, 0x205F as char, 0x3000 as char}

  predicate IsWhitespace(c: char) { c in Whitespace }

  /** `trim_start`: the leading whitespace removed. */
  function TrimLeading(s: string): (r: string)
    ensures |r| <= |s| && r == s[|s| - |r|..]
    ensures r == [] || !IsWhitespace(r[0])
    ensures forall k :: 0 <= k < |s| - |r| ==> IsWhitespace(s[k])
  {
    if s != [] && IsWhitespace(s[0]) then TrimLeading(s[1..]) else s
  }

  /** `trim_end`: the trailing whitespace removed. */
  function TrimTrailing(s: string): (r: string)
    ensures |r| <= |s| && r == s[..|r|]
    ensures r == [] || !IsWhitespace(r[|r| - 1])
    ensures forall k :: |r| <= k < |s| ==> IsWhitespace(s[k])
  {
    if s != [] && IsWhitespace(s[|s| - 1]) then TrimTrailing(s[..|s| - 1]) else s
  }

  /** `trim`: whitespace removed from both ends. */
  function Trim(s: string): string
  {
    TrimTrailing(TrimLeading(s))
  }

  function NonEmpty(parts: seq<string>): (r: seq<string>)
    ensures forall i :: 0 <= i < |r| ==> r[i] != []
    ensures |r| <= |parts|
  {
    if parts == [] then []
    else if parts[0] == [] then NonEmpty(parts[1..])
    else [parts[0]] + NonEmpty(parts[1..])
  }

  /** `split_whitespace`: the maximal runs of non-whitespace characters. */
  function SplitWhitespace(s: string): (r: seq<string>)
    ensures forall i, j :: 0 <= i < |r| && 0 <= j < |r[i]| ==> !IsWhitespace(r[i][j])
  {
    var parts := SplitOn(s, Whitespace);
    var r := NonEmpty(parts);
    assert forall i :: 0 <= i < |r| ==> r[i] in parts by { NonEmptyIn(parts); }
    r
  }

  lemma {:induction false} NonEmptyAppend(a: seq<string>, b: seq<string>)
    ensures NonEmpty(a + b) == NonEmpty(a) + NonEmpty(b)
    decreases |a|
  {
    if a == [] {
      assert a + b == b;
    } else {
      NonEmptyAppend(a[1..], b);
      assert (a + b)[0] == a[0] && (a + b)[1..] == a[1..] + b;
    }
  }

  lemma {:induction false} NonEmptyIn(parts: seq<string>)
    ensures forall i :: 0 <= i < |NonEmpty(parts)| ==> NonEmpty(parts)[i] in parts
    decreases |parts|
  {
    if parts != [] {
      NonEmptyIn(parts[1..]);
    }
  }

  /** Visible ASCII only: from '!' to '~'. */
  predicate Printable(s: string) { forall j :: 0 <= j < |s| ==> '!' <= s[j] <= '~' }

  /** Visible ASCII holds no whitespace. */
  lemma PrintableFree(s: string)
    requires Printable(s)
    ensures FreeOf(s, Whitespace)
  {
  }

  /** Words joined by single spaces split back into the same words. */
  lemma {:induction false} WordsJoined(words: seq<string>)
    requires forall i :: 0 <= i < |words| ==> words[i] != [] && FreeOf(words[i], Whitespace)
    ensures SplitWhitespace(Join(words, ' ')) == words
    decreases |words|
  {
    if |words| == 1 {
      LastWord(words[0], Whitespace);
    } else if |words| > 1 {
      WordsJoined(words[1..]);
      SkipWord(words[0], ' ', Join(words[1..], ' '), Whitespace);
    }
  }

  /** `str::lines` on text with '\n' line endings: the final line ending is optional. */
  function Lines(s: string): seq<string>
  {
    SplitTerminator(s, {'\n'})
  }

  /** A decimal numeral holds none of a set of non-digit separators. */
  lemma DigitsFree(n: nat, seps: set<char>)
    requires forall c :: c in seps ==> !IsDigit(c)
    ensures FreeOf(DigitsOf(n), seps)
  {
    ValueOfDigits(n);
  }

  /** Lines written one after the other, each ended by '\n'. */
  function Unlines(rows: seq<string>): string
    decreases |rows|
  {
    if rows == [] then [] else rows[0] + "\n" + Unlines(rows[1..])
  }

  lemma {:induction false} SplitUnlines(rows: seq<string>)
    requires forall i :: 0 <= i < |rows| ==> FreeOf(rows[i], {'\n'})
    ensures SplitOn(Unlines(rows), {'\n'}) == rows + [[]]
    decreases |rows|
  {
    if rows != [] {
      SplitUnlines(rows[1..]);
      SplitOnPiece(rows[0], '\n', Unlines(rows[1..]), {'\n'});
      assert [rows[0]] + (rows[1..] + [[]]) == rows + [[]];
    }
  }

  /** `lines` reads back lines written by `Unlines`, whatever they hold besides line breaks. */
  lemma LinesUnlines(rows: seq<string>)
    requires forall i :: 0 <= i < |rows| ==> FreeOf(rows[i], {'\n'})
    ensures Lines(Unlines(rows)) == rows
  {
    SplitUnlines(rows);
    assert (rows + [[]])[..|rows|] == rows;
  }

  /**
   * `s.split(pat)` for a non-empty string pattern: the pieces between the leftmost
   * non-overlapping occurrences of `pat`.
   */
  function SplitStr(s: string, pat: string): (r: seq<string>)
    requires |pat| >= 1
    ensures |r| >= 1
    decreases |s|
  {
    if |s| >= |pat| && s[..|pat|] == pat then [[]] + SplitStr(s[|pat|..], pat)
    else if s == [] then [[]]
    else
      var rest := SplitStr(s[1..], pat);
      [[s[0]] + rest[0]] + rest[1..]
  }

  function JoinStr(parts: seq<string>, pat: string): string
    decreases |parts|
  {
    if parts == [] then []
    else if |parts| == 1 then parts[0]
    else parts[0] + pat + JoinStr(parts[1..], pat)
  }

  /** Joining a part in front of at least one more puts the pattern between them. */
  lemma JoinStrCons(first: string, rest: seq<string>, pat: string)
    requires rest != []
    ensures JoinStr([first] + rest, pat) == first + pat + JoinStr(rest, pat)
  {
    assert ([first] + rest)[1..] == rest;
  }

  /** Prefixing a character to the first part prefixes it to the joined string. */
  lemma {:induction false} JoinStrHead(c: char, rest: seq<string>, pat: string)
    requires rest != []
    ensures JoinStr([[c] + rest[0]] + rest[1..], pat) == [c] + JoinStr(rest, pat)
  {
    if |rest| > 1 {
      JoinStrCons([c] + rest[0], rest[1..], pat);
      JoinStrCons(rest[0], rest[1..], pat);
      assert rest == [rest[0]] + rest[1..];
    }
  }

  /** Splitting on a pattern loses nothing either. */
  lemma {:induction false} SplitStrJoin(s: string, pat: string)
    requires |pat| >= 1
    ensures JoinStr(SplitStr(s, pat), pat) == s
    decreases |s|, 1
  {
    if |s| >= |pat| && s[..|pat|] == pat {
      SplitStrJoinAtPat(s, pat);
    } else if s != [] {
      SplitStrJoinAtChar(s, pat);
    }
  }

  /** Text that starts with the pattern: an empty first piece, then the pieces of the rest. */
  lemma {:induction false} SplitStrJoinAtPat(s: string, pat: string)
    requires |pat| >= 1 && |s| >= |pat| && s[..|pat|] == pat
    ensures JoinStr(SplitStr(s, pat), pat) == s
    decreases |s|, 0
  {
    var rest := SplitStr(s[|pat|..], pat);
    SplitStrJoin(s[|pat|..], pat);
    assert SplitStr(s, pat) == [[]] + rest;
    JoinStrCons([], rest, pat);
    assert s == s[..|pat|] + s[|pat|..];
  }

  /** Text that does not start with the pattern: its first character joins the first piece of the rest. */
  lemma {:induction false} SplitStrJoinAtChar(s: string, pat: string)
    requires |pat| >= 1 && s != [] && !(|s| >= |pat| && s[..|pat|] == pat)
    ensures JoinStr(SplitStr(s, pat), pat) == s
    decreases |s|, 0
  {
    var rest := SplitStr(s[1..], pat);
    SplitStrJoin(s[1..], pat);
    assert SplitStr(s, pat) == [[s[0]] + rest[0]] + rest[1..];
    JoinStrHead(s[0], rest, pat);
    assert s == [s[0]] + s[1..];
  }
}
