/**
 * Day 25, SNAFU numbers: base 5 with digits 2, 1, 0, '-' (−1) and '=' (−2), most significant first.
 * Part 1 adds the numbers column by column from the least significant digit, carrying as it goes.
 */
module Day25 {
  import opened Wrappers
  import opened Arith
  import opened Text

  /** The characters `to_dec` accepts: any decimal digit, '-' and '='. */
  predicate DigitChar(c: char) { IsDigit(c) || c == '-' || c == '=' }

  /** `to_dec`: a decimal digit is its own value, '-' is −1, '=' is −2; anything else panics. */
  function ToDec(c: char): (r: Result<int>)
    ensures r.Ok? <==> DigitChar(c)
  {
    if IsDigit(c) then Ok(DigitValue(c))
    else if c == '-' then Ok(-1)
    else if c == '=' then Ok(-2)
    else Panic("Unexpected input")
  }

  /** `to_char`: the digit for −2..2; other values panic. */
  function ToChar(n: int): (r: Result<char>)
    ensures r.Ok? <==> -2 <= n <= 2
  {
    match n
    case 0 => Ok('0')
    case 1 => Ok('1')
    case 2 => Ok('2')
    case -1 => Ok('-')
    case -2 => Ok('=')
    case _ => Panic("Unexpected value")
  }

  /** `to_char` and `to_dec` are inverse on the five SNAFU digits. */
  lemma CharRoundTrip(n: int)
    requires -2 <= n <= 2
    ensures ToDec(ToChar(n).value) == Ok(n)
  {
  }

  /** The SNAFU digits proper. */
  predicate Snafu(c: char) { c in "=-012" }

  lemma SnafuRoundTrip(c: char)
    requires Snafu(c)
    ensures ToDec(c).Ok? && -2 <= ToDec(c).value <= 2 && ToChar(ToDec(c).value) == Ok(c)
  {
  }

  function Sign(r: int): int { if r > 0 then 1 else if r < 0 then -1 else 0 }

  /**
   * `handle_value`: Rust's truncating `n / 5` and `n % 5`, with a remainder of ±3 or ±4 moved into the
   * carry so that the digit lies in −2..2.
   */
  function HandleValue(n: int): (int, int)
  {
    var cf := TruncDiv(n, 5);
    var r := TruncRem(n, 5);
    TruncRemRange(n, 5);
    if -2 <= r <= 2 then (cf, r)
    else if r == 3 || r == -3 then (cf + Sign(r), -2 * Sign(r))
    else if r == 4 || r == -4 then (cf + Sign(r), -1 * Sign(r))
    else assert false; (0, 0)
  }

  /** The carry and digit make up n, and the digit is a SNAFU digit (so `handle_value` never panics). */
  lemma HandleValueSplits(n: int)
    ensures 5 * HandleValue(n).0 + HandleValue(n).1 == n
    ensures -2 <= HandleValue(n).1 <= 2
  {
    TruncRemRange(n, 5);
  }

  /** A non-zero value leaves a strictly smaller carry, so the final carry loop ends. */
  lemma HandleValueShrinks(n: int)
    requires n != 0
    ensures Abs(HandleValue(n).0) < Abs(n)
  {
    HandleValueSplits(n);
  }

  /** The Rust test's expectations for 1..3. */
  lemma SampleHandleValueSmall()
    ensures HandleValue(1) == (0, 1) && HandleValue(2) == (0, 2) && HandleValue(3) == (1, -2)
  {
    assert TruncDiv(1, 5) == 0 && TruncDiv(2, 5) == 0 && TruncDiv(3, 5) == 0;
  }

  /** The Rust test's expectations for 4..6. */
  lemma SampleHandleValueLarge()
    ensures HandleValue(4) == (1, -1) && HandleValue(5) == (1, 0) && HandleValue(6) == (1, 1)
  {
    assert TruncDiv(4, 5) == 0 && TruncDiv(5, 5) == 1 && TruncDiv(6, 5) == 1;
  }

  /** The Rust test's expectations for −1..−6. */
  lemma SampleHandleValueNegative()
    ensures HandleValue(-1) == (0, -1) && HandleValue(-2) == (0, -2) && HandleValue(-3) == (-1, 2)
    ensures HandleValue(-4) == (-1, 1) && HandleValue(-5) == (-1, 0) && HandleValue(-6) == (-1, -1)
  {
    assert TruncDiv(-1, 5) == 0 && TruncDiv(-2, 5) == 0 && TruncDiv(-3, 5) == 0;
    assert TruncDiv(-4, 5) == 0 && TruncDiv(-5, 5) == -1 && TruncDiv(-6, 5) == -1;
  }

  // ------------------------------------------------------------------
  // Values
  // ------------------------------------------------------------------

  function Pow5(k: nat): (r: nat)
    ensures r >= 1
  {
    if k == 0 then 1 else 5 * Pow5(k - 1)
  }

  predicate AllDigitChars(s: seq<char>) { forall i :: 0 <= i < |s| ==> DigitChar(s[i]) }

  function Digit(c: char): int
    requires DigitChar(c)
  {
    ToDec(c).value
  }

  /** The number a string denotes, most significant digit first. */
  function Value(s: seq<char>): int
    requires AllDigitChars(s)
    decreases |s|
  {
    if s == [] then 0 else Value(s[..|s| - 1]) * 5 + Digit(s[|s| - 1])
  }

  /** A leading digit is worth its value times 5 to the number of digits after it. */
  lemma {:induction false} ValuePrepend(c: char, t: seq<char>)
    requires DigitChar(c) && AllDigitChars(t)
    ensures AllDigitChars([c] + t)
    ensures Value([c] + t) == Digit(c) * Pow5(|t|) + Value(t)
    decreases |t|
  {
    var s := [c] + t;
    if t != [] {
      var n := |t| - 1;
      ValuePrepend(c, t[..n]);
      assert s[..|s| - 1] == [c] + t[..n] && s[|s| - 1] == t[n];
      assert t[..n] == t[..|t| - 1];
      ShiftDigit(Digit(c), Pow5(n), Value(t[..n]), Digit(t[n]));
    }
  }

  /** Shifting a number left one place scales its leading digit's weight by 5. */
  lemma ShiftDigit(d: int, p: int, v: int, e: int)
    ensures (d * p + v) * 5 + e == d * (5 * p) + (v * 5 + e)
  {
  }

  predicate AllNumbers(numbers: seq<seq<char>>)
  {
    forall j :: 0 <= j < |numbers| ==> AllDigitChars(numbers[j])
  }

  /** The sum part 1 has to write out. */
  function Total(numbers: seq<seq<char>>): int
    requires AllNumbers(numbers)
    decreases |numbers|
  {
    if numbers == [] then 0 else Total(numbers[..|numbers| - 1]) + Value(numbers[|numbers| - 1])
  }

  function Min(a: nat, b: nat): nat { if a <= b then a else b }

  /** The last x digits of s (all of s once x reaches its length). */
  function Low(s: seq<char>, x: nat): seq<char>
  {
    s[|s| - Min(x, |s|)..]
  }

  /** The sum of every number's last x digits. */
  function LowTotal(numbers: seq<seq<char>>, x: nat): int
    requires AllNumbers(numbers)
    decreases |numbers|
  {
    if numbers == [] then 0
    else
      var s := numbers[|numbers| - 1];
      LowTotal(numbers[..|numbers| - 1], x) + Value(Low(s, x))
  }

  /** Column x: the digit of weight 5^x of every number long enough to have one. */
  function Column(numbers: seq<seq<char>>, x: nat): int
    requires AllNumbers(numbers)
    decreases |numbers|
  {
    if numbers == [] then 0
    else
      var s := numbers[|numbers| - 1];
      Column(numbers[..|numbers| - 1], x) + (if |s| > x then Digit(s[|s| - 1 - x]) else 0)
  }

  lemma LowStep(s: seq<char>, x: nat)
    requires AllDigitChars(s)
    ensures Value(Low(s, x + 1)) == Value(Low(s, x)) + (if |s| > x then Digit(s[|s| - 1 - x]) * Pow5(x) else 0)
  {
    if |s| > x {
      var t := Low(s, x);
      assert Low(s, x + 1) == [s[|s| - 1 - x]] + t;
      ValuePrepend(s[|s| - 1 - x], t);
    } else {
      assert Low(s, x + 1) == Low(s, x);
    }
  }

  /** Taking one more column adds that column's digits at weight 5^x. */
  lemma {:induction false} LowTotalStep(numbers: seq<seq<char>>, x: nat)
    requires AllNumbers(numbers)
    ensures LowTotal(numbers, x + 1) == LowTotal(numbers, x) + Column(numbers, x) * Pow5(x)
    decreases |numbers|
  {
    if numbers != [] {
      var n := |numbers| - 1;
      var init, s := numbers[..n], numbers[n];
      LowTotalStep(init, x);
      LowStep(s, x);
      var d := if |s| > x then Digit(s[|s| - 1 - x]) else 0;
      assert Column(numbers, x) == Column(init, x) + d;
      SumStep(LowTotal(init, x + 1), LowTotal(init, x), Column(init, x),
              Value(Low(s, x + 1)), Value(Low(s, x)), d, Pow5(x));
    }
  }

  /** Two sums that each grow by a multiple of p grow together by the summed multiple. */
  lemma SumStep(l1: int, l0: int, c: int, v1: int, v0: int, d: int, p: int)
    requires l1 == l0 + c * p && v1 == v0 + d * p
    ensures l1 + v1 == (l0 + v0) + (c + d) * p
  {
    assert (c + d) * p == c * p + d * p;
  }

  /** Once x covers the longest number, the low digits are the whole numbers. */
  lemma {:induction false} LowTotalAll(numbers: seq<seq<char>>, x: nat)
    requires AllNumbers(numbers) && forall j :: 0 <= j < |numbers| ==> |numbers[j]| <= x
    ensures LowTotal(numbers, x) == Total(numbers)
    decreases |numbers|
  {
    if numbers != [] {
      var n := |numbers| - 1;
      LowTotalAll(numbers[..n], x);
      assert Low(numbers[n], x) == numbers[n];
    }
  }

  lemma LowTotalZero(numbers: seq<seq<char>>)
    requires AllNumbers(numbers)
    ensures LowTotal(numbers, 0) == 0
  {
  }

  // ------------------------------------------------------------------
  // part1
  // ------------------------------------------------------------------

  /** `numbers.iter().map(|n| n.len()).max()`. */
  function MaxLen(numbers: seq<seq<char>>): (r: nat)
    requires numbers != []
    ensures forall j :: 0 <= j < |numbers| ==> |numbers[j]| <= r
    ensures exists j :: 0 <= j < |numbers| && |numbers[j]| == r
    decreases |numbers|
  {
    if |numbers| == 1 then |numbers[0]|
    else
      var m := MaxLen(numbers[1..]);
      assert forall j :: 1 <= j < |numbers| ==> numbers[j] == numbers[1..][j - 1];
      if |numbers[0]| >= m then |numbers[0]| else m
  }

  function Reverse(s: seq<char>): (r: seq<char>)
    ensures |r| == |s| && forall i :: 0 <= i < |s| ==> r[i] == s[|s| - 1 - i]
    decreases |s|
  {
    if s == [] then [] else [s[|s| - 1]] + Reverse(s[..|s| - 1])
  }

  predicate AllSnafu(s: seq<char>) { forall i :: 0 <= i < |s| ==> Snafu(s[i]) }

  /** Every digit of the first x columns of every number is one `to_dec` accepts. */
  predicate ColumnsChecked(numbers: seq<seq<char>>, x: nat)
  {
    forall j, k :: 0 <= j < |numbers| && 0 <= k < |numbers[j]| && |numbers[j]| - 1 - k < x ==> DigitChar(numbers[j][k])
  }

  /** Adds up column x, starting from the carry; panics at the first character `to_dec` refuses. */
  method AddColumn(numbers: seq<seq<char>>, x: nat, cf: int) returns (r: Result<int>)
    ensures r.Ok? <==> forall j :: 0 <= j < |numbers| && |numbers[j]| > x ==> DigitChar(numbers[j][|numbers[j]| - 1 - x])
    ensures r.Ok? && AllNumbers(numbers) ==> r.value == cf + Column(numbers, x)
  {
    var n := cf;
    for j := 0 to |numbers|
      invariant forall i :: 0 <= i < j && |numbers[i]| > x ==> DigitChar(numbers[i][|numbers[i]| - 1 - x])
      invariant AllNumbers(numbers) ==> n == cf + Column(numbers[..j], x)
    {
      assert numbers[..j + 1][..j] == numbers[..j];
      var number := numbers[j];
      if |number| > x {
        var d := ToDec(number[|number| - 1 - x]);
        if d.Panic? {
          return Panic(d.msg);
        }
        n := n + d.value;
      }
    }
    assert numbers[..|numbers|] == numbers;
    return Ok(n);
  }

  lemma ColumnsCheckedAll(numbers: seq<seq<char>>, x: nat)
    requires ColumnsChecked(numbers, x) && forall j :: 0 <= j < |numbers| ==> |numbers[j]| <= x
    ensures AllNumbers(numbers)
  {
    forall j, k | 0 <= j < |numbers| && 0 <= k < |numbers[j]| ensures DigitChar(numbers[j][k]) {
    }
  }

  /**
   * `part1`: the SNAFU sum of all numbers, written with SNAFU digits. It panics on an empty list and on a
   * character `to_dec` refuses.
   */
  method Part1(numbers: seq<seq<char>>) returns (r: Result<seq<char>>)
    ensures r.Ok? <==> numbers != [] && AllNumbers(numbers)
    ensures r.Ok? ==> AllNumbers(numbers) && AllSnafu(r.value) && AllDigitChars(r.value)
                      && Value(r.value) == Total(numbers) && |r.value| >= MaxLen(numbers)
  {
    if numbers == [] {
      return Panic("called `Option::unwrap()` on a `None` value");
    }
    var maxLength := MaxLen(numbers);
    var cols := AddColumns(numbers, maxLength);
    if cols.Panic? {
      return Panic(cols.msg);
    }
    var result, cf := cols.value.0, cols.value.1;
    LowTotalAll(numbers, maxLength);
    result := Flush(result, cf, Total(numbers));
    var out := Reverse(result);
    assert AllSnafu(out) && AllDigitChars(out);
    return Ok(out);
  }

  /** The `while cf != 0` loop: the carry left after the last column, written out digit by digit. */
  method Flush(result0: seq<char>, cf0: int, ghost total: int) returns (result: seq<char>)
    requires AllSnafu(result0) && AllDigitChars(result0)
    requires Value(Reverse(result0)) + cf0 * Pow5(|result0|) == total
    ensures |result| >= |result0| && AllSnafu(result) && AllDigitChars(result)
    ensures Value(Reverse(result)) == total
  {
    result := result0;
    var cf := cf0;
    while cf != 0
      invariant |result| >= |result0| && AllSnafu(result) && AllDigitChars(result)
      invariant Value(Reverse(result)) + cf * Pow5(|result|) == total
      decreases Abs(cf)
    {
      var h := HandleValue(cf);
      HandleValueSplits(cf);
      HandleValueShrinks(cf);
      ToCharDigit(h.1);
      var c := ToChar(h.1).value;
      CarryDone(total, result, cf, h.0, c);
      result := result + [c];
      cf := h.0;
    }
  }

  /** The `for x in 0..max_length` loop: the low digits written so far (least significant first) and the carry. */
  method AddColumns(numbers: seq<seq<char>>, maxLength: nat) returns (r: Result<(seq<char>, int)>)
    requires forall j :: 0 <= j < |numbers| ==> |numbers[j]| <= maxLength
    ensures r.Ok? <==> AllNumbers(numbers)
    ensures r.Ok? ==> |r.value.0| == maxLength && AllSnafu(r.value.0) && AllDigitChars(r.value.0)
                      && Value(Reverse(r.value.0)) + r.value.1 * Pow5(maxLength) == LowTotal(numbers, maxLength)
  {
    var result: seq<char> := [];
    var cf := 0;
    if AllNumbers(numbers) {
      LowTotalZero(numbers);
    }
    for x := 0 to maxLength
      invariant |result| == x && AllSnafu(result) && AllDigitChars(result)
      invariant ColumnsChecked(numbers, x)
      invariant AllNumbers(numbers) ==> Value(Reverse(result)) + cf * Pow5(x) == LowTotal(numbers, x)
    {
      var n := AddColumn(numbers, x, cf);
      if n.Panic? {
        var j :| 0 <= j < |numbers| && |numbers[j]| > x && !DigitChar(numbers[j][|numbers[j]| - 1 - x]);
        return Panic(n.msg);
      }
      ColumnsCheckedStep(numbers, x);
      var h := HandleValue(n.value);
      HandleValueSplits(n.value);
      ToCharDigit(h.1);
      var c := ToChar(h.1).value;
      if AllNumbers(numbers) {
        ColumnDone(numbers, x, result, cf, n.value, h.0, c);
      }
      cf := h.0;
      result := result + [c];
    }
    ColumnsCheckedAll(numbers, maxLength);
    return Ok((result, cf));
  }

  lemma ColumnsCheckedStep(numbers: seq<seq<char>>, x: nat)
    requires ColumnsChecked(numbers, x)
    requires forall j :: 0 <= j < |numbers| && |numbers[j]| > x ==> DigitChar(numbers[j][|numbers[j]| - 1 - x])
    ensures ColumnsChecked(numbers, x + 1)
  {
    forall j, k | 0 <= j < |numbers| && 0 <= k < |numbers[j]| && |numbers[j]| - 1 - k < x + 1
      ensures DigitChar(numbers[j][k])
    {
      if |numbers[j]| - 1 - k == x {
        assert numbers[j][|numbers[j]| - 1 - x] == numbers[j][k];
      }
    }
  }

  /** Pushing digit c (value d) after the low digits adds d at weight 5^|result|. */
  lemma PushDigit(result: seq<char>, c: char, d: int)
    requires AllDigitChars(result) && DigitChar(c) && Digit(c) == d
    ensures AllDigitChars(Reverse(result + [c])) && AllDigitChars(Reverse(result))
    ensures Value(Reverse(result + [c])) == d * Pow5(|result|) + Value(Reverse(result))
  {
    assert Reverse(result + [c]) == [c] + Reverse(result);
    ValuePrepend(c, Reverse(result));
  }

  /**
    * The arithmetic of one pushed digit: a value v with carry c at weight p, where c splits into
    * digit d and carry c2, is the value with d pushed (v2) and carry c2 at weight 5p.
    */
  lemma Regroup(v: int, v2: int, d: int, p: int, c: int, c2: int)
    requires v2 == d * p + v && 5 * c2 + d == c
    ensures v2 + c2 * (5 * p) == v + c * p
  {
    calc {
      v + c * p;
      v + (5 * c2 + d) * p;
      { assert (5 * c2 + d) * p == c2 * (5 * p) + d * p; }
      v + c2 * (5 * p) + d * p;
    }
  }

  /** The digit `to_char` writes for −2..2 is a SNAFU digit worth exactly that much. */
  lemma ToCharDigit(n: int)
    requires -2 <= n <= 2
    ensures ToChar(n).Ok? && Snafu(ToChar(n).value) && DigitChar(ToChar(n).value) && Digit(ToChar(n).value) == n
  {
  }

  /** One column: its sum, carried in, splits into the digit pushed and the carry out. */
  lemma ColumnDone(numbers: seq<seq<char>>, x: nat, result: seq<char>, cf: int, n: int, cf2: int, c: char)
    requires AllNumbers(numbers) && AllDigitChars(result) && |result| == x && DigitChar(c)
    requires Value(Reverse(result)) + cf * Pow5(x) == LowTotal(numbers, x)
    requires n == cf + Column(numbers, x) && 5 * cf2 + Digit(c) == n
    ensures AllDigitChars(Reverse(result + [c]))
    ensures Value(Reverse(result + [c])) + cf2 * Pow5(x + 1) == LowTotal(numbers, x + 1)
  {
    PushDigit(result, c, Digit(c));
    LowTotalStep(numbers, x);
    assert Pow5(x + 1) == 5 * Pow5(x);
    RegroupColumn(Value(Reverse(result)), Value(Reverse(result + [c])), Digit(c), Pow5(x), cf, Column(numbers, x), n, cf2,
                  LowTotal(numbers, x), LowTotal(numbers, x + 1));
  }

  /** Regroup with the carried-in value split into the previous carry and the column's own sum. */
  lemma RegroupColumn(v: int, v2: int, d: int, p: int, cf: int, col: int, n: int, cf2: int, low: int, low2: int)
    requires v2 == d * p + v && 5 * cf2 + d == n && n == cf + col
    requires v + cf * p == low && low2 == low + col * p
    ensures v2 + cf2 * (5 * p) == low2
  {
    Regroup(v, v2, d, p, n, cf2);
    assert n * p == cf * p + col * p;
  }

  /** One step of the final carry loop keeps the written digits plus the carry equal to the total. */
  lemma CarryDone(total: int, result: seq<char>, cf: int, cf2: int, c: char)
    requires AllDigitChars(result) && DigitChar(c)
    requires Value(Reverse(result)) + cf * Pow5(|result|) == total
    requires 5 * cf2 + Digit(c) == cf
    ensures AllDigitChars(Reverse(result + [c]))
    ensures Value(Reverse(result + [c])) + cf2 * Pow5(|result| + 1) == total
  {
    PushDigit(result, c, Digit(c));
    var p := Pow5(|result|);
    assert Pow5(|result| + 1) == 5 * p;
    Regroup(Value(Reverse(result)), Value(Reverse(result + [c])), Digit(c), p, cf, cf2);
  }

  /** `part2` has nothing to compute. */
  function Part2(numbers: seq<seq<char>>): string
  {
    "yay"
  }

  /** `generator`: each line as its characters. */
  function Generator(input: string): seq<seq<char>>
  {
    Lines(input)
  }

  // ------------------------------------------------------------------
  // Uniqueness and the example
  // ------------------------------------------------------------------

  /** Two SNAFU strings of the same length with the same value are the same string. */
  lemma {:induction false} SnafuUnique(a: seq<char>, b: seq<char>)
    requires |a| == |b| && AllSnafu(a) && AllSnafu(b) && AllDigitChars(a) && AllDigitChars(b)
    requires Value(a) == Value(b)
    ensures a == b
    decreases |a|
  {
    if a != [] {
      var n := |a| - 1;
      var da, db := Digit(a[n]), Digit(b[n]);
      SnafuDigit(a[n], b[n]);
      assert a[..n] == a[..|a| - 1] && b[..n] == b[..|b| - 1];
      NoCarry(Value(a[..n]) - Value(b[..n]), db - da);
      SnafuUnique(a[..n], b[..n]);
      assert a == a[..n] + [a[n]] && b == b[..n] + [b[n]];
    }
  }

  /** SNAFU digits are worth -2 to 2, and no two of them are worth the same. */
  lemma SnafuDigit(x: char, y: char)
    requires Snafu(x) && Snafu(y) && DigitChar(x) && DigitChar(y)
    ensures -2 <= Digit(x) <= 2 && -2 <= Digit(y) <= 2
    ensures Digit(x) == Digit(y) ==> x == y
  {
    SnafuRoundTrip(x);
    SnafuRoundTrip(y);
  }

  /** A multiple of 5 between -4 and 4 is 0. */
  lemma NoCarry(x: int, d: int)
    requires x * 5 == d && -4 <= d <= 4
    ensures d == 0
  {
  }

  lemma SampleValue()
    ensures Value("2=-1=0") == 4890
  {
    assert "2=-1=0"[..5] == "2=-1=";
    assert "2=-1="[..4] == "2=-1";
    assert "2=-1"[..3] == "2=-";
    assert "2=-"[..2] == "2=";
    assert "2="[..1] == "2";
    assert "2"[..0] == "";
  }
}
