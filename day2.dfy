/**
 * Day 2, rock paper scissors: each line is "F L" with F in A..C and L in X..Z, each read as a shape
 * 1 (rock), 2 (paper) or 3 (scissors). The rounds are tallied into nine counters, one per (F, L),
 * and the counters are weighted by a per-round score.
 */
module Day2 {
  import opened Wrappers
  import opened Text

  /** A parsed shape: 1 rock, 2 paper, 3 scissors. */
  type Shape = x: nat | 1 <= x <= 3 witness 1

  datatype Play = Play(first: Shape, last: Shape)

  // ------------------------------------------------------------------
  // generator
  // ------------------------------------------------------------------

  /** `parse_play`: A/X is 1, B/Y is 2, C/Z is 3; anything else, or no character, panics. */
  function ParsePlay(p: Option<char>): (r: Result<Shape>)
    ensures r.Ok? <==> p.Some? && p.value in {'A', 'B', 'C', 'X', 'Y', 'Z'}
  {
    match p
    case Some('A') => Ok(1)
    case Some('X') => Ok(1)
    case Some('B') => Ok(2)
    case Some('Y') => Ok(2)
    case Some('C') => Ok(3)
    case Some('Z') => Ok(3)
    case _ => Panic("Unexpected char")
  }

  function CharAt(s: string, i: nat): Option<char>
  {
    if i < |s| then Some(s[i]) else None
  }

  /** One line: the first and third characters are shapes (the second is skipped), and nothing may follow. */
  function ParseLine(p: string): Result<Play>
  {
    var first := ParsePlay(CharAt(p, 0));
    if first.Panic? then Panic(first.msg) else
    var last := ParsePlay(CharAt(p, 2));
    if last.Panic? then Panic(last.msg)
    else if |p| > 3 then Panic("Expecting only 3 characters")
    else Ok(Play(first.value, last.value))
  }

  function ParseLines(lines: seq<string>): (r: Result<seq<Play>>)
    ensures r.Ok? ==> |r.value| == |lines|
    decreases |lines|
  {
    if lines == [] then Ok([])
    else
      var head := ParseLine(lines[0]);
      if head.Panic? then Panic(head.msg)
      else
        var tail := ParseLines(lines[1..]);
        if tail.Panic? then tail else Ok([head.value] + tail.value)
  }

  function Generator(input: string): Result<seq<Play>>
  {
    ParseLines(Lines(input))
  }

  /** How a play is written: "A".."C", a space, "X".."Z". */
  function Show(p: Play): string
  {
    [('A' as int + p.first - 1) as char, ' ', ('X' as int + p.last - 1) as char]
  }

  /** Every written play is read back. */
  lemma ParseShow(p: Play)
    ensures ParseLine(Show(p)) == Ok(p)
  {
  }

  /** Lines longer than three characters are refused even when they start with a valid play. */
  lemma ParseLineTooLong()
    ensures ParseLine("A Y ").Panic?
  {
  }

  // ------------------------------------------------------------------
  // to_idx / from_idx
  // ------------------------------------------------------------------

  /** `to_idx`: the counter a play goes to. */
  function ToIdx(f: Shape, l: Shape): (r: nat)
    ensures r < 9
  {
    (f - 1) * 3 + (l - 1)
  }

  /** `from_idx`: the play a counter stands for. */
  function FromIdx(idx: nat): (nat, nat)
  {
    ((idx / 3) + 1, (idx % 3) + 1)
  }

  lemma FromToIdx(f: Shape, l: Shape)
    ensures FromIdx(ToIdx(f, l)) == (f, l)
  {
  }

  lemma ToFromIdx(idx: nat)
    requires idx < 9
    ensures 1 <= FromIdx(idx).0 <= 3 && 1 <= FromIdx(idx).1 <= 3
    ensures ToIdx(FromIdx(idx).0, FromIdx(idx).1) == idx
  {
  }

  // ------------------------------------------------------------------
  // Scoring
  // ------------------------------------------------------------------

  /** Rock beats scissors, paper beats rock, scissors beat paper. */
  predicate Beats(a: int, b: int)
  {
    (a == 1 && b == 3) || (a == 2 && b == 1) || (a == 3 && b == 2)
  }

  /** `score`: the shape's value plus 3 for a draw, 6 for a win (f − l is −1 or 2), nothing for a loss. */
  function Score(f: nat, l: nat): nat
  {
    match f as int - l as int
    case 0 => l + 3
    case -1 => l + 6
    case 2 => l + 6
    case _ => l
  }

  /** The score is the shape's value plus the outcome: 6 when l beats f, 3 on a draw, 0 when f beats l. */
  lemma ScoreMeans(f: Shape, l: Shape)
    ensures Score(f, l) == l + (if l == f then 3 else if Beats(l, f) then 6 else 0)
    ensures l != f ==> (Beats(l, f) <==> !Beats(f, l))
  {
  }

  /** `score_play` (part 1): the second column is the shape to play. */
  function ScorePlay(play: nat): nat
  {
    var (f, l) := FromIdx(play);
    Score(f, l)
  }

  /** The shape `score_result` plays: the second column asks for a loss (1), a draw (2) or a win (3). */
  function Reply(f: nat, l: nat): Result<nat>
  {
    if l == 1 then (if f == 1 then Ok(3) else if f >= 1 then Ok(f - 1) else Panic("attempt to subtract with overflow"))
    else if l == 2 then Ok(f)
    else if l == 3 then (if f == 3 then Ok(1) else Ok(f + 1))
    else Panic("Unexpected value")
  }

  /** `score_result` (part 2). */
  function ScoreResult(play: nat): Result<nat>
  {
    var (f, l) := FromIdx(play);
    var p := Reply(f, l);
    if p.Panic? then Panic(p.msg) else Ok(Score(f, p.value))
  }

  /** The reply loses, draws or wins as asked, so the round scores the reply plus 0, 3 or 6. */
  lemma ScoreResultMeans(play: nat)
    requires play < 9
    ensures var (f, l) := FromIdx(play);
      && Reply(f, l).Ok? && 1 <= Reply(f, l).value <= 3
      && (l == 1 ==> Beats(f, Reply(f, l).value))
      && (l == 2 ==> Reply(f, l).value == f)
      && (l == 3 ==> Beats(Reply(f, l).value, f))
      && ScoreResult(play) == Ok(Reply(f, l).value + 3 * (l - 1))
  {
  }

  // ------------------------------------------------------------------
  // count_plays / score_plays
  // ------------------------------------------------------------------

  /** How many plays go to counter k. */
  function Occurrences(plays: seq<Play>, k: int): (r: nat)
    ensures r <= |plays|
    decreases |plays|
  {
    if plays == [] then 0
    else
      var last := plays[|plays| - 1];
      Occurrences(plays[..|plays| - 1], k) + (if ToIdx(last.first, last.last) == k then 1 else 0)
  }

  /** What `count_plays` computes: one counter per (first, last) pair. */
  function Counts(plays: seq<Play>): (r: seq<nat>)
    ensures |r| == 9
  {
    seq(9, k => Occurrences(plays, k))
  }

  method CountPlays(plays: seq<Play>) returns (counts: array<nat>)
    ensures fresh(counts) && counts[..] == Counts(plays)
  {
    counts := new nat[9](_ => 0);
    for i := 0 to |plays|
      invariant counts.Length == 9
      invariant forall k :: 0 <= k < 9 ==> counts[k] == Occurrences(plays[..i], k)
    {
      assert plays[..i + 1][..i] == plays[..i];
      var idx := ToIdx(plays[i].first, plays[i].last);
      counts[idx] := counts[idx] + 1;
    }
    assert plays[..|plays|] == plays;
  }

  function SumSeq(xs: seq<nat>): nat
    decreases |xs|
  {
    if xs == [] then 0 else SumSeq(xs[..|xs| - 1]) + xs[|xs| - 1]
  }

  /** Every play lands in exactly one counter, so the counters add up to the number of plays. */
  lemma {:induction false} CountsTotal(plays: seq<Play>)
    ensures SumSeq(Counts(plays)) == |plays|
    decreases |plays|
  {
    if plays == [] {
      SumZeros(Counts(plays));
    } else {
      var init := plays[..|plays| - 1];
      var last := plays[|plays| - 1];
      CountsTotal(init);
      var k := ToIdx(last.first, last.last);
      assert Counts(plays) == Counts(init)[k := Counts(init)[k] + 1];
      SumIncrement(Counts(init), k);
    }
  }

  lemma SumZeros(xs: seq<nat>)
    requires forall i :: 0 <= i < |xs| ==> xs[i] == 0
    ensures SumSeq(xs) == 0
  {
  }

  lemma {:induction false} SumIncrement(xs: seq<nat>, k: nat)
    requires k < |xs|
    ensures SumSeq(xs[k := xs[k] + 1]) == SumSeq(xs) + 1
    decreases |xs|
  {
    var n := |xs| - 1;
    if k < n {
      SumIncrement(xs[..n], k);
      assert xs[k := xs[k] + 1][..n] == xs[..n][k := xs[k] + 1];
    } else {
      assert xs[k := xs[k] + 1][..n] == xs[..n];
    }
  }

  /** `score_plays`: each counter weighted by its play's score. */
  function ScorePlays(counts: seq<nat>, score: nat -> nat): nat
    decreases |counts|
  {
    if counts == [] then 0
    else
      var p := |counts| - 1;
      ScorePlays(counts[..p], score) + score(p) * counts[p]
  }

  /** The score of every round, added up one round at a time. */
  function RoundByRound(plays: seq<Play>, score: nat -> nat): nat
    decreases |plays|
  {
    if plays == [] then 0
    else
      var last := plays[|plays| - 1];
      RoundByRound(plays[..|plays| - 1], score) + score(ToIdx(last.first, last.last))
  }

  lemma ScoreZeros(counts: seq<nat>, score: nat -> nat)
    requires forall i :: 0 <= i < |counts| ==> counts[i] == 0
    ensures ScorePlays(counts, score) == 0
  {
  }

  lemma {:induction false} ScorePlaysIncrement(counts: seq<nat>, k: nat, score: nat -> nat)
    requires k < |counts|
    ensures ScorePlays(counts[k := counts[k] + 1], score) == ScorePlays(counts, score) + score(k)
    decreases |counts|
  {
    var n := |counts| - 1;
    if k < n {
      ScorePlaysIncrement(counts[..n], k, score);
      assert counts[k := counts[k] + 1][..n] == counts[..n][k := counts[k] + 1];
    } else {
      assert counts[k := counts[k] + 1][..n] == counts[..n];
    }
  }

  /** Weighting the tallies gives the same total as scoring every round on its own. */
  lemma {:induction false} TallyScoresEveryRound(plays: seq<Play>, score: nat -> nat)
    ensures ScorePlays(Counts(plays), score) == RoundByRound(plays, score)
    decreases |plays|
  {
    if plays == [] {
      ScoreZeros(Counts(plays), score);
    } else {
      var init := plays[..|plays| - 1];
      var last := plays[|plays| - 1];
      TallyScoresEveryRound(init, score);
      var k := ToIdx(last.first, last.last);
      assert Counts(plays) == Counts(init)[k := Counts(init)[k] + 1];
      ScorePlaysIncrement(Counts(init), k, score);
    }
  }

  method ScorePlaysOf(counts: array<nat>, score: nat -> nat) returns (r: nat)
    ensures r == ScorePlays(counts[..], score)
  {
    r := 0;
    for p := 0 to counts.Length
      invariant r == ScorePlays(counts[..p], score)
    {
      assert counts[..p + 1][..p] == counts[..p];
      r := r + score(p) * counts[p];
    }
    assert counts[..counts.Length] == counts[..];
  }

  /** The score of a part 2 round: `score_result` never panics on a counter index. */
  function ResultScore(play: nat): nat
  {
    if play < 9 then (ScoreResultMeans(play); ScoreResult(play).value) else 0
  }

  method Part1(plays: seq<Play>) returns (r: nat)
    ensures r == RoundByRound(plays, ScorePlay)
  {
    var counts := CountPlays(plays);
    r := ScorePlaysOf(counts, ScorePlay);
    TallyScoresEveryRound(plays, ScorePlay);
  }

  method Part2(plays: seq<Play>) returns (r: nat)
    ensures r == RoundByRound(plays, ResultScore)
  {
    var counts := CountPlays(plays);
    r := ScorePlaysOf(counts, ResultScore);
    TallyScoresEveryRound(plays, ResultScore);
  }

  lemma SampleScores()
    ensures RoundByRound([Play(1, 2), Play(2, 1), Play(3, 3)], ScorePlay) == 15
  {
    var plays := [Play(1, 2), Play(2, 1), Play(3, 3)];
    assert ScorePlay(1) == 8;
    assert ScorePlay(3) == 1;
    assert ScorePlay(8) == 6;
    assert plays[..2] == [Play(1, 2), Play(2, 1)] && plays[..2][..1] == [Play(1, 2)] && plays[..2][..1][..0] == [];
    assert RoundByRound(plays[..2][..1], ScorePlay) == 8;
    assert RoundByRound(plays[..2], ScorePlay) == 9;
  }

  /** The three `score_result` checks of the Rust tests: a draw with paper, a loss to paper, a win against scissors. */
  lemma SampleDraw()
    ensures ScoreResult(ToIdx(1, 2)) == Ok(4)
  {
    assert ToIdx(1, 2) == 1;
  }

  lemma SampleLose()
    ensures ScoreResult(ToIdx(2, 1)) == Ok(1)
  {
    assert ToIdx(2, 1) == 3;
  }

  lemma SampleWin()
    ensures ScoreResult(ToIdx(3, 3)) == Ok(7)
  {
    assert ToIdx(3, 3) == 8;
  }
}
