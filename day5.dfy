/**
 * Day 5, supply stacks: crates are moved between stacks by a crane that either lifts one crate at a time
 * (part 1, so a moved block arrives reversed) or a whole block at once (part 2, order kept). The drawing
 * of the starting stacks is parsed column by column from the bottom row up.
 */
module Day5 {
  import opened Wrappers
  import opened Text

  /** One sequence per stack, bottom first: the top crate is the last element. */
  type Stacks = seq<seq<char>>

  /** `(times, from, to)` with 0-based stack numbers. */
  datatype Move = Move(times: nat, from: nat, to: nat)

  const NoneUnwrap := "called `Option::unwrap()` on a `None` value"
  const EmptyPop := "Unexpected, try to move out of empty stack"

  function Reverse(s: seq<char>): (r: seq<char>)
    ensures |r| == |s| && forall i :: 0 <= i < |s| ==> r[i] == s[|s| - 1 - i]
  {
    if s == [] then [] else [s[|s| - 1]] + Reverse(s[..|s| - 1])
  }

  /** The top k crates of a stack, bottom first. */
  function Top(s: seq<char>, k: nat): seq<char>
    requires k <= |s|
  {
    s[|s| - k..]
  }

  /** The stack without its top k crates. */
  function Drop(s: seq<char>, k: nat): seq<char>
    requires k <= |s|
  {
    s[..|s| - k]
  }

  function Total(st: Stacks): nat
  {
    if st == [] then 0 else Total(st[..|st| - 1]) + |st[|st| - 1]|
  }

  lemma {:induction false} TotalUpdate(st: Stacks, i: nat, s: seq<char>)
    requires i < |st|
    ensures Total(st[i := s]) + |st[i]| == Total(st) + |s|
    decreases |st|
  {
    var n := |st| - 1;
    if i < n {
      TotalUpdate(st[..n], i, s);
      assert st[i := s][..n] == st[..n][i := s];
    } else {
      assert st[i := s][..n] == st[..n];
    }
  }

  // ------------------------------------------------------------------
  // mk_moves: stack numbers in the text are 1-based
  // ------------------------------------------------------------------

  /** The move `move times from from to to`: both stack numbers lose one, and 0 underflows. */
  function ToMove(times: nat, from: nat, to: nat): (r: Result<Move>)
    ensures r.Ok? <==> from >= 1 && to >= 1
    ensures r.Ok? ==> r.value.times == times && r.value.from + 1 == from && r.value.to + 1 == to
  {
    if from == 0 || to == 0 then Panic("attempt to subtract with overflow")
    else Ok(Move(times, from - 1, to - 1))
  }

  // ------------------------------------------------------------------
  // part1: one crate at a time
  // ------------------------------------------------------------------

  /** Pop the top of `from` and push it onto `to`; a missing stack or an empty `from` panics. */
  function MoveCrate(st: Stacks, f: nat, t: nat): (r: Result<Stacks>)
    ensures r.Ok? <==> f < |st| && t < |st| && st[f] != []
    ensures r.Ok? ==> |r.value| == |st| && Total(r.value) == Total(st)
    ensures r.Ok? ==> forall i :: 0 <= i < |st| && i != f && i != t ==> r.value[i] == st[i]
  {
    if f >= |st| then Panic(NoneUnwrap)
    else if st[f] == [] then Panic(EmptyPop)
    else if t >= |st| then Panic(NoneUnwrap)
    else
      var c := st[f][|st[f]| - 1];
      var st1 := st[f := st[f][..|st[f]| - 1]];
      TotalUpdate(st, f, st[f][..|st[f]| - 1]);
      TotalUpdate(st1, t, st1[t] + [c]);
      Ok(st1[t := st1[t] + [c]])
  }

  /** The inner loop of `part1`: `MoveCrate` k times. */
  function MoveCrates(st: Stacks, k: nat, f: nat, t: nat): (r: Result<Stacks>)
    ensures r.Ok? ==> |r.value| == |st| && Total(r.value) == Total(st)
    ensures r.Ok? ==> forall i :: 0 <= i < |st| && i != f && i != t ==> r.value[i] == st[i]
    decreases k
  {
    if k == 0 then Ok(st)
    else match MoveCrate(st, f, t)
      case Panic(m) => Panic(m)
      case Ok(st1) => MoveCrates(st1, k - 1, f, t)
  }

  /** The stacks after every move of `part1`, or the panic that stops it. */
  function Apply9000(st: Stacks, moves: seq<Move>): Result<Stacks>
    decreases |moves|
  {
    if moves == [] then Ok(st)
    else match MoveCrates(st, moves[0].times, moves[0].from, moves[0].to)
      case Panic(m) => Panic(m)
      case Ok(st1) => Apply9000(st1, moves[1..])
  }

  /** Moving k crates one at a time between two different stacks puts the top k on `to` reversed. */
  lemma {:induction false} CratesReverse(st: Stacks, k: nat, f: nat, t: nat)
    requires f < |st| && t < |st| && f != t && k <= |st[f]|
    ensures MoveCrates(st, k, f, t) == Ok(st[f := Drop(st[f], k)][t := st[t] + Reverse(Top(st[f], k))])
    decreases k
  {
    if k > 0 {
      var c := st[f][|st[f]| - 1];
      var st1 := st[f := st[f][..|st[f]| - 1]][t := st[t] + [c]];
      assert MoveCrates(st, k, f, t) == MoveCrates(st1, k - 1, f, t) by {
        assert MoveCrate(st, f, t) == Ok(st1);
      }
      CratesReverse(st1, k - 1, f, t);
      CrateStep(st, k, f, t);
    } else {
      assert Drop(st[f], 0) == st[f] && st[t] + Reverse(Top(st[f], 0)) == st[t];
      assert st[f := st[f]][t := st[t]] == st;
    }
  }

  /** After one crate moves, the rest of the k crates land as the k crates would have. */
  lemma CrateStep(st: Stacks, k: nat, f: nat, t: nat)
    requires f < |st| && t < |st| && f != t && 0 < k <= |st[f]|
    ensures var st1 := st[f := st[f][..|st[f]| - 1]][t := st[t] + [st[f][|st[f]| - 1]]];
            st1[f := Drop(st1[f], k - 1)][t := st1[t] + Reverse(Top(st1[f], k - 1))]
            == st[f := Drop(st[f], k)][t := st[t] + Reverse(Top(st[f], k))]
  {
    var c := st[f][|st[f]| - 1];
    var st1 := st[f := st[f][..|st[f]| - 1]][t := st[t] + [c]];
    PopTop(st[f], k);
    assert st1[t] + Reverse(Top(st1[f], k - 1)) == st[t] + Reverse(Top(st[f], k));
    Overwrite(st, f, t, st[f][..|st[f]| - 1], st[t] + [c], Drop(st[f], k), st[t] + Reverse(Top(st[f], k)));
  }

  /** Writing two different slots twice keeps only the second writes. */
  lemma Overwrite(s: Stacks, f: nat, t: nat, a: seq<char>, b: seq<char>, x: seq<char>, y: seq<char>)
    requires f < |s| && t < |s| && f != t
    ensures s[f := a][t := b][f := x][t := y] == s[f := x][t := y]
  {
  }

  /** Popping the top crate c leaves k - 1 of the top k, and c heads their reversal. */
  lemma PopTop(s: seq<char>, k: nat)
    requires 0 < k <= |s|
    ensures Drop(s[..|s| - 1], k - 1) == Drop(s, k)
    ensures Reverse(Top(s, k)) == [s[|s| - 1]] + Reverse(Top(s[..|s| - 1], k - 1))
  {
    var top := Top(s, k);
    assert top[..|top| - 1] == Top(s[..|s| - 1], k - 1);
  }

  /** ... and panics, for want of crates, when `from` holds fewer than k. */
  lemma {:induction false} CratesRunOut(st: Stacks, k: nat, f: nat, t: nat)
    requires f < |st| && t < |st| && f != t && k > |st[f]|
    ensures MoveCrates(st, k, f, t) == Panic(EmptyPop)
    decreases k
  {
    if st[f] != [] {
      var c := st[f][|st[f]| - 1];
      var st1 := st[f := st[f][..|st[f]| - 1]][t := st[t] + [c]];
      assert MoveCrate(st, f, t) == Ok(st1);
      CratesRunOut(st1, k - 1, f, t);
    }
  }

  /** Moving crates from a nonempty stack onto itself changes nothing. */
  lemma {:induction false} CratesSameStack(st: Stacks, k: nat, f: nat)
    requires f < |st| && st[f] != []
    ensures MoveCrates(st, k, f, f) == Ok(st)
    decreases k
  {
    if k > 0 {
      var s := st[f];
      assert s[..|s| - 1] + [s[|s| - 1]] == s;
      assert st[f := s[..|s| - 1]][f := s[..|s| - 1] + [s[|s| - 1]]] == st;
      CratesSameStack(st, k - 1, f);
    }
  }

  // ------------------------------------------------------------------
  // part2: a block at a time
  // ------------------------------------------------------------------

  /**
   * One move of `part2`: the top k crates of `from` are popped into a buffer and pushed back onto `to`,
   * keeping their order. A missing `from`, fewer than k crates or a missing `to` panics.
   */
  function MoveBlock(st: Stacks, k: nat, f: nat, t: nat): (r: Result<Stacks>)
    ensures r.Ok? <==> k == 0 || (f < |st| && k <= |st[f]| && t < |st|)
    ensures r.Ok? ==> |r.value| == |st| && Total(r.value) == Total(st)
    ensures r.Ok? ==> forall i :: 0 <= i < |st| && i != f && i != t ==> r.value[i] == st[i]
  {
    if k == 0 then Ok(st)
    else if f >= |st| then Panic(NoneUnwrap)
    else if |st[f]| < k then Panic(EmptyPop)
    else if t >= |st| then Panic(NoneUnwrap)
    else
      var st1 := st[f := Drop(st[f], k)];
      TotalUpdate(st, f, Drop(st[f], k));
      TotalUpdate(st1, t, st1[t] + Top(st[f], k));
      Ok(st1[t := st1[t] + Top(st[f], k)])
  }

  function Apply9001(st: Stacks, moves: seq<Move>): Result<Stacks>
    decreases |moves|
  {
    if moves == [] then Ok(st)
    else match MoveBlock(st, moves[0].times, moves[0].from, moves[0].to)
      case Panic(m) => Panic(m)
      case Ok(st1) => Apply9001(st1, moves[1..])
  }

  /**
   * The two cranes differ only in the order of the moved block: between two different stacks, the block
   * crane leaves `to` as the one-at-a-time crane does, with the arrived crates reversed back.
   */
  lemma BlockUnreversesCrates(st: Stacks, k: nat, f: nat, t: nat)
    requires f < |st| && t < |st| && f != t && k <= |st[f]|
    ensures MoveCrates(st, k, f, t).Ok? && MoveBlock(st, k, f, t).Ok?
    ensures MoveCrates(st, k, f, t).value[t] == st[t] + Reverse(Top(st[f], k))
    ensures MoveBlock(st, k, f, t).value[t] == st[t] + Top(st[f], k)
    ensures forall i :: 0 <= i < |st| && i != t ==> MoveBlock(st, k, f, t).value[i] == MoveCrates(st, k, f, t).value[i]
  {
    CratesReverse(st, k, f, t);
  }

  // ------------------------------------------------------------------
  // the top of every stack
  // ------------------------------------------------------------------

  /** `stacks.iter().map(|s| s.last().unwrap()).collect()`: an empty stack panics. */
  function Tops(st: Stacks): (r: Result<string>)
    ensures r.Ok? <==> forall i :: 0 <= i < |st| ==> st[i] != []
    ensures r.Ok? ==> |r.value| == |st| && forall i :: 0 <= i < |st| ==> r.value[i] == st[i][|st[i]| - 1]
  {
    if st == [] then Ok([])
    else if st[0] == [] then Panic(NoneUnwrap)
    else match Tops(st[1..])
      case Panic(m) => Panic(m)
      case Ok(rest) => Ok([st[0][|st[0]| - 1]] + rest)
  }

  function TopsAfter(r: Result<Stacks>): Result<string>
  {
    match r
      case Panic(m) => Panic(m)
      case Ok(st) => Tops(st)
  }

  /** One pass of the inner loop of `part1` on the stacks in place; `Some(message)` when it panics. */
  method Lift(stacks: array<seq<char>>, f: nat, t: nat) returns (err: Option<string>)
    modifies stacks
    ensures err.Some? <==> MoveCrate(old(stacks[..]), f, t).Panic?
    ensures err.Some? ==> err.value == MoveCrate(old(stacks[..]), f, t).msg
    ensures err.None? ==> stacks[..] == MoveCrate(old(stacks[..]), f, t).value
  {
    ghost var before := stacks[..];
    if f >= stacks.Length {
      return Some(NoneUnwrap);
    }
    var src := stacks[f];
    if src == [] {
      return Some(EmptyPop);
    }
    var c := src[|src| - 1];
    stacks[f] := src[..|src| - 1];
    if t >= stacks.Length {
      return Some(NoneUnwrap);
    }
    stacks[t] := stacks[t] + [c];
    assert stacks[..] == before[f := src[..|src| - 1]][t := before[f := src[..|src| - 1]][t] + [c]];
    return None;
  }

  /** The inner loop of `part1`: one move, crate by crate, on the stacks in place. */
  method LiftAll(stacks: array<seq<char>>, m: Move) returns (err: Option<string>)
    modifies stacks
    ensures err.Some? <==> MoveCrates(old(stacks[..]), m.times, m.from, m.to).Panic?
    ensures err.Some? ==> err.value == MoveCrates(old(stacks[..]), m.times, m.from, m.to).msg
    ensures err.None? ==> stacks[..] == MoveCrates(old(stacks[..]), m.times, m.from, m.to).value
  {
    ghost var snap := stacks[..];
    for j := 0 to m.times
      invariant MoveCrates(snap, m.times, m.from, m.to) == MoveCrates(stacks[..], m.times - j, m.from, m.to)
    {
      err := Lift(stacks, m.from, m.to);
      if err.Some? {
        return;
      }
    }
    err := None;
  }

  /** `part1`: moves crates one at a time on a copy of the stacks and reads the tops. */
  method Part1(st0: Stacks, moves: seq<Move>) returns (r: Result<string>)
    ensures r == TopsAfter(Apply9000(st0, moves))
  {
    var stacks := new seq<char>[|st0|](i requires 0 <= i < |st0| => st0[i]);
    assert stacks[..] == st0;
    for i := 0 to |moves|
      invariant stacks.Length == |st0|
      invariant Apply9000(st0, moves) == Apply9000(stacks[..], moves[i..])
    {
      var m := moves[i];
      assert moves[i..][1..] == moves[i + 1..];
      var err := LiftAll(stacks, m);
      if err.Some? {
        return Panic(err.value);
      }
    }
    assert moves[|moves|..] == [];
    r := Tops(stacks[..]);
  }

  lemma ReversePrepend(x: char, s: seq<char>)
    ensures Reverse([x] + s) == Reverse(s) + [x]
  {
  }

  /** The first inner loop of `part2`: k crates popped from `from` onto the empty buffer, top first. */
  method Gather(stacks: array<seq<char>>, f: nat, k: nat) returns (buff: seq<char>, err: Option<string>)
    requires f < stacks.Length
    modifies stacks
    ensures err.Some? <==> |old(stacks[f])| < k
    ensures err.Some? ==> err.value == EmptyPop
    ensures err.None? ==> stacks[..] == old(stacks[..])[f := Drop(old(stacks[f]), k)]
    ensures err.None? ==> buff == Reverse(Top(old(stacks[f]), k))
  {
    ghost var snap := stacks[..];
    buff := [];
    assert Drop(snap[f], 0) == snap[f] && snap[f := snap[f]] == snap;
    for j := 0 to k
      invariant j <= |snap[f]|
      invariant stacks[..] == snap[f := Drop(snap[f], j)] && buff == Reverse(Top(snap[f], j))
    {
      var src := stacks[f];
      if src == [] {
        return buff, Some(EmptyPop);
      }
      ghost var before := stacks[..];
      buff := buff + [src[|src| - 1]];
      stacks[f] := src[..|src| - 1];
      assert src[..|src| - 1] == Drop(snap[f], j + 1);
      assert Top(snap[f], j + 1) == [src[|src| - 1]] + Top(snap[f], j);
      ReversePrepend(src[|src| - 1], Top(snap[f], j));
      assert stacks[..] == before[f := src[..|src| - 1]];
    }
    return buff, None;
  }

  /** The second inner loop of `part2`: the buffer popped onto `to`, which restores the block's order. */
  method Scatter(stacks: array<seq<char>>, t: nat, buff0: seq<char>) returns (buff: seq<char>, err: Option<string>)
    requires buff0 != []
    modifies stacks
    ensures err.Some? <==> t >= stacks.Length
    ensures err.Some? ==> err.value == NoneUnwrap
    ensures err.None? ==> stacks[..] == old(stacks[..])[t := old(stacks[t]) + Reverse(buff0)] && buff == []
  {
    if t >= stacks.Length {
      return buff0, Some(NoneUnwrap);
    }
    ghost var snap := stacks[..];
    ghost var start := stacks[t];
    ghost var block := Reverse(buff0);
    var n := |buff0|;
    buff := buff0;
    assert start + block[..0] == start && snap[t := start] == snap;
    for j := 0 to n
      invariant stacks.Length == |snap|
      invariant buff == buff0[..n - j]
      invariant stacks[..] == snap[t := start + block[..j]]
    {
      var c := buff[|buff| - 1];
      assert c == block[j];
      buff := buff[..|buff| - 1];
      ghost var before := stacks[..];
      stacks[t] := stacks[t] + [c];
      assert stacks[..] == before[t := before[t] + [c]];
      assert block[..j + 1] == block[..j] + [c];
      assert before[t] + [c] == start + block[..j + 1];
      assert before[t := start + block[..j + 1]] == snap[t := start + block[..j + 1]];
    }
    assert block[..n] == block;
    return buff, None;
  }

  lemma ReverseReverse(s: seq<char>)
    ensures Reverse(Reverse(s)) == s
  {
  }

  /** `part2`: moves whole blocks through the buffer `buff`, empty again after every move, and reads the tops. */
  method Part2(st0: Stacks, moves: seq<Move>) returns (r: Result<string>)
    ensures r == TopsAfter(Apply9001(st0, moves))
  {
    var stacks := new seq<char>[|st0|](i requires 0 <= i < |st0| => st0[i]);
    assert stacks[..] == st0;
    var buff: seq<char> := [];
    for i := 0 to |moves|
      invariant stacks.Length == |st0| && buff == []
      invariant Apply9001(st0, moves) == Apply9001(stacks[..], moves[i..])
    {
      var m := moves[i];
      assert moves[i..][1..] == moves[i + 1..];
      if m.times > 0 {
        if m.from >= stacks.Length {
          return Panic(NoneUnwrap);
        }
        ghost var snap := stacks[..];
        var err;
        buff, err := Gather(stacks, m.from, m.times);
        if err.Some? {
          return Panic(err.value);
        }
        ReverseReverse(Top(snap[m.from], m.times));
        buff, err := Scatter(stacks, m.to, buff);
        if err.Some? {
          return Panic(err.value);
        }
      }
    }
    assert moves[|moves|..] == [];
    r := Tops(stacks[..]);
  }

  // ------------------------------------------------------------------
  // mk_stacks
  // ------------------------------------------------------------------

  predicate IsAsciiAlpha(c: char) { 'a' <= c <= 'z' || 'A' <= c <= 'Z' }

  /** The crate drawn in column i of a row, if any: the character right after the column's '['. */
  function Cell(line: string, i: nat): Option<char>
  {
    if 4 * i + 1 < |line| && IsAsciiAlpha(line[4 * i + 1]) then Some(line[4 * i + 1]) else None
  }

  function Pushed(s: seq<char>, c: Option<char>): seq<char>
  {
    match c
      case None => s
      case Some(v) => s + [v]
  }

  /** Column i of the row is readable: absent, or holding a letter or a blank. */
  predicate ColumnReadable(line: string, i: nat)
  {
    4 * i >= |line| || (4 * i + 1 < |line| && (IsAsciiAlpha(line[4 * i + 1]) || IsWhitespace(line[4 * i + 1])))
  }

  /**
   * One row of the drawing, columns `sidx` onward: a letter at offset 1 of a column is pushed onto that
   * column's stack, a blank is skipped, anything else panics, and a row that stops right after a column
   * start panics on the `unwrap`.
   */
  function PushRow(st: Stacks, line: string, sidx: nat): (r: Result<Stacks>)
    ensures r.Ok? <==> forall i :: sidx <= i < |st| ==> ColumnReadable(line, i)
    ensures r.Ok? ==> |r.value| == |st|
    ensures r.Ok? ==> forall i :: 0 <= i < |st| ==> r.value[i] == if i < sidx then st[i] else Pushed(st[i], Cell(line, i))
    decreases |st| - sidx
  {
    if sidx >= |st| then Ok(st)
    else if 4 * sidx >= |line| then
      assert forall i :: sidx <= i < |st| ==> 4 * i >= |line|;
      Ok(st)
    else if 4 * sidx + 1 >= |line| then
      assert !ColumnReadable(line, sidx);
      Panic(NoneUnwrap)
    else
      var v := line[4 * sidx + 1];
      if IsAsciiAlpha(v) then PushRow(st[sidx := st[sidx] + [v]], line, sidx + 1)
      else if IsWhitespace(v) then PushRow(st, line, sidx + 1)
      else
        assert !ColumnReadable(line, sidx);
        Panic("Unexpected char")
  }

  /** The rows above the labels, applied from the bottom row up. */
  function PushRows(st: Stacks, rows: seq<string>): (r: Result<Stacks>)
    ensures r.Ok? ==> |r.value| == |st|
    decreases |rows|
  {
    if rows == [] then Ok(st)
    else match PushRow(st, rows[|rows| - 1], 0)
      case Panic(m) => Panic(m)
      case Ok(st1) => PushRows(st1, rows[..|rows| - 1])
  }

  function Empty(n: nat): (r: Stacks)
    ensures |r| == n && forall i :: 0 <= i < n ==> r[i] == []
  {
    seq(n, _ => [])
  }

  /** `mk_stacks`: one stack per label on the bottom line, filled from the rows above it. */
  function BuildStacks(input: string): Result<Stacks>
  {
    var ls := Lines(input);
    if ls == [] then Panic(NoneUnwrap)
    else PushRows(Empty(|SplitWhitespace(ls[|ls| - 1])|), ls[..|ls| - 1])
  }

  predicate AllCrates(st: Stacks)
  {
    forall i, j :: 0 <= i < |st| && 0 <= j < |st[i]| ==> IsAsciiAlpha(st[i][j])
  }

  /** Every crate read from a drawing is a letter. */
  lemma {:induction false} RowsPushLetters(st: Stacks, rows: seq<string>)
    requires AllCrates(st) && PushRows(st, rows).Ok?
    ensures AllCrates(PushRows(st, rows).value)
    decreases |rows|
  {
    if rows != [] {
      var st1 := PushRow(st, rows[|rows| - 1], 0).value;
      forall i, j | 0 <= i < |st1| && 0 <= j < |st1[i]| ensures IsAsciiAlpha(st1[i][j]) {
        var c := Cell(rows[|rows| - 1], i);
        if j < |st[i]| {
          assert st1[i][j] == st[i][j];
        } else {
          assert st1[i][j] == c.value;
        }
      }
      RowsPushLetters(st1, rows[..|rows| - 1]);
    }
  }

  lemma BuildStacksShape(input: string)
    requires BuildStacks(input).Ok?
    ensures var ls := Lines(input);
            ls != [] && |BuildStacks(input).value| == |SplitWhitespace(ls[|ls| - 1])|
    ensures AllCrates(BuildStacks(input).value)
  {
    var ls := Lines(input);
    RowsPushLetters(Empty(|SplitWhitespace(ls[|ls| - 1])|), ls[..|ls| - 1]);
  }

  /** The loop of `mk_stacks`, reading the rows bottom-up into an array of stacks. */
  method MkStacks(input: string) returns (r: Result<Stacks>)
    ensures r == BuildStacks(input)
  {
    var ls := Lines(input);
    if ls == [] {
      return Panic(NoneUnwrap);
    }
    var n := |SplitWhitespace(ls[|ls| - 1])|;
    var stacks := new seq<char>[n](_ => []);
    assert stacks[..] == Empty(n);
    var k := |ls| - 1;
    while k > 0
      invariant 0 <= k < |ls| && stacks.Length == n
      invariant BuildStacks(input) == PushRows(stacks[..], ls[..k])
      decreases k
    {
      var line := ls[k - 1];
      assert ls[..k][..k - 1] == ls[..k - 1];
      var err := PushLine(stacks, line);
      if err.Some? {
        return Panic(err.value);
      }
      k := k - 1;
    }
    return Ok(stacks[..]);
  }

  /** The inner loop of `mk_stacks`: one row's crates pushed onto the stacks in place. */
  method PushLine(stacks: array<seq<char>>, line: string) returns (err: Option<string>)
    modifies stacks
    ensures err.Some? <==> PushRow(old(stacks[..]), line, 0).Panic?
    ensures err.Some? ==> err.value == PushRow(old(stacks[..]), line, 0).msg
    ensures err.None? ==> stacks[..] == PushRow(old(stacks[..]), line, 0).value
  {
    ghost var snap := stacks[..];
    var n := stacks.Length;
    var sidx := 0;
    while sidx < n && 4 * sidx < |line|
      invariant sidx <= n
      invariant PushRow(snap, line, 0) == PushRow(stacks[..], line, sidx)
      decreases n - sidx
    {
      if 4 * sidx + 1 >= |line| {
        return Some(NoneUnwrap);
      }
      var v := line[4 * sidx + 1];
      if IsAsciiAlpha(v) {
        stacks[sidx] := stacks[sidx] + [v];
      } else if !IsWhitespace(v) {
        return Some("Unexpected char");
      }
      sidx := sidx + 1;
    }
    return None;
  }

  // ------------------------------------------------------------------
  // generator
  // ------------------------------------------------------------------

  /** `generator`: exactly two sections separated by a blank line; the stacks come from the first. */
  function Sections(input: string): (r: Result<(string, string)>)
    ensures r.Ok? <==> |SplitStr(input, "\n\n")| == 2
  {
    var parts := SplitStr(input, "\n\n");
    if |parts| < 2 then Panic(NoneUnwrap)
    else if |parts| > 2 then Panic("Unexpected sections")
    else Ok((parts[0], parts[1]))
  }

  // ------------------------------------------------------------------
  // the example
  // ------------------------------------------------------------------

  function SampleStacks(): Stacks { ["ZN", "MCD", "P"] }

  function SampleMoves(): seq<Move> { [Move(1, 1, 0), Move(3, 0, 2), Move(2, 1, 0), Move(1, 0, 1)] }

  lemma SampleMoveLabels()
    ensures ToMove(1, 2, 1) == Ok(SampleMoves()[0]) && ToMove(1, 1, 2) == Ok(SampleMoves()[3])
  {
  }

  lemma SampleStep1()
    ensures MoveCrates(["ZN", "MCD", "P"], 1, 1, 0) == Ok(["ZND", "MC", "P"])
    ensures MoveBlock(["ZN", "MCD", "P"], 1, 1, 0) == Ok(["ZND", "MC", "P"])
  {
    var a: Stacks := ["ZN", "MCD", "P"];
    CratesReverse(a, 1, 1, 0);
    assert Drop(a[1], 1) == "MC" && Top(a[1], 1) == "D" && Reverse("D") == "D";
    var b := a[1 := "MC"];
    assert b == ["ZN", "MC", "P"];
    assert "ZN" + "D" == "ZND";
    assert b[0 := "ZND"] == ["ZND", "MC", "P"];
  }

  lemma SampleReverse3()
    ensures Reverse("ZND") == "DNZ"
  {
    var rev := Reverse("ZND");
    assert rev[0] == 'D' && rev[1] == 'N' && rev[2] == 'Z';
  }

  lemma SampleReverse2()
    ensures Reverse("MC") == "CM"
  {
    var rev := Reverse("MC");
    assert rev[0] == 'C' && rev[1] == 'M';
  }

  /** Two updates of a sequence of stacks, checked against the expected result one stack at a time. */
  lemma UpdateTwo(a: Stacks, f: nat, t: nat, x: seq<char>, y: seq<char>, goal: Stacks)
    requires f < |a| && t < |a| && f != t && |goal| == |a| && goal[f] == x && goal[t] == y
    requires forall i :: 0 <= i < |a| && i != f && i != t ==> goal[i] == a[i]
    ensures a[f := x][t := y] == goal
  {
  }

  lemma SampleStep2(a: Stacks)
    requires a == ["ZND", "MC", "P"]
    ensures MoveCrates(a, 3, 0, 2) == Ok(["", "MC", "PDNZ"])
  {
    CratesReverse(a, 3, 0, 2);
    SampleLanding2(a);
  }

  lemma SampleLanding2(a: Stacks)
    requires a == ["ZND", "MC", "P"]
    ensures a[0 := Drop(a[0], 3)][2 := a[2] + Reverse(Top(a[0], 3))] == ["", "MC", "PDNZ"]
  {
    assert Drop(a[0], 3) == [] && Top(a[0], 3) == "ZND";
    SampleReverse3();
    assert a[2] + "DNZ" == "PDNZ";
    UpdateTwo(a, 0, 2, [], "PDNZ", ["", "MC", "PDNZ"]);
  }

  lemma SampleBlock2()
    ensures MoveBlock(["ZND", "MC", "P"], 3, 0, 2) == Ok(["", "MC", "PZND"])
  {
    var a: Stacks := ["ZND", "MC", "P"];
    var goal: Stacks := ["", "MC", "PZND"];
    assert Drop(a[0], 3) == [] && Top(a[0], 3) == "ZND";
    assert a[2] + "ZND" == "PZND";
    UpdateTwo(a, 0, 2, [], "PZND", goal);
  }

  lemma SampleStep3(a: Stacks)
    requires a == ["", "MC", "PDNZ"]
    ensures MoveCrates(a, 2, 1, 0) == Ok(["CM", "", "PDNZ"])
  {
    var goal: Stacks := ["CM", "", "PDNZ"];
    assert Drop(a[1], 2) == [] && Top(a[1], 2) == "MC";
    SampleReverse2();
    assert a[0] + "CM" == "CM";
    CratesReverse(a, 2, 1, 0);
    UpdateTwo(a, 1, 0, [], "CM", goal);
  }

  lemma SampleBlock3()
    ensures MoveBlock(["", "MC", "PZND"], 2, 1, 0) == Ok(["MC", "", "PZND"])
  {
    var a: Stacks := ["", "MC", "PZND"];
    var goal: Stacks := ["MC", "", "PZND"];
    assert Drop(a[1], 2) == [] && Top(a[1], 2) == "MC";
    assert a[0] + "MC" == "MC";
    UpdateTwo(a, 1, 0, [], "MC", goal);
  }

  lemma SampleStep4()
    ensures MoveCrates(["CM", "", "PDNZ"], 1, 0, 1) == Ok(["C", "M", "PDNZ"])
  {
    var a: Stacks := ["CM", "", "PDNZ"];
    CratesReverse(a, 1, 0, 1);
    assert Drop(a[0], 1) == "C" && Top(a[0], 1) == "M" && Reverse("M") == "M";
    var b := a[0 := "C"];
    assert b == ["C", "", "PDNZ"];
    assert "" + "M" == "M";
    assert b[1 := "M"] == ["C", "M", "PDNZ"];
  }

  lemma SampleBlock4()
    ensures MoveBlock(["MC", "", "PZND"], 1, 0, 1) == Ok(["M", "C", "PZND"])
  {
    var a: Stacks := ["MC", "", "PZND"];
    assert Drop(a[0], 1) == "M" && Top(a[0], 1) == "C";
    var b := a[0 := "M"];
    assert b == ["M", "", "PZND"];
    assert "" + "C" == "C";
    assert b[1 := "C"] == ["M", "C", "PZND"];
  }

  lemma SampleTops1()
    ensures Tops(["C", "M", "PDNZ"]) == Ok("CMZ")
  {
    var st: Stacks := ["C", "M", "PDNZ"];
    var r := Tops(st);
    assert st[0] != [] && st[1] != [] && st[2] != [];
    assert r.value[0] == 'C' && r.value[1] == 'M' && r.value[2] == 'Z';
    assert r.value == "CMZ";
  }

  lemma SampleTops2()
    ensures Tops(["M", "C", "PZND"]) == Ok("MCD")
  {
    var st: Stacks := ["M", "C", "PZND"];
    var r := Tops(st);
    assert st[0] != [] && st[1] != [] && st[2] != [];
    assert r.value[0] == 'M' && r.value[1] == 'C' && r.value[2] == 'D';
    assert r.value == "MCD";
  }

  /** A first move that succeeds hands the rest of the moves the stacks it leaves. */
  lemma Apply9000Cons(st: Stacks, mv: Move, rest: seq<Move>, st1: Stacks)
    requires MoveCrates(st, mv.times, mv.from, mv.to) == Ok(st1)
    ensures Apply9000(st, [mv] + rest) == Apply9000(st1, rest)
  {
    assert ([mv] + rest)[1..] == rest;
  }

  lemma Apply9001Cons(st: Stacks, mv: Move, rest: seq<Move>, st1: Stacks)
    requires MoveBlock(st, mv.times, mv.from, mv.to) == Ok(st1)
    ensures Apply9001(st, [mv] + rest) == Apply9001(st1, rest)
  {
    assert ([mv] + rest)[1..] == rest;
  }

  lemma SamplePart1()
    ensures TopsAfter(Apply9000(SampleStacks(), SampleMoves())) == Ok("CMZ")
  {
    var m0, m1, m2, m3 := Move(1, 1, 0), Move(3, 0, 2), Move(2, 1, 0), Move(1, 0, 1);
    assert SampleMoves() == [m0] + ([m1] + ([m2] + ([m3] + [])));
    SampleStep1();
    SampleStep2(["ZND", "MC", "P"]);
    SampleStep3(["", "MC", "PDNZ"]);
    SampleStep4();
    Apply9000Cons(["CM", "", "PDNZ"], m3, [], ["C", "M", "PDNZ"]);
    Apply9000Cons(["", "MC", "PDNZ"], m2, [m3] + [], ["CM", "", "PDNZ"]);
    Apply9000Cons(["ZND", "MC", "P"], m1, [m2] + ([m3] + []), ["", "MC", "PDNZ"]);
    Apply9000Cons(SampleStacks(), m0, [m1] + ([m2] + ([m3] + [])), ["ZND", "MC", "P"]);
    SampleTops1();
  }

  lemma SamplePart2()
    ensures TopsAfter(Apply9001(SampleStacks(), SampleMoves())) == Ok("MCD")
  {
    var m0, m1, m2, m3 := Move(1, 1, 0), Move(3, 0, 2), Move(2, 1, 0), Move(1, 0, 1);
    assert SampleMoves() == [m0] + ([m1] + ([m2] + ([m3] + [])));
    SampleStep1();
    SampleBlock2();
    SampleBlock3();
    SampleBlock4();
    Apply9001Cons(["MC", "", "PZND"], m3, [], ["M", "C", "PZND"]);
    Apply9001Cons(["", "MC", "PZND"], m2, [m3] + [], ["MC", "", "PZND"]);
    Apply9001Cons(["ZND", "MC", "P"], m1, [m2] + ([m3] + []), ["", "MC", "PZND"]);
    Apply9001Cons(SampleStacks(), m0, [m1] + ([m2] + ([m3] + [])), ["ZND", "MC", "P"]);
    SampleTops2();
  }

  lemma SampleLines(r0: string, r1: string, r2: string, labels: string)
    requires r0 == "    [D]" && r1 == "[N] [C]" && r2 == "[Z] [M] [P]" && labels == " 1   2   3"
    ensures Lines(r0 + "\n" + r1 + "\n" + r2 + "\n" + labels) == [r0, r1, r2, labels]
  {
    assert FreeOf(r0, {'\n'}) && FreeOf(r1, {'\n'}) && FreeOf(r2, {'\n'}) && FreeOf(labels, {'\n'});
    FourLines(r0, r1, r2, labels, '\n');
  }

  /** Four separator-free lines, the last one non-empty, joined by the separator split back into four. */
  lemma FourLines(r0: string, r1: string, r2: string, r3: string, sep: char)
    requires FreeOf(r0, {sep}) && FreeOf(r1, {sep}) && FreeOf(r2, {sep}) && FreeOf(r3, {sep}) && r3 != []
    ensures SplitTerminator(r0 + [sep] + r1 + [sep] + r2 + [sep] + r3, {sep}) == [r0, r1, r2, r3]
  {
    var t2 := r2 + [sep] + r3;
    var t1 := r1 + [sep] + t2;
    TwoLines(r2, r3, sep);
    SplitOnPiece(r1, sep, t2, {sep});
    SplitOnPiece(r0, sep, t1, {sep});
    assert r0 + [sep] + r1 + [sep] + r2 + [sep] + r3 == r0 + [sep] + t1;
  }

  lemma TwoLines(r2: string, r3: string, sep: char)
    requires FreeOf(r2, {sep}) && FreeOf(r3, {sep})
    ensures SplitOn(r2 + [sep] + r3, {sep}) == [r2, r3]
  {
    SplitOnFree(r3, {sep});
    SplitOnPiece(r2, sep, r3, {sep});
  }

  lemma SampleLabels(labels: string)
    requires labels == " 1   2   3"
    ensures SplitWhitespace(labels) == ["1", "2", "3"]
  {
    assert ' ' in Whitespace && '1' !in Whitespace && '2' !in Whitespace && '3' !in Whitespace;
    SpacedThree(labels, '1', '2', '3', Whitespace);
  }

  /** Three non-blank characters, each after a run of blanks, are the three words. */
  lemma SpacedThree(s: string, a: char, b: char, c: char, ws: set<char>)
    requires s == [' ', a, ' ', ' ', ' ', b, ' ', ' ', ' ', c]
    requires ' ' in ws && a !in ws && b !in ws && c !in ws
    ensures NonEmpty(SplitOn(s, ws)) == [[a], [b], [c]]
  {
    var t5 := [b] + [' '] + ([' '] + ([' '] + [c]));
    var t3 := [' '] + ([' '] + t5);
    var t1 := [a] + [' '] + t3;
    SpacedShape(s, a, b, c);
    SpacedTwo(t5, b, c, ws);
    SkipSep(' ', t5, ws);
    SkipSep(' ', [' '] + t5, ws);
    SkipWord([a], ' ', t3, ws);
    SkipSep(' ', t1, ws);
  }

  /** The last two words of the sample's label line. */
  lemma SpacedTwo(t5: string, b: char, c: char, ws: set<char>)
    requires t5 == [b] + [' '] + ([' '] + ([' '] + [c]))
    requires ' ' in ws && b !in ws && c !in ws
    ensures NonEmpty(SplitOn(t5, ws)) == [[b], [c]]
  {
    var t8 := [' '] + [c];
    var t7 := [' '] + t8;
    LastWord([c], ws);
    SkipSep(' ', [c], ws);
    SkipSep(' ', t8, ws);
    SkipWord([b], ' ', t7, ws);
  }

  lemma SpacedShape(s: string, a: char, b: char, c: char)
    requires s == [' ', a, ' ', ' ', ' ', b, ' ', ' ', ' ', c]
    ensures s == [' '] + ([a] + [' '] + ([' '] + ([' '] + ([b] + [' '] + ([' '] + ([' '] + [c]))))))
  {
  }

  lemma SampleRows()
    ensures PushRow(Empty(3), "[Z] [M] [P]", 0) == Ok(["Z", "M", "P"])
    ensures PushRow(["Z", "M", "P"], "[N] [C]", 0) == Ok(["ZN", "MC", "P"])
    ensures PushRow(["ZN", "MC", "P"], "    [D]", 0) == Ok(["ZN", "MCD", "P"])
  {
    SampleRow1(Empty(3), "[Z] [M] [P]");
    SampleRow2(["Z", "M", "P"], "[N] [C]");
    SampleRow3(["ZN", "MC", "P"], "    [D]");
  }

  /** Row `[Z] [M] [P]` pushed onto three empty stacks. */
  lemma SampleRow1(st: Stacks, line: string)
    requires st == Empty(3) && line == "[Z] [M] [P]"
    ensures PushRow(st, line, 0) == Ok(["Z", "M", "P"])
  {
    assert |line| == 11 && line[1] == 'Z' && line[5] == 'M' && line[9] == 'P';
    RowOfThree(st, line, ["Z", "M", "P"]);
  }

  /** Row `[N] [C]` pushed onto the stacks of the bottom row. */
  lemma SampleRow2(st: Stacks, line: string)
    requires st == ["Z", "M", "P"] && line == "[N] [C]"
    ensures PushRow(st, line, 0) == Ok(["ZN", "MC", "P"])
  {
    assert |line| == 7 && line[1] == 'N' && line[5] == 'C';
    RowOfThree(st, line, ["ZN", "MC", "P"]);
  }

  /** Row `    [D]`: the first column is blank. */
  lemma SampleRow3(st: Stacks, line: string)
    requires st == ["ZN", "MC", "P"] && line == "    [D]"
    ensures PushRow(st, line, 0) == Ok(["ZN", "MCD", "P"])
  {
    assert |line| == 7 && line[1] == ' ' && line[5] == 'D';
    assert ' ' in Whitespace;
    RowOfThree(st, line, ["ZN", "MCD", "P"]);
  }

  /** A row over three stacks whose three columns are readable gives the stacks each pushed with its cell. */
  lemma RowOfThree(st: Stacks, line: string, want: Stacks)
    requires |st| == 3 && |want| == 3
    requires ColumnReadable(line, 0) && ColumnReadable(line, 1) && ColumnReadable(line, 2)
    requires forall i :: 0 <= i < 3 ==> want[i] == Pushed(st[i], Cell(line, i))
    ensures PushRow(st, line, 0) == Ok(want)
  {
    var r := PushRow(st, line, 0);
    assert forall i :: 0 <= i < |st| ==> ColumnReadable(line, i) by {
      forall i | 0 <= i < |st| ensures ColumnReadable(line, i) {
        assert i == 0 || i == 1 || i == 2;
      }
    }
    assert r.value == want;
  }

  /** The rows of the example drawing, pushed bottom-up onto three empty stacks. */
  lemma SampleRowsPushed(rows: seq<string>)
    requires rows == ["    [D]", "[N] [C]", "[Z] [M] [P]"]
    ensures PushRows(Empty(3), rows) == Ok(SampleStacks())
  {
    SampleRows();
    ThreeRows(Empty(3), rows, ["Z", "M", "P"], ["ZN", "MC", "P"], SampleStacks());
  }

  /** Three rows pushed bottom-up: the last row first, the first row last. */
  lemma ThreeRows(st0: Stacks, rows: seq<string>, st1: Stacks, st2: Stacks, st3: Stacks)
    requires |rows| == 3
    requires PushRow(st0, rows[2], 0) == Ok(st1)
    requires PushRow(st1, rows[1], 0) == Ok(st2)
    requires PushRow(st2, rows[0], 0) == Ok(st3)
    ensures PushRows(st0, rows) == Ok(st3)
  {
    var rows1 := rows[..2];
    var rows2 := rows1[..1];
    assert rows[|rows| - 1] == rows[2] && rows1[|rows1| - 1] == rows[1] && rows2[|rows2| - 1] == rows[0];
    PushRowsStep(st0, rows, st1);
    PushRowsStep(st1, rows1, st2);
    PushRowsStep(st2, rows2, st3);
    assert rows2[..|rows2| - 1] == [];
  }

  /** Pushing rows bottom-up: the last row first, then the rest. */
  lemma PushRowsStep(st: Stacks, rows: seq<string>, st1: Stacks)
    requires rows != [] && PushRow(st, rows[|rows| - 1], 0) == Ok(st1)
    ensures PushRows(st, rows) == PushRows(st1, rows[..|rows| - 1])
  {
  }

  /** The example drawing: three stacks, with N, D and P on top. */
  lemma SampleDrawing(input: string)
    requires input == "    [D]" + "\n" + "[N] [C]" + "\n" + "[Z] [M] [P]" + "\n" + " 1   2   3"
    ensures BuildStacks(input) == Ok(SampleStacks())
  {
    var rows := ["    [D]", "[N] [C]", "[Z] [M] [P]"];
    SampleLines(rows[0], rows[1], rows[2], " 1   2   3");
    var ls := Lines(input);
    assert ls == rows + [" 1   2   3"];
    assert |ls| == 4 && ls[..|ls| - 1] == rows && ls[|ls| - 1] == " 1   2   3";
    SampleLabels(" 1   2   3");
    SampleRowsPushed(rows);
  }

  lemma SampleTops0()
    ensures Tops(SampleStacks()) == Ok("NDP")
  {
    var st: Stacks := ["ZN", "MCD", "P"];
    var r := Tops(st);
    assert st[0] != [] && st[1] != [] && st[2] != [];
    assert r.value[0] == 'N' && r.value[1] == 'D' && r.value[2] == 'P';
    assert r.value == "NDP";
  }
}
