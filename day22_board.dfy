/**
  * Day 22, the board and the walker: the rows of tiles (struct Line, make_lines,
  * Puzzle::get_space), the walker's state (struct State) with its flat move (move_forward,
  * determine_new_y) and its move across a table of cube seams (move_forward_with_mappings),
  * and the flat walk of part 1 (initial_state, follow_path).
  */
module Day22Board {
  import opened Wrappers
  import opened Arith
  import opened Day22

  const OpenSpace := '.'
  const BlockedSpace := '#'

  predicate IsTile(c: char) { c == OpenSpace || c == BlockedSpace }

  // ------------------------------------------------------------------
  // Rows of the board (struct Line, make_lines)
  // ------------------------------------------------------------------

  /** One row of the board: its tiles run from column minX to column maxX of row y. */
  datatype Line = Line(minX: nat, maxX: nat, y: nat, contents: seq<char>)

  predicate LineOk(line: Line)
  {
    line.minX <= line.maxX && |line.contents| == line.maxX - line.minX + 1
  }

  /** What make_lines guarantees of its rows: row k is numbered k and its contents fill minX..maxX. */
  predicate ValidLines(lines: seq<Line>)
  {
    forall k :: 0 <= k < |lines| ==> lines[k].y == k && LineOk(lines[k])
  }

  /** str::find for '.' or '#': the first tile of the row. */
  function FindTile(s: string): (r: Option<nat>)
    ensures r.Some? ==> r.value < |s| && IsTile(s[r.value])
    ensures r.Some? ==> forall i :: 0 <= i < r.value ==> !IsTile(s[i])
    ensures r.None? ==> forall i :: 0 <= i < |s| ==> !IsTile(s[i])
    decreases |s|
  {
    if s == [] then None
    else if IsTile(s[0]) then Some(0)
    else
      match FindTile(s[1..])
      case None => None
      case Some(i) => Some(i + 1)
  }

  /** str::rfind for '.' or '#': the last tile of the row. */
  function RFindTile(s: string): (r: Option<nat>)
    ensures r.Some? ==> r.value < |s| && IsTile(s[r.value])
    ensures r.Some? ==> forall i :: r.value < i < |s| ==> !IsTile(s[i])
    ensures r.None? ==> forall i :: 0 <= i < |s| ==> !IsTile(s[i])
    decreases |s|
  {
    if s == [] then None
    else if IsTile(s[|s| - 1]) then Some(|s| - 1)
    else RFindTile(s[..|s| - 1])
  }

  /**
    * One iteration of make_lines: the row's tiles are cut out between its first and last tile;
    * a row with no tile at all makes the `unwrap` of the search panic.
    */
  function MakeLine(row: string, y: nat): (r: Result<Line>)
    ensures r.Ok? ==> LineOk(r.value) && r.value.y == y && r.value.maxX < |row|
  {
    if FindTile(row).None? || RFindTile(row).None? then Panic("called `Option::unwrap()` on a `None` value")
    else
      var lo, hi := FindTile(row).value, RFindTile(row).value;
      assert IsTile(row[hi]);
      Ok(Line(lo, hi, y, row[lo..hi + 1]))
  }

  /**
   * A row makes a line exactly when it has a tile; the line runs from its first tile to its last,
   * holds the row's characters in between, and no tile lies outside it.
   */
  lemma MakeLineCuts(row: string, y: nat)
    ensures MakeLine(row, y).Ok? <==> exists i :: 0 <= i < |row| && IsTile(row[i])
    ensures MakeLine(row, y).Ok? ==>
      var l := MakeLine(row, y).value;
      l.contents == row[l.minX..l.maxX + 1] && IsTile(row[l.minX]) && IsTile(row[l.maxX])
      && forall i :: 0 <= i < |row| && !(l.minX <= i <= l.maxX) ==> !IsTile(row[i])
  {
    if exists i :: 0 <= i < |row| && IsTile(row[i]) {
      var i :| 0 <= i < |row| && IsTile(row[i]);
      assert FindTile(row).Some? && RFindTile(row).Some?;
    }
  }

  /** make_lines over the map's rows: row k becomes MakeLine(rows[k], k); the first bare row panics. */
  method MakeLines(rows: seq<string>) returns (r: Result<seq<Line>>)
    ensures r.Ok? <==> forall k :: 0 <= k < |rows| ==> MakeLine(rows[k], k).Ok?
    ensures r.Ok? ==> |r.value| == |rows| && ValidLines(r.value)
    ensures r.Ok? ==> forall k :: 0 <= k < |rows| ==> r.value[k] == MakeLine(rows[k], k).value
  {
    var lines: seq<Line> := [];
    var y := 0;
    while y < |rows|
      invariant 0 <= y <= |rows| && |lines| == y
      invariant MadeUpTo(rows, lines, y)
    {
      var lo := FindTile(rows[y]);
      var hi := RFindTile(rows[y]);
      if lo.None? || hi.None? {
        NoLine(rows[y], y);
        return Panic("called `Option::unwrap()` on a `None` value");
      }
      LineOf(rows[y], y, lo.value, hi.value);
      MadeOneMore(rows, lines, y, Line(lo.value, hi.value, y, rows[y][lo.value..hi.value + 1]));
      lines := lines + [Line(lo.value, hi.value, y, rows[y][lo.value..hi.value + 1])];
      y := y + 1;
    }
    assert MadeUpTo(rows, lines, |rows|);
    LinesOf(rows, lines);
    r := Ok(lines);
  }

  /** The first y rows are made, into lines[..y]. */
  predicate MadeUpTo(rows: seq<string>, lines: seq<Line>, y: nat)
    requires y <= |rows| && |lines| == y
  {
    forall k :: 0 <= k < y ==> MakeLine(rows[k], k).Ok? && lines[k] == MakeLine(rows[k], k).value
  }

  lemma MadeOneMore(rows: seq<string>, lines: seq<Line>, y: nat, l: Line)
    requires y < |rows| && |lines| == y && MadeUpTo(rows, lines, y)
    requires MakeLine(rows[y], y) == Ok(l)
    ensures MadeUpTo(rows, lines + [l], y + 1)
  {
  }

  /** A row with a first and a last tile is cut between them. */
  lemma LineOf(row: string, y: nat, lo: nat, hi: nat)
    requires FindTile(row) == Some(lo) && RFindTile(row) == Some(hi)
    ensures lo <= hi < |row| && MakeLine(row, y) == Ok(Line(lo, hi, y, row[lo..hi + 1]))
  {
    assert IsTile(row[hi]);
  }

  /** A row without a first or a last tile panics. */
  lemma NoLine(row: string, y: nat)
    requires FindTile(row).None? || RFindTile(row).None?
    ensures MakeLine(row, y).Panic?
  {
  }

  /** Rows each made into their line form a board. */
  lemma LinesOf(rows: seq<string>, lines: seq<Line>)
    requires |lines| == |rows|
    requires forall k :: 0 <= k < |rows| ==> MakeLine(rows[k], k).Ok? && lines[k] == MakeLine(rows[k], k).value
    ensures ValidLines(lines)
  {
    forall k | 0 <= k < |lines| ensures lines[k].y == k && LineOk(lines[k]) {
      assert MakeLine(rows[k], k).Ok?;
    }
  }

  /** The cell lies on a tile of the board. */
  predicate InRange(line: Line, x: int) { line.minX <= x <= line.maxX }

  predicate OnGrid(lines: seq<Line>, p: XY)
  {
    0 <= p.y < |lines| && InRange(lines[p.y], p.x)
  }

  /** Puzzle::get_space: the tile at (x, y); an index outside the rows or a row's contents panics. */
  function GetSpace(lines: seq<Line>, p: XY): (r: Result<char>)
    ensures ValidLines(lines) ==> (r.Ok? <==> OnGrid(lines, p))
  {
    if 0 <= p.y < |lines| && 0 <= p.x - lines[p.y].minX < |lines[p.y].contents| then
      Ok(lines[p.y].contents[p.x - lines[p.y].minX])
    else
      Panic("index out of bounds")
  }

  // ------------------------------------------------------------------
  // The flat move (State::move_forward, State::determine_new_y)
  // ------------------------------------------------------------------

  /**
    * The scan of determine_new_y: from row y, keep stepping against the move (y - yc, wrapping
    * round the board) while the row covers column x; at most fuel rows are passed.
    */
  function ScanBack(lines: seq<Line>, x: int, y: int, yc: int, fuel: nat): (r: int)
    requires 0 <= y < |lines|
    ensures 0 <= r < |lines|
    decreases fuel
  {
    if fuel == 0 || !InRange(lines[y], x) then y
    else ScanBack(lines, x, (y - yc) % |lines|, yc, fuel - 1)
  }

  /**
    * The row a vertical move from row y0 lands on in column x: the next row (wrapping round the
    * board) if it covers x, otherwise the far end of the run of rows that covers x.
    */
  function NewY(lines: seq<Line>, y0: int, yc: int, x: int): (r: int)
    requires |lines| > 0
    ensures 0 <= r < |lines|
  {
    var n := |lines|;
    var y1 := (y0 + yc) % n;
    if InRange(lines[y1], x) then y1
    else (ScanBack(lines, x, (y0 - yc) % n, yc, n) + yc) % n
  }

  /** The scan stops on its start or one step beyond a row that covers x. */
  lemma {:induction false} ScanBackLands(lines: seq<Line>, x: int, y: int, yc: int, fuel: nat)
    requires 0 <= y < |lines|
    ensures var r := ScanBack(lines, x, y, yc, fuel);
      r == y || exists q :: 0 <= q < |lines| && InRange(lines[q], x) && r == (q - yc) % |lines|
    decreases fuel
  {
    if fuel > 0 && InRange(lines[y], x) {
      ScanBackLands(lines, x, (y - yc) % |lines|, yc, fuel - 1);
    }
  }

  /** A vertical move from a row that covers column x lands on a row that covers x. */
  lemma NewYCovers(lines: seq<Line>, y0: int, yc: int, x: int)
    requires 0 <= y0 < |lines| && InRange(lines[y0], x)
    ensures InRange(lines[NewY(lines, y0, yc, x)], x)
  {
    var n := |lines|;
    if !InRange(lines[(y0 + yc) % n], x) {
      var s0 := (y0 - yc) % n;
      ScanBackLands(lines, x, s0, yc, n);
      var b := ScanBack(lines, x, s0, yc, n);
      if b == s0 {
        ModAdd(y0 - yc, yc, n);
        ModOfInRange(y0, n);
      } else {
        var q :| 0 <= q < n && InRange(lines[q], x) && b == (q - yc) % n;
        ModAdd(q - yc, yc, n);
        ModOfInRange(q, n);
      }
    }
  }

  /** Scanning up (against a southward move) through rows a..y that cover x ends just above a. */
  lemma {:induction false} ScanUpRun(lines: seq<Line>, x: int, a: int, b: int, y: int, fuel: nat)
    requires 0 <= a <= y <= b < |lines| && !(a == 0 && b == |lines| - 1)
    requires forall k :: 0 <= k < |lines| ==> (InRange(lines[k], x) <==> a <= k <= b)
    requires fuel >= y - a + 1
    ensures ScanBack(lines, x, y, 1, fuel) == (a - 1) % |lines|
    decreases y - a
  {
    var n := |lines|;
    if y == a {
      var s := (a - 1) % n;
      if a == 0 {
        DivModUnique(-1, n, -1, n - 1);
      } else {
        ModOfInRange(a - 1, n);
      }
      assert !InRange(lines[s], x);
      assert ScanBack(lines, x, y, 1, fuel) == ScanBack(lines, x, s, 1, fuel - 1);
    } else {
      ModOfInRange(y - 1, n);
      ScanUpRun(lines, x, a, b, y - 1, fuel - 1);
    }
  }

  /** Scanning down (against a northward move) through rows y..b that cover x ends just below b. */
  lemma {:induction false} ScanDownRun(lines: seq<Line>, x: int, a: int, b: int, y: int, fuel: nat)
    requires 0 <= a <= y <= b < |lines| && !(a == 0 && b == |lines| - 1)
    requires forall k :: 0 <= k < |lines| ==> (InRange(lines[k], x) <==> a <= k <= b)
    requires fuel >= b - y + 1
    ensures ScanBack(lines, x, y, -1, fuel) == (b + 1) % |lines|
    decreases b - y
  {
    var n := |lines|;
    if y == b {
      var s := (b + 1) % n;
      if b == n - 1 {
        DivModUnique(n, n, 1, 0);
      } else {
        ModOfInRange(b + 1, n);
      }
      assert !InRange(lines[s], x);
      assert ScanBack(lines, x, y, -1, fuel) == ScanBack(lines, x, s, -1, fuel - 1);
    } else {
      ModOfInRange(y + 1, n);
      ScanDownRun(lines, x, a, b, y + 1, fuel - 1);
    }
  }

  /**
    * The column wrap of part 1: when the rows covering column x are the run a..b, a southward
    * move off row b lands on row a and a northward move off row a lands on row b.
    */
  lemma ColumnWraps(lines: seq<Line>, x: int, a: int, b: int)
    requires 0 <= a <= b < |lines|
    requires forall k :: 0 <= k < |lines| ==> (InRange(lines[k], x) <==> a <= k <= b)
    ensures NewY(lines, b, 1, x) == a
    ensures NewY(lines, a, -1, x) == b
  {
    WrapSouth(lines, x, a, b);
    WrapNorth(lines, x, a, b);
  }

  /** A southward move off the last row b of the run lands on its first row a. */
  lemma WrapSouth(lines: seq<Line>, x: int, a: int, b: int)
    requires 0 <= a <= b < |lines|
    requires forall k :: 0 <= k < |lines| ==> (InRange(lines[k], x) <==> a <= k <= b)
    ensures NewY(lines, b, 1, x) == a
  {
    var n := |lines|;
    if a == 0 && b == n - 1 {
      DivModUnique(n, n, 1, 0);
    } else {
      if b + 1 < n {
        ModOfInRange(b + 1, n);
      } else {
        DivModUnique(n, n, 1, 0);
      }
      assert !InRange(lines[(b + 1) % n], x);
      if b == 0 {
        DivModUnique(-1, n, -1, n - 1);
        assert !InRange(lines[(b - 1) % n], x);
      } else {
        ModOfInRange(b - 1, n);
        if b - 1 >= a {
          ScanUpRun(lines, x, a, b, b - 1, n);
        }
      }
      assert ScanBack(lines, x, (b - 1) % n, 1, n) == (a - 1) % n;
      ModAdd(a - 1, 1, n);
      ModOfInRange(a, n);
    }
  }

  /** A northward move off the first row a of the run lands on its last row b. */
  lemma WrapNorth(lines: seq<Line>, x: int, a: int, b: int)
    requires 0 <= a <= b < |lines|
    requires forall k :: 0 <= k < |lines| ==> (InRange(lines[k], x) <==> a <= k <= b)
    ensures NewY(lines, a, -1, x) == b
  {
    var n := |lines|;
    if a == 0 && b == n - 1 {
      DivModUnique(-1, n, -1, n - 1);
    } else {
      if a == 0 {
        DivModUnique(-1, n, -1, n - 1);
      } else {
        ModOfInRange(a - 1, n);
      }
      assert !InRange(lines[(a + -1) % n], x);
      if a == n - 1 {
        DivModUnique(n, n, 1, 0);
        assert !InRange(lines[(a - -1) % n], x);
      } else {
        ModOfInRange(a + 1, n);
        if a + 1 <= b {
          ScanDownRun(lines, x, a, b, a + 1, n);
        }
      }
      assert ScanBack(lines, x, (a - -1) % n, -1, n) == (b + 1) % n;
      ModAdd(b + 1, -1, n);
      ModOfInRange(b, n);
    }
  }

  /** Where move_forward heads from p: within the row for a horizontal heading, within the column otherwise. */
  function FlatTarget(lines: seq<Line>, p: XY, d: XY): (r: XY)
    requires ValidLines(lines) && OnGrid(lines, p)
    ensures OnGrid(lines, r)
    ensures d.y == 0 ==> r.y == p.y
    ensures d.x == 0 ==> r.x == p.x
  {
    var line := lines[p.y];
    var x := if d.x != 0 then line.minX + (p.x - line.minX + d.x) % |line.contents| else p.x;
    NewYCovers(lines, p.y, d.y, x);
    var y := if d.y != 0 then NewY(lines, p.y, d.y, x) else p.y;
    XY(x, y)
  }

  /** The row wrap of part 1: East steps right except from maxX, where it wraps to minX; West mirrors it. */
  lemma RowWraps(lines: seq<Line>, p: XY)
    requires ValidLines(lines) && OnGrid(lines, p)
    ensures FlatTarget(lines, p, East) ==
      if p.x < lines[p.y].maxX then XY(p.x + 1, p.y) else XY(lines[p.y].minX, p.y)
    ensures FlatTarget(lines, p, West) ==
      if p.x > lines[p.y].minX then XY(p.x - 1, p.y) else XY(lines[p.y].maxX, p.y)
  {
    var line := lines[p.y];
    var w := |line.contents|;
    var off := p.x - line.minX;
    if off + 1 < w { ModOfInRange(off + 1, w); } else { DivModUnique(off + 1, w, 1, 0); }
    if off >= 1 { ModOfInRange(off - 1, w); } else { DivModUnique(-1, w, -1, w - 1); }
  }

  /** A flat step East and a flat step West undo each other. */
  lemma RowStepsInverse(lines: seq<Line>, p: XY)
    requires ValidLines(lines) && OnGrid(lines, p)
    ensures FlatTarget(lines, FlatTarget(lines, p, East), West) == p
    ensures FlatTarget(lines, FlatTarget(lines, p, West), East) == p
  {
    RowWraps(lines, p);
    RowWraps(lines, FlatTarget(lines, p, East));
    RowWraps(lines, FlatTarget(lines, p, West));
  }

  /** One flat step: the target if it is open, nothing if it is a wall. */
  function FlatStep(lines: seq<Line>, p: XY, d: XY): (r: Option<XY>)
    requires ValidLines(lines) && OnGrid(lines, p)
    ensures r.Some? ==> r.value == FlatTarget(lines, p, d) && GetSpace(lines, r.value) == Ok(OpenSpace)
    ensures r.Some? ==> OnGrid(lines, r.value)
    ensures r.None? ==> GetSpace(lines, FlatTarget(lines, p, d)) != Ok(OpenSpace)
  {
    var t := FlatTarget(lines, p, d);
    if GetSpace(lines, t) == Ok(OpenSpace) then Some(t) else None
  }

  /** Up to n flat steps, stopping at the first wall. */
  function FlatMoveN(lines: seq<Line>, p: XY, d: XY, n: nat): (r: XY)
    requires ValidLines(lines) && OnGrid(lines, p)
    ensures OnGrid(lines, r)
    decreases n
  {
    if n == 0 then p
    else
      match FlatStep(lines, p, d)
      case None => p
      case Some(q) => FlatMoveN(lines, q, d, n - 1)
  }

  /** Moving a tiles and then b tiles is moving a + b tiles. */
  lemma {:induction false} FlatMoveAdditive(lines: seq<Line>, p: XY, d: XY, a: nat, b: nat)
    requires ValidLines(lines) && OnGrid(lines, p)
    ensures FlatMoveN(lines, FlatMoveN(lines, p, d, a), d, b) == FlatMoveN(lines, p, d, a + b)
    decreases a
  {
    var st := FlatStep(lines, p, d);
    if a == 0 {
      FlatMoveNone(lines, p, d);
    } else if st.None? {
      AdditiveStuck(lines, p, d, a, b);
    } else {
      var q := st.value;
      FlatMoveAdditive(lines, q, d, a - 1, b);
      AdditiveOn(lines, p, d, a, b, q);
    }
  }

  /** After a first step to q, the sum of the moves follows from the sum of the moves from q. */
  lemma AdditiveOn(lines: seq<Line>, p: XY, d: XY, a: nat, b: nat, q: XY)
    requires ValidLines(lines) && OnGrid(lines, p) && a > 0 && FlatStep(lines, p, d) == Some(q) && OnGrid(lines, q)
    requires FlatMoveN(lines, FlatMoveN(lines, q, d, a - 1), d, b) == FlatMoveN(lines, q, d, a - 1 + b)
    ensures FlatMoveN(lines, FlatMoveN(lines, p, d, a), d, b) == FlatMoveN(lines, p, d, a + b)
  {
    FlatMoveOn(lines, p, d, a, q);
    FlatMoveOn(lines, p, d, a + b, q);
    assert a + b - 1 == a - 1 + b;
  }

  /** A move of no steps stays put. */
  lemma FlatMoveNone(lines: seq<Line>, p: XY, d: XY)
    requires ValidLines(lines) && OnGrid(lines, p)
    ensures FlatMoveN(lines, p, d, 0) == p
  {
  }

  /** In front of a wall, moves of a, b and a + b steps all stay put. */
  lemma AdditiveStuck(lines: seq<Line>, p: XY, d: XY, a: nat, b: nat)
    requires ValidLines(lines) && OnGrid(lines, p) && FlatStep(lines, p, d).None?
    ensures FlatMoveN(lines, FlatMoveN(lines, p, d, a), d, b) == FlatMoveN(lines, p, d, a + b)
  {
    FlatMoveStuck(lines, p, d, a);
    FlatMoveStuck(lines, p, d, b);
    FlatMoveStuck(lines, p, d, a + b);
  }

  /** In front of a wall, a move of any length stays put. */
  lemma FlatMoveStuck(lines: seq<Line>, p: XY, d: XY, n: nat)
    requires ValidLines(lines) && OnGrid(lines, p) && FlatStep(lines, p, d).None?
    ensures FlatMoveN(lines, p, d, n) == p
  {
  }

  /** A move whose first step succeeds is that step, then the rest of the move. */
  lemma FlatMoveOn(lines: seq<Line>, p: XY, d: XY, n: nat, q: XY)
    requires ValidLines(lines) && OnGrid(lines, p) && n > 0 && FlatStep(lines, p, d) == Some(q)
    ensures FlatMoveN(lines, p, d, n) == FlatMoveN(lines, q, d, n - 1)
  {
  }

  /** A move ends where it started or on an open tile, never on a wall. */
  lemma {:induction false} FlatMoveEndsOpen(lines: seq<Line>, p: XY, d: XY, n: nat)
    requires ValidLines(lines) && OnGrid(lines, p)
    ensures FlatMoveN(lines, p, d, n) == p || GetSpace(lines, FlatMoveN(lines, p, d, n)) == Ok(OpenSpace)
    decreases n
  {
    if n > 0 {
      match FlatStep(lines, p, d)
      case None =>
      case Some(q) =>
        FlatMoveEndsOpen(lines, q, d, n - 1);
    }
  }

  /** The part 1 walk from p heading d: position and heading after every step of the list. */
  function FlatWalk(lines: seq<Line>, steps: seq<Step>, p: XY, d: XY): (r: (XY, XY))
    requires ValidLines(lines) && OnGrid(lines, p)
    ensures OnGrid(lines, r.0)
    decreases |steps|
  {
    if steps == [] then (p, d)
    else
      match steps[0]
      case Move(n) => FlatWalk(lines, steps[1..], FlatMoveN(lines, p, d, n), d)
      case _ => FlatWalk(lines, steps[1..], p, ChangeDir(steps[0], d))
  }

  /** A walk that starts on an open tile with a unit heading ends on an open tile with a unit heading. */
  lemma {:induction false} FlatWalkEndsOpen(lines: seq<Line>, steps: seq<Step>, p: XY, d: XY)
    requires ValidLines(lines) && OnGrid(lines, p) && GetSpace(lines, p) == Ok(OpenSpace) && IsUnit(d)
    ensures GetSpace(lines, FlatWalk(lines, steps, p, d).0) == Ok(OpenSpace)
    ensures IsUnit(FlatWalk(lines, steps, p, d).1)
    decreases |steps|
  {
    if steps != [] {
      match steps[0]
      case Move(n) =>
        FlatMoveEndsOpen(lines, p, d, n);
        FlatWalkEndsOpen(lines, steps[1..], FlatMoveN(lines, p, d, n), d);
      case _ =>
        TurnKeepsUnit(steps[0], d);
        FlatWalkEndsOpen(lines, steps[1..], p, ChangeDir(steps[0], d));
    }
  }

  // ------------------------------------------------------------------
  // The cube move (State::move_forward_with_mappings)
  // ------------------------------------------------------------------

  /** A cell together with a heading: the key and the value type of the seam table. */
  type Key = (XY, XY)

  /** The same cell, heading the other way. */
  function Flip(k: Key): Key { (k.0, Reverse(k.1)) }

  /** Turning round twice faces the original way. */
  lemma FlipTwice()
    ensures forall k: Key :: Flip(Flip(k)) == k
  {
  }

  /** Where a cube step from p heading d goes: across a seam if the table has one, else straight on. */
  function CubeTarget(m: map<Key, Key>, p: XY, d: XY): (r: Key)
    ensures (p, d) !in m ==> r == (Add(p, d), d)
    ensures (p, d) in m ==> r == m[(p, d)]
  {
    if (p, d) in m then m[(p, d)] else (Add(p, d), d)
  }

  /** One cube step: the target if open, nothing if a wall; a target off the board panics. */
  function CubeStep(lines: seq<Line>, m: map<Key, Key>, p: XY, d: XY): (r: Result<Option<Key>>)
    ensures ValidLines(lines) ==> (r.Ok? <==> OnGrid(lines, CubeTarget(m, p, d).0))
    ensures r.Ok? && r.value.Some? ==>
      r.value.value == CubeTarget(m, p, d) && GetSpace(lines, r.value.value.0) == Ok(OpenSpace)
  {
    var t := CubeTarget(m, p, d);
    match GetSpace(lines, t.0)
    case Panic(e) => Panic(e)
    case Ok(c) => Ok(if c == OpenSpace then Some(t) else None)
  }

  /**
    * The seam table pairs every seam crossing with the crossing back: stepping across from k
    * and turning round gives a key whose crossing returns to k turned round.
    */
  predicate MutuallyInverse(m: map<Key, Key>)
  {
    forall k :: k in m ==> Flip(m[k]) in m && m[Flip(m[k])] == Flip(k)
  }

  /**
    * Across a seam of a mutually inverse table, turning round and stepping again returns to the
    * starting tile, facing back the way it came.
    */
  lemma SeamRoundTrip(lines: seq<Line>, m: map<Key, Key>, p: XY, d: XY)
    requires MutuallyInverse(m) && (p, d) in m
    requires GetSpace(lines, p) == Ok(OpenSpace)
    requires CubeStep(lines, m, p, d).Ok? && CubeStep(lines, m, p, d).value.Some?
    ensures var (q, e) := CubeStep(lines, m, p, d).value.value;
      CubeStep(lines, m, q, Reverse(e)) == Ok(Some((p, Reverse(d))))
  {
    FlipTwice();
    var k := (p, d);
    assert Flip(m[k]) in m && m[Flip(m[k])] == Flip(k);
  }

  /** Up to n cube steps, stopping at the first wall; a step off the board panics. */
  function CubeMoveN(lines: seq<Line>, m: map<Key, Key>, p: XY, d: XY, n: nat): (r: Result<Key>)
    decreases n
  {
    if n == 0 then Ok((p, d))
    else
      match CubeStep(lines, m, p, d)
      case Panic(e) => Panic(e)
      case Ok(None) => Ok((p, d))
      case Ok(Some(t)) => CubeMoveN(lines, m, t.0, t.1, n - 1)
  }

  /** Moving a tiles and then b tiles is moving a + b tiles, panics included. */
  lemma {:induction false} CubeMoveAdditive(lines: seq<Line>, m: map<Key, Key>, p: XY, d: XY, a: nat, b: nat)
    ensures CubeMoveN(lines, m, p, d, a + b) ==
      match CubeMoveN(lines, m, p, d, a)
      case Panic(e) => Panic(e)
      case Ok(k) => CubeMoveN(lines, m, k.0, k.1, b)
    decreases a
  {
    if a > 0 {
      match CubeStep(lines, m, p, d)
      case Panic(_) =>
      case Ok(None) =>
        if b > 0 {
          assert CubeMoveN(lines, m, p, d, b) == Ok((p, d));
        }
      case Ok(Some(t)) =>
        assert a + b - 1 == (a - 1) + b;
        CubeMoveAdditive(lines, m, t.0, t.1, a - 1, b);
    }
  }

  /** A cube move that does not panic ends where it started or on an open tile. */
  lemma {:induction false} CubeMoveEndsOpen(lines: seq<Line>, m: map<Key, Key>, p: XY, d: XY, n: nat)
    requires CubeMoveN(lines, m, p, d, n).Ok?
    ensures var k := CubeMoveN(lines, m, p, d, n).value;
      k == (p, d) || GetSpace(lines, k.0) == Ok(OpenSpace)
    decreases n
  {
    if n > 0 {
      match CubeStep(lines, m, p, d)
      case Panic(_) =>
      case Ok(None) =>
      case Ok(Some(t)) =>
        CubeMoveEndsOpen(lines, m, t.0, t.1, n - 1);
    }
  }

  /** The part 2 walk: position and heading after every step of the list, or the panic of a step. */
  function CubeWalk(lines: seq<Line>, m: map<Key, Key>, steps: seq<Step>, p: XY, d: XY): (r: Result<Key>)
    decreases |steps|
  {
    if steps == [] then Ok((p, d))
    else
      match steps[0]
      case Move(n) =>
        (match CubeMoveN(lines, m, p, d, n)
         case Panic(e) => Panic(e)
         case Ok(k) => CubeWalk(lines, m, steps[1..], k.0, k.1))
      case _ => CubeWalk(lines, m, steps[1..], p, ChangeDir(steps[0], d))
  }

  /**
    * With a table whose every seam lands on the board, a cube walk from an open tile never
    * panics and ends on an open tile.
    */
  predicate SeamsLandOnBoard(lines: seq<Line>, m: map<Key, Key>)
  {
    forall k :: k in m ==> OnGrid(lines, m[k].0)
  }

  /** A board on which every open tile's unseamed neighbours lie on the board. */
  ghost predicate ClosedBy(lines: seq<Line>, m: map<Key, Key>)
  {
    forall p: XY, d: XY {:trigger Add(p, d), GetSpace(lines, p)} ::
      GetSpace(lines, p) == Ok(OpenSpace) && IsUnit(d) && (p, d) !in m ==> OnGrid(lines, Add(p, d))
  }

  lemma {:induction false} CubeMoveNoPanic(lines: seq<Line>, m: map<Key, Key>, p: XY, d: XY, n: nat)
    requires ValidLines(lines) && SeamsLandOnBoard(lines, m) && ClosedBy(lines, m)
    requires GetSpace(lines, p) == Ok(OpenSpace) && IsUnit(d)
    requires forall k :: k in m ==> IsUnit(m[k].1)
    ensures CubeMoveN(lines, m, p, d, n).Ok?
    ensures IsUnit(CubeMoveN(lines, m, p, d, n).value.1)
    ensures GetSpace(lines, CubeMoveN(lines, m, p, d, n).value.0) == Ok(OpenSpace)
    decreases n
  {
    if n > 0 {
      assert GetSpace(lines, p) == Ok(OpenSpace);
      if (p, d) !in m {
        assert OnGrid(lines, Add(p, d));
      }
      match CubeStep(lines, m, p, d)
      case Panic(_) =>
      case Ok(None) =>
      case Ok(Some(t)) =>
        CubeMoveNoPanic(lines, m, t.0, t.1, n - 1);
    }
  }

  lemma {:induction false} CubeWalkNoPanic(lines: seq<Line>, m: map<Key, Key>, steps: seq<Step>, p: XY, d: XY)
    requires ValidLines(lines) && SeamsLandOnBoard(lines, m) && ClosedBy(lines, m)
    requires GetSpace(lines, p) == Ok(OpenSpace) && IsUnit(d)
    requires forall k :: k in m ==> IsUnit(m[k].1)
    ensures CubeWalk(lines, m, steps, p, d).Ok?
    ensures GetSpace(lines, CubeWalk(lines, m, steps, p, d).value.0) == Ok(OpenSpace)
    ensures IsUnit(CubeWalk(lines, m, steps, p, d).value.1)
    decreases |steps|
  {
    if steps != [] {
      match steps[0]
      case Move(n) =>
        CubeMoveNoPanic(lines, m, p, d, n);
        var k := CubeMoveN(lines, m, p, d, n).value;
        CubeWalkNoPanic(lines, m, steps[1..], k.0, k.1);
      case _ =>
        TurnKeepsUnit(steps[0], d);
        CubeWalkNoPanic(lines, m, steps[1..], p, ChangeDir(steps[0], d));
    }
  }

  /** The row determine_new_y's scan reaches after k steps against a move of yc from row y0. */
  function Back(y0: int, yc: int, k: int, n: int): (r: int)
    requires n > 0 && (yc == 1 || yc == -1)
    ensures 0 <= r < n
  {
    if yc == 1 then (y0 - k) % n else (y0 + k) % n
  }

  lemma BackStep(y0: int, yc: int, k: int, n: int)
    requires n > 0 && (yc == 1 || yc == -1)
    ensures (Back(y0, yc, k, n) - yc) % n == Back(y0, yc, k + 1, n)
  {
    if yc == 1 {
      ModAdd(y0 - k, -1, n);
    } else {
      ModAdd(y0 + k, 1, n);
    }
  }

  /** A scan of n - 1 steps against the move comes round to the row the move heads for. */
  lemma BackLap(y0: int, yc: int, n: int)
    requires n > 0 && (yc == 1 || yc == -1)
    ensures Back(y0, yc, n - 1, n) == (y0 + yc) % n
    ensures Back(y0, yc, 1, n) == (y0 - yc) % n
  {
    if yc == 1 {
      ModShift(y0 + 1, n);
      assert y0 + 1 - n == y0 - (n - 1);
    } else {
      ModShift(y0 - 1, n);
      assert y0 - 1 + n == y0 + (n - 1);
    }
  }

  // ------------------------------------------------------------------
  // The walker (struct State)
  // ------------------------------------------------------------------

  /** The walker: its cell and its heading, both updated in place. */
  class State {
    var p: XY
    var dir: XY

    constructor (p0: XY, d0: XY)
      ensures p == p0 && dir == d0
    {
      p := p0;
      dir := d0;
    }

    /**
      * State::determine_new_y: the next row in the move's direction if it covers newX, else a
      * scan backward to the far end of the run of rows covering newX. The scan always ends: a
      * full lap against the move would reach the next row, which does not cover newX.
      */
    method DetermineNewY(lines: seq<Line>, yChange: int, newX: int) returns (r: int)
      requires |lines| > 0 && (yChange == 1 || yChange == -1)
      ensures r == NewY(lines, p.y, yChange, newX)
    {
      var n := |lines|;
      var newY := (p.y + yChange) % n;
      if newX < lines[newY].minX || newX > lines[newY].maxX {
        ghost var y1 := newY;
        ghost var s0 := (p.y - yChange) % n;
        BackLap(p.y, yChange, n);
        newY := (p.y - yChange) % n;
        ghost var k := 1;
        while newX >= lines[newY].minX && newX <= lines[newY].maxX
          invariant 1 <= k <= n && (k == n ==> n == 1)
          invariant newY == Back(p.y, yChange, k, n)
          invariant ScanBack(lines, newX, s0, yChange, n) == ScanBack(lines, newX, newY, yChange, n - k + 1)
          decreases n - k
        {
          assert InRange(lines[newY], newX) && !InRange(lines[y1], newX);
          assert k <= n - 2;
          BackStep(p.y, yChange, k, n);
          newY := (newY - yChange) % n;
          k := k + 1;
        }
        r := (newY + yChange) % n;
      } else {
        r := newY;
      }
    }

    /**
      * State::move_forward: step once along the heading, wrapping round the row or column, and
      * report whether the step was taken; a wall leaves the walker where it is. The walker must
      * stand on the board with a unit heading, as it always does in follow_path.
      */
    method MoveForward(lines: seq<Line>) returns (moved: bool)
      requires ValidLines(lines) && OnGrid(lines, p) && IsUnit(dir)
      modifies this
      ensures dir == old(dir)
      ensures moved <==> FlatStep(lines, old(p), old(dir)).Some?
      ensures p == if moved then FlatStep(lines, old(p), old(dir)).value else old(p)
    {
      var line := lines[p.y];
      var newX := if dir.x != 0 then line.minX + (p.x - line.minX + dir.x) % |line.contents| else p.x;
      var newY := p.y;
      if dir.y != 0 {
        newY := DetermineNewY(lines, dir.y, newX);
      }
      var space := GetSpace(lines, XY(newX, newY));
      if space == Ok(OpenSpace) {
        p := XY(newX, newY);
        moved := true;
      } else {
        moved := false;
      }
    }

    /**
      * State::move_forward_with_mappings: step once, across a seam when the table has one for the
      * current cell and heading, taking the seam's heading too; a wall leaves the state alone and
      * a target off the board panics.
      */
    method MoveForwardWithMappings(lines: seq<Line>, mappings: map<Key, Key>) returns (r: Result<bool>)
      modifies this
      ensures r.Ok? <==> CubeStep(lines, mappings, old(p), old(dir)).Ok?
      ensures r.Panic? ==> r.msg == CubeStep(lines, mappings, old(p), old(dir)).msg
      ensures r.Ok? ==> (r.value <==> CubeStep(lines, mappings, old(p), old(dir)).value.Some?)
      ensures (p, dir) == if r == Ok(true) then CubeStep(lines, mappings, old(p), old(dir)).value.value
                          else (old(p), old(dir))
    {
      var newP: XY, newDir: XY;
      if (p, dir) in mappings {
        newP, newDir := mappings[(p, dir)].0, mappings[(p, dir)].1;
      } else {
        newP, newDir := Add(p, dir), dir;
      }
      var space := GetSpace(lines, newP);
      if space.Panic? {
        return Panic(space.msg);
      }
      if space.value == OpenSpace {
        p, dir := newP, newDir;
        r := Ok(true);
      } else {
        r := Ok(false);
      }
    }
  }

  // ------------------------------------------------------------------
  // The part 1 walk (Puzzle::initial_state, Puzzle::follow_path)
  // ------------------------------------------------------------------

  /** What generator builds: the move list and the board's rows. */
  datatype Puzzle = Puzzle(steps: seq<Step>, lines: seq<Line>)

  /** Puzzle::initial_state's cell: the first tile of the top row; an empty board panics. */
  function Start(lines: seq<Line>): (r: Result<XY>)
    ensures r.Ok? <==> |lines| > 0
    ensures ValidLines(lines) && r.Ok? ==> OnGrid(lines, r.value) && r.value.y == 0
    ensures ValidLines(lines) && r.Ok? ==> forall x :: InRange(lines[0], x) ==> r.value.x <= x
  {
    if |lines| == 0 then Panic("called `Option::unwrap()` on a `None` value")
    else Ok(XY(lines[0].minX, 0))
  }

  /** The inner `for _ in 0..n` loop of follow_path: step until n steps are taken or a wall is hit. */
  method MoveSteps(curr: State, lines: seq<Line>, n: nat)
    requires ValidLines(lines) && OnGrid(lines, curr.p) && IsUnit(curr.dir)
    modifies curr
    ensures curr.dir == old(curr.dir) && OnGrid(lines, curr.p)
    ensures curr.p == FlatMoveN(lines, old(curr.p), curr.dir, n)
  {
    ghost var p0 := curr.p;
    var j := 0;
    while j < n
      invariant 0 <= j <= n
      invariant OnGrid(lines, curr.p) && curr.dir == old(curr.dir)
      invariant FlatMoveN(lines, curr.p, curr.dir, n - j) == FlatMoveN(lines, p0, curr.dir, n)
    {
      var moved := curr.MoveForward(lines);
      if !moved {
        break;
      }
      j := j + 1;
    }
  }

  /**
    * Puzzle::follow_path: start on the top row's first tile heading East, then walk the move list,
    * each move stopping at the first wall. The final state is the flat walk's.
    */
  method FollowPath(puzzle: Puzzle) returns (r: Result<State>)
    requires ValidLines(puzzle.lines)
    ensures r.Ok? <==> |puzzle.lines| > 0
    ensures r.Ok? ==> (r.value.p, r.value.dir) == FlatWalk(puzzle.lines, puzzle.steps, Start(puzzle.lines).value, East)
  {
    var lines := puzzle.lines;
    var steps := puzzle.steps;
    if |lines| == 0 {
      return Panic("called `Option::unwrap()` on a `None` value");
    }
    var curr := new State(XY(lines[0].minX, 0), East);
    ghost var goal := FlatWalk(lines, steps, curr.p, curr.dir);
    var i := 0;
    while i < |steps|
      invariant 0 <= i <= |steps|
      invariant OnGrid(lines, curr.p) && IsUnit(curr.dir)
      invariant FlatWalk(lines, steps[i..], curr.p, curr.dir) == goal
    {
      assert steps[i..] == [steps[i]] + steps[i + 1..];
      match steps[i] {
        case Move(n) =>
          MoveSteps(curr, lines, n);
        case _ =>
          TurnKeepsUnit(steps[i], curr.dir);
          curr.dir := ChangeDir(steps[i], curr.dir);
      }
      i := i + 1;
    }
    r := Ok(curr);
  }
}
