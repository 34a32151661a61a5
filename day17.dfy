/**
 * Day 17 (Pyroclastic Flow): rocks of five shapes fall in turn into a chamber seven units wide.
 * Jets of hot gas push each falling rock one column left or right before every step down; a rock
 * comes to rest when it cannot move down, and the tower's height is counted. Each chamber row and
 * each rock row is a byte whose low seven bits are the columns, the leftmost column in bit 6.
 */
module Day17 {
  import opened Wrappers
  import opened Text
  import Arith

  type Line = bv8

  /** A rock lists its rows top first; the chamber lists its rows bottom first. */
  type Rock = seq<Line>
  type Chamber = seq<Line>

  const ChamberWidth: nat := 7
  const StartsAbove: nat := 3
  const DirectionLeft: char := '<'
  const DirectionRight: char := '>'
  const MostSigBitSet: Line := 64

  // ------------------------------------------------------------------
  // Rows
  // ------------------------------------------------------------------

  /** Column `col` (0 is the leftmost) of a row is filled: the test `_line_into_string` makes. */
  predicate Filled(line: Line, col: nat)
    requires col < ChamberWidth
  {
    (line << col) & MostSigBitSet != 0
  }

  /** A row drawn with '#' for rock and '.' for air: the text `make_line` accepts. */
  predicate RowText(s: string)
  {
    |s| == ChamberWidth && RowChars(s)
  }

  /** The row a prefix of a drawing reads as: each character shifts the value left, '#' adds one. */
  function LineOf(s: string): Line
    requires |s| <= ChamberWidth
  {
    if s == [] then 0
    else (LineOf(s[..|s| - 1]) << 1) + (if s[|s| - 1] == '#' then 1 else 0)
  }

  /** The first `n` columns of a row drawn as text, as `_line_into_string` does. */
  function Drawing(line: Line, n: nat): (r: string)
    requires n <= ChamberWidth
    ensures |r| == n
  {
    if n == 0 then [] else Drawing(line, n - 1) + [if Filled(line, n - 1) then '#' else '.']
  }

  lemma {:induction false} DrawingAt(line: Line, n: nat, col: nat)
    requires col < n <= ChamberWidth
    ensures Drawing(line, n)[col] == if Filled(line, col) then '#' else '.'
  {
    if col < n - 1 {
      DrawingAt(line, n - 1, col);
    }
  }

  /** Reading one more character shifts every column one place left and fills the last from the character. */
  lemma ShiftedFilled(v: Line, b: Line, m: nat)
    requires b <= 1 && m < ChamberWidth
    ensures ((((v << 1) + b) << m) & MostSigBitSet != 0) <==> if m == 6 then b == 1 else (v << (m + 1)) & MostSigBitSet != 0
  {
    if m == 0 {} else if m == 1 {} else if m == 2 {} else if m == 3 {} else if m == 4 {} else if m == 5 {} else {}
  }

  /** ... and a value within n bits stays within n + 1 bits. */
  lemma ShiftedBelow(v: Line, b: Line, n: nat)
    requires b <= 1 && n < ChamberWidth && v >> n == 0
    ensures ((v << 1) + b) >> (n + 1) == 0
  {
    if n == 0 {} else if n == 1 {} else if n == 2 {} else if n == 3 {} else if n == 4 {} else if n == 5 {} else {}
  }

  /** A drawing prefix of length n reads as a value below 2^n. */
  lemma {:induction false} LineOfBelow(s: string)
    requires |s| <= ChamberWidth
    ensures LineOf(s) >> |s| == 0
  {
    if s != [] {
      LineOfBelow(s[..|s| - 1]);
      ShiftedBelow(LineOf(s[..|s| - 1]), if s[|s| - 1] == '#' then 1 else 0, |s| - 1);
    }
  }

  /** Column col of a prefix s is filled exactly where s has '#', once the prefix is moved to the left edge. */
  lemma {:induction false} LineOfBits(s: string, col: nat)
    requires |s| <= ChamberWidth && col < |s|
    ensures (LineOf(s) << (ChamberWidth - |s| + col)) & MostSigBitSet != 0 <==> s[col] == '#'
  {
    var p := s[..|s| - 1];
    var v, b := LineOf(p), if s[|s| - 1] == '#' then 1 as Line else 0;
    ShiftedFilled(v, b, ChamberWidth - |s| + col);
    if col < |p| {
      LineOfBits(p, col);
      assert s[col] == p[col];
    }
  }

  /** `make_line` reads a drawn row, the leftmost column into bit 6. */
  lemma DrawLine(s: string)
    requires RowText(s)
    ensures LineOf(s) >> ChamberWidth == 0 && Drawing(LineOf(s), ChamberWidth) == s
  {
    LineOfBelow(s);
    forall col | 0 <= col < ChamberWidth
      ensures Drawing(LineOf(s), ChamberWidth)[col] == s[col]
    {
      DrawingAt(LineOf(s), ChamberWidth, col);
      LineOfBits(s, col);
    }
  }

  /** Two rows of seven columns with the same columns filled are the same row. */
  lemma SameColumns(a: Line, b: Line)
    requires a >> ChamberWidth == 0 && b >> ChamberWidth == 0
    requires forall col :: 0 <= col < ChamberWidth ==> (Filled(a, col) <==> Filled(b, col))
    ensures a == b
  {
    assert Filled(a, 0) == Filled(b, 0) && Filled(a, 1) == Filled(b, 1) && Filled(a, 2) == Filled(b, 2);
    assert Filled(a, 3) == Filled(b, 3) && Filled(a, 4) == Filled(b, 4) && Filled(a, 5) == Filled(b, 5);
    assert Filled(a, 6) == Filled(b, 6);
  }

  /** Every row of seven columns is read back from its drawing. */
  lemma ReadDrawing(line: Line)
    requires line >> ChamberWidth == 0
    ensures RowText(Drawing(line, ChamberWidth)) && LineOf(Drawing(line, ChamberWidth)) == line
  {
    var s := Drawing(line, ChamberWidth);
    forall col | 0 <= col < ChamberWidth
      ensures s[col] == '#' || s[col] == '.'
    {
      DrawingAt(line, ChamberWidth, col);
    }
    DrawLine(s);
    forall col | 0 <= col < ChamberWidth
      ensures Filled(LineOf(s), col) <==> Filled(line, col)
    {
      DrawingAt(line, ChamberWidth, col);
      DrawingAt(LineOf(s), ChamberWidth, col);
    }
    SameColumns(LineOf(s), line);
  }

  predicate RowChars(s: string)
  {
    forall i :: 0 <= i < |s| ==> s[i] == '#' || s[i] == '.'
  }

  /** `make_line`: a row of exactly seven '#' or '.' characters, or a panic. */
  method MakeLine(input: string) returns (r: Result<Line>)
    ensures r.Ok? <==> RowText(input)
    ensures r.Ok? ==> r.value == LineOf(input)
  {
    if |input| != ChamberWidth {
      return Panic("Expect the length of line to be 7");
    }
    var line: Line := 0;
    for i := 0 to |input|
      invariant line == LineOf(input[..i]) && RowChars(input[..i])
    {
      assert input[..i + 1][..i] == input[..i];
      line := line << 1;
      match input[i]
      case '#' => line := line + 1;
      case '.' =>
      case _ => return Panic("Unexpected character");
    }
    assert input[..|input|] == input;
    r := Ok(line);
  }

  // ------------------------------------------------------------------
  // Rocks and jets
  // ------------------------------------------------------------------

  /** `u8::leading_zeros`. */
  function LeadingZeros(line: Line): nat
  {
    if line >= 128 then 0 else if line >= 64 then 1 else if line >= 32 then 2 else if line >= 16 then 3
    else if line >= 8 then 4 else if line >= 4 then 5 else if line >= 2 then 6 else if line >= 1 then 7 else 8
  }

  /** `u8::trailing_zeros`. */
  function TrailingZeros(line: Line): nat
  {
    if line & 1 != 0 then 0 else if line & 2 != 0 then 1 else if line & 4 != 0 then 2 else if line & 8 != 0 then 3
    else if line & 16 != 0 then 4 else if line & 32 != 0 then 5 else if line & 64 != 0 then 6
    else if line & 128 != 0 then 7 else 8
  }

  /** The test `shift_left` makes unless told to skip it: no row touches the left wall. */
  predicate AllowsLeft(rock: Rock)
  {
    forall i :: 0 <= i < |rock| ==> LeadingZeros(rock[i]) > 1
  }

  /** The test `shift_right` makes unless told to skip it: no row touches the right wall. */
  predicate AllowsRight(rock: Rock)
  {
    forall i :: 0 <= i < |rock| ==> TrailingZeros(rock[i]) > 0
  }

  function ShiftedLeft(rock: Rock): (r: Rock)
    ensures |r| == |rock| && forall i :: 0 <= i < |rock| ==> r[i] == rock[i] << 1
  {
    if rock == [] then [] else [rock[0] << 1] + ShiftedLeft(rock[1..])
  }

  function ShiftedRight(rock: Rock): (r: Rock)
    ensures |r| == |rock| && forall i :: 0 <= i < |rock| ==> r[i] == rock[i] >> 1
  {
    if rock == [] then [] else [rock[0] >> 1] + ShiftedRight(rock[1..])
  }

  /** A jet other than '<' pushes right, as `shift_rock` and `can_shift` read it. */
  predicate Allows(rock: Rock, d: char)
  {
    if d == DirectionLeft then AllowsLeft(rock) else AllowsRight(rock)
  }

  function Shifted(rock: Rock, d: char): (r: Rock)
    ensures |r| == |rock|
  {
    if d == DirectionLeft then ShiftedLeft(rock) else ShiftedRight(rock)
  }

  /** A row clear of the left wall moves one column left, and the last column empties. */
  lemma ShiftLeftColumns(line: Line, col: nat)
    requires line >> ChamberWidth == 0 && LeadingZeros(line) > 1 && col < ChamberWidth
    ensures (line << 1) >> ChamberWidth == 0
    ensures Filled(line << 1, col) <==> col < ChamberWidth - 1 && Filled(line, col + 1)
  {
    if col == 0 {} else if col == 1 {} else if col == 2 {} else if col == 3 {} else if col == 4 {} else if col == 5 {} else {}
  }

  /** A row clear of the right wall moves one column right, and the first column empties. */
  lemma ShiftRightColumns(line: Line, col: nat)
    requires line >> ChamberWidth == 0 && TrailingZeros(line) > 0 && col < ChamberWidth
    ensures (line >> 1) >> ChamberWidth == 0
    ensures Filled(line >> 1, col) <==> col > 0 && Filled(line, col - 1)
  {
    if col == 0 {} else if col == 1 {} else if col == 2 {} else if col == 3 {} else if col == 4 {} else if col == 5 {} else {}
  }

  /** A shift to the left that the walls allow is undone by a shift to the right. */
  lemma LeftThenRight(rock: Rock)
    requires AllowsLeft(rock)
    ensures AllowsRight(ShiftedLeft(rock)) && ShiftedRight(ShiftedLeft(rock)) == rock
  {
    forall i | 0 <= i < |rock|
      ensures TrailingZeros(ShiftedLeft(rock)[i]) > 0 && ShiftedRight(ShiftedLeft(rock))[i] == rock[i]
    {
      var l := rock[i];
      assert LeadingZeros(l) > 1;
      assert TrailingZeros(l << 1) > 0 && (l << 1) >> 1 == l;
    }
  }

  /** `n` checked pushes the same way: the rock they leave, or None once one is refused. */
  function Pushed(rock: Rock, d: char, n: nat): Option<Rock>
    decreases n
  {
    if n == 0 then Some(rock)
    else if Allows(rock, d) then Pushed(Shifted(rock, d), d, n - 1)
    else None
  }

  lemma {:induction false} PushedLast(rock: Rock, d: char, n: nat)
    requires n > 0
    decreases n
    ensures Pushed(rock, d, n) == match Pushed(rock, d, n - 1)
      case None => None
      case Some(r) => if Allows(r, d) then Some(Shifted(r, d)) else None
  {
    if n > 1 && Allows(rock, d) {
      PushedLast(Shifted(rock, d), d, n - 1);
    }
  }

  /** However many pushes to the left succeed, as many pushes to the right bring the rock back. */
  lemma {:induction false} PushedBack(rock: Rock, n: nat)
    requires Pushed(rock, DirectionLeft, n).Some?
    ensures Pushed(Pushed(rock, DirectionLeft, n).value, DirectionRight, n) == Some(rock)
  {
    if n > 0 {
      PushedLast(rock, DirectionLeft, n);
      var before := Pushed(rock, DirectionLeft, n - 1).value;
      LeftThenRight(before);
      PushedBack(rock, n - 1);
    }
  }

  /** `shift_left`: shifts every row left when `skip_check` is set or the left wall allows it. */
  method ShiftLeft(rock: Rock, skipCheck: bool) returns (moved: bool, shifted: Rock)
    ensures moved <==> skipCheck || AllowsLeft(rock)
    ensures shifted == if moved then ShiftedLeft(rock) else rock
  {
    moved := skipCheck || AllowsLeft(rock);
    shifted := rock;
    if moved {
      for i := 0 to |shifted|
        invariant |shifted| == |rock|
        invariant forall k :: 0 <= k < |rock| ==> shifted[k] == if k < i then rock[k] << 1 else rock[k]
      {
        shifted := shifted[i := shifted[i] << 1];
      }
    }
  }

  /** `shift_right`: shifts every row right when `skip_check` is set or the right wall allows it. */
  method ShiftRight(rock: Rock, skipCheck: bool) returns (moved: bool, shifted: Rock)
    ensures moved <==> skipCheck || AllowsRight(rock)
    ensures shifted == if moved then ShiftedRight(rock) else rock
  {
    moved := skipCheck || AllowsRight(rock);
    shifted := rock;
    if moved {
      for i := 0 to |shifted|
        invariant |shifted| == |rock|
        invariant forall k :: 0 <= k < |rock| ==> shifted[k] == if k < i then rock[k] >> 1 else rock[k]
      {
        shifted := shifted[i := shifted[i] >> 1];
      }
    }
  }

  /** `shift_rock`: one push in the jet's direction. */
  method ShiftRock(rock: Rock, direction: char, skipCheck: bool) returns (moved: bool, shifted: Rock)
    ensures moved <==> skipCheck || Allows(rock, direction)
    ensures shifted == if moved then Shifted(rock, direction) else rock
  {
    if direction == DirectionLeft {
      moved, shifted := ShiftLeft(rock, skipCheck);
    } else {
      moved, shifted := ShiftRight(rock, skipCheck);
    }
  }

  // ------------------------------------------------------------------
  // Rocks against the chamber
  // ------------------------------------------------------------------

  /** The rock row on chamber row j when the rock's bottom row is on row `at`. */
  function RowAt(rock: Rock, at: nat, j: nat): Line
    requires at <= j < at + |rock|
  {
    rock[|rock| - 1 - (j - at)]
  }

  /** `simulate_down`'s test: wherever a rock with its bottom on row `at` meets the pile, no column is taken twice. */
  predicate Clear(rock: Rock, chamber: Chamber, at: nat)
  {
    forall j :: at <= j < |chamber| && j < at + |rock| ==> chamber[j] & RowAt(rock, at, j) == 0
  }

  /** `can_move_left`: the row stays inside the walls and, moved left, misses the chamber row. */
  predicate CanMoveLeft(rockLine: Line, chamberLine: Line)
  {
    LeadingZeros(rockLine) > 1 && (rockLine << 1) & chamberLine == 0
  }

  /** `can_move_right`: the row stays inside the walls and, moved right, misses the chamber row. */
  predicate CanMoveRight(rockLine: Line, chamberLine: Line)
  {
    TrailingZeros(rockLine) > 0 && (rockLine >> 1) & chamberLine == 0
  }

  predicate CanShift(rockLine: Line, chamberLine: Line, direction: char)
  {
    if direction == DirectionLeft then CanMoveLeft(rockLine, chamberLine) else CanMoveRight(rockLine, chamberLine)
  }

  /** `simulate_shift`'s test: the walls allow the push and every row that meets the pile can move. */
  predicate ShiftClear(rock: Rock, chamber: Chamber, at: nat, direction: char)
  {
    && Allows(rock, direction)
    && forall j :: at <= j < |chamber| && j < at + |rock| ==> CanShift(RowAt(rock, at, j), chamber[j], direction)
  }

  /** A push passes `simulate_shift` exactly when the walls allow it and the pushed rock is clear of the pile. */
  lemma ShiftClearIff(rock: Rock, chamber: Chamber, at: nat, direction: char)
    ensures ShiftClear(rock, chamber, at, direction) <==> Allows(rock, direction) && Clear(Shifted(rock, direction), chamber, at)
  {
    if Allows(rock, direction) {
      forall j | at <= j < |chamber| && j < at + |rock|
        ensures CanShift(RowAt(rock, at, j), chamber[j], direction) <==> chamber[j] & RowAt(Shifted(rock, direction), at, j) == 0
      {
        CanShiftAt(rock, chamber[j], at, j, direction);
      }
    }
  }

  /** One row of a rock the walls let through can move exactly when its pushed copy misses the chamber row. */
  lemma CanShiftAt(rock: Rock, chamberLine: Line, at: nat, j: nat, direction: char)
    requires Allows(rock, direction) && at <= j < at + |rock|
    ensures CanShift(RowAt(rock, at, j), chamberLine, direction) <==> chamberLine & RowAt(Shifted(rock, direction), at, j) == 0
  {
    var k := |rock| - 1 - (j - at);
    if direction == DirectionLeft {
      assert LeadingZeros(rock[k]) > 1 && Shifted(rock, direction)[k] == rock[k] << 1;
    } else {
      assert TrailingZeros(rock[k]) > 0 && Shifted(rock, direction)[k] == rock[k] >> 1;
    }
  }

  /** `simulate_down`: can the rock's bottom row go down onto row `start`? */
  method SimulateDown(rock: Rock, chamber: Chamber, start: nat) returns (allowDown: bool)
    ensures allowDown <==> Clear(rock, chamber, start)
  {
    var rockIdx := |rock|;
    allowDown := true;
    var end := if start + |rock| < |chamber| then start + |rock| else |chamber|;
    if end < start {
      end := start;
    }
    for chamberIdx := start to end
      invariant rockIdx == |rock| - (chamberIdx - start)
      invariant allowDown && forall j :: start <= j < chamberIdx ==> chamber[j] & RowAt(rock, start, j) == 0
    {
      rockIdx := rockIdx - 1;
      allowDown := allowDown && chamber[chamberIdx] & rock[rockIdx] == 0;
      if !allowDown {
        break;
      }
    }
  }

  /** `simulate_shift`: can the rock, bottom row on `start`, be pushed by the jet? */
  method SimulateShift(rock: Rock, chamber: Chamber, start: nat, direction: char) returns (allowShift: bool)
    ensures allowShift <==> ShiftClear(rock, chamber, start, direction)
  {
    allowShift := if direction == DirectionLeft then AllowsLeft(rock) else AllowsRight(rock);
    var rockIdx := |rock|;
    var end := if start + |rock| < |chamber| then start + |rock| else |chamber|;
    if end < start {
      end := start;
    }
    for chamberIdx := start to end
      invariant rockIdx == |rock| - (chamberIdx - start)
      invariant chamberIdx > start ==> allowShift
      invariant allowShift <==> Allows(rock, direction) && forall j :: start <= j < chamberIdx ==> CanShift(RowAt(rock, start, j), chamber[j], direction)
    {
      rockIdx := rockIdx - 1;
      allowShift := allowShift && CanShift(rock[rockIdx], chamber[chamberIdx], direction);
      if !allowShift {
        break;
      }
    }
  }

  // ------------------------------------------------------------------
  // One rock
  // ------------------------------------------------------------------

  /**
   * Where a new rock comes to rest: `pushes` pushes while it falls through the empty rows above the
   * pile, each checking only the walls, then the descent into the pile from the top of the chamber.
   */
  function Landed(rock: Rock, chamber: Chamber, jets: seq<char>, jet: nat, pushes: nat): (r: Landing)
    requires jet < |jets|
    ensures r.rest <= |chamber| && r.jet < |jets| && |r.rock| == |rock|
    decreases pushes
  {
    if pushes == 0 then Descend(rock, chamber, jets, jet, |chamber|)
    else
      var d := jets[jet];
      Landed(if Allows(rock, d) then Shifted(rock, d) else rock, chamber, jets, (jet + 1) % |jets|, pushes - 1)
  }

  /** Where a rock comes to rest: the rock as pushed, the row of its bottom, and the next jet index. */
  datatype Landing = Landing(rock: Rock, rest: nat, jet: nat)

  /**
   * The rock, its bottom on row `start`, tries row `start - 1`: it rests where it is if that row is
   * not clear, else it moves down and the next jet pushes it if the push is clear.
   */
  function Descend(rock: Rock, chamber: Chamber, jets: seq<char>, jet: nat, start: nat): (r: Landing)
    requires jet < |jets| && start <= |chamber|
    ensures r.rest <= start && r.jet < |jets| && |r.rock| == |rock|
    decreases start
  {
    if start == 0 then Landing(rock, 0, jet)
    else if !Clear(rock, chamber, start - 1) then Landing(rock, start, jet)
    else
      var d := jets[jet];
      var pushed := if ShiftClear(rock, chamber, start - 1, d) then Shifted(rock, d) else rock;
      Descend(pushed, chamber, jets, (jet + 1) % |jets|, start - 1)
  }

  /** A rock that cannot move down from start rests there. */
  lemma DescendStops(rock: Rock, chamber: Chamber, jets: seq<char>, jet: nat, start: nat)
    requires jet < |jets| && 0 < start <= |chamber| && !Clear(rock, chamber, start - 1)
    ensures Descend(rock, chamber, jets, jet, start) == Landing(rock, start, jet)
  {
  }

  /** A rock that can move down is pushed by the next jet and falls on from one row lower. */
  lemma DescendGoesOn(rock: Rock, chamber: Chamber, jets: seq<char>, jet: nat, start: nat, pushed: Rock)
    requires jet < |jets| && 0 < start <= |chamber| && Clear(rock, chamber, start - 1)
    requires pushed == if ShiftClear(rock, chamber, start - 1, jets[jet]) then Shifted(rock, jets[jet]) else rock
    ensures Descend(rock, chamber, jets, jet, start) == Descend(pushed, chamber, jets, (jet + 1) % |jets|, start - 1)
  {
  }

  /** A rock that starts clear of the pile comes to rest clear of it. */
  lemma {:induction false} DescendClear(rock: Rock, chamber: Chamber, jets: seq<char>, jet: nat, start: nat)
    requires jet < |jets| && start <= |chamber| && Clear(rock, chamber, start)
    ensures var r := Descend(rock, chamber, jets, jet, start); Clear(r.rock, chamber, r.rest)
    decreases start
  {
    if start > 0 && Clear(rock, chamber, start - 1) {
      var d := jets[jet];
      ShiftClearIff(rock, chamber, start - 1, d);
      var pushed := if ShiftClear(rock, chamber, start - 1, d) then Shifted(rock, d) else rock;
      DescendClear(pushed, chamber, jets, (jet + 1) % |jets|, start - 1);
    }
  }

  /** Chamber row j once the rock rests with its bottom on row `at`: the pile's row and the rock's, OR'd. */
  function PlacedRow(rock: Rock, chamber: Chamber, at: nat, j: nat): Line
  {
    (if j < |chamber| then chamber[j] else 0) | (if at <= j < at + |rock| then RowAt(rock, at, j) else 0)
  }

  /** The lowest n rows of the chamber once the rock rests with its bottom on row `at`. */
  function PlacedRows(rock: Rock, chamber: Chamber, at: nat, n: nat): (r: Chamber)
    ensures |r| == n
  {
    if n == 0 then [] else PlacedRows(rock, chamber, at, n - 1) + [PlacedRow(rock, chamber, at, n - 1)]
  }

  /** The chamber once the rock rests with its bottom on row `at`: it reaches the rock's top row or stays as high. */
  function Placed(rock: Rock, chamber: Chamber, at: nat): (r: Chamber)
    ensures |r| == if at + |rock| > |chamber| then at + |rock| else |chamber|
  {
    PlacedRows(rock, chamber, at, if at + |rock| > |chamber| then at + |rock| else |chamber|)
  }

  lemma {:induction false} PlacedRowsAt(rock: Rock, chamber: Chamber, at: nat, n: nat)
    ensures var r := PlacedRows(rock, chamber, at, n); forall j :: 0 <= j < n ==> r[j] == PlacedRow(rock, chamber, at, j)
  {
    if n > 0 {
      PlacedRowsAt(rock, chamber, at, n - 1);
    }
  }

  /** The pile's rows from the one under the resting rock upwards, as `simulate_rock` reports them. */
  function Scope(chamber: Chamber, rest: nat): seq<Line>
    requires rest <= |chamber|
  {
    if rest == 0 then chamber[rest..] else chamber[rest - 1..]
  }

  /** What one rock does: the chamber after it, the next jet index, and the row its bottom rests on. */
  datatype Drop = Drop(chamber: Chamber, jet: nat, rest: nat)

  function DropRock(rock: Rock, chamber: Chamber, jets: seq<char>, jet: nat): (r: Drop)
    requires jet < |jets|
    ensures r.jet < |jets| && r.rest <= |chamber| && |chamber| <= |r.chamber| <= |chamber| + |rock|
  {
    var l := Landed(rock, chamber, jets, jet, StartsAbove + 1);
    Drop(Placed(l.rock, chamber, l.rest), l.jet, l.rest)
  }

  /** A new rock comes to rest clear of the pile. */
  lemma {:induction false} LandedClear(rock: Rock, chamber: Chamber, jets: seq<char>, jet: nat, pushes: nat)
    requires jet < |jets|
    ensures var l := Landed(rock, chamber, jets, jet, pushes); Clear(l.rock, chamber, l.rest)
    decreases pushes
  {
    if pushes == 0 {
      DescendClear(rock, chamber, jets, jet, |chamber|);
    } else {
      var d := jets[jet];
      LandedClear(if Allows(rock, d) then Shifted(rock, d) else rock, chamber, jets, (jet + 1) % |jets|, pushes - 1);
    }
  }

  /**
   * A rock adds its rows to the pile without meeting one already there: the pile keeps every filled
   * column and never shrinks, the rock's rows appear from its resting row up, and the height grows
   * by at most the rock's height.
   */
  lemma DropRockAdds(rock: Rock, chamber: Chamber, jets: seq<char>, jet: nat)
    requires jet < |jets|
    ensures var l := Landed(rock, chamber, jets, jet, StartsAbove + 1);
      var after := DropRock(rock, chamber, jets, jet).chamber;
      && |chamber| <= |after| <= |chamber| + |rock|
      && (forall j :: 0 <= j < |chamber| ==> after[j] & chamber[j] == chamber[j])
      && (forall j :: l.rest <= j < l.rest + |rock| ==> after[j] & RowAt(l.rock, l.rest, j) == RowAt(l.rock, l.rest, j))
      && (forall j :: 0 <= j < |chamber| && l.rest <= j < l.rest + |rock| ==> chamber[j] & RowAt(l.rock, l.rest, j) == 0)
  {
    LandedClear(rock, chamber, jets, jet, StartsAbove + 1);
    var l := Landed(rock, chamber, jets, jet, StartsAbove + 1);
    PlacedRowsAt(l.rock, chamber, l.rest, |Placed(l.rock, chamber, l.rest)|);
  }

  // ------------------------------------------------------------------
  // The puzzle and the simulation
  // ------------------------------------------------------------------

  /** The five rock shapes `Puzzle::new` draws, in falling order, each row read by `make_line`. */
  const Shapes: seq<Rock> := [[0x1E], [0x08, 0x1C, 0x08], [0x04, 0x04, 0x1C], [0x10, 0x10, 0x10, 0x10], [0x18, 0x18]]

  datatype Puzzle = Puzzle(jets: seq<char>, rocks: seq<Rock>)

  predicate IsJet(c: char) { c == DirectionLeft || c == DirectionRight }

  /** What `Puzzle::new` guarantees: only '<' and '>' jets, and the five shapes. */
  predicate ValidPuzzle(p: Puzzle)
  {
    (forall i :: 0 <= i < |p.jets| ==> IsJet(p.jets[i])) && p.rocks == Shapes
  }

  /** `Puzzle::new`: rejects any jet other than '<' and '>', then draws the shapes. */
  method NewPuzzle(jets: seq<char>) returns (r: Result<Puzzle>)
    ensures r.Ok? <==> forall i :: 0 <= i < |jets| ==> IsJet(jets[i])
    ensures r.Ok? ==> ValidPuzzle(r.value) && r.value.jets == jets
  {
    if exists i :: 0 <= i < |jets| && !IsJet(jets[i]) {
      return Panic("Unexpected jet patterns");
    }
    var rocks := MakeShapes();
    r := Ok(Puzzle(jets, rocks));
  }

  /** A row of seven columns drawn as `text` is what `make_line` reads from `text`. */
  lemma DrawnRow(line: Line, text: string)
    requires line >> ChamberWidth == 0 && Drawing(line, ChamberWidth) == text
    ensures RowText(text) && LineOf(text) == line
  {
    ReadDrawing(line);
  }

  /** The six distinct rows of the five shapes, each as `Puzzle::new` draws it. */
  lemma ShapeRowsDrawn()
    ensures Drawing(0x1E, ChamberWidth) == "..####."
    ensures Drawing(0x08, ChamberWidth) == "...#..." && Drawing(0x1C, ChamberWidth) == "..###.."
    ensures Drawing(0x04, ChamberWidth) == "....#.."
    ensures Drawing(0x10, ChamberWidth) == "..#...."
    ensures Drawing(0x18, ChamberWidth) == "..##..."
  {
  }

  /** The five shapes drawn row by row, as `Puzzle::new` builds them. */
  method MakeShapes() returns (rocks: seq<Rock>)
    ensures rocks == Shapes
  {
    ShapeRowsDrawn();
    var a := MakeShape(["..####."], Shapes[0]);
    var b := MakeShape(["...#...", "..###..", "...#..."], Shapes[1]);
    var c := MakeShape(["....#..", "....#..", "..###.."], Shapes[2]);
    var d := MakeShape(["..#....", "..#....", "..#....", "..#...."], Shapes[3]);
    var e := MakeShape(["..##...", "..##..."], Shapes[4]);
    rocks := [a, b, c, d, e];
  }

  /** The rows of one shape, each through `make_line`; the drawings are well formed, so none panics. */
  method MakeShape(rows: seq<string>, ghost shape: Rock) returns (rock: Rock)
    requires |rows| == |shape| && forall i :: 0 <= i < |rows| ==> shape[i] >> ChamberWidth == 0 && Drawing(shape[i], ChamberWidth) == rows[i]
    ensures rock == shape
  {
    forall i | 0 <= i < |rows|
      ensures RowText(rows[i]) && LineOf(rows[i]) == shape[i]
    {
      DrawnRow(shape[i], rows[i]);
    }
    rock := [];
    for i := 0 to |rows|
      invariant rock == shape[..i]
    {
      var line := MakeLine(rows[i]);
      rock := rock + [line.value];
    }
  }

  /** A falling-rock simulation: the puzzle and the next jet and next rock to use. */
  class Simulation {
    const puzzle: Puzzle
    var jetIdx: nat
    var rockIdx: nat

    predicate Valid()
      reads this
    {
      && |puzzle.rocks| > 0
      && (jetIdx < |puzzle.jets| || jetIdx == 0)
      && rockIdx < |puzzle.rocks|
    }

    /** `Simulation::new`: both indices start at zero. */
    constructor(puzzle: Puzzle)
      requires |puzzle.rocks| > 0
      ensures this.puzzle == puzzle && jetIdx == 0 && rockIdx == 0 && Valid()
    {
      this.puzzle := puzzle;
      jetIdx := 0;
      rockIdx := 0;
    }

    /** `next_jet`: the current jet, and the index moves on, wrapping round at the end. */
    method NextJet() returns (d: char)
      modifies this
      requires Valid() && |puzzle.jets| > 0
      ensures Valid() && d == puzzle.jets[old(jetIdx)]
      ensures jetIdx == (old(jetIdx) + 1) % |puzzle.jets| && rockIdx == old(rockIdx)
    {
      d := puzzle.jets[jetIdx];
      jetIdx := (jetIdx + 1) % |puzzle.jets|;
    }

    /** `next_rock`: the current shape, and the index moves on, wrapping round after the fifth. */
    method NextRock() returns (rock: Rock)
      modifies this
      requires Valid()
      ensures Valid() && rock == puzzle.rocks[old(rockIdx)]
      ensures rockIdx == (old(rockIdx) + 1) % |puzzle.rocks| && jetIdx == old(jetIdx)
    {
      rock := puzzle.rocks[rockIdx];
      rockIdx := (rockIdx + 1) % |puzzle.rocks|;
    }

    /**
     * `handle_into_existing_rocks`: the rock, starting with its bottom just above the pile, moves
     * down and is pushed until it cannot move down; its resting row and the rock as pushed.
     */
    method HandleIntoExistingRocks(rock: Rock, chamber: Chamber) returns (start: nat, landed: Rock)
      modifies this
      requires Valid() && |puzzle.jets| > 0
      ensures Valid() && rockIdx == old(rockIdx)
      ensures Landing(landed, start, jetIdx) == Descend(rock, chamber, puzzle.jets, old(jetIdx), |chamber|)
    {
      ghost var jets := puzzle.jets;
      ghost var target := Descend(rock, chamber, jets, jetIdx, |chamber|);
      start := |chamber|;
      landed := rock;
      while start > 0
        invariant Valid() && rockIdx == old(rockIdx) && start <= |chamber|
        invariant Descend(landed, chamber, jets, jetIdx, start) == target
      {
        start := start - 1;
        var down, pushed := FallStep(landed, chamber, start);
        if !down {
          return start + 1, landed;
        }
        landed := pushed;
      }
    }

    /**
     * One pass of `handle_into_existing_rocks`' loop with the rock's bottom on row `start`: either
     * the rock cannot move down and rests one row higher, or it moves down and the next jet pushes it.
     */
    method FallStep(rock: Rock, chamber: Chamber, start: nat) returns (down: bool, pushed: Rock)
      modifies this
      requires Valid() && |puzzle.jets| > 0 && start < |chamber|
      ensures Valid() && rockIdx == old(rockIdx)
      ensures !down ==>
        jetIdx == old(jetIdx) && Descend(rock, chamber, puzzle.jets, jetIdx, start + 1) == Landing(rock, start + 1, jetIdx)
      ensures down ==>
        Descend(rock, chamber, puzzle.jets, old(jetIdx), start + 1) == Descend(pushed, chamber, puzzle.jets, jetIdx, start)
    {
      down := SimulateDown(rock, chamber, start);
      pushed := rock;
      if !down {
        DescendStops(rock, chamber, puzzle.jets, jetIdx, start + 1);
        return;
      }
      ghost var jet := jetIdx;
      pushed := PushByJet(rock, chamber, start);
      DescendGoesOn(rock, chamber, puzzle.jets, jet, start + 1, pushed);
    }

    /** The jet part of one step of `handle_into_existing_rocks`: take the next jet and shift the rock if it can. */
    method PushByJet(rock: Rock, chamber: Chamber, start: nat) returns (pushed: Rock)
      modifies this
      requires Valid() && |puzzle.jets| > 0
      ensures Valid() && rockIdx == old(rockIdx) && jetIdx == (old(jetIdx) + 1) % |puzzle.jets|
      ensures var d := puzzle.jets[old(jetIdx)];
        pushed == if ShiftClear(rock, chamber, start, d) then Shifted(rock, d) else rock
    {
      var d := NextJet();
      var allow := SimulateShift(rock, chamber, start, d);
      pushed := rock;
      if allow {
        var _, shifted := ShiftRock(rock, d, true);
        pushed := shifted;
      }
    }

    /**
     * `run`: drops `rockCount` rocks into an empty chamber and returns the tower's height. It
     * caches, per (rock index, jet index), the scope and growth of the latest rock that started
     * there, and forgets the cache whenever a rock falls deeper than any before. When a rock starts
     * where a cached one did and sees the same scope, the rest of the height is extrapolated.
     * `cut` names the two rocks of the repeat when that happens.
     */
    method Run(rockCount: nat) returns (r: Result<nat>, ghost cut: Option<Cut>)
      modifies this
      requires Valid()
      ensures |puzzle.jets| == 0 ==> cut.None? && r == if rockCount == 0 then Ok(0) else Panic("index out of bounds")
      ensures |puzzle.jets| > 0 && cut.None? ==> r == Ok(|Tower(puzzle, rockCount).chamber|)
      ensures cut.Some? ==> |puzzle.jets| > 0 && FromRepeat(puzzle, rockCount, r, cut.value)
    {
      rockIdx := 0;
      jetIdx := 0;
      cut := None;
      if |puzzle.jets| == 0 {
        // The first rock's first push reads jet 0 of none.
        if rockCount == 0 {
          return Ok(0), None;
        }
        var _ := NextRock();
        return Panic("index out of bounds"), None;
      }
      var chamber: Chamber := [];
      var repeats: map<Key, CacheEntry> := map[];
      var maxDepth := 0;
      for i: nat := 0 to rockCount
        invariant Valid() && Between(puzzle, i, chamber, jetIdx, rockIdx)
        invariant Cached(puzzle, repeats, i)
        invariant forall key :: key in repeats ==> repeats[key].change <= |chamber|
      {
        var currLen := |chamber|;
        var currKey, scope, newDepth, placed := DropNext(chamber, i);
        chamber := placed;
        if newDepth > maxDepth {
          maxDepth := newDepth;
          repeats := map[];
        }
        var entry := CacheEntry(i, scope, |chamber| - currLen);
        var hit, updated := Remember(puzzle, repeats, currKey, entry, i);
        if hit.Some? {
          ghost var c;
          r, c := Shortcut(puzzle, repeats, currKey, |chamber|, i, rockCount);
          cut := Some(c);
          return;
        }
        repeats := updated;
      }
      r := Ok(|chamber|);
    }

    /**
     * One pass of the loop in `run` up to the cache lookup: the key of the rock and jet indices, then
     * the next rock falls. From the tower of i rocks this gives the tower of i + 1.
     */
    method DropNext(chamber: Chamber, ghost i: nat) returns (key: Key, scope: seq<Line>, depth: nat, placed: Chamber)
      modifies this
      requires Valid() && |puzzle.jets| > 0 && Between(puzzle, i, chamber, jetIdx, rockIdx)
      ensures Valid() && Between(puzzle, i + 1, placed, jetIdx, rockIdx)
      ensures key == (Tower(puzzle, i).rock, Tower(puzzle, i).jet) && scope == ScopeOf(puzzle, i)
      ensures |chamber| <= |placed|
    {
      key := (rockIdx, jetIdx);
      var rock := NextRock();
      scope, depth, placed := SimulateRock(rock, chamber);
      FallOn(puzzle, i);
    }

    /**
     * `simulate_rock`: four pushes while the rock falls through empty rows, then the descent into
     * the pile; the rock's rows are OR'd into the rows it rests on, and the rest are added on top.
     * The scope and its depth are read before the rock is added.
     */
    method SimulateRock(rock: Rock, chamber: Chamber) returns (scope: seq<Line>, depth: nat, placed: Chamber)
      modifies this
      requires Valid() && |puzzle.jets| > 0
      ensures Valid() && rockIdx == old(rockIdx)
      ensures var d := DropRock(rock, chamber, puzzle.jets, old(jetIdx));
        placed == d.chamber && jetIdx == d.jet && scope == Scope(chamber, d.rest) && depth == |scope|
    {
      ghost var target := Landed(rock, chamber, puzzle.jets, jetIdx, StartsAbove + 1);
      var falling := rock;
      for i := 0 to StartsAbove + 1
        invariant Valid() && rockIdx == old(rockIdx)
        invariant Landed(falling, chamber, puzzle.jets, jetIdx, StartsAbove + 1 - i) == target
      {
        var d := NextJet();
        var _, shifted := ShiftRock(falling, d, false);
        falling := shifted;
      }
      var start;
      start, falling := HandleIntoExistingRocks(falling, chamber);
      LandedClear(rock, chamber, puzzle.jets, old(jetIdx), StartsAbove + 1);
      if start == 0 {
        scope, depth := chamber[start..], |chamber| - start;
      } else {
        scope, depth := chamber[start - 1..], |chamber| - start + 1;
      }
      placed := AddRock(falling, chamber, start);
    }
  }

  /**
   * The last part of `simulate_rock`: the rock's rows, bottom first, are OR'd into the rows it
   * rests on, and the rest are pushed on top. A rock at rest is clear of the pile, so the clash
   * the source panics on cannot happen.
   */
  method AddRock(landed: Rock, chamber: Chamber, rest: nat) returns (placed: Chamber)
    requires rest <= |chamber| && Clear(landed, chamber, rest)
    ensures placed == Placed(landed, chamber, rest)
  {
    var falling, start;
    falling, start, placed := MergeRows(landed, chamber, rest);
    while falling != []
      invariant rest <= start <= |placed| && start - rest <= |landed|
      invariant |placed| == if start > |chamber| then start else |chamber|
      invariant falling != [] ==> start == |placed|
      invariant falling == landed[..|landed| - (start - rest)]
      invariant PlacedBelow(landed, chamber, rest, placed, start)
    {
      assert falling[|falling| - 1] == RowAt(landed, rest, start);
      placed := placed + [falling[|falling| - 1]];
      assert placed[start] == PlacedRow(landed, chamber, rest, start);
      falling := falling[..|falling| - 1];
      start := start + 1;
    }
    PlacedRowsAt(landed, chamber, rest, |placed|);
    assert placed == Placed(landed, chamber, rest);
  }

  /** Below row `start` the rows are those of the chamber with the rock at rest on row `rest`; above it, the old chamber's. */
  ghost predicate PlacedBelow(landed: Rock, chamber: Chamber, rest: nat, placed: Chamber, start: nat)
    requires |placed| == |chamber| || |placed| <= start
  {
    forall j :: 0 <= j < |placed| ==> placed[j] == if j < start then PlacedRow(landed, chamber, rest, j) else chamber[j]
  }

  /** The first loop of `simulate_rock`'s placing: the rock's rows that overlap the pile are merged in, bottom up. */
  method MergeRows(landed: Rock, chamber: Chamber, rest: nat) returns (falling: Rock, start: nat, placed: Chamber)
    requires rest <= |chamber| && Clear(landed, chamber, rest)
    ensures rest <= start <= |placed| == |chamber| && start - rest <= |landed|
    ensures falling == landed[..|landed| - (start - rest)]
    ensures falling != [] ==> start == |placed|
    ensures PlacedBelow(landed, chamber, rest, placed, start)
  {
    falling := landed;
    start := rest;
    placed := chamber;
    while start < |placed| && falling != []
      invariant rest <= start <= |placed| == |chamber| && start - rest <= |landed|
      invariant falling == landed[..|landed| - (start - rest)]
      invariant PlacedBelow(landed, chamber, rest, placed, start)
    {
      var line := falling[|falling| - 1];
      assert line == RowAt(landed, rest, start) && placed[start] == chamber[start];
      falling := falling[..|falling| - 1];
      if placed[start] & line != 0 {
        assert false;
      }
      assert placed[start] | line == PlacedRow(landed, chamber, rest, start);
      PlacedMore(landed, chamber, rest, placed, start);
      placed := placed[start := placed[start] | line];
      start := start + 1;
    }
  }

  /** Merging row `start` of the rock at rest extends the merged rows by one. */
  lemma PlacedMore(landed: Rock, chamber: Chamber, rest: nat, placed: Chamber, start: nat)
    requires |placed| == |chamber| && start < |placed| && PlacedBelow(landed, chamber, rest, placed, start)
    ensures PlacedBelow(landed, chamber, rest, placed[start := PlacedRow(landed, chamber, rest, start)], start + 1)
  {
  }

  // ------------------------------------------------------------------
  // The tower
  // ------------------------------------------------------------------

  /** Between rocks: the chamber, the next jet index and the next rock index. */
  datatype State = State(chamber: Chamber, jet: nat, rock: nat)

  predicate Fits(p: Puzzle, s: State)
  {
    s.jet < |p.jets| && s.rock < |p.rocks|
  }

  /** What the next rock does from state s. */
  function DropAt(p: Puzzle, s: State): Drop
    requires Fits(p, s)
  {
    DropRock(p.rocks[s.rock], s.chamber, p.jets, s.jet)
  }

  /** The state once n rocks have fallen into an empty chamber. */
  function Tower(p: Puzzle, n: nat): (r: State)
    requires |p.jets| > 0 && |p.rocks| > 0
    ensures Fits(p, r)
    decreases n, 0
  {
    if n == 0 then State([], 0, 0) else After(p, n - 1)
  }

  /** What rock n, counting from 0, does to the tower of the rocks before it. */
  function Fall(p: Puzzle, n: nat): (r: Drop)
    requires |p.jets| > 0 && |p.rocks| > 0
    ensures r.jet < |p.jets| && r.rest <= |Tower(p, n).chamber|
    decreases n, 1
  {
    DropAt(p, Tower(p, n))
  }

  /** The state once rock n has come to rest: its chamber and jet index, and the next rock. */
  function After(p: Puzzle, n: nat): (r: State)
    requires |p.jets| > 0 && |p.rocks| > 0
    ensures Fits(p, r)
    decreases n, 2
  {
    var d := Fall(p, n);
    State(d.chamber, d.jet, (Tower(p, n).rock + 1) % |p.rocks|)
  }

  /** Rock n falls on the tower of n rocks and gives the tower of n + 1. */
  lemma FallOn(p: Puzzle, n: nat)
    requires |p.jets| > 0 && |p.rocks| > 0
    ensures var s, d := Tower(p, n), DropAt(p, Tower(p, n));
      Fall(p, n) == d && Tower(p, n + 1) == State(d.chamber, d.jet, (s.rock + 1) % |p.rocks|)
  {
  }

  /** The simulation's chamber and indices are those of the tower of n rocks. */
  predicate Between(p: Puzzle, n: nat, chamber: Chamber, jet: nat, rock: nat)
    requires |p.jets| > 0 && |p.rocks| > 0
  {
    var s := Tower(p, n); chamber == s.chamber && jet == s.jet && rock == s.rock
  }

  /** The scope rock n sees: the pile, as it was before, from the row under where the rock comes to rest. */
  function ScopeOf(p: Puzzle, n: nat): seq<Line>
    requires |p.jets| > 0 && |p.rocks| > 0
  {
    Scope(Tower(p, n).chamber, Fall(p, n).rest)
  }

  /** One more rock: the tower grows by at most the rock's height. */
  lemma StepGrows(p: Puzzle, n: nat)
    requires |p.jets| > 0 && |p.rocks| > 0 && n > 0
    ensures var s := Tower(p, n - 1); |s.chamber| <= |Tower(p, n).chamber| <= |s.chamber| + |p.rocks[s.rock]|
  {
    FallOn(p, n - 1);
  }

  /** The tower never gets lower, and each rock raises it by at most the rock's height. */
  lemma TowerGrows(p: Puzzle, m: nat, n: nat)
    requires |p.jets| > 0 && |p.rocks| > 0 && m <= n
    ensures |Tower(p, m).chamber| <= |Tower(p, n).chamber|
    decreases n
  {
    if m != n {
      TowerGrows(p, m, n - 1);
      StepGrows(p, n);
    }
  }

  /** Rocks a < b start from the same rock and jet indices, and the pile near the top looks the same after them. */
  ghost predicate Repeat(p: Puzzle, a: nat, b: nat)
    requires |p.jets| > 0 && |p.rocks| > 0
  {
    && a < b
    && Tower(p, a).rock == Tower(p, b).rock && Tower(p, a).jet == Tower(p, b).jet
    && ScopeOf(p, a) == ScopeOf(p, b)
  }

  // ------------------------------------------------------------------
  // Repeats
  // ------------------------------------------------------------------

  /** A cache entry of `run`: the rock's number, the scope it saw, and how much it raised the tower. */
  datatype CacheEntry = CacheEntry(idx: nat, scope: seq<Line>, change: nat)

  type Key = (nat, nat)

  /** A repeat `run` found: rock `repeat` repeats rock `first`, and the cache still held the rocks `kept` of the stretch between. */
  datatype Cut = Cut(first: nat, repeat: nat, kept: seq<nat>)

  /** No two cached entries were made by the same rock. */
  ghost predicate DistinctIdx(repeats: map<Key, CacheEntry>)
  {
    forall k1, k2 :: k1 in repeats && k2 in repeats && repeats[k1].idx == repeats[k2].idx ==> k1 == k2
  }

  ghost predicate HasIdx(repeats: map<Key, CacheEntry>, k: nat)
  {
    exists key :: key in repeats && repeats[key].idx == k
  }

  /** The change recorded by rock k, when the cache holds it. */
  ghost function ChangeAt(repeats: map<Key, CacheEntry>, k: nat): nat
    requires HasIdx(repeats, k)
  {
    var key :| key in repeats && repeats[key].idx == k; repeats[key].change
  }

  /** The changes the cache holds for rocks lo .. hi - 1, in rock order: `increases` once sorted by index. */
  ghost function Increases(repeats: map<Key, CacheEntry>, lo: nat, hi: nat): seq<nat>
    decreases hi
  {
    if hi <= lo then []
    else Increases(repeats, lo, hi - 1) + (if HasIdx(repeats, hi - 1) then [ChangeAt(repeats, hi - 1)] else [])
  }

  function Sum(s: seq<nat>): nat
  {
    if s == [] then 0 else Sum(s[..|s| - 1]) + s[|s| - 1]
  }

  /**
   * Extrapolating from a repeated stretch of passSize rocks whose recorded growths are `increases`:
   * the height before it, plus one stretch's growth per whole stretch in the rocks remaining, plus
   * the first growths for the leftover rocks; slicing past the recorded growths panics.
   */
  function Extrapolation(prevHeight: nat, increases: seq<nat>, passSize: nat, remaining: nat): Result<nat>
    requires passSize > 0
  {
    var remainder := remaining % passSize;
    var passes: nat := remaining / passSize;
    Arith.MulNonneg(passes, Sum(increases));
    var quotient: nat := passes * Sum(increases);
    if remainder > |increases| then Panic("range end index out of range for slice")
    else Ok(prevHeight + quotient + Sum(increases[..remainder]))
  }

  /**
   * The short cut `run` takes once a repeat is found at rock i: the tower before the repeated
   * stretch, as many whole stretches as fit in the rocks left, and the first rocks of one more.
   * Slicing past the cached changes panics.
   */
  method Extrapolate(repeats: map<Key, CacheEntry>, entry: CacheEntry, height: nat, i: nat, rockCount: nat) returns (r: Result<nat>)
    requires entry.idx < i < rockCount && entry.change <= height
    requires DistinctIdx(repeats) && forall key :: key in repeats ==> repeats[key].idx < i
    ensures r == Extrapolation(height - entry.change, Increases(repeats, entry.idx, i), i - entry.idx, rockCount - i)
  {
    var increases: seq<nat> := [];
    for k := entry.idx to i
      invariant increases == Increases(repeats, entry.idx, k)
    {
      if key :| key in repeats && repeats[key].idx == k {
        increases := increases + [repeats[key].change];
      }
    }
    var increasePass := Sum(increases);
    var prevHeight := height - entry.change;
    var passSize := i - entry.idx;
    var remaining := rockCount - i;
    var remainder := remaining % passSize;
    var passes: nat := remaining / passSize;
    Arith.MulNonneg(passes, increasePass);
    var quotient: nat := passes * increasePass;
    if remainder > |increases| {
      return Panic("range end index out of range for slice");
    }
    r := Ok(prevHeight + quotient + Sum(increases[..remainder]));
  }

  /** The hit branch of `run`: the answer extrapolated from the cache entry of an earlier rock that rock i repeats. */
  method Shortcut(ghost p: Puzzle, repeats: map<Key, CacheEntry>, key: Key, height: nat, i: nat, rockCount: nat)
    returns (r: Result<nat>, ghost c: Cut)
    requires |p.jets| > 0 && |p.rocks| > 0 && Cached(p, repeats, i) && key in repeats
    requires i < rockCount && height == |Tower(p, i + 1).chamber| && repeats[key].change <= height
    requires Repeat(p, repeats[key].idx, i)
    ensures FromRepeat(p, rockCount, r, c)
  {
    r := Extrapolate(repeats, repeats[key], height, i, rockCount);
    c := Cut(repeats[key].idx, i, Kept(repeats, repeats[key].idx, i));
    CachedRecords(p, repeats, i);
    RepeatAnswer(p, repeats, key, height, i, rockCount, r);
  }

  /** What every cache entry of `run` records, before rock i: the rock and jet indices it started from and the scope it saw. */
  ghost predicate Cached(p: Puzzle, repeats: map<Key, CacheEntry>, i: nat)
    requires |p.jets| > 0 && |p.rocks| > 0
  {
    && DistinctIdx(repeats)
    && forall key :: key in repeats ==>
      var e := repeats[key];
      && e.idx < i
      && key == (Tower(p, e.idx).rock, Tower(p, e.idx).jet)
      && e.scope == ScopeOf(p, e.idx)
      && e.change == |Tower(p, e.idx + 1).chamber| - |Tower(p, e.idx).chamber|
  }

  /**
   * The cache lookup of `run` for rock i: a hit when the cache holds an entry for the same rock and
   * jet indices with the same scope, which is then a genuine repeat; otherwise the entry of rock i
   * is cached, replacing any other for those indices.
   */
  method Remember(ghost p: Puzzle, repeats: map<Key, CacheEntry>, key: Key, entry: CacheEntry, ghost i: nat)
    returns (hit: Option<CacheEntry>, updated: map<Key, CacheEntry>)
    requires |p.jets| > 0 && |p.rocks| > 0 && Cached(p, repeats, i)
    requires key == (Tower(p, i).rock, Tower(p, i).jet) && entry.idx == i && entry.scope == ScopeOf(p, i)
    requires entry.change == |Tower(p, i + 1).chamber| - |Tower(p, i).chamber|
    ensures hit.Some? <==> key in repeats && repeats[key].scope == entry.scope
    ensures hit.Some? ==> hit.value == repeats[key] && updated == repeats && Repeat(p, hit.value.idx, i)
    ensures hit.None? ==> updated == repeats[key := entry] && Cached(p, updated, i + 1)
  {
    if key in repeats {
      var cached := repeats[key];
      if cached.scope == entry.scope {
        CachedRepeat(p, repeats, i, key);
        return Some(cached), repeats;
      }
    }
    CachedInsert(p, repeats, i, key, entry);
    return None, repeats[key := entry];
  }

  /** Caching the entry of rock i keeps what the cache records true for the rocks before i + 1. */
  lemma CachedInsert(p: Puzzle, repeats: map<Key, CacheEntry>, i: nat, key: Key, entry: CacheEntry)
    requires |p.jets| > 0 && |p.rocks| > 0 && Cached(p, repeats, i)
    requires key == (Tower(p, i).rock, Tower(p, i).jet) && entry.idx == i && entry.scope == ScopeOf(p, i)
    requires entry.change == |Tower(p, i + 1).chamber| - |Tower(p, i).chamber|
    ensures Cached(p, repeats[key := entry], i + 1)
  {
  }

  /** A cache hit at rock i, with the same scope, names a genuine repeat. */
  lemma CachedRepeat(p: Puzzle, repeats: map<Key, CacheEntry>, i: nat, key: Key)
    requires |p.jets| > 0 && |p.rocks| > 0 && Cached(p, repeats, i) && key in repeats
    requires key == (Tower(p, i).rock, Tower(p, i).jet) && repeats[key].scope == ScopeOf(p, i)
    ensures Repeat(p, repeats[key].idx, i)
  {
  }

  /** How much rock n raises the tower. */
  ghost function Growth(p: Puzzle, n: nat): nat
    requires |p.jets| > 0 && |p.rocks| > 0
  {
    StepGrows(p, n + 1);
    |Tower(p, n + 1).chamber| - |Tower(p, n).chamber|
  }

  /** The growth of each of the rocks ks, in order. */
  ghost function Growths(p: Puzzle, ks: seq<nat>): (r: seq<nat>)
    requires |p.jets| > 0 && |p.rocks| > 0
    ensures |r| == |ks|
  {
    if ks == [] then [] else Growths(p, ks[..|ks| - 1]) + [Growth(p, ks[|ks| - 1])]
  }

  /** The rocks lo .. hi - 1 the cache still holds, in rock order. */
  ghost function Kept(repeats: map<Key, CacheEntry>, lo: nat, hi: nat): seq<nat>
    decreases hi
  {
    if hi <= lo then []
    else Kept(repeats, lo, hi - 1) + (if HasIdx(repeats, hi - 1) then [hi - 1] else [])
  }

  /** The rocks lo .. hi - 1, all of them. */
  function Range(lo: nat, hi: nat): seq<nat>
    decreases hi
  {
    if hi <= lo then [] else Range(lo, hi - 1) + [hi - 1]
  }

  /** Rock numbers in increasing order, all in lo .. hi - 1, starting with lo. */
  ghost predicate Stretch(ks: seq<nat>, lo: nat, hi: nat)
  {
    && |ks| > 0 && ks[0] == lo
    && (forall j :: 0 <= j < |ks| ==> lo <= ks[j] < hi)
    && (forall j, k :: 0 <= j < k < |ks| ==> ks[j] < ks[k])
  }

  /**
   * The answer `run` gives when rock b repeats rock a and the rocks `kept` of the stretch a .. b - 1
   * are still cached, in terms of the tower itself: the tower after rock b less the growth of rock
   * a, plus the whole stretches left times the kept rocks' growth, plus the growth of the first
   * kept rocks for the leftover; slicing past the kept rocks panics.
   */
  ghost function ExtrapolatedHeight(p: Puzzle, a: nat, b: nat, kept: seq<nat>, rockCount: nat): Result<nat>
    requires |p.jets| > 0 && |p.rocks| > 0 && a < b < rockCount
  {
    TowerGrows(p, a + 1, b + 1);
    Extrapolation(|Tower(p, b + 1).chamber| - Growth(p, a), Growths(p, kept), b - a, rockCount - b)
  }


  /** The changes the cache holds are the growths of the rocks it holds. */
  lemma {:induction false} IncreasesKept(p: Puzzle, repeats: map<Key, CacheEntry>, lo: nat, hi: nat)
    requires |p.jets| > 0 && |p.rocks| > 0 && Records(p, repeats)
    ensures Increases(repeats, lo, hi) == Growths(p, Kept(repeats, lo, hi))
    decreases hi
  {
    if lo < hi {
      IncreasesKept(p, repeats, lo, hi - 1);
      var ks := Kept(repeats, lo, hi - 1);
      if HasIdx(repeats, hi - 1) {
        ChangeAtGrowth(p, repeats, hi - 1);
        GrowthsSnoc(p, ks, hi - 1);
        assert Kept(repeats, lo, hi) == ks + [hi - 1];
        assert Increases(repeats, lo, hi) == Increases(repeats, lo, hi - 1) + [ChangeAt(repeats, hi - 1)];
      } else {
        assert Kept(repeats, lo, hi) == ks;
        assert Increases(repeats, lo, hi) == Increases(repeats, lo, hi - 1);
      }
    }
  }

  /** The growths of one more rock are the growths so far and that rock's. */
  lemma GrowthsSnoc(p: Puzzle, ks: seq<nat>, k: nat)
    requires |p.jets| > 0 && |p.rocks| > 0
    ensures Growths(p, ks + [k]) == Growths(p, ks) + [Growth(p, k)]
  {
    assert (ks + [k])[..|ks|] == ks;
  }

  /** The change the cache holds for rock k is rock k's growth. */
  lemma ChangeAtGrowth(p: Puzzle, repeats: map<Key, CacheEntry>, k: nat)
    requires |p.jets| > 0 && |p.rocks| > 0 && Records(p, repeats) && HasIdx(repeats, k)
    ensures ChangeAt(repeats, k) == Growth(p, k)
  {
    var key :| key in repeats && repeats[key].idx == k && ChangeAt(repeats, k) == repeats[key].change;
  }

  /**
   * What `run` answers after a repeat c: rock c.repeat, before the last rock, repeats rock c.first;
   * c.kept are the rocks of the stretch between that the cache still holds; and the answer is the
   * height extrapolated over the tower with them.
   */
  ghost predicate FromRepeat(p: Puzzle, rockCount: nat, r: Result<nat>, c: Cut)
    requires |p.jets| > 0 && |p.rocks| > 0
  {
    && c.repeat < rockCount && Repeat(p, c.first, c.repeat)
    && Stretch(c.kept, c.first, c.repeat)
    && r == ExtrapolatedHeight(p, c.first, c.repeat, c.kept, rockCount)
  }

  /**
   * The answer `run` extrapolates from a cache hit of rock i on the entry of an earlier rock is the
   * height extrapolated over the tower, with the rocks of the stretch the cache still holds.
   */
  lemma RepeatAnswer(p: Puzzle, repeats: map<Key, CacheEntry>, key: Key, height: nat, i: nat, rockCount: nat, r: Result<nat>)
    requires |p.jets| > 0 && |p.rocks| > 0 && Records(p, repeats) && key in repeats
    requires var a := repeats[key].idx;
      && a < i < rockCount && height == |Tower(p, i + 1).chamber| && repeats[key].change <= height
      && Repeat(p, a, i)
      && r == Extrapolation(height - repeats[key].change, Increases(repeats, a, i), i - a, rockCount - i)
    ensures FromRepeat(p, rockCount, r, Cut(repeats[key].idx, i, Kept(repeats, repeats[key].idx, i)))
  {
    var a := repeats[key].idx;
    var kept := Kept(repeats, a, i);
    assert key in repeats && repeats[key].idx == a;
    KeptAscending(repeats, a, i);
    assert Stretch(kept, a, i);
    IncreasesKept(p, repeats, a, i);
    var prevHeight := height - repeats[key].change;
    assert prevHeight == |Tower(p, i + 1).chamber| - Growth(p, a);
    assert ExtrapolatedHeight(p, a, i, kept, rockCount) == Extrapolation(prevHeight, Growths(p, kept), i - a, rockCount - i);
  }




  /** Every cached change is the growth of its rock. */
  ghost predicate Records(p: Puzzle, repeats: map<Key, CacheEntry>)
    requires |p.jets| > 0 && |p.rocks| > 0
  {
    forall key :: key in repeats ==> repeats[key].change == Growth(p, repeats[key].idx)
  }

  lemma CachedRecords(p: Puzzle, repeats: map<Key, CacheEntry>, i: nat)
    requires |p.jets| > 0 && |p.rocks| > 0 && Cached(p, repeats, i)
    ensures Records(p, repeats)
  {
  }


  /** The rocks the cache holds from lo on are in increasing order, below hi. */
  lemma {:induction false} KeptAscending(repeats: map<Key, CacheEntry>, lo: nat, hi: nat)
    ensures forall j :: 0 <= j < |Kept(repeats, lo, hi)| ==> lo <= Kept(repeats, lo, hi)[j] < hi
    ensures forall j, k :: 0 <= j < k < |Kept(repeats, lo, hi)| ==> Kept(repeats, lo, hi)[j] < Kept(repeats, lo, hi)[k]
    ensures HasIdx(repeats, lo) && lo < hi ==> |Kept(repeats, lo, hi)| > 0 && Kept(repeats, lo, hi)[0] == lo
    decreases hi
  {
    if lo < hi {
      KeptAscending(repeats, lo, hi - 1);
      if hi - 1 == lo {
        assert Kept(repeats, lo, hi - 1) == [];
      }
    }
  }

  /** The growths of a prefix of the rocks are that prefix of their growths. */
  lemma {:induction false} GrowthsPrefix(p: Puzzle, ks: seq<nat>, m: nat)
    requires |p.jets| > 0 && |p.rocks| > 0 && m <= |ks|
    ensures Growths(p, ks)[..m] == Growths(p, ks[..m])
    decreases |ks|
  {
    if m < |ks| {
      assert ks[..|ks| - 1][..m] == ks[..m];
      GrowthsPrefix(p, ks[..|ks| - 1], m);
    } else {
      assert ks[..m] == ks;
    }
  }

  /** The first m of the rocks lo .. hi - 1 are the rocks lo .. lo + m - 1. */
  lemma {:induction false} RangePrefix(lo: nat, hi: nat, m: nat)
    requires lo <= hi && m <= hi - lo
    ensures |Range(lo, hi)| == hi - lo && Range(lo, hi)[..m] == Range(lo, lo + m)
    decreases hi
  {
    if lo < hi {
      RangePrefix(lo, hi - 1, if m < hi - lo then m else m - 1);
      if m == hi - lo {
        assert Range(lo, hi)[..m] == Range(lo, hi);
      } else {
        assert Range(lo, hi)[..m] == Range(lo, hi - 1)[..m];
      }
    }
  }

  /** The growths of the rocks lo .. hi - 1 add up to how much they raise the tower. */
  lemma {:induction false} Telescope(p: Puzzle, lo: nat, hi: nat)
    requires |p.jets| > 0 && |p.rocks| > 0 && lo <= hi
    ensures Sum(Growths(p, Range(lo, hi))) == |Tower(p, hi).chamber| - |Tower(p, lo).chamber|
    decreases hi
  {
    if lo < hi {
      Telescope(p, lo, hi - 1);
      var ks := Range(lo, hi);
      assert ks[..|ks| - 1] == Range(lo, hi - 1);
      assert Growths(p, ks)[..|ks| - 1] == Growths(p, Range(lo, hi - 1));
    }
  }

  /**
   * When the whole stretch a .. b - 1 is still cached, the extrapolated answer never panics and is
   * the tower after rock b less the growth of rock a, plus every whole stretch left at the growth of
   * rocks a .. b - 1, plus the growth of the first rocks of the stretch for the leftover.
   */
  lemma WholeStretch(p: Puzzle, a: nat, b: nat, rockCount: nat)
    requires |p.jets| > 0 && |p.rocks| > 0 && a < b < rockCount
    ensures var r, remainder := ExtrapolatedHeight(p, a, b, Range(a, b), rockCount), (rockCount - b) % (b - a);
      && r.Ok?
      && r.value == |Tower(p, b + 1).chamber| - Growth(p, a)
           + (rockCount - b) / (b - a) * (|Tower(p, b).chamber| - |Tower(p, a).chamber|)
           + (|Tower(p, a + remainder).chamber| - |Tower(p, a).chamber|)
  {
    var remainder := (rockCount - b) % (b - a);
    var increases := Growths(p, Range(a, b));
    RangePrefix(a, b, remainder);
    var whole, part := Sum(increases), Sum(increases[..remainder]);
    assert whole == |Tower(p, b).chamber| - |Tower(p, a).chamber| by {
      Telescope(p, a, b);
    }
    assert part == |Tower(p, a + remainder).chamber| - |Tower(p, a).chamber| by {
      GrowthsPrefix(p, Range(a, b), remainder);
      Telescope(p, a, a + remainder);
    }
    TowerGrows(p, a + 1, b + 1);
    var prevHeight: nat := |Tower(p, b + 1).chamber| - Growth(p, a);
    var r := ExtrapolatedHeight(p, a, b, Range(a, b), rockCount);
    assert r.Ok? && r.value == prevHeight + (rockCount - b) / (b - a) * whole + part by {
      assert r == Extrapolation(prevHeight, increases, b - a, rockCount - b);
      ExtrapolationWhole(prevHeight, increases, b - a, rockCount - b);
    }
    Regroup(r.value, prevHeight, (rockCount - b) / (b - a), whole, part,
      |Tower(p, b + 1).chamber|, Growth(p, a), |Tower(p, b).chamber|, |Tower(p, a).chamber|, |Tower(p, a + remainder).chamber|);
  }

  /** Substituting the tower heights for the sums of growths in the extrapolated answer. */
  lemma Regroup(v: int, prev: int, q: int, whole: int, part: int, top: int, first: int, hb: int, ha: int, hr: int)
    requires v == prev + q * whole + part && prev == top - first && whole == hb - ha && part == hr - ha
    ensures v == top - first + q * (hb - ha) + (hr - ha)
  {
  }

  /** With a growth recorded for every rock of the stretch, extrapolating never panics. */
  lemma ExtrapolationWhole(prevHeight: nat, increases: seq<nat>, passSize: nat, remaining: nat)
    requires passSize > 0 && |increases| == passSize
    ensures Extrapolation(prevHeight, increases, passSize, remaining)
      == Ok(prevHeight + remaining / passSize * Sum(increases) + Sum(increases[..remaining % passSize]))
  {
  }

  // ------------------------------------------------------------------
  // Entry points
  // ------------------------------------------------------------------

  /** `generator`: the first line of the input, trimmed, read as the jet pattern. */
  method Generator(input: string) returns (r: Result<Puzzle>)
    ensures Lines(input) == [] ==> r == Panic("called `Option::unwrap()` on a `None` value")
    ensures Lines(input) != [] ==> var jets := Trim(Lines(input)[0]);
      && (r.Ok? <==> forall i :: 0 <= i < |jets| ==> IsJet(jets[i]))
      && (r.Ok? ==> ValidPuzzle(r.value) && r.value.jets == jets)
  {
    var lines := Lines(input);
    if lines == [] {
      return Panic("called `Option::unwrap()` on a `None` value");
    }
    r := NewPuzzle(Trim(lines[0]));
  }

  /**
   * The height after `rockCount` rocks, as a fresh simulation's `run` reports it: the full
   * simulation's height unless a repeat was found on the way, and a panic when there are no jets.
   */
  method TowerHeight(puzzle: Puzzle, rockCount: nat) returns (r: Result<nat>, ghost cut: Option<Cut>)
    requires ValidPuzzle(puzzle)
    ensures |puzzle.jets| == 0 ==> cut.None? && r == if rockCount == 0 then Ok(0) else Panic("index out of bounds")
    ensures |puzzle.jets| > 0 && cut.None? ==> r == Ok(|Tower(puzzle, rockCount).chamber|)
    ensures cut.Some? ==> |puzzle.jets| > 0 && FromRepeat(puzzle, rockCount, r, cut.value)
  {
    var simulation := new Simulation(puzzle);
    r, cut := simulation.Run(rockCount);
  }

  /** `part1`: the height after 2022 rocks. */
  method Part1(puzzle: Puzzle) returns (r: Result<nat>, ghost cut: Option<Cut>)
    requires ValidPuzzle(puzzle)
    ensures |puzzle.jets| == 0 ==> cut.None? && r == Panic("index out of bounds")
    ensures |puzzle.jets| > 0 && cut.None? ==> r == Ok(|Tower(puzzle, 2022).chamber|)
    ensures cut.Some? ==> |puzzle.jets| > 0 && FromRepeat(puzzle, 2022, r, cut.value)
  {
    r, cut := TowerHeight(puzzle, 2022);
  }

  /** `part2`: the height after a million million rocks. */
  method Part2(puzzle: Puzzle) returns (r: Result<nat>, ghost cut: Option<Cut>)
    requires ValidPuzzle(puzzle)
    ensures |puzzle.jets| == 0 ==> cut.None? && r == Panic("index out of bounds")
    ensures |puzzle.jets| > 0 && cut.None? ==> r == Ok(|Tower(puzzle, 1000000000000).chamber|)
    ensures cut.Some? ==> |puzzle.jets| > 0 && FromRepeat(puzzle, 1000000000000, r, cut.value)
  {
    r, cut := TowerHeight(puzzle, 1000000000000);
  }
}
