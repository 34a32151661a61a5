/**
 * Day 9, rope bridge: a rope's head is moved by a list of moves and every further knot follows
 * the one before it, stepping (diagonally when needed) until it touches it again. The answer is
 * the number of distinct cells the last knot visits: with two knots in part 1, with ten in part 2.
 *
 * Positions are unbounded integers (the source's `i32`).
 */
module Day9 {
  import opened Wrappers
  import opened Arith
  import opened Text

  datatype Pos = Pos(x: int, y: int)

  /** One line of input: a direction letter and a signed step count. */
  datatype Move = Move(dir: char, steps: int)

  const Origin: Pos := Pos(0, 0)

  function Sign(d: int): int { if d > 0 then 1 else if d < 0 then -1 else 0 }

  /** The source's `(prev - knot) / diff` with diff the absolute difference: an exact division, so the sign. */
  lemma ExactSign(d: int)
    requires d != 0
    ensures TruncDiv(d, Abs(d)) == Sign(d)
  {
  }

  // ------------------------------------------------------------------
  // move_head
  // ------------------------------------------------------------------

  /** `move_head`: steps along one axis; any letter other than R, L, U, D panics. */
  function MoveHead(head: Pos, dir: char, steps: int): (r: Result<Pos>)
    ensures r.Ok? <==> dir in "RLUD"
    ensures r.Ok? ==> (r.value.x == head.x || r.value.y == head.y)
                      && Abs(r.value.x - head.x) + Abs(r.value.y - head.y) == Abs(steps)
  {
    match dir
    case 'R' => Ok(Pos(head.x + steps, head.y))
    case 'L' => Ok(Pos(head.x - steps, head.y))
    case 'U' => Ok(Pos(head.x, head.y + steps))
    case 'D' => Ok(Pos(head.x, head.y - steps))
    case _ => Panic("Unexpected direction")
  }

  function Opposite(dir: char): char
  {
    match dir
    case 'R' => 'L'
    case 'L' => 'R'
    case 'U' => 'D'
    case _ => 'U'
  }

  /** A move undone by the same number of steps the other way restores the head. */
  lemma MoveHeadBack(head: Pos, dir: char, steps: int)
    requires dir in "RLUD"
    ensures MoveHead(MoveHead(head, dir, steps).value, Opposite(dir), steps) == Ok(head)
  {
  }

  // ------------------------------------------------------------------
  // move_knot
  // ------------------------------------------------------------------

  /** Both coordinate differences below 2. */
  predicate Touching(a: Pos, b: Pos) { Abs(a.x - b.x) < 2 && Abs(a.y - b.y) < 2 }

  /** A move of at most one unit along each axis. */
  predicate KingStep(a: Pos, b: Pos) { Abs(a.x - b.x) <= 1 && Abs(a.y - b.y) <= 1 }

  function Gap(a: Pos, b: Pos): nat { Abs(a.x - b.x) + Abs(a.y - b.y) }

  /**
   * One unit step of a knot toward prev: diagonal while both differences are non-zero and not
   * both 1, then straight along the axis that is still 2 or more away.
   */
  function Step(k: Pos, p: Pos): (n: Pos)
    requires !Touching(k, p)
    ensures KingStep(k, n) && Gap(n, p) < Gap(k, p)
  {
    var dx, dy := p.x - k.x, p.y - k.y;
    if dx != 0 && dy != 0 && !(Abs(dx) == 1 && Abs(dy) == 1) then Pos(k.x + Sign(dx), k.y + Sign(dy))
    else if Abs(dx) > 1 then Pos(k.x + Sign(dx), k.y)
    else Pos(k.x, k.y + Sign(dy))
  }

  /** Every position the knot passes through until it touches prev. */
  function Trail(k: Pos, p: Pos): seq<Pos>
    decreases Gap(k, p)
  {
    if Touching(k, p) then [] else [Step(k, p)] + Trail(Step(k, p), p)
  }

  /**
   * Where a knot ends up, in closed form: in place when touching; otherwise right behind prev,
   * diagonally when the two differences are equal, else on prev's row or column.
   */
  function Follow(k: Pos, p: Pos): Pos
  {
    var dx, dy := p.x - k.x, p.y - k.y;
    if Touching(k, p) then k
    else if Abs(dx) == Abs(dy) then Pos(p.x - Sign(dx), p.y - Sign(dy))
    else if Abs(dx) < Abs(dy) then Pos(p.x, p.y - Sign(dy))
    else Pos(p.x - Sign(dx), p.y)
  }

  function Last(k: Pos, s: seq<Pos>): Pos { if s == [] then k else s[|s| - 1] }

  /** A path whose consecutive positions are at most one unit apart on each axis. */
  predicate Walk(path: seq<Pos>) { forall i :: 0 <= i < |path| - 1 ==> KingStep(path[i], path[i + 1]) }

  /** The cells of a path. */
  function Cells(s: seq<Pos>): set<Pos> { set i | 0 <= i < |s| :: s[i] }

  lemma CellsSnoc(s: seq<Pos>, p: Pos)
    ensures Cells(s + [p]) == Cells(s) + {p}
  {
    assert forall i :: 0 <= i < |s| ==> (s + [p])[i] == s[i];
    assert (s + [p])[|s|] == p;
  }

  lemma FollowAfterStep(k: Pos, p: Pos)
    requires !Touching(k, p)
    ensures Follow(Step(k, p), p) == Follow(k, p)
  {
  }

  /** The trail ends at `Follow`, and the knot then touches prev. */
  lemma {:induction false} TrailEnds(k: Pos, p: Pos)
    ensures Last(k, Trail(k, p)) == Follow(k, p) && Touching(Follow(k, p), p)
    decreases Gap(k, p)
  {
    if !Touching(k, p) {
      var n := Step(k, p);
      TrailEnds(n, p);
      FollowAfterStep(k, p);
      var rest := Trail(n, p);
      if rest != [] {
        assert ([n] + rest)[|rest|] == rest[|rest| - 1];
      }
    }
  }

  /** The knot moves at most one unit per axis per step. */
  lemma {:induction false} TrailIsWalk(k: Pos, p: Pos)
    ensures Walk([k] + Trail(k, p))
    decreases Gap(k, p)
  {
    if !Touching(k, p) {
      var n := Step(k, p);
      TrailIsWalk(n, p);
      var path, rest := [k] + Trail(k, p), [n] + Trail(n, p);
      assert path == [k] + rest;
      forall i | 0 <= i < |path| - 1 ensures KingStep(path[i], path[i + 1]) {
        if i > 0 {
          assert path[i] == rest[i - 1] && path[i + 1] == rest[i];
        }
      }
    }
  }

  /** After walking `done` from knot to k, with `vis` the visited set so far. */
  ghost predicate Progress(knot: Pos, prev: Pos, record: bool, visited: set<Pos>, done: seq<Pos>, k: Pos, vis: set<Pos>)
  {
    done + Trail(k, prev) == Trail(knot, prev) && k == Last(knot, done)
    && vis == if record then visited + Cells(done) else visited
  }

  /** `knot += (dx, dy); record(knot, visited_pos)`, one unit step of the trail. */
  method Advance(ghost knot: Pos, prev: Pos, record: bool, ghost visited: set<Pos>, ghost done: seq<Pos>,
                 k: Pos, vis: set<Pos>, dx: int, dy: int)
    returns (ghost done': seq<Pos>, k': Pos, vis': set<Pos>)
    requires Progress(knot, prev, record, visited, done, k, vis)
    requires !Touching(k, prev) && Step(k, prev) == Pos(k.x + dx, k.y + dy)
    ensures Progress(knot, prev, record, visited, done', k', vis') && k' == Step(k, prev)
  {
    ProgressStep(knot, prev, record, visited, done, k, vis);
    done' := done + [Step(k, prev)];
    k' := Pos(k.x + dx, k.y + dy);
    vis' := vis;
    if record { vis' := vis' + {k'}; }
  }

  /** One unit step along the trail keeps the progress invariant. */
  lemma ProgressStep(knot: Pos, prev: Pos, record: bool, visited: set<Pos>, done: seq<Pos>, k: Pos, vis: set<Pos>)
    requires Progress(knot, prev, record, visited, done, k, vis) && !Touching(k, prev)
    ensures var n := Step(k, prev);
      Progress(knot, prev, record, visited, done + [n], n, if record then vis + {n} else vis)
  {
    var n := Step(k, prev);
    TrailStep(done, k, prev, Trail(knot, prev));
    CellsSnoc(done, n);
    assert Last(knot, done + [n]) == n;
  }

  /** Moving the first position of the remaining trail onto the walked part keeps their sum. */
  lemma TrailStep(done: seq<Pos>, k: Pos, prev: Pos, whole: seq<Pos>)
    requires done + Trail(k, prev) == whole && !Touching(k, prev)
    ensures (done + [Step(k, prev)]) + Trail(Step(k, prev), prev) == whole
  {
    var n := Step(k, prev);
    var rest := Trail(n, prev);
    assert Trail(k, prev) == [n] + rest;
    assert (done + [n]) + rest == done + ([n] + rest);
  }

  /**
   * `move_knot`: false, and nothing changes, when the knot already touches prev. Otherwise the
   * knot walks the three loops of the source to `Follow(knot, prev)`, and with `record` (the
   * `record_position` callback rather than `dont_record_position`) every cell it passes is added
   * to `visited`.
   */
  method MoveKnot(knot: Pos, prev: Pos, visited: set<Pos>, record: bool) returns (moved: bool, k: Pos, visited': set<Pos>)
    ensures moved <==> !Touching(knot, prev)
    ensures k == Follow(knot, prev) && Touching(k, prev)
    ensures visited' == if record then visited + Cells(Trail(knot, prev)) else visited
  {
    k, visited' := knot, visited;
    TrailEnds(knot, prev);
    var xDiff, yDiff := Abs(knot.x - prev.x), Abs(knot.y - prev.y);
    if xDiff < 2 && yDiff < 2 {
      return false, k, visited';
    }
    ghost var done: seq<Pos> := [];
    if xDiff == 0 {
      // Same row
      var yc := TruncDiv(prev.y - k.y, yDiff);
      ExactSign(prev.y - k.y);
      done, k, visited' := AlongY(knot, prev, record, visited, done, k, visited', yc);
    } else if yDiff == 0 {
      // Same col
      var xc := TruncDiv(prev.x - k.x, xDiff);
      ExactSign(prev.x - k.x);
      done, k, visited' := AlongX(knot, prev, record, visited, done, k, visited', xc);
    } else {
      var xc := TruncDiv(prev.x - k.x, xDiff);
      var yc := TruncDiv(prev.y - k.y, yDiff);
      ExactSign(prev.x - k.x);
      ExactSign(prev.y - k.y);
      done, k, visited' := Diagonal(knot, prev, record, visited, done, k, visited', xc, yc);
    }
    ProgressDone(knot, prev, record, visited, done, k, visited');
    return true, k, visited';
  }

  /** Once the knot touches prev, the walked part is the whole trail. */
  lemma ProgressDone(knot: Pos, prev: Pos, record: bool, visited: set<Pos>, done: seq<Pos>, k: Pos, vis: set<Pos>)
    requires Progress(knot, prev, record, visited, done, k, vis) && Touching(k, prev)
    ensures done == Trail(knot, prev) && vis == if record then visited + Cells(Trail(knot, prev)) else visited
  {
    assert Trail(k, prev) == [];
    assert done + [] == done;
  }

  /** `for _ in 0..(y_diff - 1) { knot.1 += y_c; record(..) }`: the same-row arm, up to prev. */
  method AlongY(ghost knot: Pos, prev: Pos, record: bool, ghost visited: set<Pos>, ghost done: seq<Pos>,
                k: Pos, vis: set<Pos>, yc: int)
    returns (ghost done': seq<Pos>, k': Pos, vis': set<Pos>)
    requires Progress(knot, prev, record, visited, done, k, vis)
    requires k.x == prev.x && Abs(prev.y - k.y) >= 2 && Sign(prev.y - k.y) == yc
    ensures Progress(knot, prev, record, visited, done', k', vis') && Touching(k', prev)
  {
    done', k', vis' := done, k, vis;
    var yDiff := Abs(prev.y - k.y);
    for step := 0 to yDiff - 1
      invariant k'.x == prev.x && Abs(prev.y - k'.y) == yDiff - step && Sign(prev.y - k'.y) == yc
      invariant Progress(knot, prev, record, visited, done', k', vis')
    {
      done', k', vis' := Advance(knot, prev, record, visited, done', k', vis', 0, yc);
    }
  }

  /** `for _ in 0..(x_diff - 1) { knot.0 += x_c; record(..) }`: the same-column arm, up to prev. */
  method AlongX(ghost knot: Pos, prev: Pos, record: bool, ghost visited: set<Pos>, ghost done: seq<Pos>,
                k: Pos, vis: set<Pos>, xc: int)
    returns (ghost done': seq<Pos>, k': Pos, vis': set<Pos>)
    requires Progress(knot, prev, record, visited, done, k, vis)
    requires k.y == prev.y && Abs(prev.x - k.x) >= 2 && Sign(prev.x - k.x) == xc
    ensures Progress(knot, prev, record, visited, done', k', vis') && Touching(k', prev)
  {
    done', k', vis' := done, k, vis;
    var xDiff := Abs(prev.x - k.x);
    for step := 0 to xDiff - 1
      invariant k'.y == prev.y && Abs(prev.x - k'.x) == xDiff - step && Sign(prev.x - k'.x) == xc
      invariant Progress(knot, prev, record, visited, done', k', vis')
    {
      done', k', vis' := Advance(knot, prev, record, visited, done', k', vis', xc, 0);
    }
  }

  /** The last arm of `move_knot`: diagonal steps, then straight along x, then along y. */
  method Diagonal(ghost knot: Pos, prev: Pos, record: bool, ghost visited: set<Pos>, ghost done: seq<Pos>,
                  k: Pos, vis: set<Pos>, xc: int, yc: int)
    returns (ghost done': seq<Pos>, k': Pos, vis': set<Pos>)
    requires Progress(knot, prev, record, visited, done, k, vis)
    requires k.x != prev.x && k.y != prev.y && Sign(prev.x - k.x) == xc && Sign(prev.y - k.y) == yc
    ensures Progress(knot, prev, record, visited, done', k', vis') && Touching(k', prev)
  {
    done', k', vis' := DiagonalRun(knot, prev, record, visited, done, k, vis, xc, yc);
    done', k', vis' := FinishX(knot, prev, record, visited, done', k', vis', xc, yc);
    done', k', vis' := FinishY(knot, prev, record, visited, done', k', vis', yc);
  }

  /** The first loop of the last arm: diagonal steps while both differences are non-zero and not both 1. */
  method DiagonalRun(ghost knot: Pos, prev: Pos, record: bool, ghost visited: set<Pos>, ghost done: seq<Pos>,
                     k: Pos, vis: set<Pos>, xc: int, yc: int)
    returns (ghost done': seq<Pos>, k': Pos, vis': set<Pos>)
    requires Progress(knot, prev, record, visited, done, k, vis)
    requires k.x != prev.x && k.y != prev.y && Sign(prev.x - k.x) == xc && Sign(prev.y - k.y) == yc
    ensures Progress(knot, prev, record, visited, done', k', vis')
    ensures k'.x == prev.x || k'.y == prev.y || (Abs(k'.x - prev.x) == 1 && Abs(k'.y - prev.y) == 1)
    ensures k'.x != prev.x ==> Sign(prev.x - k'.x) == xc
    ensures k'.y != prev.y ==> Sign(prev.y - k'.y) == yc
  {
    done', k', vis' := done, k, vis;
    var xDiff, yDiff := Abs(k.x - prev.x), Abs(k.y - prev.y);
    while xDiff > 0 && yDiff > 0 && !(xDiff == 1 && yDiff == 1)
      invariant xDiff == Abs(k'.x - prev.x) && yDiff == Abs(k'.y - prev.y)
      invariant k'.x != prev.x ==> Sign(prev.x - k'.x) == xc
      invariant k'.y != prev.y ==> Sign(prev.y - k'.y) == yc
      invariant Progress(knot, prev, record, visited, done', k', vis')
      decreases xDiff
    {
      done', k', vis' := Advance(knot, prev, record, visited, done', k', vis', xc, yc);
      xDiff, yDiff := Abs(k'.x - prev.x), Abs(k'.y - prev.y);
    }
  }

  /** The second loop of the last arm: straight along x until at most 1 away. */
  method FinishX(ghost knot: Pos, prev: Pos, record: bool, ghost visited: set<Pos>, ghost done: seq<Pos>,
                 k: Pos, vis: set<Pos>, xc: int, yc: int)
    returns (ghost done': seq<Pos>, k': Pos, vis': set<Pos>)
    requires Progress(knot, prev, record, visited, done, k, vis)
    requires k.x == prev.x || k.y == prev.y || (Abs(k.x - prev.x) == 1 && Abs(k.y - prev.y) == 1)
    requires k.x != prev.x ==> Sign(prev.x - k.x) == xc
    requires k.y != prev.y ==> Sign(prev.y - k.y) == yc
    ensures Progress(knot, prev, record, visited, done', k', vis') && Abs(k'.x - prev.x) <= 1
    ensures k'.x == prev.x || k'.y == prev.y || (Abs(k'.x - prev.x) == 1 && Abs(k'.y - prev.y) == 1)
    ensures k'.y != prev.y ==> Sign(prev.y - k'.y) == yc
  {
    done', k', vis' := done, k, vis;
    while Abs(k'.x - prev.x) > 1
      invariant k'.x == prev.x || k'.y == prev.y || (Abs(k'.x - prev.x) == 1 && Abs(k'.y - prev.y) == 1)
      invariant k'.x != prev.x ==> Sign(prev.x - k'.x) == xc
      invariant k'.y != prev.y ==> Sign(prev.y - k'.y) == yc
      invariant Progress(knot, prev, record, visited, done', k', vis')
      decreases Abs(k'.x - prev.x)
    {
      done', k', vis' := Advance(knot, prev, record, visited, done', k', vis', xc, 0);
    }
  }

  /** The third loop of the last arm: straight along y until touching. */
  method FinishY(ghost knot: Pos, prev: Pos, record: bool, ghost visited: set<Pos>, ghost done: seq<Pos>,
                 k: Pos, vis: set<Pos>, yc: int)
    returns (ghost done': seq<Pos>, k': Pos, vis': set<Pos>)
    requires Progress(knot, prev, record, visited, done, k, vis) && Abs(k.x - prev.x) <= 1
    requires k.x == prev.x || k.y == prev.y || (Abs(k.x - prev.x) == 1 && Abs(k.y - prev.y) == 1)
    requires k.y != prev.y ==> Sign(prev.y - k.y) == yc
    ensures Progress(knot, prev, record, visited, done', k', vis') && Touching(k', prev)
  {
    done', k', vis' := done, k, vis;
    while Abs(k'.y - prev.y) > 1
      invariant Abs(k'.x - prev.x) <= 1
      invariant k'.x == prev.x || k'.y == prev.y || (Abs(k'.x - prev.x) == 1 && Abs(k'.y - prev.y) == 1)
      invariant k'.y != prev.y ==> Sign(prev.y - k'.y) == yc
      invariant Progress(knot, prev, record, visited, done', k', vis')
      decreases Abs(k'.y - prev.y)
    {
      done', k', vis' := Advance(knot, prev, record, visited, done', k', vis', 0, yc);
    }
  }

  /** The sample of the source's tests: a knot at the origin following (5, 4) ends at (4, 4). */
  lemma SampleFollow()
    ensures Follow(Origin, Pos(5, 4)) == Pos(4, 4)
  {
  }

  // ------------------------------------------------------------------
  // part1: a two-knot rope, the head moving a whole line at once
  // ------------------------------------------------------------------

  /**
   * The cells the tail visits over the moves, from head and tail positions and the cells visited so
   * far: after each move of the head, the tail walks its trail toward the new head.
   */
  function Run1(moves: seq<Move>, head: Pos, tail: Pos, visited: set<Pos>): (r: Result<set<Pos>>)
    ensures r.Panic? <==> exists i :: 0 <= i < |moves| && moves[i].dir !in "RLUD"
    ensures r.Ok? ==> visited <= r.value
    decreases |moves|
  {
    if moves == [] then Ok(visited)
    else
      match MoveHead(head, moves[0].dir, moves[0].steps)
      case Panic(msg) => Panic(msg)
      case Ok(h) =>
        var r := Run1(moves[1..], h, Follow(tail, h), visited + Cells(Trail(tail, h)));
        assert r.Panic? <==> exists i :: 0 <= i < |moves| && moves[i].dir !in "RLUD" by {
          if r.Panic? {
            var i :| 0 <= i < |moves| - 1 && moves[1..][i].dir !in "RLUD";
            assert moves[i + 1].dir !in "RLUD";
          } else {
            forall i | 0 <= i < |moves| ensures moves[i].dir in "RLUD" {
              if i > 0 { assert moves[i] == moves[1..][i - 1]; }
            }
          }
        }
        r
  }

  function Count(r: Result<set<Pos>>): Result<nat>
  {
    match r
    case Ok(v) => Ok(|v|)
    case Panic(msg) => Panic(msg)
  }

  /**
   * `part1`: the number of cells the tail visits, the origin included; any move with an unknown
   * direction panics.
   */
  method Part1(moves: seq<Move>) returns (r: Result<nat>)
    ensures r == Count(Run1(moves, Origin, Origin, {Origin}))
    ensures r.Panic? <==> exists i :: 0 <= i < |moves| && moves[i].dir !in "RLUD"
    ensures r.Ok? ==> r.value >= 1
  {
    ghost var total := Run1(moves, Origin, Origin, {Origin});
    var visitPos: set<Pos> := {Origin};
    var tail, head := Origin, Origin;
    for i := 0 to |moves|
      invariant Run1(moves[i..], head, tail, visitPos) == total
    {
      var next := MoveHead(head, moves[i].dir, moves[i].steps);
      if next.Panic? {
        assert moves[i..][0] == moves[i];
        return Panic(next.msg);
      }
      head := next.value;
      var _, t, v := MoveKnot(tail, head, visitPos, true);
      assert moves[i..][1..] == moves[i + 1..];
      tail, visitPos := t, v;
    }
    assert moves[|moves|..] == [];
    if total.Ok? {
      assert Origin in total.value;
    }
    return Ok(|visitPos|);
  }

  // ------------------------------------------------------------------
  // part2: ten knots, the head moving one unit at a time
  // ------------------------------------------------------------------

  /** Each knot from index i on follows the (already moved) knot before it. */
  function Pull(ks: seq<Pos>, i: nat): (r: seq<Pos>)
    requires 1 <= i <= |ks|
    ensures |r| == |ks| && r[..i] == ks[..i]
    decreases |ks| - i
  {
    if i == |ks| then ks else Pull(ks[i := Follow(ks[i], ks[i - 1])], i + 1)
  }

  /** Every knot touches the one before it. */
  predicate Taut(ks: seq<Pos>) { forall j :: 1 <= j < |ks| ==> Touching(ks[j], ks[j - 1]) }

  /** Knots that already touch their predecessors stay where they are. */
  lemma {:induction false} PullIdle(ks: seq<Pos>, i: nat)
    requires 1 <= i <= |ks| && forall j :: i <= j < |ks| ==> Touching(ks[j], ks[j - 1])
    ensures Pull(ks, i) == ks
    decreases |ks| - i
  {
    if i < |ks| {
      assert ks[i := Follow(ks[i], ks[i - 1])] == ks;
      PullIdle(ks, i + 1);
    }
  }

  /** After the pull every knot touches its predecessor. */
  lemma {:induction false} PullTaut(ks: seq<Pos>, i: nat)
    requires 1 <= i <= |ks| && forall j :: 1 <= j < i ==> Touching(ks[j], ks[j - 1])
    ensures Taut(Pull(ks, i))
    decreases |ks| - i
  {
    if i < |ks| {
      TrailEnds(ks[i], ks[i - 1]);
      PullTaut(ks[i := Follow(ks[i], ks[i - 1])], i + 1);
    }
  }

  /** One unit step of part 2: the head moves, the rope follows, and the tail's trail is recorded. */
  function UnitStep(ks: seq<Pos>, dir: char, visited: set<Pos>): (r: Result<(seq<Pos>, set<Pos>)>)
    requires |ks| == 10
    ensures r.Ok? ==> |r.value.0| == 10 && visited <= r.value.1
    ensures r.Panic? <==> dir !in "RLUD"
  {
    match MoveHead(ks[0], dir, 1)
    case Panic(msg) => Panic(msg)
    case Ok(h) =>
      var ks' := Pull(ks[0 := h], 1);
      Ok((ks', visited + Cells(Trail(ks[9], ks'[8]))))
  }

  /** n unit steps in one direction. */
  function Rope(ks: seq<Pos>, dir: char, n: nat, visited: set<Pos>): (r: Result<(seq<Pos>, set<Pos>)>)
    requires |ks| == 10
    ensures r.Ok? ==> |r.value.0| == 10 && visited <= r.value.1
    ensures r.Panic? <==> n > 0 && dir !in "RLUD"
    decreases n
  {
    if n == 0 then Ok((ks, visited))
    else
      match UnitStep(ks, dir, visited)
      case Panic(msg) => Panic(msg)
      case Ok((ks', v)) => Rope(ks', dir, n - 1, v)
  }

  /**
   * The cells the tail visits over the moves. A move with a non-positive count takes no unit step,
   * so only a move that actually steps can panic on its direction.
   */
  function Run2(moves: seq<Move>, ks: seq<Pos>, visited: set<Pos>): (r: Result<set<Pos>>)
    requires |ks| == 10
    ensures r.Ok? ==> visited <= r.value
    ensures r.Panic? <==> exists i :: 0 <= i < |moves| && moves[i].steps > 0 && moves[i].dir !in "RLUD"
    decreases |moves|
  {
    if moves == [] then Ok(visited)
    else
      var n := if moves[0].steps > 0 then moves[0].steps else 0;
      match Rope(ks, moves[0].dir, n, visited)
      case Panic(msg) => Panic(msg)
      case Ok((ks', v)) =>
        var r := Run2(moves[1..], ks', v);
        assert r.Panic? <==> exists i :: 0 <= i < |moves| && moves[i].steps > 0 && moves[i].dir !in "RLUD" by {
          if r.Panic? {
            var i :| 0 <= i < |moves| - 1 && moves[1..][i].steps > 0 && moves[1..][i].dir !in "RLUD";
            assert moves[i + 1] == moves[1..][i];
          } else {
            forall i | 0 <= i < |moves| && moves[i].steps > 0 ensures moves[i].dir in "RLUD" {
              if i > 0 { assert moves[i] == moves[1..][i - 1]; }
            }
          }
        }
        r
  }

  /**
   * The body of part 2's inner loop: the head moves one unit; knots 1..8 follow in turn until one
   * does not need to move; the tail follows (recording its cells) only if knot 8 moved.
   */
  method MoveRope(knots: seq<Pos>, dir: char, visitPos: set<Pos>) returns (r: Result<(seq<Pos>, set<Pos>)>)
    requires |knots| == 10 && Taut(knots)
    ensures r == UnitStep(knots, dir, visitPos)
    ensures r.Ok? ==> |r.value.0| == 10 && Taut(r.value.0)
  {
    var next := MoveHead(knots[0], dir, 1);
    if next.Panic? {
      return Panic(next.msg);
    }
    var ks := knots[0 := next.value];
    ghost var base, target := ks, Pull(ks, 1);
    PullTaut(base, 1);
    assert UnitStep(knots, dir, visitPos) == Ok((target, visitPos + Cells(Trail(knots[9], target[8]))));
    var needsMove := true;
    var i := 1;
    while i < 9 && needsMove
      invariant 1 <= i <= 9 && |ks| == 10
      invariant Pull(ks, i) == target
      invariant forall j :: i <= j < 10 ==> ks[j] == base[j]
      invariant !needsMove ==> ks == target
    {
      var moved, k, _ := MoveKnot(ks[i], ks[i - 1], visitPos, false);
      needsMove := moved;
      var ks' := ks[i := k];
      assert Pull(ks', i + 1) == target;
      if !needsMove {
        assert ks' == ks;
        PullIdle(ks, i + 1);
      }
      ks := ks';
      i := i + 1;
    }
    var visited := visitPos;
    assert target[8] == ks[8];
    if needsMove {
      var _, k, v := MoveKnot(ks[9], ks[8], visitPos, true);
      assert Pull(ks, 9) == ks[9 := k];
      ks, visited := ks[9 := k], v;
    } else {
      TrailEnds(ks[9], ks[8]);
      assert Trail(knots[9], ks[8]) == [];
    }
    assert ks == target;
    assert visited == visitPos + Cells(Trail(knots[9], target[8]));
    return Ok((ks, visited));
  }

  /** `part2`: the number of cells the tail of a ten-knot rope visits. */
  method Part2(moves: seq<Move>) returns (r: Result<nat>)
    ensures r == Count(Run2(moves, seq(10, _ => Origin), {Origin}))
    ensures r.Panic? <==> exists i :: 0 <= i < |moves| && moves[i].steps > 0 && moves[i].dir !in "RLUD"
    ensures r.Ok? ==> r.value >= 1
  {
    var knots := seq(10, _ => Origin);
    ghost var total := Run2(moves, knots, {Origin});
    var visitPos: set<Pos> := {Origin};
    for i := 0 to |moves|
      invariant |knots| == 10 && Taut(knots)
      invariant Run2(moves[i..], knots, visitPos) == total
    {
      var (dir, steps) := (moves[i].dir, moves[i].steps);
      var n := if steps > 0 then steps else 0;
      assert moves[i..][0] == moves[i] && moves[i..][1..] == moves[i + 1..];
      assert Run2(moves[i..], knots, visitPos) == match Rope(knots, dir, n, visitPos)
        case Panic(msg) => Panic(msg)
        case Ok((ks', v)) => Run2(moves[i + 1..], ks', v);
      for s := 0 to n
        invariant |knots| == 10 && Taut(knots)
        invariant match Rope(knots, dir, n - s, visitPos)
                  case Panic(msg) => total == Panic(msg)
                  case Ok((ks', v)) => |ks'| == 10 && Run2(moves[i + 1..], ks', v) == total
      {
        var step := MoveRope(knots, dir, visitPos);
        if step.Panic? {
          return Panic(step.msg);
        }
        knots, visitPos := step.value.0, step.value.1;
      }
    }
    assert moves[|moves|..] == [];
    if total.Ok? {
      assert Origin in total.value;
    }
    return Ok(|visitPos|);
  }

  // ------------------------------------------------------------------
  // generator
  // ------------------------------------------------------------------

  /** A line "D n": the first character of the first word and the second word read as an `i32`. */
  function ParseMove(line: string): (r: Result<Move>)
    ensures r.Ok? ==> |SplitWhitespace(line)| >= 2 && r.value.dir == SplitWhitespace(line)[0][0]
                      && ParseI32(SplitWhitespace(line)[1]) == Some(r.value.steps)
  {
    var words := SplitWhitespace(line);
    if |words| < 2 then Panic("called `Option::unwrap()` on a `None` value")
    else
      match ParseI32(words[1])
      case None => Panic("Expecting a number")
      case Some(n) => Ok(Move(words[0][0], n))
  }

  function ParseMoves(lines: seq<string>): (r: Result<seq<Move>>)
    ensures r.Ok? ==> |r.value| == |lines|
    decreases |lines|
  {
    if lines == [] then Ok([])
    else
      match ParseMove(lines[0])
      case Panic(msg) => Panic(msg)
      case Ok(m) =>
        match ParseMoves(lines[1..])
        case Panic(msg) => Panic(msg)
        case Ok(ms) => Ok([m] + ms)
  }

  function Generator(input: string): Result<seq<Move>>
  {
    ParseMoves(Lines(input))
  }

  /** A move that writes back to itself: a visible direction letter and a count in `i32` range. */
  predicate Printable(m: Move) { !IsWhitespace(m.dir) && 0 <= m.steps <= I32Max }

  function Show(m: Move): string
    requires Printable(m)
  {
    [m.dir] + " " + DigitsOf(m.steps)
  }

  lemma ParseShow(m: Move)
    requires Printable(m)
    ensures ParseMove(Show(m)) == Ok(m) && FreeOf(Show(m), {'\n'})
  {
    var digits := DigitsOf(m.steps);
    DigitsFree(m.steps, Whitespace);
    SkipWord([m.dir], ' ', digits, Whitespace);
    ValueOfDigits(m.steps);
    LastWord(digits, Whitespace);
    assert SplitWhitespace(Show(m)) == [[m.dir], digits];
    ParseSignedDigits(m.steps, I32Min, I32Max);
    DigitsFree(m.steps, {'\n'});
  }

  function ShowAll(moves: seq<Move>): (r: seq<string>)
    requires forall i :: 0 <= i < |moves| ==> Printable(moves[i])
    ensures |r| == |moves| && forall i :: 0 <= i < |moves| ==> r[i] == Show(moves[i])
  {
    seq(|moves|, i requires 0 <= i < |moves| => Show(moves[i]))
  }

  lemma {:induction false} ParseShown(moves: seq<Move>)
    requires forall i :: 0 <= i < |moves| ==> Printable(moves[i])
    ensures ParseMoves(ShowAll(moves)) == Ok(moves)
    decreases |moves|
  {
    if moves != [] {
      ParseShow(moves[0]);
      ParseShown(moves[1..]);
      assert ShowAll(moves)[1..] == ShowAll(moves[1..]);
      assert [moves[0]] + moves[1..] == moves;
    }
  }

  /** `generator` reads back every list of moves written one per line. */
  lemma GeneratorRoundTrip(moves: seq<Move>)
    requires forall i :: 0 <= i < |moves| ==> Printable(moves[i])
    ensures Generator(Unlines(ShowAll(moves))) == Ok(moves)
  {
    forall i | 0 <= i < |moves| ensures FreeOf(ShowAll(moves)[i], {'\n'}) {
      ParseShow(moves[i]);
    }
    LinesUnlines(ShowAll(moves));
    ParseShown(moves);
  }
}
