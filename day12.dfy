/**
 * Day 12: a height map of letters, and the fewest climbing steps to the summit `E`, either from the
 * start `S` or from any lowest square `a`. The search relaxes step counts backward from the summit
 * with a stack of squares still to re-examine.
 */
module Day12 {
  import opened Wrappers
  import opened Text
  import opened Arith

  const NoneUnwrapped := "called `Option::unwrap()` on a `None` value"

  /** `u32::MAX`: the step count of a square the search has not reached. */
  const Unreached: nat := 0xFFFF_FFFF

  datatype Pos = Pos(x: nat, y: nat)

  datatype ElevationMap = ElevationMap(grid: seq<seq<char>>, start: Pos, end: Pos, width: nat, height: nat)

  // ------------------------------------------------------------------
  // the map
  // ------------------------------------------------------------------

  /** The elevation letter drawn for a square: `S` is at elevation a, `E` at elevation z. */
  function Level(c: char): (r: char)
    ensures c == 'S' ==> r == 'a'
    ensures c == 'E' ==> r == 'z'
    ensures c != 'S' && c != 'E' ==> r == c
  {
    if c == 'S' then 'a' else if c == 'E' then 'z' else c
  }

  /** The rows of the map as drawn, with `S` and `E` replaced by their elevations. */
  function Levels(lines: seq<string>): seq<seq<char>>
  {
    seq(|lines|, y requires 0 <= y < |lines| => seq(|lines[y]|, x requires 0 <= x < |lines[y]| => Level(lines[y][x])))
  }

  predicate At(lines: seq<string>, p: Pos, c: char)
  {
    p.y < |lines| && p.x < |lines[p.y]| && lines[p.y][p.x] == c
  }

  /** p comes strictly after q in reading order. */
  predicate After(p: Pos, q: Pos)
  {
    p.y > q.y || (p.y == q.y && p.x > q.x)
  }

  ghost predicate Holds(lines: seq<string>, c: char)
  {
    exists q :: At(lines, q, c)
  }

  /** p is the last square in reading order that shows c. */
  ghost predicate LastAt(lines: seq<string>, p: Pos, c: char)
  {
    At(lines, p, c) && forall q :: At(lines, q, c) ==> !After(q, p)
  }

  /** q is read before column x of row y. */
  predicate ReadBefore(q: Pos, y: nat, x: nat)
  {
    q.y < y || (q.y == y && q.x < x)
  }

  /** `o` is the last square showing c that is read before column x of row y, if there is one. */
  ghost predicate Tracked(lines: seq<string>, c: char, y: nat, x: nat, o: Option<Pos>)
  {
    (forall q :: At(lines, q, c) && ReadBefore(q, y, x) ==> o.Some? && !After(q, o.value))
    && (o.Some? ==> At(lines, o.value, c) && ReadBefore(o.value, y, x))
  }

  /** m is the map drawn by the lines. */
  ghost predicate Built(lines: seq<string>, m: ElevationMap)
  {
    |lines| > 0 && m.grid == Levels(lines) && m.height == |lines| && m.width == |lines[0]|
    && LastAt(lines, m.start, 'S') && LastAt(lines, m.end, 'E')
  }

  predicate InGrid(m: ElevationMap, p: Pos)
  {
    p.x < m.width && p.y < m.height
  }

  predicate Rectangular(m: ElevationMap)
  {
    |m.grid| == m.height && forall y :: 0 <= y < |m.grid| ==> |m.grid[y]| == m.width
  }

  /** A map the search can run on: rectangular, with start and summit on it and the summit at z. */
  predicate Valid(m: ElevationMap)
  {
    Rectangular(m) && InGrid(m, m.start) && InGrid(m, m.end)
    && m.grid[m.start.y][m.start.x] == 'a' && m.grid[m.end.y][m.end.x] == 'z'
  }

  /** The elevation at p (NUL off the map). */
  function Square(m: ElevationMap, p: Pos): char
  {
    if p.y < |m.grid| && p.x < |m.grid[p.y]| then m.grid[p.y][p.x] else '\0'
  }

  /** The columns of one row, with the last `S` and `E` of the rows read so far updated. */
  method ScanRow(lines: seq<string>, y: nat, start: Option<Pos>, end: Option<Pos>)
    returns (row: seq<char>, start': Option<Pos>, end': Option<Pos>)
    requires y < |lines|
    requires Tracked(lines, 'S', y, 0, start) && Tracked(lines, 'E', y, 0, end)
    ensures row == Levels(lines)[y]
    ensures Tracked(lines, 'S', y + 1, 0, start') && Tracked(lines, 'E', y + 1, 0, end')
  {
    var line := lines[y];
    row, start', end' := [], start, end;
    for x := 0 to |line|
      invariant row == Levels(lines)[y][..x]
      invariant Tracked(lines, 'S', y, x, start') && Tracked(lines, 'E', y, x, end')
    {
      var c := line[x];
      if c == 'S' {
        start' := Some(Pos(x, y));
      } else if c == 'E' {
        end' := Some(Pos(x, y));
      }
      row := row + [Level(c)];
    }
    assert row == Levels(lines)[y];
  }

  /**
   * `ElevationMap::new`: the rows of the input, the last `S` as start and the last `E` as summit.
   * It panics on an input without lines, without `S` or without `E`.
   */
  method New(input: string) returns (r: Result<ElevationMap>)
    ensures r.Panic? <==> |Lines(input)| == 0 || !Holds(Lines(input), 'S') || !Holds(Lines(input), 'E')
    ensures r.Panic? ==> r.msg == NoneUnwrapped
    ensures r.Ok? ==> Built(Lines(input), r.value)
    ensures (r.Ok? && forall y :: 0 <= y < |Lines(input)| ==> |Lines(input)[y]| == |Lines(input)[0]|)
            ==> Valid(r.value)
  {
    var lines := Lines(input);
    var rows: seq<seq<char>> := [];
    var start: Option<Pos> := None;
    var end: Option<Pos> := None;
    for y := 0 to |lines|
      invariant rows == Levels(lines)[..y]
      invariant Tracked(lines, 'S', y, 0, start) && Tracked(lines, 'E', y, 0, end)
    {
      var row;
      row, start, end := ScanRow(lines, y, start, end);
      rows := rows + [row];
    }
    assert rows == Levels(lines);
    TrackedAll(lines, 'S', start);
    TrackedAll(lines, 'E', end);
    if |rows| == 0 {
      return Panic(NoneUnwrapped);
    }
    if start.None? || end.None? {
      return Panic(NoneUnwrapped);
    }
    r := Ok(ElevationMap(rows, start.value, end.value, |rows[0]|, |rows|));
    if forall y :: 0 <= y < |lines| ==> |lines[y]| == |lines[0]| {
      BuiltValid(lines, r.value);
    }
  }

  /** After the last row, the tracked square is the last one showing c, and there is one if c shows. */
  lemma TrackedAll(lines: seq<string>, c: char, o: Option<Pos>)
    requires Tracked(lines, c, |lines|, 0, o)
    ensures o.Some? <==> Holds(lines, c)
    ensures o.Some? ==> LastAt(lines, o.value, c)
  {
    if Holds(lines, c) {
      var q :| At(lines, q, c);
      assert ReadBefore(q, |lines|, 0);
    }
  }

  /** A map built from lines of equal length is one the search can run on. */
  lemma BuiltValid(lines: seq<string>, m: ElevationMap)
    requires Built(lines, m)
    requires forall y :: 0 <= y < |lines| ==> |lines[y]| == |lines[0]|
    ensures Valid(m)
  {
    assert m.grid[m.start.y][m.start.x] == Level(lines[m.start.y][m.start.x]);
    assert m.grid[m.end.y][m.end.x] == Level(lines[m.end.y][m.end.x]);
  }

  // ------------------------------------------------------------------
  // neighbours and routes
  // ------------------------------------------------------------------

  predicate Adjacent(p: Pos, q: Pos)
  {
    Abs(p.x - q.x) + Abs(p.y - q.y) == 1
  }

  /** Where q lies from an adjacent p: 0 left, 1 right, 2 up, 3 down. */
  function Side(p: Pos, q: Pos): nat
  {
    if q.x < p.x then 0 else if q.x > p.x then 1 else if q.y < p.y then 2 else 3
  }

  /** `neighbors`: the squares next to p on the map, in the order left, right, up, down. */
  method Neighbors(m: ElevationMap, p: Pos) returns (r: seq<Pos>)
    ensures forall i :: 0 <= i < |r| ==> Adjacent(p, r[i])
    ensures InGrid(m, p) ==> forall q :: q in r <==> InGrid(m, q) && Adjacent(p, q)
    ensures forall i, j :: 0 <= i < j < |r| ==> Side(p, r[i]) < Side(p, r[j])
  {
    r := [];
    if p.x > 0 {
      r := r + [Pos(p.x - 1, p.y)];
    }
    GatherLeft(m, p, r);
    ghost var r1 := r;
    if p.x + 1 < m.width {
      r := r + [Pos(p.x + 1, p.y)];
    }
    GatherRight(m, p, r1, r);
    ghost var r2 := r;
    if p.y > 0 {
      r := r + [Pos(p.x, p.y - 1)];
    }
    GatherUp(m, p, r2, r);
    ghost var r3 := r;
    if p.y + 1 < m.height {
      r := r + [Pos(p.x, p.y + 1)];
    }
    GatherDown(m, p, r3, r);
  }

  /**
   * r holds, in side order, the squares next to p on sides below s (those on the map, when p is on
   * the map).
   */
  ghost predicate Gathered(m: ElevationMap, p: Pos, r: seq<Pos>, s: nat)
  {
    (forall i :: 0 <= i < |r| ==> Adjacent(p, r[i]) && Side(p, r[i]) < s)
    && (forall i, j :: 0 <= i < j < |r| ==> Side(p, r[i]) < Side(p, r[j]))
    && (InGrid(m, p) ==> forall q :: q in r <==> InGrid(m, q) && Adjacent(p, q) && Side(p, q) < s)
  }

  lemma GatherLeft(m: ElevationMap, p: Pos, r: seq<Pos>)
    requires r == if p.x > 0 then [Pos(p.x - 1, p.y)] else []
    ensures Gathered(m, p, r, 1)
  {
  }

  lemma GatherRight(m: ElevationMap, p: Pos, r: seq<Pos>, r': seq<Pos>)
    requires Gathered(m, p, r, 1)
    requires r' == if p.x + 1 < m.width then r + [Pos(p.x + 1, p.y)] else r
    ensures Gathered(m, p, r', 2)
  {
  }

  lemma GatherUp(m: ElevationMap, p: Pos, r: seq<Pos>, r': seq<Pos>)
    requires Gathered(m, p, r, 2)
    requires r' == if p.y > 0 then r + [Pos(p.x, p.y - 1)] else r
    ensures Gathered(m, p, r', 3)
  {
  }

  lemma GatherDown(m: ElevationMap, p: Pos, r: seq<Pos>, r': seq<Pos>)
    requires Gathered(m, p, r, 3)
    requires r' == if p.y + 1 < m.height then r + [Pos(p.x, p.y + 1)] else r
    ensures Gathered(m, p, r', 4)
  {
  }

  /** One climbing step from a to b: adjacent squares, and b at most one letter higher than a. */
  predicate Climb(m: ElevationMap, a: Pos, b: Pos)
  {
    InGrid(m, a) && InGrid(m, b) && Adjacent(a, b) && Square(m, b) as int <= Square(m, a) as int + 1
  }

  /** A climbing route from `from` to the summit. */
  predicate IsRoute(m: ElevationMap, ps: seq<Pos>, from: Pos)
  {
    |ps| >= 1 && ps[0] == from && ps[|ps| - 1] == m.end
    && forall i :: 0 <= i < |ps| - 1 ==> Climb(m, ps[i], ps[i + 1])
  }

  /** The summit can be reached from p in k steps. */
  ghost predicate Reach(m: ElevationMap, p: Pos, k: nat)
  {
    exists ps :: IsRoute(m, ps, p) && |ps| == k + 1
  }

  lemma ExtendReach(m: ElevationMap, n: Pos, c: Pos, k: nat)
    requires Climb(m, n, c) && Reach(m, c, k)
    ensures Reach(m, n, k + 1)
  {
    var ps :| IsRoute(m, ps, c) && |ps| == k + 1;
    var qs := [n] + ps;
    assert forall i :: 1 <= i < |qs| - 1 ==> qs[i] == ps[i - 1] && qs[i + 1] == ps[i];
    assert IsRoute(m, qs, n);
  }

  /** r is the fewest steps from `from` to the summit, or `Unreached` when there is no route. */
  ghost predicate Fewest(m: ElevationMap, from: Pos, r: nat)
  {
    (r != Unreached ==> Reach(m, from, r))
    && forall ps :: IsRoute(m, ps, from) ==> r <= |ps| - 1
  }

  predicate IsLow(m: ElevationMap, p: Pos)
  {
    InGrid(m, p) && Square(m, p) == 'a'
  }

  /** r is the fewest steps to the summit from any square at elevation a. */
  ghost predicate FewestFromLow(m: ElevationMap, r: nat)
  {
    (r != Unreached ==> exists p :: IsLow(m, p) && Reach(m, p, r))
    && forall p, ps :: IsLow(m, p) && IsRoute(m, ps, p) ==> r <= |ps| - 1
  }

  // ------------------------------------------------------------------
  // the step-count table
  // ------------------------------------------------------------------

  /** The table's entry at p (`Unreached` off the table). */
  function Get(ms: seq<seq<nat>>, p: Pos): nat
  {
    if p.y < |ms| && p.x < |ms[p.y]| then ms[p.y][p.x] else Unreached
  }

  function Set(ms: seq<seq<nat>>, p: Pos, v: nat): (r: seq<seq<nat>>)
    requires p.y < |ms| && p.x < |ms[p.y]|
    ensures |r| == |ms| && forall y :: 0 <= y < |ms| ==> |r[y]| == |ms[y]|
    ensures forall q :: Get(r, q) == if q == p then v else Get(ms, q)
  {
    var row: seq<nat> := ms[p.y][p.x := v];
    ms[p.y := row]
  }

  predicate Shaped(m: ElevationMap, ms: seq<seq<nat>>)
  {
    |ms| == m.height && forall y :: 0 <= y < |ms| ==> |ms[y]| == m.width
  }

  function RowSum(row: seq<nat>): nat
  {
    if row == [] then 0 else RowSum(row[..|row| - 1]) + row[|row| - 1]
  }

  /** The sum of all entries: every improvement lowers it, so the search ends. */
  function Total(ms: seq<seq<nat>>): nat
  {
    if ms == [] then 0 else Total(ms[..|ms| - 1]) + RowSum(ms[|ms| - 1])
  }

  lemma {:induction false} RowSumUpdate(row: seq<nat>, x: nat, v: nat)
    requires x < |row|
    ensures RowSum(row[x := v]) == RowSum(row) - row[x] + v
    decreases |row|
  {
    var last := |row| - 1;
    if x < last {
      RowSumUpdate(row[..last], x, v);
      assert row[x := v][..last] == row[..last][x := v];
    } else {
      assert row[x := v][..last] == row[..last];
    }
  }

  lemma {:induction false} TotalUpdate(ms: seq<seq<nat>>, y: nat, row: seq<nat>)
    requires y < |ms|
    ensures Total(ms[y := row]) == Total(ms) - RowSum(ms[y]) + RowSum(row)
    decreases |ms|
  {
    var last := |ms| - 1;
    if y < last {
      TotalUpdate(ms[..last], y, row);
      assert ms[y := row][..last] == ms[..last][y := row];
    } else {
      assert ms[y := row][..last] == ms[..last];
    }
  }

  lemma Lowered(ms: seq<seq<nat>>, p: Pos, v: nat)
    requires p.y < |ms| && p.x < |ms[p.y]| && v < Get(ms, p)
    ensures Total(Set(ms, p, v)) < Total(ms)
  {
    var row: seq<nat> := ms[p.y][p.x := v];
    RowSumUpdate(ms[p.y], p.x, v);
    TotalUpdate(ms, p.y, row);
  }

  // ------------------------------------------------------------------
  // the search
  // ------------------------------------------------------------------

  /** Every entry that is not `Unreached` is the length of a real route. */
  ghost predicate Sound(m: ElevationMap, ms: seq<seq<nat>>)
  {
    forall p :: InGrid(m, p) && Get(ms, p) != Unreached ==> Reach(m, p, Get(ms, p))
  }

  /** No square that can climb to c in one step needs more than one step beyond c. */
  ghost predicate Settled(m: ElevationMap, ms: seq<seq<nat>>, c: Pos)
  {
    forall n :: Climb(m, n, c) ==> Get(ms, n) <= Get(ms, c) + 1
  }

  /** Every reached square not waiting on the stack is settled. */
  ghost predicate Consistent(m: ElevationMap, ms: seq<seq<nat>>, stack: seq<Pos>)
  {
    forall c :: InGrid(m, c) && Get(ms, c) != Unreached && c !in stack ==> Settled(m, ms, c)
  }

  /** `best` is the least entry over the squares at elevation a. */
  ghost predicate BestOf(m: ElevationMap, ms: seq<seq<nat>>, best: nat)
  {
    (forall p :: IsLow(m, p) ==> best <= Get(ms, p))
    && (best != Unreached ==> exists p :: IsLow(m, p) && Get(ms, p) == best)
  }

  ghost predicate Inv(m: ElevationMap, ms: seq<seq<nat>>, stack: seq<Pos>, best: nat)
  {
    Shaped(m, ms) && Get(ms, m.end) == 0 && best <= Unreached
    && (forall p :: Get(ms, p) <= Unreached)
    && (forall i :: 0 <= i < |stack| ==> InGrid(m, stack[i]) && Get(ms, stack[i]) != Unreached)
    && Sound(m, ms) && Consistent(m, ms, stack) && BestOf(m, ms, best)
  }

  /** Inv while c is being expanded: c itself need not be settled yet. */
  ghost predicate Expanding(m: ElevationMap, ms: seq<seq<nat>>, stack: seq<Pos>, best: nat, c: Pos)
  {
    Shaped(m, ms) && Get(ms, m.end) == 0 && best <= Unreached
    && (forall p :: Get(ms, p) <= Unreached)
    && (forall i :: 0 <= i < |stack| ==> InGrid(m, stack[i]) && Get(ms, stack[i]) != Unreached)
    && Sound(m, ms) && BestOf(m, ms, best)
    && forall q :: InGrid(m, q) && Get(ms, q) != Unreached && q !in stack && q != c ==> Settled(m, ms, q)
  }

  /**
   * One neighbour n of the popped square c: unless n is more than one letter below c or already
   * needs no more than `nextSteps`, its count becomes `nextSteps` and it is pushed.
   */
  method Offer(m: ElevationMap, ms: seq<seq<nat>>, stack: seq<Pos>, best: nat, c: Pos, n: Pos, nextSteps: nat)
    returns (ms': seq<seq<nat>>, stack': seq<Pos>, best': nat)
    requires Valid(m) && Expanding(m, ms, stack, best, c)
    requires InGrid(m, c) && InGrid(m, n) && Adjacent(c, n) && Get(ms, c) + 1 == nextSteps <= Unreached
    ensures Expanding(m, ms', stack', best', c) && Get(ms', c) == Get(ms, c)
    ensures Climb(m, n, c) ==> Get(ms', n) <= nextSteps
    ensures forall p :: Get(ms', p) <= Get(ms, p)
    ensures Total(ms') <= Total(ms) && (Total(ms') == Total(ms) ==> stack' == stack)
  {
    ms', stack', best' := ms, stack, best;
    var minElevation := m.grid[c.y][c.x] as int - 1;
    if m.grid[n.y][n.x] as int < minElevation || Get(ms, n) <= nextSteps {
      return;
    }
    assert Climb(m, n, c);
    ExtendReach(m, n, c, nextSteps - 1);
    Lowered(ms, n, nextSteps);
    ms' := Set(ms, n, nextSteps);
    stack' := stack + [n];
    if m.grid[n.y][n.x] == 'a' {
      best' := if best < nextSteps then best else nextSteps;
    }
    OfferKeeps(m, ms, stack, best, c, n, nextSteps, best');
  }

  /** Lowering n's count to v, a number of steps that reaches the summit, and pushing n keeps the search's invariant. */
  lemma OfferKeeps(m: ElevationMap, ms: seq<seq<nat>>, stack: seq<Pos>, best: nat, c: Pos, n: Pos, v: nat, best': nat)
    requires Valid(m) && Expanding(m, ms, stack, best, c) && InGrid(m, n) && n != c
    requires Reach(m, n, v) && v < Get(ms, n) && n.y < |ms| && n.x < |ms[n.y]|
    requires best' == if Square(m, n) == 'a' then (if best < v then best else v) else best
    ensures Expanding(m, Set(ms, n, v), stack + [n], best', c)
  {
    var ms' := Set(ms, n, v);
    SoundSet(m, ms, n, v);
    BestOfSet(m, ms, n, v, best, best');
    SettledSet(m, ms, stack, c, n, v);
    assert forall i :: 0 <= i < |stack + [n]| ==> InGrid(m, (stack + [n])[i]) && Get(ms', (stack + [n])[i]) != Unreached;
  }

  /** Lowering n's entry and pushing n keeps settled every square that was settled, apart from c. */
  lemma SettledSet(m: ElevationMap, ms: seq<seq<nat>>, stack: seq<Pos>, c: Pos, n: Pos, v: nat)
    requires n.y < |ms| && n.x < |ms[n.y]| && v < Get(ms, n)
    requires forall q :: InGrid(m, q) && Get(ms, q) != Unreached && q !in stack && q != c ==> Settled(m, ms, q)
    ensures forall q :: InGrid(m, q) && Get(Set(ms, n, v), q) != Unreached && q !in stack + [n] && q != c
                        ==> Settled(m, Set(ms, n, v), q)
  {
    var ms' := Set(ms, n, v);
    forall q | InGrid(m, q) && Get(ms', q) != Unreached && q !in stack + [n] && q != c
      ensures Settled(m, ms', q)
    {
      assert q != n && Get(ms', q) == Get(ms, q);
      assert Settled(m, ms, q);
    }
  }

  /** Lowering an entry to a number of steps that reaches the summit keeps every entry sound. */
  lemma SoundSet(m: ElevationMap, ms: seq<seq<nat>>, n: Pos, v: nat)
    requires Sound(m, ms) && Reach(m, n, v) && n.y < |ms| && n.x < |ms[n.y]|
    ensures Sound(m, Set(ms, n, v))
  {
    var ms' := Set(ms, n, v);
    forall p | InGrid(m, p) && Get(ms', p) != Unreached ensures Reach(m, p, Get(ms', p)) {
      if p != n {
        assert Get(ms', p) == Get(ms, p);
      }
    }
  }

  /** Lowering n's entry to v lowers the best over the squares at a to v when n is one of them. */
  lemma BestOfSet(m: ElevationMap, ms: seq<seq<nat>>, n: Pos, v: nat, best: nat, best': nat)
    requires BestOf(m, ms, best) && v < Get(ms, n) && n.y < |ms| && n.x < |ms[n.y]|
    requires best' == if Square(m, n) == 'a' then (if best < v then best else v) else best
    requires InGrid(m, n)
    ensures BestOf(m, Set(ms, n, v), best')
  {
    var ms' := Set(ms, n, v);
    forall p | IsLow(m, p) ensures best' <= Get(ms', p) {
      if p != n {
        assert Get(ms', p) == Get(ms, p);
      }
    }
    if best' != Unreached {
      if IsLow(m, n) && best' == v {
        assert Get(ms', n) == v;
      } else {
        var p :| IsLow(m, p) && Get(ms, p) == best;
        assert p != n;
        assert Get(ms', p) == best';
      }
    }
  }

  /**
   * The body of the search loop: pop a square c and offer one step more than c's count to each of
   * its neighbours in turn. Afterwards c is settled, and the counts only went down.
   */
  method Relax(m: ElevationMap, ms: seq<seq<nat>>, stack: seq<Pos>, best: nat)
    returns (ms': seq<seq<nat>>, stack': seq<Pos>, best': nat)
    requires Valid(m) && Inv(m, ms, stack, best) && |stack| > 0
    ensures Inv(m, ms', stack', best')
    ensures forall p :: Get(ms', p) <= Get(ms, p)
    ensures Total(ms') < Total(ms) || (Total(ms') == Total(ms) && |stack'| < |stack|)
  {
    var c := stack[|stack| - 1];
    var popped := stack[..|stack| - 1];
    var nextSteps := ms[c.y][c.x] + 1;
    assert nextSteps == Get(ms, c) + 1;
    var nbs := Neighbors(m, c);
    Pop(m, ms, stack, best);
    ms', stack', best' := OfferAll(m, ms, popped, best, c, nbs, nextSteps);
    SettleExpanded(m, ms', stack', best', c, nbs);
  }

  /** The `for` loop over the neighbours of the popped square c: each is offered one step more than c's count. */
  method OfferAll(m: ElevationMap, ms: seq<seq<nat>>, stack: seq<Pos>, best: nat, c: Pos, nbs: seq<Pos>, nextSteps: nat)
    returns (ms': seq<seq<nat>>, stack': seq<Pos>, best': nat)
    requires Valid(m) && Expanding(m, ms, stack, best, c) && InGrid(m, c)
    requires Get(ms, c) + 1 == nextSteps <= Unreached
    requires forall j :: 0 <= j < |nbs| ==> InGrid(m, nbs[j]) && Adjacent(c, nbs[j])
    ensures Expanding(m, ms', stack', best', c) && Get(ms', c) == Get(ms, c)
    ensures forall j :: 0 <= j < |nbs| ==> Climb(m, nbs[j], c) ==> Get(ms', nbs[j]) <= nextSteps
    ensures forall p :: Get(ms', p) <= Get(ms, p)
    ensures Total(ms') <= Total(ms) && (Total(ms') == Total(ms) ==> stack' == stack)
  {
    ms', stack', best' := ms, stack, best;
    for i := 0 to |nbs|
      invariant Expanding(m, ms', stack', best', c) && Get(ms', c) == Get(ms, c)
      invariant forall p :: Get(ms', p) <= Get(ms, p)
      invariant forall j :: 0 <= j < i ==> Climb(m, nbs[j], c) ==> Get(ms', nbs[j]) <= nextSteps
      invariant Total(ms') <= Total(ms) && (Total(ms') == Total(ms) ==> stack' == stack)
    {
      ghost var prev := ms';
      ms', stack', best' := Offer(m, ms', stack', best', c, nbs[i], nextSteps);
      OfferedStay(m, prev, ms', c, nbs, i, nextSteps);
    }
  }

  /** Counts only go down, so the neighbours already offered stay within one step of c. */
  lemma OfferedStay(m: ElevationMap, prev: seq<seq<nat>>, ms: seq<seq<nat>>, c: Pos, nbs: seq<Pos>, i: nat, nextSteps: nat)
    requires i < |nbs| && forall p :: Get(ms, p) <= Get(prev, p)
    requires forall j :: 0 <= j < i ==> Climb(m, nbs[j], c) ==> Get(prev, nbs[j]) <= nextSteps
    requires Climb(m, nbs[i], c) ==> Get(ms, nbs[i]) <= nextSteps
    ensures forall j :: 0 <= j < i + 1 ==> Climb(m, nbs[j], c) ==> Get(ms, nbs[j]) <= nextSteps
  {
    forall j | 0 <= j < i + 1 && Climb(m, nbs[j], c) ensures Get(ms, nbs[j]) <= nextSteps {
      if j < i {
        assert Get(ms, nbs[j]) <= Get(prev, nbs[j]);
      }
    }
  }

  /** Popping a square from the stack leaves it the only one that may be unsettled. */
  lemma Pop(m: ElevationMap, ms: seq<seq<nat>>, stack: seq<Pos>, best: nat)
    requires Inv(m, ms, stack, best) && |stack| > 0
    ensures Expanding(m, ms, stack[..|stack| - 1], best, stack[|stack| - 1])
    ensures InGrid(m, stack[|stack| - 1]) && Get(ms, stack[|stack| - 1]) < Unreached
  {
    var c := stack[|stack| - 1];
    var rest := stack[..|stack| - 1];
    forall q | InGrid(m, q) && Get(ms, q) != Unreached && q !in rest && q != c
      ensures Settled(m, ms, q)
    {
      assert q !in stack;
    }
  }

  /** Once every neighbour has been offered a step, the popped square is settled too. */
  lemma SettleExpanded(m: ElevationMap, ms: seq<seq<nat>>, stack: seq<Pos>, best: nat, c: Pos, nbs: seq<Pos>)
    requires Expanding(m, ms, stack, best, c) && InGrid(m, c)
    requires forall q :: q in nbs <==> InGrid(m, q) && Adjacent(c, q)
    requires forall j :: 0 <= j < |nbs| ==> Climb(m, nbs[j], c) ==> Get(ms, nbs[j]) <= Get(ms, c) + 1
    ensures Inv(m, ms, stack, best)
  {
    assert Settled(m, ms, c) by {
      forall n | Climb(m, n, c) ensures Get(ms, n) <= Get(ms, c) + 1 {
        assert n in nbs;
      }
    }
  }

  /**
   * `compute_steps`: the fewest steps from the start to the summit, or with `best` the fewest from
   * any square at elevation a, and `Unreached` when no such route exists.
   */
  method ComputeSteps(m: ElevationMap, best: bool) returns (r: nat)
    requires Valid(m)
    ensures !best ==> Fewest(m, m.start, r)
    ensures best ==> FewestFromLow(m, r)
  {
    var row: seq<nat> := seq(m.width, _ => Unreached);
    var ms: seq<seq<nat>> := seq(m.height, _ => row);
    ms := Set(ms, m.end, 0);
    var stack := [m.end];
    var bestStartSteps := Unreached;
    Initial(m, ms);
    while |stack| > 0
      invariant Inv(m, ms, stack, bestStartSteps)
      decreases Total(ms), |stack|
    {
      ms, stack, bestStartSteps := Relax(m, ms, stack, bestStartSteps);
    }
    if best {
      r := bestStartSteps;
      FewestFromLowAtEnd(m, ms, r);
    } else {
      r := ms[m.start.y][m.start.x];
      assert r == Get(ms, m.start);
      FewestAtEnd(m, ms, bestStartSteps);
    }
  }

  /** The table the search starts from: only the summit reached, in no steps, and waiting on the stack. */
  lemma Initial(m: ElevationMap, ms: seq<seq<nat>>)
    requires Valid(m)
    requires ms == Set(seq(m.height, _ => seq(m.width, _ => Unreached)), m.end, 0)
    ensures Inv(m, ms, [m.end], Unreached)
  {
    var blank: seq<seq<nat>> := seq(m.height, _ => seq(m.width, _ => Unreached));
    assert forall p :: Get(blank, p) == Unreached;
    assert IsRoute(m, [m.end], m.end);
  }

  /** With the stack empty, the start's entry is its fewest steps. */
  lemma FewestAtEnd(m: ElevationMap, ms: seq<seq<nat>>, best: nat)
    requires Valid(m) && Inv(m, ms, [], best)
    ensures Fewest(m, m.start, Get(ms, m.start))
  {
    forall ps | IsRoute(m, ps, m.start) ensures Get(ms, m.start) <= |ps| - 1 {
      RouteBound(m, ms, ps, 0);
    }
  }

  /** With the stack empty, the least entry over the squares at elevation a is their fewest steps. */
  lemma FewestFromLowAtEnd(m: ElevationMap, ms: seq<seq<nat>>, best: nat)
    requires Valid(m) && Inv(m, ms, [], best)
    ensures FewestFromLow(m, best)
  {
    forall p, ps | IsLow(m, p) && IsRoute(m, ps, p) ensures best <= |ps| - 1 {
      RouteBound(m, ms, ps, 0);
    }
  }

  /** Once the stack is empty, no entry on a route exceeds the steps left along that route. */
  lemma {:induction false} RouteBound(m: ElevationMap, ms: seq<seq<nat>>, ps: seq<Pos>, i: nat)
    requires Get(ms, m.end) == 0 && (forall p :: Get(ms, p) <= Unreached) && Consistent(m, ms, [])
    requires |ps| >= 1 && IsRoute(m, ps, ps[0]) && i < |ps|
    ensures Get(ms, ps[i]) <= |ps| - 1 - i
    decreases |ps| - i
  {
    if i < |ps| - 1 {
      RouteBound(m, ms, ps, i + 1);
      assert Climb(m, ps[i], ps[i + 1]);
      if Get(ms, ps[i + 1]) != Unreached {
        assert Settled(m, ms, ps[i + 1]);
      }
    }
  }

  /** Part 1: the fewest steps from the start to the summit. */
  method Part1(m: ElevationMap) returns (r: nat)
    requires Valid(m)
    ensures Fewest(m, m.start, r)
  {
    r := ComputeSteps(m, false);
  }

  /** Part 2: the fewest steps to the summit from any square at elevation a. */
  method Part2(m: ElevationMap) returns (r: nat)
    requires Valid(m)
    ensures FewestFromLow(m, r)
  {
    r := ComputeSteps(m, true);
  }
}
