/**
 * Day 24 (Blizzard Basin): a walled valley full of blizzards that move one cell a minute and wrap
 * round at the walls. The expedition moves to a neighbouring cell or waits each minute, never
 * sharing a cell with a blizzard; a breadth-first search over (position, minute) finds the
 * earliest arrival. Part 2 crosses the valley, goes back for the snacks, and crosses again.
 */
module Day24 {
  import opened Wrappers
  import opened Text
  import opened Arith

  /** A cell: column x, row y; row 0 is the top wall. */
  datatype XY = XY(x: int, y: int)
  {
    function Add(dx: int, dy: int): XY { XY(x + dx, y + dy) }
  }

  /** The map as read, the interior's size, the gap in the top wall and the gap in the bottom wall. */
  datatype Valley = Valley(grid: seq<seq<char>>, width: int, height: int, start: XY, end: XY)

  /** What the generator guarantees of a valley: the walls frame a width x height interior. */
  predicate Shaped(v: Valley)
  {
    && v.width >= 0 && v.height >= 0 && |v.grid| == v.height + 2
    && forall y :: 0 <= y < |v.grid| ==> |v.grid[y]| == v.width + 2
  }

  /** The interior: columns 1..width and rows 1..height. */
  predicate Inside(v: Valley, x: int, y: int)
  {
    0 < x <= v.width && 0 < y <= v.height
  }

  /** The first position of `c` in `row`. */
  function FirstIndex(row: seq<char>, c: char): (r: Option<nat>)
    ensures r.None? <==> c !in row
    ensures r.Some? ==> r.value < |row| && row[r.value] == c && c !in row[..r.value]
  {
    if row == [] then None
    else if row[0] == c then Some(0)
    else
      var r := FirstIndex(row[1..], c);
      if r.None? then None
      else
        assert row[..r.value + 1] == [row[0]] + row[1..][..r.value];
        Some(r.value + 1)
  }

  /** Row `y` has the valley's width and no '^' or 'v' in the columns of the two gaps. */
  predicate RowFits(row: seq<char>, width: nat, startX: nat, endX: nat)
  {
    && |row| == width && startX < width && endX < width
    && row[startX] != '^' && row[startX] != 'v' && row[endX] != '^' && row[endX] != 'v'
  }

  /** The grids the generator accepts: two rows and two columns at least, a gap at the top and the bottom, no ragged row, and no vertical blizzard that could blow into a gap. */
  predicate Admissible(grid: seq<seq<char>>)
  {
    && |grid| >= 2 && |grid[0]| >= 2
    && '.' in grid[0] && '.' in grid[|grid| - 1]
    && var sx := FirstIndex(grid[0], '.').value;
    && var ex := FirstIndex(grid[|grid| - 1], '.').value;
    && forall y :: 0 <= y < |grid| ==> RowFits(grid[y], |grid[0]|, sx, ex)
  }

  /** The valley the generator builds from an admissible grid. */
  function ValleyOf(grid: seq<seq<char>>): (v: Valley)
    requires Admissible(grid)
    ensures Shaped(v) && v.grid == grid
    ensures v.width == |grid[0]| - 2 && v.height == |grid| - 2
    ensures v.start == XY(FirstIndex(grid[0], '.').value, 0)
    ensures v.end == XY(FirstIndex(grid[|grid| - 1], '.').value, |grid| - 1)
  {
    var sx := FirstIndex(grid[0], '.').value;
    var ex := FirstIndex(grid[|grid| - 1], '.').value;
    assert forall y :: 0 <= y < |grid| ==> RowFits(grid[y], |grid[0]|, sx, ex);
    Valley(grid, |grid[0]| - 2, |grid| - 2, XY(sx, 0), XY(ex, |grid| - 1))
  }

  /** generator on the lines of the input: every way the grid can fail to be a valley panics. */
  method FromGrid(grid: seq<seq<char>>) returns (r: Result<Valley>)
    ensures r.Ok? <==> Admissible(grid)
    ensures r.Ok? ==> Admissible(grid) && r.value == ValleyOf(grid)
  {
    if grid == [] {
      return Panic("called `Option::unwrap()` on a `None` value");
    }
    var first := FirstIndex(grid[0], '.');
    var last := FirstIndex(grid[|grid| - 1], '.');
    if first.None? || last.None? {
      return Panic("called `Option::unwrap()` on a `None` value");
    }
    var startX, endX, width := first.value, last.value, |grid[0]|;
    for y := 0 to |grid|
      invariant forall k :: 0 <= k < y ==> RowFits(grid[k], width, startX, endX)
    {
      if |grid[y]| != width {
        return Panic("Unexpected. The width did not match");
      }
      if endX >= width {
        return Panic("index out of bounds");
      }
      if grid[y][startX] == '^' || grid[y][startX] == 'v' || grid[y][endX] == '^' || grid[y][endX] == 'v' {
        return Panic("Unexpected, cannot have up/down wind at the start or end column");
      }
    }
    if width < 2 || |grid| < 2 {
      return Panic("attempt to subtract with overflow");
    }
    r := Ok(Valley(grid, width - 2, |grid| - 2, XY(startX, 0), XY(endX, |grid| - 1)));
  }

  /** generator: the input's lines as the grid. */
  method Generator(input: string) returns (r: Result<Valley>)
    ensures r.Ok? <==> Admissible(Lines(input))
    ensures r.Ok? ==> Admissible(Lines(input)) && r.value == ValleyOf(Lines(input))
  {
    r := FromGrid(Lines(input));
  }

  /** The wind character that blows onto interior position p of a line of m interior cells, d minutes on, from the cell d positions upwind. */
  function Upwind(line: seq<char>, m: int, d: int, p: int): char
    requires m > 0 && |line| == m + 2 && 1 <= p <= m
  {
    line[1 + (p - 1 - d) % m]
  }

  /** Column x of the map, top to bottom. */
  function Column(v: Valley, x: int): (c: seq<char>)
    requires Shaped(v) && 0 <= x < v.width + 2
    ensures |c| == |v.grid| && forall b :: 0 <= b < |c| ==> c[b] == v.grid[b][x]
  {
    seq(|v.grid|, b requires 0 <= b < |v.grid| => v.grid[b][x])
  }

  /**
   * Valley::is_clear: no blizzard is on (x, y) at minute t. Instead of moving the blizzards, it
   * looks back t cells against each wind direction, along the row for '>' and '<' and along the
   * column for 'v' and '^', with Euclidean remainders.
   */
  function IsClear(v: Valley, x: int, y: int, t: int): bool
    requires Shaped(v)
  {
    if !Inside(v, x, y) then false
    else
      && Upwind(v.grid[y], v.width, t, x) != '>'
      && Upwind(v.grid[y], v.width, -t, x) != '<'
      && Upwind(Column(v, x), v.height, t, y) != 'v'
      && Upwind(Column(v, x), v.height, -t, y) != '^'
  }

  /**
   * A blizzard `c` starting at interior position b of a line of m interior cells moves d cells
   * (mod m) in d minutes: it lands on position p.
   */
  ghost predicate LandsOn(line: seq<char>, m: int, c: char, d: int, p: int)
    requires m > 0 && |line| == m + 2
  {
    exists b :: 1 <= b <= m && line[b] == c && 1 + (b - 1 + d) % m == p
  }

  /** The reference definition: at minute t some blizzard has blown onto (x, y). */
  ghost predicate Swept(v: Valley, x: int, y: int, t: int)
    requires Shaped(v) && Inside(v, x, y)
  {
    || LandsOn(v.grid[y], v.width, '>', t, x)
    || LandsOn(v.grid[y], v.width, '<', -t, x)
    || LandsOn(Column(v, x), v.height, 'v', t, y)
    || LandsOn(Column(v, x), v.height, '^', -t, y)
  }

  /** Moving forward by d lands on c exactly when c moved back by d is the start. */
  lemma WrapOnto(a: int, c: int, d: int, m: int)
    requires m > 0 && 0 <= a < m && 0 <= c < m
    ensures (a + d) % m == c <==> a == (c - d) % m
  {
    if (a + d) % m == c {
      ModAdd(a + d, -d, m);
      ModOfInRange(a, m);
    }
    if a == (c - d) % m {
      ModAdd(c - d, d, m);
      ModOfInRange(c, m);
    }
  }

  /** A blizzard lands on p exactly when the upwind lookup finds it. */
  lemma LandsOnIff(line: seq<char>, m: int, c: char, d: int, p: int)
    requires m > 0 && |line| == m + 2 && 1 <= p <= m
    ensures LandsOn(line, m, c, d, p) <==> Upwind(line, m, d, p) == c
  {
    if LandsOn(line, m, c, d, p) {
      var b :| 1 <= b <= m && line[b] == c && 1 + (b - 1 + d) % m == p;
      LandsFrom(line, m, c, d, p, b);
    }
    if Upwind(line, m, d, p) == c {
      UpwindLands(line, m, c, d, p);
    }
  }

  lemma LandsFrom(line: seq<char>, m: int, c: char, d: int, p: int, b: int)
    requires m > 0 && |line| == m + 2 && 1 <= p <= m
    requires 1 <= b <= m && line[b] == c && 1 + (b - 1 + d) % m == p
    ensures Upwind(line, m, d, p) == c
  {
    WrapOnto(b - 1, p - 1, d, m);
  }

  lemma UpwindLands(line: seq<char>, m: int, c: char, d: int, p: int)
    requires m > 0 && |line| == m + 2 && 1 <= p <= m && Upwind(line, m, d, p) == c
    ensures LandsOn(line, m, c, d, p)
  {
    var b := 1 + (p - 1 - d) % m;
    WrapOnto(b - 1, p - 1, d, m);
    assert line[b] == c && 1 + (b - 1 + d) % m == p;
  }

  /** is_clear agrees with moving every blizzard forward: a cell is clear iff it is in the interior and no blizzard has blown onto it. */
  lemma ClearIffUnswept(v: Valley, x: int, y: int, t: int)
    requires Shaped(v)
    ensures IsClear(v, x, y, t) <==> Inside(v, x, y) && !Swept(v, x, y, t)
  {
    if Inside(v, x, y) {
      LandsOnIff(v.grid[y], v.width, '>', t, x);
      LandsOnIff(v.grid[y], v.width, '<', -t, x);
      LandsOnIff(Column(v, x), v.height, 'v', t, y);
      LandsOnIff(Column(v, x), v.height, '^', -t, y);
    }
  }

  /** Minutes with the same remainder modulo m shift a position to the same place. */
  lemma ModCongruent(a: int, t: int, u: int, m: int)
    requires m > 0 && t % m == u % m
    ensures (a - t) % m == (a - u) % m
  {
    var q := u / m - t / m;
    assert q * m == u - t by {
      assert t == (t / m) * m + t % m && u == (u / m) * m + u % m;
    }
    ModMultiple(q, a - u, m);
  }

  lemma UpwindPeriodic(line: seq<char>, m: int, d: int, e: int, p: int)
    requires m > 0 && |line| == m + 2 && 1 <= p <= m && d % m == e % m
    ensures Upwind(line, m, d, p) == Upwind(line, m, e, p)
  {
    ModCongruent(p - 1, d, e, m);
  }

  lemma NegCongruent(t: int, u: int, m: int)
    requires m > 0 && t % m == u % m
    ensures (-t) % m == (-u) % m
  {
    ModCongruent(0, t, u, m);
  }

  /** The blizzards repeat: whether a cell is clear depends on the minute only through t mod width and t mod height. */
  lemma ClearPeriodic(v: Valley, x: int, y: int, t: int, u: int)
    requires Shaped(v) && v.width > 0 && v.height > 0
    requires t % v.width == u % v.width && t % v.height == u % v.height
    ensures IsClear(v, x, y, t) == IsClear(v, x, y, u)
  {
    if Inside(v, x, y) {
      NegCongruent(t, u, v.width);
      NegCongruent(t, u, v.height);
      UpwindPeriodic(v.grid[y], v.width, t, u, x);
      UpwindPeriodic(v.grid[y], v.width, -t, -u, x);
      UpwindPeriodic(Column(v, x), v.height, t, u, y);
      UpwindPeriodic(Column(v, x), v.height, -t, -u, y);
    }
  }

  /** The sample valley of the puzzle text. */
  const Sample: Valley := Valley(
    ["#.######", "#>>.<^<#", "#.<..<<#", "#>v.><>#", "#<^v^^>#", "######.#"],
    6, 4, XY(1, 0), XY(6, 5))

  /** The clear cells of the sample at minutes 1, 4 and 6. */
  lemma SampleClear()
    ensures Shaped(Sample)
    ensures IsClear(Sample, 1, 1, 1) && !IsClear(Sample, 2, 1, 1) && IsClear(Sample, 4, 1, 1)
    ensures !IsClear(Sample, 6, 1, 4) && IsClear(Sample, 6, 2, 4) && !IsClear(Sample, 0, 4, 4)
    ensures !IsClear(Sample, 1, 0, 4) && !IsClear(Sample, 6, 5, 4) && !IsClear(Sample, 7, 5, 4)
    ensures !IsClear(Sample, 1, 4, 6) && IsClear(Sample, 2, 4, 6) && IsClear(Sample, 3, 4, 6)
  {
  }

  /** Two cells are the same or side by side. */
  predicate Neighbour(p: XY, q: XY)
  {
    Abs(p.x - q.x) + Abs(p.y - q.y) <= 1
  }

  /** The rules of movement: each minute the expedition steps to a side-by-side cell or stays, and must end on a clear cell, except that it may always wait on the cell it set out from. */
  predicate CanStep(clear: Clear, from: XY, p: XY, q: XY, t: int)
  {
    Neighbour(p, q) && (clear(q.x, q.y, t) || (q == p && p == from))
  }

  /** Which cells are free of blizzards at which minute; the search only ever asks this of the valley. */
  type Clear = (int, int, int) -> bool

  /** The valley's is_clear, as the search sees it. */
  function ClearOf(v: Valley): Clear
    requires Shaped(v)
  {
    (x, y, t) => IsClear(v, x, y, t)
  }

  /** What find_time pushes from `p` for minute t, in its order: right, left, up, down, and waiting, which is always allowed on the leg's starting cell. */
  function Moves(clear: Clear, from: XY, p: XY, t: int): seq<XY>
  {
    (if clear(p.x + 1, p.y, t) then [p.Add(1, 0)] else [])
    + (if clear(p.x - 1, p.y, t) then [p.Add(-1, 0)] else [])
    + (if clear(p.x, p.y - 1, t) then [p.Add(0, -1)] else [])
    + (if clear(p.x, p.y + 1, t) then [p.Add(0, 1)] else [])
    + (if p == from || clear(p.x, p.y, t) then [p] else [])
  }

  /** The moves are exactly the steps to a neighbouring or the same cell that is clear at minute t, plus waiting on the starting cell. */
  lemma MovesIff(clear: Clear, from: XY, p: XY, q: XY, t: int)
    ensures q in Moves(clear, from, p, t) <==> CanStep(clear, from, p, q, t)
  {
    if Neighbour(p, q) {
      assert q == p.Add(1, 0) || q == p.Add(-1, 0) || q == p.Add(0, -1) || q == p.Add(0, 1) || q == p;
    }
  }

  /** The cells a move onto q can come from. */
  function Around(q: XY): seq<XY>
  {
    [q, q.Add(-1, 0), q.Add(1, 0), q.Add(0, 1), q.Add(0, -1)]
  }

  lemma StepAround(clear: Clear, from: XY, p: XY, q: XY, t: int)
    requires CanStep(clear, from, p, q, t)
    ensures p in Around(q)
  {
    assert p == q || p == q.Add(-1, 0) || p == q.Add(1, 0) || p == q.Add(0, 1) || p == q.Add(0, -1);
  }

  /** On the starting cell, the last move is always to wait there. */
  lemma WaitsLast(clear: Clear, from: XY, t: int)
    ensures var m := Moves(clear, from, from, t); m != [] && m[|m| - 1] == from
  {
  }

  /** The expedition, leaving `from` at minute t0, can be on q at minute t. */
  ghost predicate Reachable(clear: Clear, from: XY, t0: int, q: XY, t: int)
    decreases t - t0
  {
    if t < t0 then false
    else if t == t0 then q == from
    else exists p :: p in Around(q) && Reachable(clear, from, t0, p, t - 1) && CanStep(clear, from, p, q, t)
  }

  /** `t` is one more than the first minute at which the expedition can stand on `goal`: find_time's answer. */
  ghost predicate Earliest(clear: Clear, from: XY, goal: XY, t0: int, t: int)
  {
    && t0 < t && Reachable(clear, from, t0, goal, t - 1)
    && forall s :: t0 <= s < t - 1 ==> !Reachable(clear, from, t0, goal, s)
  }

  /** How a search ends: with the minute after reaching the goal, on i32 overflow of the minute, in the panic after an empty queue, or when the bound on steps runs out. */
  datatype Outcome = Found(time: int) | Overflow | NoPath | OutOfFuel

  /** The queue is ordered by minute and spans at most two minutes: its head's and the next. */
  predicate Ordered(queue: seq<(XY, int)>)
  {
    && queue != []
    && (forall i, j :: 0 <= i < j < |queue| ==> queue[i].1 <= queue[j].1)
    && (forall i :: 0 <= i < |queue| ==> queue[i].1 <= queue[0].1 + 1)
  }

  ghost predicate AllReachable(clear: Clear, from: XY, t0: int, queue: seq<(XY, int)>)
  {
    forall i :: 0 <= i < |queue| ==> Reachable(clear, from, t0, queue[i].0, queue[i].1)
  }

  /** Explored states are reachable, not later than `now`, and never the goal. */
  ghost predicate ExploredSound(clear: Clear, from: XY, goal: XY, t0: int, explored: set<(XY, int)>, now: int)
  {
    forall e :: e in explored ==> e.1 <= now && e.0 != goal && Reachable(clear, from, t0, e.0, e.1)
  }

  /** The minute after state e's. */
  function After(e: (XY, int)): int { e.1 + 1 }

  /** The moves out of state e are explored or queued. */
  ghost predicate Queued(clear: Clear, from: XY, e: (XY, int), explored: set<(XY, int)>, queue: seq<(XY, int)>)
  {
    forall q :: q in Moves(clear, from, e.0, After(e)) ==> (q, After(e)) in explored || (q, After(e)) in queue
  }

  /** Every explored state has had its moves queued. */
  ghost predicate Expanded(clear: Clear, from: XY, explored: set<(XY, int)>, queue: seq<(XY, int)>)
  {
    forall e {:trigger Queued(clear, from, e, explored, queue)} :: e in explored ==> Queued(clear, from, e, explored, queue)
  }

  /** Every state reachable before `now` is explored. */
  ghost predicate Complete(clear: Clear, from: XY, t0: int, explored: set<(XY, int)>, now: int)
  {
    forall q, s :: t0 <= s < now && Reachable(clear, from, t0, q, s) ==> (q, s) in explored
  }

  /** The search started: its first state is explored or queued. */
  predicate StartSeen(from: XY, t0: int, queue: seq<(XY, int)>, explored: set<(XY, int)>)
  {
    (from, t0) in explored || (from, t0) in queue
  }

  /** Some unexplored state on the starting cell is queued: the queue never runs dry. */
  predicate Pending(from: XY, queue: seq<(XY, int)>, explored: set<(XY, int)>)
  {
    exists k :: 0 <= k < |queue| && queue[k].0 == from && queue[k] !in explored
  }

  /** The state of the breadth-first search between two steps. */
  ghost predicate Frontier(clear: Clear, from: XY, goal: XY, t0: int, queue: seq<(XY, int)>, explored: set<(XY, int)>)
  {
    && Ordered(queue) && t0 <= queue[0].1
    && AllReachable(clear, from, t0, queue)
    && ExploredSound(clear, from, goal, t0, explored, queue[0].1)
    && Expanded(clear, from, explored, queue)
    && StartSeen(from, t0, queue, explored)
    && Complete(clear, from, t0, explored, queue[0].1)
    && Pending(from, queue, explored)
  }

  /** Once every queued state of minute `now` is explored, every state reachable at `now` is explored. */
  lemma LayerDone(clear: Clear, from: XY, t0: int, queue: seq<(XY, int)>, explored: set<(XY, int)>, now: int)
    requires t0 <= now
    requires Expanded(clear, from, explored, queue) && Complete(clear, from, t0, explored, now)
    requires StartSeen(from, t0, queue, explored)
    requires forall i :: 0 <= i < |queue| && queue[i].1 == now ==> queue[i] in explored
    ensures Complete(clear, from, t0, explored, now + 1)
  {
    forall q | Reachable(clear, from, t0, q, now)
      ensures (q, now) in explored
    {
      LayerCell(clear, from, t0, queue, explored, now, q);
    }
  }

  lemma LayerCell(clear: Clear, from: XY, t0: int, queue: seq<(XY, int)>, explored: set<(XY, int)>, now: int, q: XY)
    requires t0 <= now && Reachable(clear, from, t0, q, now)
    requires Expanded(clear, from, explored, queue) && Complete(clear, from, t0, explored, now)
    requires StartSeen(from, t0, queue, explored)
    requires forall i :: 0 <= i < |queue| && queue[i].1 == now ==> queue[i] in explored
    ensures (q, now) in explored
  {
    if now > t0 {
      var p :| p in Around(q) && Reachable(clear, from, t0, p, now - 1) && CanStep(clear, from, p, q, now);
      MovesIff(clear, from, p, q, now);
      assert (p, now - 1) in explored;
      assert Queued(clear, from, (p, now - 1), explored, queue) && After((p, now - 1)) == now;
    }
  }

  lemma CompleteGrows(clear: Clear, from: XY, t0: int, explored: set<(XY, int)>, explored': set<(XY, int)>, now: int)
    requires explored <= explored' && Complete(clear, from, t0, explored, now)
    ensures Complete(clear, from, t0, explored', now)
  {
  }

  /** Everything in a queue is its head or in the rest. */
  lemma HeadOrRest(queue: seq<(XY, int)>)
    requires queue != []
    ensures forall x :: x in queue ==> x == queue[0] || x in queue[1..]
    ensures forall i :: 0 < i < |queue| ==> queue[1..][i - 1] == queue[i]
  {
    assert queue == [queue[0]] + queue[1..];
  }

  /** Dropping an explored head leaves the moves of explored states explored or queued. */
  lemma ExpandedSkip(clear: Clear, from: XY, explored: set<(XY, int)>, queue: seq<(XY, int)>)
    requires queue != [] && queue[0] in explored && Expanded(clear, from, explored, queue)
    ensures Expanded(clear, from, explored, queue[1..])
  {
    HeadOrRest(queue);
    forall e | e in explored
      ensures Queued(clear, from, e, explored, queue[1..])
    {
      assert Queued(clear, from, e, explored, queue);
    }
  }

  /** The search step that drops an already explored head keeps the search state. */
  lemma Skip(clear: Clear, from: XY, goal: XY, t0: int, queue: seq<(XY, int)>, explored: set<(XY, int)>)
    requires Frontier(clear, from, goal, t0, queue, explored) && queue[0] in explored
    ensures Frontier(clear, from, goal, t0, queue[1..], explored)
  {
    var now := queue[0].1;
    var rest := queue[1..];
    HeadOrRest(queue);
    var k :| 0 <= k < |queue| && queue[k].0 == from && queue[k] !in explored;
    assert k > 0 && rest[k - 1] == queue[k];
    assert Pending(from, rest, explored);
    assert Ordered(rest) by {
      assert forall i :: 0 <= i < |rest| ==> rest[i].1 <= now + 1 && now <= rest[i].1;
    }
    ExpandedSkip(clear, from, explored, queue);
    if rest[0].1 > now {
      assert forall i :: 0 <= i < |queue| && queue[i].1 == now ==> i == 0;
      LayerDone(clear, from, t0, queue, explored, now);
    }
  }

  /** `next` paired with minute t, as find_time queues the moves. */
  function Pushed(next: seq<XY>, t: int): (r: seq<(XY, int)>)
    ensures |r| == |next| && forall i :: 0 <= i < |next| ==> r[i] == (next[i], t)
  {
    seq(|next|, i requires 0 <= i < |next| => (next[i], t))
  }

  /** After exploring the head, the moves of every explored state are explored or queued. */
  lemma ExpandedExpand(clear: Clear, from: XY, explored: set<(XY, int)>, queue: seq<(XY, int)>)
    requires queue != [] && Expanded(clear, from, explored, queue)
    ensures Expanded(clear, from, explored + {queue[0]}, queue[1..] + Pushed(Moves(clear, from, queue[0].0, queue[0].1 + 1), queue[0].1 + 1))
  {
    var h := queue[0];
    var next := Moves(clear, from, h.0, h.1 + 1);
    var pushed := Pushed(next, h.1 + 1);
    var explored', queue' := explored + {h}, queue[1..] + pushed;
    HeadOrRest(queue);
    forall e | e in explored'
      ensures Queued(clear, from, e, explored', queue')
    {
      if e == h {
        forall q | q in next
          ensures (q, h.1 + 1) in queue'
        {
          var i :| 0 <= i < |next| && next[i] == q;
          assert queue'[|queue| - 1 + i] == pushed[i];
        }
      } else {
        assert Queued(clear, from, e, explored, queue);
      }
    }
  }

  /** The moves out of a reachable state are reachable a minute later. */
  lemma ReachableMoves(clear: Clear, from: XY, t0: int, p: XY, t: int)
    requires Reachable(clear, from, t0, p, t)
    ensures AllReachable(clear, from, t0, Pushed(Moves(clear, from, p, t + 1), t + 1))
  {
    var next := Moves(clear, from, p, t + 1);
    forall i | 0 <= i < |next|
      ensures Reachable(clear, from, t0, next[i], t + 1)
    {
      assert next[i] in next;
      MovesIff(clear, from, p, next[i], t + 1);
      StepAround(clear, from, p, next[i], t + 1);
    }
  }

  /** Exploring the head and queueing its moves for the next minute keeps the queue ordered, and keeps an unexplored start queued. */
  lemma ExpandQueue(queue: seq<(XY, int)>, explored: set<(XY, int)>, from: XY, next: seq<XY>)
    requires Ordered(queue) && Pending(from, queue, explored) && queue[0] !in explored
    requires forall e :: e in explored ==> e.1 <= queue[0].1
    requires queue[0].0 == from ==> next != [] && next[|next| - 1] == from
    ensures Ordered(queue[1..] + Pushed(next, queue[0].1 + 1))
    ensures Pending(from, queue[1..] + Pushed(next, queue[0].1 + 1), explored + {queue[0]})
    ensures queue[0].1 <= (queue[1..] + Pushed(next, queue[0].1 + 1))[0].1 <= queue[0].1 + 1
    ensures forall x :: x in queue ==> x == queue[0] || x in queue[1..] + Pushed(next, queue[0].1 + 1)
  {
    var t := queue[0].1;
    var pushed := Pushed(next, t + 1);
    var rest := queue[1..];
    HeadOrRest(queue);
    ExpandPending(queue, explored, from, next);
    SortedCat(rest, pushed, t);
  }

  /** The rest of an ordered queue followed by states of the next minute is ordered. */
  lemma SortedCat(a: seq<(XY, int)>, b: seq<(XY, int)>, t: int)
    requires forall i, j :: 0 <= i < j < |a| ==> a[i].1 <= a[j].1
    requires forall i :: 0 <= i < |a| ==> t <= a[i].1 <= t + 1
    requires forall i :: 0 <= i < |b| ==> b[i].1 == t + 1
    ensures forall i, j :: 0 <= i < j < |a + b| ==> (a + b)[i].1 <= (a + b)[j].1
    ensures forall i :: 0 <= i < |a + b| ==> t <= (a + b)[i].1 <= t + 1
    ensures a + b != [] ==> forall i :: 0 <= i < |a + b| ==> (a + b)[i].1 <= (a + b)[0].1 + 1
  {
    var c := a + b;
    assert forall i :: 0 <= i < |c| ==> c[i] == if i < |a| then a[i] else b[i - |a|];
  }

  /** An unexplored start stays queued: either it is still in the rest, or the head was on the starting cell and its wait was queued. */
  lemma ExpandPending(queue: seq<(XY, int)>, explored: set<(XY, int)>, from: XY, next: seq<XY>)
    requires Ordered(queue) && Pending(from, queue, explored) && queue[0] !in explored
    requires forall e :: e in explored ==> e.1 <= queue[0].1
    requires queue[0].0 == from ==> next != [] && next[|next| - 1] == from
    ensures Pending(from, queue[1..] + Pushed(next, queue[0].1 + 1), explored + {queue[0]})
  {
    var t := queue[0].1;
    var queue' := queue[1..] + Pushed(next, t + 1);
    var explored' := explored + {queue[0]};
    var k :| 0 <= k < |queue| && queue[k].0 == from && queue[k] !in explored;
    if queue[k] == queue[0] {
      assert queue'[|queue'| - 1] == (from, t + 1);
      assert (from, t + 1) !in explored';
    } else {
      assert queue'[k - 1] == queue[k];
    }
  }

  lemma AllReachableExpand(clear: Clear, from: XY, t0: int, queue: seq<(XY, int)>)
    requires queue != [] && AllReachable(clear, from, t0, queue)
    ensures AllReachable(clear, from, t0, queue[1..] + Pushed(Moves(clear, from, queue[0].0, queue[0].1 + 1), queue[0].1 + 1))
  {
    ReachableMoves(clear, from, t0, queue[0].0, queue[0].1);
    AllReachableTail(clear, from, t0, queue);
    AllReachableCat(clear, from, t0, queue[1..], Pushed(Moves(clear, from, queue[0].0, queue[0].1 + 1), queue[0].1 + 1));
  }

  lemma AllReachableTail(clear: Clear, from: XY, t0: int, queue: seq<(XY, int)>)
    requires queue != [] && AllReachable(clear, from, t0, queue)
    ensures AllReachable(clear, from, t0, queue[1..])
  {
    forall i | 0 <= i < |queue| - 1
      ensures Reachable(clear, from, t0, queue[1..][i].0, queue[1..][i].1)
    {
      assert queue[1..][i] == queue[i + 1];
    }
  }

  lemma AllReachableCat(clear: Clear, from: XY, t0: int, a: seq<(XY, int)>, b: seq<(XY, int)>)
    requires AllReachable(clear, from, t0, a) && AllReachable(clear, from, t0, b)
    ensures AllReachable(clear, from, t0, a + b)
  {
    forall i | 0 <= i < |a + b|
      ensures Reachable(clear, from, t0, (a + b)[i].0, (a + b)[i].1)
    {
      if i >= |a| {
        assert (a + b)[i] == b[i - |a|];
      }
    }
  }

  /** The search step that explores the head (not the goal) and queues its moves keeps the search state. */
  lemma Expand(clear: Clear, from: XY, goal: XY, t0: int, queue: seq<(XY, int)>, explored: set<(XY, int)>)
    requires Frontier(clear, from, goal, t0, queue, explored)
    requires queue[0] !in explored && queue[0].0 != goal
    ensures Frontier(clear, from, goal, t0, queue[1..] + Pushed(Moves(clear, from, queue[0].0, queue[0].1 + 1), queue[0].1 + 1), explored + {queue[0]})
  {
    assert forall e :: e in explored ==> e.1 <= queue[0].1;
    ExpandFront(clear, from, t0, queue, explored);
    AllReachableExpand(clear, from, t0, queue);
    ExpandBack(clear, from, goal, t0, queue, explored);
  }

  /** The queue half of an exploring step: the order and the start stay. */
  lemma ExpandFront(clear: Clear, from: XY, t0: int, queue: seq<(XY, int)>, explored: set<(XY, int)>)
    requires Ordered(queue) && t0 <= queue[0].1 && Pending(from, queue, explored) && queue[0] !in explored
    requires StartSeen(from, t0, queue, explored)
    requires forall e :: e in explored ==> e.1 <= queue[0].1
    ensures var queue' := queue[1..] + Pushed(Moves(clear, from, queue[0].0, queue[0].1 + 1), queue[0].1 + 1);
            && Ordered(queue') && queue[0].1 <= queue'[0].1 <= queue[0].1 + 1
            && Pending(from, queue', explored + {queue[0]})
            && StartSeen(from, t0, queue', explored + {queue[0]})
  {
    var t := queue[0].1;
    var next := Moves(clear, from, queue[0].0, t + 1);
    if queue[0].0 == from {
      WaitsLast(clear, from, t + 1);
    }
    ExpandQueue(queue, explored, from, next);
  }

  /** The explored half of an exploring step: soundness, expansion and completeness. */
  lemma ExpandBack(clear: Clear, from: XY, goal: XY, t0: int, queue: seq<(XY, int)>, explored: set<(XY, int)>)
    requires queue != [] && t0 <= queue[0].1 && queue[0].0 != goal && Reachable(clear, from, t0, queue[0].0, queue[0].1)
    requires ExploredSound(clear, from, goal, t0, explored, queue[0].1) && Expanded(clear, from, explored, queue)
    requires Complete(clear, from, t0, explored, queue[0].1)
    requires var queue' := queue[1..] + Pushed(Moves(clear, from, queue[0].0, queue[0].1 + 1), queue[0].1 + 1);
             && Ordered(queue') && queue[0].1 <= queue'[0].1 <= queue[0].1 + 1
             && StartSeen(from, t0, queue', explored + {queue[0]})
    ensures var queue' := queue[1..] + Pushed(Moves(clear, from, queue[0].0, queue[0].1 + 1), queue[0].1 + 1);
            && ExploredSound(clear, from, goal, t0, explored + {queue[0]}, queue'[0].1)
            && Expanded(clear, from, explored + {queue[0]}, queue')
            && Complete(clear, from, t0, explored + {queue[0]}, queue'[0].1)
  {
    var queue' := queue[1..] + Pushed(Moves(clear, from, queue[0].0, queue[0].1 + 1), queue[0].1 + 1);
    ExpandedExpand(clear, from, explored, queue);
    ExploredSoundExpand(clear, from, goal, t0, explored, queue[0], queue'[0].1);
    CompleteStep(clear, from, t0, queue', explored, explored + {queue[0]}, queue[0].1);
  }

  /** Completeness up to the head's minute carries over to the new head's minute, one later at most. */
  lemma CompleteStep(clear: Clear, from: XY, t0: int, queue: seq<(XY, int)>, explored: set<(XY, int)>, explored': set<(XY, int)>, now: int)
    requires t0 <= now && explored <= explored' && Complete(clear, from, t0, explored, now)
    requires Ordered(queue) && now <= queue[0].1 <= now + 1
    requires Expanded(clear, from, explored', queue) && StartSeen(from, t0, queue, explored')
    ensures Complete(clear, from, t0, explored', queue[0].1)
  {
    CompleteGrows(clear, from, t0, explored, explored', now);
    if queue[0].1 > now {
      LayerDone(clear, from, t0, queue, explored', now);
    }
  }

  lemma ExploredSoundExpand(clear: Clear, from: XY, goal: XY, t0: int, explored: set<(XY, int)>, h: (XY, int), now: int)
    requires ExploredSound(clear, from, goal, t0, explored, h.1) && h.1 <= now
    requires h.0 != goal && Reachable(clear, from, t0, h.0, h.1)
    ensures ExploredSound(clear, from, goal, t0, explored + {h}, now)
  {
  }

  /** The first time the goal is taken off the queue, it is reached at the earliest minute. */
  lemma Arrived(clear: Clear, from: XY, goal: XY, t0: int, queue: seq<(XY, int)>, explored: set<(XY, int)>)
    requires Frontier(clear, from, goal, t0, queue, explored)
    requires queue[0].0 == goal && queue[0] !in explored
    ensures Earliest(clear, from, goal, t0, queue[0].1 + 1)
  {
    assert Reachable(clear, from, t0, queue[0].0, queue[0].1);
    forall s | t0 <= s < queue[0].1
      ensures !Reachable(clear, from, t0, goal, s)
    {
      if Reachable(clear, from, t0, goal, s) {
        assert false;
      }
    }
  }

  /**
   * The loop of Valley::find_time: breadth-first search over (cell, minute) from `from` at minute
   * t0, for at most `fuel` steps, asking `clear` which cells are free.
   */
  method Search(clear: Clear, from: XY, goal: XY, t0: int, fuel: nat) returns (r: Outcome)
    ensures r != NoPath
    ensures r.Found? ==> Earliest(clear, from, goal, t0, r.time)
  {
    var queue: seq<(XY, int)> := [(from, t0)];
    var explored: set<(XY, int)> := {};
    var steps := fuel;
    while queue != []
      invariant Frontier(clear, from, goal, t0, queue, explored)
      decreases steps
    {
      if steps == 0 {
        return OutOfFuel;
      }
      steps := steps - 1;
      var p, t := queue[0].0, queue[0].1;
      if queue[0] in explored {
        Skip(clear, from, goal, t0, queue, explored);
        queue := queue[1..];
        continue;
      }
      if t == I32Max {
        return Overflow;
      }
      if p == goal {
        Arrived(clear, from, goal, t0, queue, explored);
        return Found(t + 1);
      }
      Expand(clear, from, goal, t0, queue, explored);
      queue, explored := queue[1..] + Pushed(Moves(clear, from, p, t + 1), t + 1), explored + {queue[0]};
    }
    assert false;
    r := NoPath;
  }

  /** Valley::find_time: the search with the valley's is_clear. */
  method FindTime(v: Valley, from: XY, goal: XY, t0: int, fuel: nat) returns (r: Outcome)
    requires Shaped(v)
    ensures r != NoPath
    ensures r.Found? ==> Earliest(ClearOf(v), from, goal, t0, r.time)
  {
    r := Search(ClearOf(v), from, goal, t0, fuel);
  }

  /** part1: the first crossing, from the top gap at minute 0 to the cell above the bottom gap. */
  method Part1(v: Valley, fuel: nat) returns (r: Outcome)
    requires Shaped(v)
    ensures r != NoPath
    ensures r.Found? ==> Earliest(ClearOf(v), v.start, v.end.Add(0, -1), 0, r.time)
  {
    r := FindTime(v, v.start, v.end.Add(0, -1), 0, fuel);
  }

  /** part2: across, back to the cell below the top gap, and across again, each leg starting when the previous one ends. */
  method Part2(v: Valley, fuel: nat) returns (r: Outcome)
    requires Shaped(v)
    ensures r != NoPath
    ensures r.Found? ==> exists t1, t2 :: && Earliest(ClearOf(v), v.start, v.end.Add(0, -1), 0, t1)
                                          && Earliest(ClearOf(v), v.end, v.start.Add(0, 1), t1, t2)
                                          && Earliest(ClearOf(v), v.start, v.end.Add(0, -1), t2, r.time)
  {
    var leg1 := Part1(v, fuel);
    if !leg1.Found? {
      return leg1;
    }
    var leg2 := FindTime(v, v.end, v.start.Add(0, 1), leg1.time, fuel);
    if !leg2.Found? {
      return leg2;
    }
    r := FindTime(v, v.start, v.end.Add(0, -1), leg2.time, fuel);
  }
}
