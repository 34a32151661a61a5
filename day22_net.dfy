/**
  * Day 22, the unfolded cube's outline: the exposed face sides of the net (struct Edge,
  * Puzzle::make_edges, Edge::identify_closest_*), and the chain that links each side to the
  * next one round the outline (get_edge, find_p, make_links).
  */
module Day22Net {
  import opened Wrappers
  import opened Day22
  import opened Day22Board

  // ------------------------------------------------------------------
  // Face sides (struct Edge, Edge::identify_closest_right/left)
  // ------------------------------------------------------------------

  /** A face side from cell p1 to cell p2, whose outside lies in direction dir. */
  datatype Edge = Edge(p1: XY, p2: XY, dir: XY)

  predicate Between(a: int, v: int, b: int) { a <= v <= b || b <= v <= a }

  /** Cell c lies on the side, between its two end cells. */
  predicate OnEdge(e: Edge, c: XY)
  {
    Between(e.p1.x, c.x, e.p2.x) && Between(e.p1.y, c.y, e.p2.y)
  }

  /** The shape make_edges gives a side: side cells along one axis, facing out across the other. */
  predicate Shaped(e: Edge, side: nat)
  {
    IsUnit(e.dir) &&
    if e.dir.x == 0 then e.p2 == XY(e.p1.x + side - 1, e.p1.y)
    else e.p2 == XY(e.p1.x, e.p1.y + side - 1)
  }

  /** No (cell, outward direction) pair belongs to two different sides. */
  ghost predicate DisjointKeys(edges: seq<Edge>)
  {
    forall i, j, c ::
      0 <= i < |edges| && 0 <= j < |edges| && i != j && OnEdge(edges[i], c) && OnEdge(edges[j], c) ==>
        edges[i].dir != edges[j].dir
  }

  function Dot(a: XY, b: XY): int { a.x * b.x + a.y * b.y }

  /**
    * Edge::identify_closest_right: of the two end cells, the one further to the right of a
    * walker looking out through the side (ties go to p2); a non-unit direction panics.
    */
  function ClosestRight(e: Edge): (r: Result<XY>)
    ensures r.Ok? <==> IsUnit(e.dir)
    ensures r.Ok? ==> var rt := ChangeDir(Right, e.dir);
      r.value == if Dot(e.p1, rt) > Dot(e.p2, rt) then e.p1 else e.p2
  {
    if e.dir == East then Ok(if e.p1.y > e.p2.y then e.p1 else e.p2)
    else if e.dir == South then Ok(if e.p1.x < e.p2.x then e.p1 else e.p2)
    else if e.dir == West then Ok(if e.p1.y < e.p2.y then e.p1 else e.p2)
    else if e.dir == North then Ok(if e.p1.x > e.p2.x then e.p1 else e.p2)
    else Panic("Unexpected direction")
  }

  /** Edge::identify_closest_left: the end cell further to the walker's left (ties go to p2). */
  function ClosestLeft(e: Edge): (r: Result<XY>)
    ensures r.Ok? <==> IsUnit(e.dir)
    ensures r.Ok? ==> var lt := ChangeDir(Left, e.dir);
      r.value == if Dot(e.p1, lt) > Dot(e.p2, lt) then e.p1 else e.p2
  {
    if e.dir == East then Ok(if e.p1.y < e.p2.y then e.p1 else e.p2)
    else if e.dir == South then Ok(if e.p1.x > e.p2.x then e.p1 else e.p2)
    else if e.dir == West then Ok(if e.p1.y > e.p2.y then e.p1 else e.p2)
    else if e.dir == North then Ok(if e.p1.x < e.p2.x then e.p1 else e.p2)
    else Panic("Unexpected direction")
  }

  /** On a side of two or more cells the two corners are its two distinct end cells. */
  lemma CornersOfShaped(e: Edge, side: nat)
    requires Shaped(e, side) && side >= 2
    ensures ClosestRight(e).Ok? && ClosestLeft(e).Ok?
    ensures ClosestRight(e).value != ClosestLeft(e).value
    ensures ClosestRight(e).value in {e.p1, e.p2} && ClosestLeft(e).value in {e.p1, e.p2}
  {
  }

  // ------------------------------------------------------------------
  // Exposed sides (Puzzle::make_edges)
  // ------------------------------------------------------------------

  function TopEdge(x: int, y: int, side: nat): Edge { Edge(XY(x, y), XY(x + side - 1, y), North) }
  function BottomEdge(x: int, y: int, side: nat): Edge { Edge(XY(x, y), XY(x + side - 1, y), South) }
  function LeftEdge(x: int, y: int, side: nat): Edge { Edge(XY(x, y), XY(x, y + side - 1), West) }
  function RightEdge(x: int, y: int, side: nat): Edge { Edge(XY(x, y), XY(x, y + side - 1), East) }

  /** The block above column x of block row y is missing: y is the top row or row y - 1 misses x. */
  predicate TopExposed(lines: seq<Line>, y: nat, x: int)
    requires y < |lines|
  {
    y == 0 || x < lines[y - 1].minX || x > lines[y - 1].maxX
  }

  /** The block below is missing: yNext is past the last row or row yNext misses x. */
  predicate BottomExposed(lines: seq<Line>, yNext: nat, x: int)
    requires yNext <= |lines|
  {
    yNext == |lines| || x < lines[yNext].minX || x > lines[yNext].maxX
  }

  /** The top and bottom sides of the blocks of block row y from column x up to (not including) maxX. */
  function HorizontalEdges(lines: seq<Line>, side: nat, y: nat, x: int): (r: seq<Edge>)
    requires side >= 1 && y + side <= |lines|
    decreases lines[y].maxX - x
  {
    if x >= lines[y].maxX then []
    else BlockEdges(lines, side, y, x) + HorizontalEdges(lines, side, y, x + side)
  }

  /** All sides of block row y: its exposed tops and bottoms, then its left and right sides. */
  function BlockRowEdges(lines: seq<Line>, side: nat, y: nat): seq<Edge>
    requires side >= 1 && y + side <= |lines|
  {
    HorizontalEdges(lines, side, y, lines[y].minX) +
    [LeftEdge(lines[y].minX, y, side), RightEdge(lines[y].maxX, y, side)]
  }

  lemma BlockFits(b: nat, side: nat, n: nat)
    requires side >= 1 && b < n / side
    ensures b * side + side <= n
  {
    assert (b + 1) * side <= (n / side) * side;
  }

  /** The sides of the first b block rows, in make_edges' order. */
  function EdgesUpTo(lines: seq<Line>, side: nat, b: nat): seq<Edge>
    requires side >= 1 && b <= |lines| / side
  {
    if b == 0 then []
    else
      BlockFits(b - 1, side, |lines|);
      EdgesUpTo(lines, side, b - 1) + BlockRowEdges(lines, side, (b - 1) * side)
  }

  /** What make_edges returns: the sides of every whole block row. */
  function AllEdges(lines: seq<Line>, side: nat): seq<Edge>
    requires side >= 1
  {
    EdgesUpTo(lines, side, |lines| / side)
  }

  /**
    * Puzzle::make_edges: for each block row (every side-th row), the top and bottom sides of its
    * blocks whose neighbour block is missing, then the row's left and right sides. A side of 0
    * panics on the division.
    */
  method MakeEdges(lines: seq<Line>, side: nat) returns (r: Result<seq<Edge>>)
    requires ValidLines(lines)
    ensures r.Ok? <==> side > 0
    ensures r.Ok? ==> r.value == AllEdges(lines, side)
  {
    if side == 0 {
      return Panic("attempt to divide by zero");
    }
    var edges: seq<Edge> := [];
    var b := 0;
    while b < |lines| / side
      invariant b <= |lines| / side
      invariant edges == EdgesUpTo(lines, side, b)
    {
      BlockFits(b, side, |lines|);
      var y := b * side;
      var line := lines[y];
      assert line.y == y;
      var hs := HorizontalSides(lines, side, y);
      edges := edges + hs + [LeftEdge(line.minX, line.y, side), RightEdge(line.maxX, line.y, side)];
      assert EdgesUpTo(lines, side, b + 1) == EdgesUpTo(lines, side, b) + BlockRowEdges(lines, side, y);
      b := b + 1;
    }
    r := Ok(edges);
  }

  /** One block of the row: its exposed top, its exposed bottom, then the blocks to its right. */
  lemma HorizontalStep(lines: seq<Line>, side: nat, y: nat, x: int)
    requires side >= 1 && y + side <= |lines| && x < lines[y].maxX
    ensures HorizontalEdges(lines, side, y, x)
         == (if TopExposed(lines, y, x) then [TopEdge(x, y, side)] else []) +
            (if BottomExposed(lines, y + side, x) then [BottomEdge(x, y + side - 1, side)] else []) +
            HorizontalEdges(lines, side, y, x + side)
  {
  }

  /** The inner loop of make_edges: the exposed tops and bottoms of block row y, left to right. */
  method HorizontalSides(lines: seq<Line>, side: nat, y: nat) returns (edges: seq<Edge>)
    requires side >= 1 && y + side <= |lines| && lines[y].y == y
    ensures edges == HorizontalEdges(lines, side, y, lines[y].minX)
  {
    var line := lines[y];
    assert line.y == y;
    edges := [];
    var x: int := line.minX;
    while x < line.maxX
      invariant edges + HorizontalEdges(lines, side, y, x) == HorizontalEdges(lines, side, y, line.minX)
      decreases line.maxX - x
    {
      var top: seq<Edge> := [];
      if line.y == 0 || x < lines[line.y - 1].minX || x > lines[line.y - 1].maxX {
        top := [TopEdge(x, line.y, side)];
      }
      assert top == if TopExposed(lines, y, x) then [TopEdge(x, y, side)] else [];
      var bottom: seq<Edge> := [];
      var yNext := y + side;
      if yNext == |lines| || x < lines[yNext].minX || x > lines[yNext].maxX {
        bottom := [BottomEdge(x, yNext - 1, side)];
      }
      assert bottom == if BottomExposed(lines, y + side, x) then [BottomEdge(x, y + side - 1, side)] else [];
      HorizontalStep(lines, side, y, x);
      Regroup(edges, top, bottom, HorizontalEdges(lines, side, y, x + side));
      edges := edges + top + bottom;
      x := x + side;
    }
  }

  /** Moving the next two pieces from the pending part to the finished part keeps the whole. */
  lemma Regroup<T>(done: seq<T>, a: seq<T>, b: seq<T>, rest: seq<T>)
    ensures done + (a + b + rest) == (done + a + b) + rest
  {
  }

  lemma {:induction false} HorizontalShaped(lines: seq<Line>, side: nat, y: nat, x: int)
    requires side >= 1 && y + side <= |lines|
    ensures forall e :: e in HorizontalEdges(lines, side, y, x) ==>
      Shaped(e, side) && e.dir.x == 0 && x <= e.p1.x && e.p1.x < lines[y].maxX &&
      (e.dir == North ==> e.p1.y == y && TopExposed(lines, y, e.p1.x)) &&
      (e.dir == South ==> e.p1.y == y + side - 1 && BottomExposed(lines, y + side, e.p1.x))
    decreases lines[y].maxX - x
  {
    if x < lines[y].maxX {
      HorizontalShaped(lines, side, y, x + side);
    }
  }

  /** What EdgesShaped says of one side. */
  predicate GoodEdge(lines: seq<Line>, side: nat, e: Edge)
  {
    Shaped(e, side) && !OnGrid(lines, Add(e.p1, e.dir)) && (e.dir != South ==> OnGrid(lines, e.p1))
  }

  /** An exposed top or bottom of block row y, as HorizontalShaped describes it, is a good side. */
  lemma HorizontalGood(lines: seq<Line>, side: nat, y: nat, e: Edge)
    requires ValidLines(lines) && side >= 1 && y + side <= |lines|
    requires Shaped(e, side) && e.dir.x == 0 && lines[y].minX <= e.p1.x < lines[y].maxX
    requires e.dir == North ==> e.p1.y == y && TopExposed(lines, y, e.p1.x)
    requires e.dir == South ==> e.p1.y == y + side - 1 && BottomExposed(lines, y + side, e.p1.x)
    ensures GoodEdge(lines, side, e)
  {
  }

  lemma BlockRowGood(lines: seq<Line>, side: nat, y: nat)
    requires ValidLines(lines) && side >= 1 && y + side <= |lines|
    ensures forall e :: e in BlockRowEdges(lines, side, y) ==> GoodEdge(lines, side, e)
  {
    var hs := HorizontalEdges(lines, side, y, lines[y].minX);
    HorizontalShaped(lines, side, y, lines[y].minX);
    forall e | e in hs
      ensures GoodEdge(lines, side, e)
    {
      HorizontalGood(lines, side, y, e);
    }
    assert GoodEdge(lines, side, LeftEdge(lines[y].minX, y, side));
    assert GoodEdge(lines, side, RightEdge(lines[y].maxX, y, side));
  }

  lemma {:induction false} EdgesUpToShaped(lines: seq<Line>, side: nat, b: nat)
    requires ValidLines(lines) && side >= 1 && b <= |lines| / side
    ensures forall e :: e in EdgesUpTo(lines, side, b) ==> GoodEdge(lines, side, e)
  {
    if b > 0 {
      EdgesUpToShaped(lines, side, b - 1);
      BlockFits(b - 1, side, |lines|);
      BlockRowGood(lines, side, (b - 1) * side);
    }
  }

  /**
    * make_edges emits face sides of side cells along one axis with a unit outward direction;
    * the cell just outside a side's first cell is off the board, and except on bottom sides
    * the first cell itself is on it.
    */
  lemma EdgesShaped(lines: seq<Line>, side: nat)
    requires ValidLines(lines) && side >= 1
    ensures forall e :: e in AllEdges(lines, side) ==> Shaped(e, side)
    ensures forall e :: e in AllEdges(lines, side) ==> !OnGrid(lines, Add(e.p1, e.dir))
    ensures forall e :: e in AllEdges(lines, side) && e.dir != South ==> OnGrid(lines, e.p1)
  {
    EdgesUpToShaped(lines, side, |lines| / side);
    assert forall e :: e in AllEdges(lines, side) ==> GoodEdge(lines, side, e);
  }

  /** Distinct sides in a list never share a (cell, direction) pair. */
  ghost predicate KeysApart(a: seq<Edge>, b: seq<Edge>)
  {
    forall i, j, c :: 0 <= i < |a| && 0 <= j < |b| && OnEdge(a[i], c) && OnEdge(b[j], c) ==> a[i].dir != b[j].dir
  }

  lemma DisjointConcat(a: seq<Edge>, b: seq<Edge>)
    requires DisjointKeys(a) && DisjointKeys(b) && KeysApart(a, b)
    ensures DisjointKeys(a + b)
  {
    var s := a + b;
    forall i, j, c | 0 <= i < |s| && 0 <= j < |s| && i != j && OnEdge(s[i], c) && OnEdge(s[j], c)
      ensures s[i].dir != s[j].dir
    {
      if i < |a| && j < |a| {
        assert s[i] == a[i] && s[j] == a[j];
      } else if i >= |a| && j >= |a| {
        assert s[i] == b[i - |a|] && s[j] == b[j - |a|];
      } else if i < |a| {
        assert s[i] == a[i] && s[j] == b[j - |a|];
      } else {
        assert s[j] == a[j] && s[i] == b[i - |a|];
      }
    }
  }

  lemma {:induction false} HorizontalDisjoint(lines: seq<Line>, side: nat, y: nat, x: int)
    requires side >= 1 && y + side <= |lines|
    ensures DisjointKeys(HorizontalEdges(lines, side, y, x))
    decreases lines[y].maxX - x
  {
    if x < lines[y].maxX {
      var head := BlockEdges(lines, side, y, x);
      var tail := HorizontalEdges(lines, side, y, x + side);
      HorizontalDisjoint(lines, side, y, x + side);
      HeadApart(lines, side, y, x);
      DisjointConcat(head, tail);
    }
  }

  /** The exposed top and bottom of the block at column x of block row y. */
  function BlockEdges(lines: seq<Line>, side: nat, y: nat, x: int): (r: seq<Edge>)
    requires side >= 1 && y + side <= |lines|
    ensures forall i :: 0 <= i < |r| ==> r[i].p1.x == x && Shaped(r[i], side) && r[i].dir.x == 0
    ensures DisjointKeys(r)
  {
    (if TopExposed(lines, y, x) then [TopEdge(x, y, side)] else []) +
    (if BottomExposed(lines, y + side, x) then [BottomEdge(x, y + side - 1, side)] else [])
  }

  /**
    * The top and bottom of one block (different directions, columns x to x + side - 1) share no key
    * with each other or with sides further right.
    */
  lemma HeadApart(lines: seq<Line>, side: nat, y: nat, x: int)
    requires side >= 1 && y + side <= |lines| && x < lines[y].maxX
    ensures DisjointKeys(BlockEdges(lines, side, y, x))
    ensures KeysApart(BlockEdges(lines, side, y, x), HorizontalEdges(lines, side, y, x + side))
  {
    var head, tail := BlockEdges(lines, side, y, x), HorizontalEdges(lines, side, y, x + side);
    HorizontalShaped(lines, side, y, x + side);
    forall i, j, c | 0 <= i < |head| && 0 <= j < |tail| && OnEdge(head[i], c)
      ensures !OnEdge(tail[j], c)
    {
      assert tail[j] in tail;
      ColumnsApart(head[i], tail[j], side, c);
    }
  }

  /** A horizontal side ending before another starts shares no cell with it. */
  lemma ColumnsApart(a: Edge, b: Edge, side: nat, c: XY)
    requires Shaped(a, side) && Shaped(b, side) && a.dir.x == 0 && b.dir.x == 0
    requires side >= 1 && a.p1.x + side <= b.p1.x && OnEdge(a, c)
    ensures !OnEdge(b, c)
  {
  }

  lemma BlockRowDisjoint(lines: seq<Line>, side: nat, y: nat)
    requires side >= 1 && y + side <= |lines|
    ensures DisjointKeys(BlockRowEdges(lines, side, y))
    ensures forall e, c :: e in BlockRowEdges(lines, side, y) && OnEdge(e, c) ==> y <= c.y < y + side
  {
    var hs := HorizontalEdges(lines, side, y, lines[y].minX);
    var vs := [LeftEdge(lines[y].minX, y, side), RightEdge(lines[y].maxX, y, side)];
    HorizontalDisjoint(lines, side, y, lines[y].minX);
    HorizontalShaped(lines, side, y, lines[y].minX);
    assert forall j :: 0 <= j < |hs| ==> hs[j] in hs;
    assert KeysApart(hs, vs);
    DisjointConcat(hs, vs);
  }

  lemma {:induction false} EdgesUpToDisjoint(lines: seq<Line>, side: nat, b: nat)
    requires side >= 1 && b <= |lines| / side
    ensures DisjointKeys(EdgesUpTo(lines, side, b))
    ensures forall e, c :: e in EdgesUpTo(lines, side, b) && OnEdge(e, c) ==> c.y < b * side
  {
    if b > 0 {
      EdgesUpToDisjoint(lines, side, b - 1);
      BlockFits(b - 1, side, |lines|);
      var y := (b - 1) * side;
      var row := BlockRowEdges(lines, side, y);
      var pre := EdgesUpTo(lines, side, b - 1);
      BlockRowDisjoint(lines, side, y);
      BandsApart(pre, row, y);
      DisjointConcat(pre, row);
      assert EdgesUpTo(lines, side, b) == pre + row;
      assert y + side == b * side;
    }
  }

  /** Sides whose cells lie above row y share no cell with sides whose cells lie at or below it. */
  lemma BandsApart(pre: seq<Edge>, row: seq<Edge>, y: int)
    requires forall e, c :: e in pre && OnEdge(e, c) ==> c.y < y
    requires forall e, c :: e in row && OnEdge(e, c) ==> y <= c.y
    ensures KeysApart(pre, row)
  {
    assert forall j :: 0 <= j < |row| ==> row[j] in row;
    assert forall j :: 0 <= j < |pre| ==> pre[j] in pre;
  }

  /** make_edges never lists one (cell, outward direction) pair under two sides. */
  lemma EdgesDisjoint(lines: seq<Line>, side: nat)
    requires ValidLines(lines) && side >= 1
    ensures DisjointKeys(AllEdges(lines, side))
  {
    EdgesUpToDisjoint(lines, side, |lines| / side);
  }

  // ------------------------------------------------------------------
  // The outline chain (get_edge, find_p, make_links)
  // ------------------------------------------------------------------

  /** The cells are at most one apart on each axis (u32::abs_diff < 2). */
  predicate Near(a: XY, b: XY)
  {
    -2 < a.x - b.x < 2 && -2 < a.y - b.y < 2
  }

  /** get_edge's test: one end of e is near p and its other end is not o. */
  predicate Touches(e: Edge, p: XY, o: XY)
  {
    (Near(e.p1, p) && e.p2 != o) || (Near(e.p2, p) && e.p1 != o)
  }

  /** The first side from index i on that touches corner p without ending at o. */
  function FirstTouching(edges: seq<Edge>, p: XY, o: XY, i: nat): (r: Result<nat>)
    requires i <= |edges|
    ensures r.Ok? ==> i <= r.value < |edges| && Touches(edges[r.value], p, o)
    ensures r.Ok? ==> forall j :: i <= j < r.value ==> !Touches(edges[j], p, o)
    ensures r.Panic? <==> forall j :: i <= j < |edges| ==> !Touches(edges[j], p, o)
    decreases |edges| - i
  {
    if i == |edges| then Panic("Edge not found")
    else if Touches(edges[i], p, o) then Ok(i)
    else FirstTouching(edges, p, o, i + 1)
  }

  /** get_edge: the index of the first side touching corner p that does not end at o; none panics. */
  method GetEdge(p: XY, o: XY, edges: seq<Edge>) returns (r: Result<nat>)
    ensures r == FirstTouching(edges, p, o, 0)
  {
    var i := 0;
    while i < |edges|
      invariant 0 <= i <= |edges|
      invariant FirstTouching(edges, p, o, i) == FirstTouching(edges, p, o, 0)
    {
      var e := edges[i];
      if (Near(e.p1, p) && e.p2 != o) || (Near(e.p2, p) && e.p1 != o) {
        return Ok(i);
      }
      i := i + 1;
    }
    r := Panic("Edge not found");
  }

  /** find_p: 2 when the side's p1 is the end near corner p (so it is left by p2), else 1. */
  function FindP(e: Edge, p: XY): (r: nat)
    ensures r == 1 || r == 2
    ensures r == 2 <==> Near(e.p1, p)
  {
    if Near(e.p1, p) then 2 else 1
  }

  /** The corner a side is left by (p2 when the selector is 2), and the corner it was entered by. */
  function Exit(e: Edge, p: nat): XY { if p == 2 then e.p2 else e.p1 }
  function Entry(e: Edge, p: nat): XY { if p == 2 then e.p1 else e.p2 }

  /** A step of make_links' walk: the side reached and the selector it is left by. */
  datatype Hop = Hop(side: nat, sel: nat)

  /**
    * One step of make_links' walk: from side curr, left by the corner the selector p names, to the
    * first side touching that corner (other than back along curr), with its own selector.
    */
  function LinkStep(edges: seq<Edge>, curr: nat, p: nat): (r: Result<Hop>)
    requires curr < |edges|
    ensures r.Ok? ==> r.value.side < |edges| && (r.value.sel == 1 || r.value.sel == 2)
    ensures r.Ok? ==> Touches(edges[r.value.side], Exit(edges[curr], p), Entry(edges[curr], p))
    ensures r.Ok? ==> (r.value.sel == 2 <==> Near(edges[r.value.side].p1, Exit(edges[curr], p)))
  {
    var e := edges[curr];
    match FirstTouching(edges, Exit(e, p), Entry(e, p), 0)
    case Panic(m) => Panic(m)
    case Ok(next) => Ok(Hop(next, FindP(edges[next], Exit(e, p))))
  }

  /** The sides visited by k steps of the walk from (curr, p): k + 1 indices, or the walk's panic. */
  function Trace(edges: seq<Edge>, curr: nat, p: nat, k: nat): (r: Result<seq<nat>>)
    requires curr < |edges|
    ensures r.Ok? ==> |r.value| == k + 1 && r.value[0] == curr
    ensures r.Ok? ==> forall j :: 0 <= j < |r.value| ==> r.value[j] < |edges|
    decreases k
  {
    if k == 0 then Ok([curr])
    else
      match LinkStep(edges, curr, p)
      case Panic(m) => Panic(m)
      case Ok(Hop(next, q)) =>
        match Trace(edges, next, q, k - 1)
        case Panic(m) => Panic(m)
        case Ok(t) => Ok([curr] + t)
  }

  /** An entry of make_links' result: the side before (.0) and the side after (.1) round the outline. */
  datatype Link = Link(prev: nat, next: nat)

  /** vec![(0, 0); n] */
  function Unlinked(n: nat): (r: seq<Link>)
    ensures |r| == n && forall i :: 0 <= i < n ==> r[i] == Link(0, 0)
  {
    if n == 0 then [] else Unlinked(n - 1) + [Link(0, 0)]
  }

  /** One iteration's writes: links[curr].1 = next, then links[next].0 = curr. */
  function Wire(links: seq<Link>, curr: nat, next: nat): (r: seq<Link>)
    requires curr < |links| && next < |links|
    ensures |r| == |links|
  {
    var l1 := links[curr := links[curr].(next := next)];
    l1[next := l1[next].(prev := curr)]
  }

  /** The writes of a whole walk t, one Wire per consecutive pair. */
  function WireAlong(links: seq<Link>, t: seq<nat>): (r: seq<Link>)
    requires forall j :: 0 <= j < |t| ==> t[j] < |links|
    ensures |r| == |links|
    decreases |t|
  {
    if |t| <= 1 then links
    else WireAlong(Wire(links, t[0], t[1]), t[1..])
  }

  /** The loop of make_links from side curr with selector p and `remaining` iterations to go. */
  function LinksLoop(edges: seq<Edge>, links: seq<Link>, curr: nat, p: nat, remaining: nat): (r: Result<seq<Link>>)
    requires |links| == |edges| && (remaining > 0 ==> curr < |edges|)
    ensures r.Ok? ==> |r.value| == |links|
    decreases remaining
  {
    if remaining == 0 then Ok(links)
    else
      match LinkStep(edges, curr, p)
      case Panic(m) => Panic(m)
      case Ok(Hop(next, q)) => LinksLoop(edges, Wire(links, curr, next), next, q, remaining - 1)
  }

  /** A successful step of the walk, then the rest of the loop from the side it reaches. */
  lemma LinksLoopStep(edges: seq<Edge>, links: seq<Link>, curr: nat, p: nat, k: nat, next: nat, q: nat)
    requires |links| == |edges| && curr < |edges| && k > 0
    requires LinkStep(edges, curr, p) == Ok(Hop(next, q))
    ensures LinksLoop(edges, links, curr, p, k) == LinksLoop(edges, Wire(links, curr, next), next, q, k - 1)
  {
  }

  /** The loop's result is the walk's writes: it panics exactly when the walk does. */
  lemma {:induction false} LinksLoopIsWireAlong(edges: seq<Edge>, links: seq<Link>, curr: nat, p: nat, k: nat)
    requires |links| == |edges| && curr < |edges|
    ensures LinksLoop(edges, links, curr, p, k).Ok? <==> Trace(edges, curr, p, k).Ok?
    ensures Trace(edges, curr, p, k).Ok? ==>
      LinksLoop(edges, links, curr, p, k).value == WireAlong(links, Trace(edges, curr, p, k).value)
    decreases k
  {
    if k > 0 {
      match LinkStep(edges, curr, p)
      case Panic(_) =>
      case Ok(Hop(next, q)) =>
        LinksLoopIsWireAlong(edges, Wire(links, curr, next), next, q, k - 1);
        match Trace(edges, next, q, k - 1)
        case Panic(_) =>
        case Ok(t) =>
          assert ([curr] + t)[1..] == t;
    }
  }

  /**
    * make_links: walk edges.len() steps round the outline from side 0, leaving it by p2, and
    * record for each step links[curr].1 = next and links[next].0 = curr. A corner no other side
    * touches panics in get_edge.
    */
  method MakeLinks(edges: seq<Edge>) returns (r: Result<seq<Link>>)
    ensures r == LinksLoop(edges, Unlinked(|edges|), 0, 2, |edges|)
  {
    var n := |edges|;
    var links: seq<Link> := Unlinked(n);
    var currIdx: nat := 0;
    var p: nat := 2;
    var visited := 0;
    while visited < n
      invariant 0 <= visited <= n && |links| == n
      invariant visited < n ==> currIdx < n
      invariant LinksLoop(edges, links, currIdx, p, n - visited) == LinksLoop(edges, Unlinked(n), 0, 2, n)
    {
      var hop := NextSide(edges, currIdx, p);
      if hop.Panic? {
        return Panic(hop.msg);
      }
      var next := hop.value.side;
      LinksLoopStep(edges, links, currIdx, p, n - visited, next, hop.value.sel);
      links := Wire(links, currIdx, next);
      p := hop.value.sel;
      currIdx := next;
      visited := visited + 1;
    }
    r := Ok(links);
  }

  /** The lookups of one iteration of make_links: the next side round the outline and its selector. */
  method NextSide(edges: seq<Edge>, currIdx: nat, p: nat) returns (r: Result<Hop>)
    requires currIdx < |edges|
    ensures r == LinkStep(edges, currIdx, p)
  {
    var curr := edges[currIdx];
    var nextIdx: Result<nat>;
    if p == 2 {
      nextIdx := GetEdge(curr.p2, curr.p1, edges);
    } else {
      nextIdx := GetEdge(curr.p1, curr.p2, edges);
    }
    assert Exit(curr, p) == (if p == 2 then curr.p2 else curr.p1);
    assert Entry(curr, p) == (if p == 2 then curr.p1 else curr.p2);
    if nextIdx.Panic? {
      return Panic(nextIdx.msg);
    }
    var next := nextIdx.value;
    var q := FindP(edges[next], if p == 2 then curr.p2 else curr.p1);
    r := Ok(Hop(next, q));
  }

  /** Writes along t leave x's next alone unless x is left from, and its prev unless x is entered. */
  lemma {:induction false} WireAlongFrame(links: seq<Link>, t: seq<nat>, x: nat)
    requires forall j :: 0 <= j < |t| ==> t[j] < |links|
    requires x < |links|
    ensures (forall i :: 0 <= i < |t| - 1 ==> t[i] != x) ==> WireAlong(links, t)[x].next == links[x].next
    ensures (forall i :: 1 <= i < |t| ==> t[i] != x) ==> WireAlong(links, t)[x].prev == links[x].prev
    decreases |t|
  {
    if |t| > 1 {
      WireAlongFrame(Wire(links, t[0], t[1]), t[1..], x);
    }
  }

  /**
    * After the writes of walk t, a side left at step j and never left again links forward to the
    * next side, and a side entered at step j + 1 and never entered again links back to t[j].
    */
  lemma {:induction false} WireAlongLinks(links: seq<Link>, t: seq<nat>, j: nat)
    requires forall i :: 0 <= i < |t| ==> t[i] < |links|
    requires j + 1 < |t|
    ensures (forall i :: j < i < |t| - 1 ==> t[i] != t[j]) ==> WireAlong(links, t)[t[j]].next == t[j + 1]
    ensures (forall i :: j + 1 < i < |t| ==> t[i] != t[j + 1]) ==> WireAlong(links, t)[t[j + 1]].prev == t[j]
    decreases j
  {
    var w := Wire(links, t[0], t[1]);
    if j == 0 {
      WireAlongFrame(w, t[1..], t[0]);
      WireAlongFrame(w, t[1..], t[1]);
    } else {
      WireAlongLinks(w, t[1..], j - 1);
    }
  }

  /**
    * When the walk of make_links closes into a cycle (n distinct sides, then back to the first),
    * each side's forward link leads to the next side of the cycle, whose back link leads back to
    * it: links[links[i].1].0 == i all round the outline.
    */
  lemma {:induction false} LinksAroundCycle(edges: seq<Edge>, t: seq<nat>, links: seq<Link>)
    requires |edges| > 0 && Trace(edges, 0, 2, |edges|) == Ok(t)
    requires forall a, b :: 0 <= a < b < |edges| ==> t[a] != t[b]
    requires t[|edges|] == t[0]
    requires LinksLoop(edges, Unlinked(|edges|), 0, 2, |edges|) == Ok(links)
    ensures forall j :: 0 <= j < |edges| ==> links[t[j]].next == t[j + 1] && links[t[j + 1]].prev == t[j]
  {
    var n := |edges|;
    var init: seq<Link> := Unlinked(n);
    LinksLoopIsWireAlong(edges, init, 0, 2, n);
    assert links == WireAlong(init, t);
    forall j | 0 <= j < n
      ensures links[t[j]].next == t[j + 1] && links[t[j + 1]].prev == t[j]
    {
      WireAlongLinks(init, t, j);
      assert forall i :: j < i < n ==> t[i] != t[j];
      forall i | j + 1 < i < n + 1
        ensures t[i] != t[j + 1]
      {
        if i == n {
          assert t[j + 1] != t[0];
        }
      }
    }
  }
}
