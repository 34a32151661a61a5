/**
 * Day 18 (Boiling Boulders): lava droplets are unit cubes at u32 grid positions. Part 1 counts
 * the cube faces not covered by another cube; part 2 counts only those whose empty neighbour can
 * reach the edge of the droplet's bounding box, found by a memoised stack flood fill.
 */
module Day18 {
  import opened Wrappers
  import Text

  const U32: nat := 0x1_0000_0000

  /** Position: three u32 coordinates. */
  datatype Position = Position(x: nat, y: nat, z: nat)

  predicate InU32(p: Position) { p.x < U32 && p.y < U32 && p.z < U32 }

  /** Position::new: a coordinate of 0 panics. */
  function NewPosition(x: nat, y: nat, z: nat): (r: Result<Position>)
    ensures r.Ok? <==> x != 0 && y != 0 && z != 0
    ensures r.Ok? ==> r.value == Position(x, y, z)
  {
    if x == 0 || y == 0 || z == 0 then
      Panic("Expecting coordinates > 1, but received (" + Text.DigitsOf(x) + "," + Text.DigitsOf(y) + "," + Text.DigitsOf(z) + ")")
    else Ok(Position(x, y, z))
  }

  /** `(v as isize + c) as u32`: the sum cut to its low 32 bits. */
  function Wrap(v: nat, c: int): nat
  {
    (v + c) % U32
  }

  /** Position::change_x: one step along x, by -1 or 1 only; change_y and change_z likewise. */
  function ChangeX(p: Position, c: int): Result<Position>
  {
    if c != -1 && c != 1 then Panic("Unexpected value, expecting either -1 or 1") else Ok(p.(x := Wrap(p.x, c)))
  }

  function ChangeY(p: Position, c: int): Result<Position>
  {
    if c != -1 && c != 1 then Panic("Unexpected value, expecting either -1 or 1") else Ok(p.(y := Wrap(p.y, c)))
  }

  function ChangeZ(p: Position, c: int): Result<Position>
  {
    if c != -1 && c != 1 then Panic("Unexpected value, expecting either -1 or 1") else Ok(p.(z := Wrap(p.z, c)))
  }

  /** Stepping back undoes a step: the other coordinates never move, and the wrap-around is undone too. */
  lemma WrapBack(v: nat, c: int)
    requires v < U32 && (c == -1 || c == 1)
    ensures Wrap(v, c) < U32 && Wrap(Wrap(v, c), -c) == v
  {
    var w := Wrap(v, c);
    if v + c == -1 {
      assert w == U32 - 1;
    } else if v + c == U32 {
      assert w == 0;
    } else {
      assert w == v + c;
    }
  }

  /** The change_* steps accept exactly -1 and 1, move one coordinate, and are undone by the opposite step. */
  lemma ChangeRoundTrip(p: Position, c: int)
    requires InU32(p)
    ensures ChangeX(p, c).Ok? <==> c == -1 || c == 1
    ensures ChangeY(p, c).Ok? <==> c == -1 || c == 1
    ensures ChangeZ(p, c).Ok? <==> c == -1 || c == 1
    ensures ChangeX(p, c).Ok? ==> ChangeX(p, c).value.y == p.y && ChangeX(p, c).value.z == p.z && ChangeX(ChangeX(p, c).value, -c) == Ok(p)
    ensures ChangeY(p, c).Ok? ==> ChangeY(p, c).value.x == p.x && ChangeY(p, c).value.z == p.z && ChangeY(ChangeY(p, c).value, -c) == Ok(p)
    ensures ChangeZ(p, c).Ok? ==> ChangeZ(p, c).value.x == p.x && ChangeZ(p, c).value.y == p.y && ChangeZ(ChangeZ(p, c).value, -c) == Ok(p)
  {
    if c == -1 || c == 1 {
      WrapBack(p.x, c);
      WrapBack(p.y, c);
      WrapBack(p.z, c);
    }
  }

  /** The six neighbours in the order the loops visit them: x-1, x+1, y-1, y+1, z-1, z+1. */
  function Neighbours(p: Position): (r: seq<Position>)
    ensures |r| == 6
  {
    [p.(x := Wrap(p.x, -1)), p.(x := Wrap(p.x, 1)),
     p.(y := Wrap(p.y, -1)), p.(y := Wrap(p.y, 1)),
     p.(z := Wrap(p.z, -1)), p.(z := Wrap(p.z, 1))]
  }

  /** Neighbours are what the change_* steps by -1 and 1 reach. */
  lemma NeighboursAreSteps(p: Position)
    ensures Neighbours(p) ==
      [ChangeX(p, -1).value, ChangeX(p, 1).value, ChangeY(p, -1).value,
       ChangeY(p, 1).value, ChangeZ(p, -1).value, ChangeZ(p, 1).value]
  {
  }

  // ------------------------------------------------------------------
  // Sums over the set of cubes, in any order
  // ------------------------------------------------------------------

  /** The bounding box part2 computes: the smallest and largest coordinate on each axis. */
  datatype Box = Box(lo: Position, hi: Position)

  /** What is counted for each cube: its uncovered faces (part1), or those that reach the box's edge (part2). */
  datatype Tally = Faces | OpenFaces(b: Box)

  /** The number of these positions that are not cubes. */
  function Missing(cubes: set<Position>, ps: seq<Position>): (r: nat)
    ensures r <= |ps|
    decreases |ps|
  {
    if ps == [] then 0
    else Missing(cubes, ps[..|ps| - 1]) + (if ps[|ps| - 1] !in cubes then 1 else 0)
  }

  /** The number of these positions that are not cubes and from which the box's edge is reachable. */
  ghost function Escaping(cubes: set<Position>, b: Box, ps: seq<Position>): (r: nat)
    decreases |ps|
  {
    if ps == [] then 0
    else Escaping(cubes, b, ps[..|ps| - 1]) + (if ps[|ps| - 1] !in cubes && Open(cubes, b, ps[|ps| - 1]) then 1 else 0)
  }

  /** The faces of cube p a tally counts. */
  ghost function Count(cubes: set<Position>, t: Tally, p: Position): nat
  {
    match t
    case Faces => Missing(cubes, Neighbours(p))
    case OpenFaces(b) => Escaping(cubes, b, Neighbours(p))
  }

  /** The tally summed over a set of cubes, in no particular order. */
  ghost function SumOver(cubes: set<Position>, t: Tally, part: set<Position>): nat
    decreases part
  {
    if part == {} then 0
    else
      var p :| p in part;
      Count(cubes, t, p) + SumOver(cubes, t, part - {p})
  }

  /** The sum does not depend on which cube is taken first: any one can be split off. */
  lemma {:induction false} SumOverRemove(cubes: set<Position>, t: Tally, part: set<Position>, q: Position)
    requires q in part
    ensures SumOver(cubes, t, part) == Count(cubes, t, q) + SumOver(cubes, t, part - {q})
    decreases part
  {
    var p :| p in part && SumOver(cubes, t, part) == Count(cubes, t, p) + SumOver(cubes, t, part - {p});
    if p != q {
      SumOverRemove(cubes, t, part - {p}, q);
      SumOverRemove(cubes, t, part - {q}, p);
      assert part - {p} - {q} == part - {q} - {p};
    }
  }

  /** part1's answer: the uncovered faces of all cubes. */
  ghost function SurfaceArea(cubes: set<Position>): nat
  {
    SumOver(cubes, Faces, cubes)
  }

  /** part2's answer: the uncovered faces whose outside reaches the edge of the bounding box. */
  ghost function ExteriorArea(cubes: set<Position>): nat
  {
    SumOver(cubes, OpenFaces(BoxOf(cubes)), cubes)
  }

  /** Counting only faces that escape counts no more than part1 does, face by face. */
  lemma {:induction false} EscapingAtMostMissing(cubes: set<Position>, b: Box, ps: seq<Position>)
    ensures Escaping(cubes, b, ps) <= Missing(cubes, ps)
    decreases |ps|
  {
    if ps != [] {
      EscapingAtMostMissing(cubes, b, ps[..|ps| - 1]);
    }
  }

  /** So the exterior area never exceeds the surface area. */
  lemma {:induction false} ExteriorAtMostSurface(cubes: set<Position>, b: Box, part: set<Position>)
    ensures SumOver(cubes, OpenFaces(b), part) <= SumOver(cubes, Faces, part)
    decreases part
  {
    if part != {} {
      var p :| p in part;
      SumOverRemove(cubes, OpenFaces(b), part, p);
      SumOverRemove(cubes, Faces, part, p);
      EscapingAtMostMissing(cubes, b, Neighbours(p));
      ExteriorAtMostSurface(cubes, b, part - {p});
    }
  }

  lemma Part2AtMostPart1(cubes: set<Position>)
    ensures ExteriorArea(cubes) <= SurfaceArea(cubes)
  {
    ExteriorAtMostSurface(cubes, BoxOf(cubes), cubes);
  }

  /** The uncovered faces of one cube: the `for c in [-1, 1]` loops over x, y and z. */
  method CountFaces(cubes: set<Position>, p: Position) returns (n: nat)
    ensures n == Missing(cubes, Neighbours(p))
  {
    var ns := Neighbours(p);
    n := 0;
    for k := 0 to 6
      invariant n == Missing(cubes, ns[..k])
    {
      assert ns[..k + 1][..k] == ns[..k];
      if ns[k] !in cubes {
        n := n + 1;
      }
    }
    assert ns[..6] == ns;
  }

  /** part1: every cube of the set, in the set's own order, adds its uncovered faces. */
  method Part1(cubes: set<Position>) returns (count: nat)
    ensures count == SurfaceArea(cubes)
  {
    count := 0;
    var rest := cubes;
    while rest != {}
      invariant rest <= cubes
      invariant count + SumOver(cubes, Faces, rest) == SumOver(cubes, Faces, cubes)
      decreases rest
    {
      var p :| p in rest;
      var n := CountFaces(cubes, p);
      SumOverRemove(cubes, Faces, rest, p);
      count := count + n;
      rest := rest - {p};
    }
  }

  // ------------------------------------------------------------------
  // The bounding box
  // ------------------------------------------------------------------

  function Min(a: nat, b: nat): nat { if a <= b then a else b }
  function Max(a: nat, b: nat): nat { if a >= b then a else b }

  /** The box part2 starts from: lowest corner at u32::MAX, highest at 1. */
  const StartBox: Box := Box(Position(U32 - 1, U32 - 1, U32 - 1), Position(1, 1, 1))

  /** One iteration of the box loop: each corner coordinate moves out to the cube if need be. */
  function Widen(b: Box, p: Position): Box
  {
    Box(Position(Min(b.lo.x, p.x), Min(b.lo.y, p.y), Min(b.lo.z, p.z)),
        Position(Max(b.hi.x, p.x), Max(b.hi.y, p.y), Max(b.hi.z, p.z)))
  }

  /** The box after the loop, whatever order the cubes come in. */
  ghost function BoxOf(part: set<Position>): Box
    decreases part
  {
    if part == {} then StartBox
    else
      var p :| p in part;
      Widen(BoxOf(part - {p}), p)
  }

  /** Widening by two cubes gives the same box in either order. */
  lemma WidenCommutes(b: Box, p: Position, q: Position)
    ensures Widen(Widen(b, p), q) == Widen(Widen(b, q), p)
  {
  }

  /** The box does not depend on which cube is taken first. */
  lemma {:induction false} BoxOfRemove(part: set<Position>, q: Position)
    requires q in part
    ensures BoxOf(part) == Widen(BoxOf(part - {q}), q)
    decreases part
  {
    var p :| p in part && BoxOf(part) == Widen(BoxOf(part - {p}), p);
    if p != q {
      BoxOfRemove(part - {p}, q);
      BoxOfRemove(part - {q}, p);
      assert part - {p} - {q} == part - {q} - {p};
      WidenCommutes(BoxOf(part - {p} - {q}), p, q);
    }
  }

  /** A coordinate by axis number: 0 is x, 1 is y, 2 is z. */
  function Coord(p: Position, a: nat): nat
    requires a < 3
  {
    if a == 0 then p.x else if a == 1 then p.y else p.z
  }

  lemma WidenAxis(b: Box, p: Position, a: nat)
    requires a < 3
    ensures Coord(Widen(b, p).lo, a) == Min(Coord(b.lo, a), Coord(p, a))
    ensures Coord(Widen(b, p).hi, a) == Max(Coord(b.hi, a), Coord(p, a))
  {
  }

  /** On each axis the box's low corner is a u32 coordinate and its high corner a positive u32 one. */
  lemma {:induction false} BoxOfLimits(part: set<Position>, a: nat)
    requires a < 3 && forall c :: c in part ==> InU32(c)
    ensures Coord(BoxOf(part).lo, a) < U32 && 1 <= Coord(BoxOf(part).hi, a) < U32
    decreases part
  {
    if part != {} {
      var p :| p in part && BoxOf(part) == Widen(BoxOf(part - {p}), p);
      BoxOfLimits(part - {p}, a);
      WidenAxis(BoxOf(part - {p}), p, a);
    }
  }

  /** On each axis every cube lies between the box's corners. */
  lemma {:induction false} BoxOfEncloses(part: set<Position>, a: nat)
    requires a < 3
    ensures forall c :: c in part ==> Coord(BoxOf(part).lo, a) <= Coord(c, a) <= Coord(BoxOf(part).hi, a)
    decreases part
  {
    if part != {} {
      var p :| p in part && BoxOf(part) == Widen(BoxOf(part - {p}), p);
      BoxOfEncloses(part - {p}, a);
      WidenAxis(BoxOf(part - {p}), p, a);
    }
  }

  /**
    * On each axis the corners are attained by some cube, unless they are still where the loop
    * started them (u32::MAX for the low corner, 1 for the high one).
    */
  lemma {:induction false} BoxOfAttained(part: set<Position>, a: nat)
    requires a < 3
    ensures Coord(BoxOf(part).lo, a) == U32 - 1 || exists c :: c in part && Coord(c, a) == Coord(BoxOf(part).lo, a)
    ensures Coord(BoxOf(part).hi, a) == 1 || exists c :: c in part && Coord(c, a) == Coord(BoxOf(part).hi, a)
    decreases part
  {
    if part != {} {
      var p :| p in part && BoxOf(part) == Widen(BoxOf(part - {p}), p);
      BoxOfAttained(part - {p}, a);
      WidenAxis(BoxOf(part - {p}), p, a);
    }
  }

  /** The box of u32 cubes has u32 corners. */
  lemma BoxOfIn(part: set<Position>)
    requires forall c :: c in part ==> InU32(c)
    ensures BoxIn(BoxOf(part))
  {
    BoxOfLimits(part, 0);
    BoxOfLimits(part, 1);
    BoxOfLimits(part, 2);
  }

  /** The first loop of part2: widen the starting box by every cube. */
  method BoundingBox(cubes: set<Position>) returns (b: Box)
    ensures b == BoxOf(cubes)
  {
    b := StartBox;
    var rest := cubes;
    ghost var done: set<Position> := {};
    while rest != {}
      invariant rest <= cubes && done == cubes - rest
      invariant b == BoxOf(done)
      decreases rest
    {
      var p :| p in rest;
      BoxOfRemove(done + {p}, p);
      assert done + {p} - {p} == done;
      b := Widen(b, p);
      rest := rest - {p};
      done := done + {p};
    }
    assert done == cubes;
  }

  // ------------------------------------------------------------------
  // is_space_open: the flood fill
  // ------------------------------------------------------------------

  /** The test that ends the flood fill with "open": the cell lies on or outside the box. */
  predicate OnEdge(b: Box, c: Position)
  {
    c.x <= b.lo.x || c.x >= b.hi.x || c.y <= b.lo.y || c.y >= b.hi.y || c.z <= b.lo.z || c.z >= b.hi.z
  }

  /** An empty cell strictly inside the box: the flood fill spreads through it. */
  predicate Inside(cubes: set<Position>, b: Box, c: Position)
  {
    c !in cubes && !OnEdge(b, c)
  }

  /** A walk through empty cells strictly inside the box, each a neighbour of the one before. */
  ghost predicate Walk(cubes: set<Position>, b: Box, w: seq<Position>)
  {
    |w| >= 1 &&
    (forall i :: 0 <= i < |w| ==> Inside(cubes, b, w[i])) &&
    (forall i :: 0 <= i < |w| - 1 ==> w[i + 1] in Neighbours(w[i]))
  }

  /**
    * A way out: empty cells strictly inside the box, each a neighbour of the one before, and
    * last an empty cell on the box's edge (the way out of a cell on the edge is that cell alone).
    */
  ghost predicate Escape(cubes: set<Position>, b: Box, w: seq<Position>)
  {
    |w| >= 1 &&
    (forall i :: 0 <= i < |w| - 1 ==> Inside(cubes, b, w[i]) && w[i + 1] in Neighbours(w[i])) &&
    w[|w| - 1] !in cubes && OnEdge(b, w[|w| - 1])
  }

  /** What is_space_open decides: some way out starts at c. */
  ghost predicate Open(cubes: set<Position>, b: Box, c: Position)
  {
    exists w :: Escape(cubes, b, w) && w[0] == c
  }

  /** The box's corners are u32 positions, so cells strictly inside it step to their neighbours without wrapping. */
  predicate BoxIn(b: Box) { InU32(b.lo) && InU32(b.hi) }

  /** empty_status only ever records, for cells strictly inside the box, whether they are open. */
  ghost predicate MemoSound(cubes: set<Position>, b: Box, memo: map<Position, bool>)
  {
    forall c :: c in memo ==> Inside(cubes, b, c) && memo[c] == Open(cubes, b, c)
  }

  /** Neighbourhood is symmetric for a cell strictly inside a u32 box. */
  /** Strictly between two u32 values, a step either way does not wrap and is undone by the other. */
  lemma StepInside(v: nat, lo: nat, hi: nat)
    requires lo < v < hi < U32
    ensures Wrap(v, -1) == v - 1 && Wrap(v, 1) == v + 1 && Wrap(v - 1, 1) == v && Wrap(v + 1, -1) == v
  {
  }

  lemma NeighbourBack(b: Box, u: Position, v: Position)
    requires BoxIn(b) && !OnEdge(b, u) && v in Neighbours(u)
    ensures u in Neighbours(v)
  {
    StepInside(u.x, b.lo.x, b.hi.x);
    StepInside(u.y, b.lo.y, b.hi.y);
    StepInside(u.z, b.lo.z, b.hi.z);
    var k :| 0 <= k < 6 && Neighbours(u)[k] == v;
    var back := if k % 2 == 0 then k + 1 else k - 1;
    assert Neighbours(v)[back] == u;
  }

  /** A walk followed by a way out of its last cell is a way out of its first. */
  lemma WalkThenEscape(cubes: set<Position>, b: Box, w: seq<Position>, e: seq<Position>)
    requires Walk(cubes, b, w) && Escape(cubes, b, e) && e[0] == w[|w| - 1]
    ensures Escape(cubes, b, w[..|w| - 1] + e)
  {
    var s := w[..|w| - 1] + e;
    forall i | 0 <= i < |s| - 1
      ensures Inside(cubes, b, s[i]) && s[i + 1] in Neighbours(s[i])
    {
      if i < |w| - 1 {
        assert s[i] == w[i];
        if i + 1 < |w| - 1 {
          assert s[i + 1] == w[i + 1];
        } else {
          assert s[i + 1] == e[0] == w[i + 1];
        }
      } else {
        assert s[i] == e[i - (|w| - 1)] && s[i + 1] == e[i + 1 - (|w| - 1)];
      }
    }
  }

  /** A walk read backwards is a walk. */
  lemma WalkBackwards(cubes: set<Position>, b: Box, w: seq<Position>) returns (v: seq<Position>)
    requires BoxIn(b) && Walk(cubes, b, w)
    ensures Walk(cubes, b, v) && |v| == |w| && v[0] == w[|w| - 1] && v[|v| - 1] == w[0]
  {
    v := seq(|w|, i requires 0 <= i < |w| => w[|w| - 1 - i]);
    forall i | 0 <= i < |v| - 1
      ensures v[i + 1] in Neighbours(v[i])
    {
      var j := |w| - 2 - i;
      assert v[i] == w[j + 1] && v[i + 1] == w[j];
      NeighbourBack(b, w[j], w[j + 1]);
    }
  }

  /** Cells joined by a walk are open together. */
  lemma WalkOpenBoth(cubes: set<Position>, b: Box, w: seq<Position>)
    requires BoxIn(b) && Walk(cubes, b, w)
    ensures Open(cubes, b, w[0]) <==> Open(cubes, b, w[|w| - 1])
  {
    if Open(cubes, b, w[|w| - 1]) {
      var e :| Escape(cubes, b, e) && e[0] == w[|w| - 1];
      WalkThenEscape(cubes, b, w, e);
      assert (w[..|w| - 1] + e)[0] == w[0];
    }
    if Open(cubes, b, w[0]) {
      var e :| Escape(cubes, b, e) && e[0] == w[0];
      var v := WalkBackwards(cubes, b, w);
      WalkThenEscape(cubes, b, v, e);
      assert (v[..|v| - 1] + e)[0] == v[0];
    }
  }

  /** Extending a walk by a neighbour strictly inside the box. */
  lemma WalkStep(cubes: set<Position>, b: Box, w: seq<Position>, c: Position)
    requires Walk(cubes, b, w) && Inside(cubes, b, c) && c in Neighbours(w[|w| - 1])
    ensures Walk(cubes, b, w + [c])
  {
    var s := w + [c];
    forall i | 0 <= i < |s| - 1
      ensures s[i + 1] in Neighbours(s[i])
    {
      if i < |w| - 1 {
        assert s[i] == w[i] && s[i + 1] == w[i + 1];
      }
    }
  }

  /** A walk that ends beside an empty cell on the edge is a way out. */
  lemma WalkToEdge(cubes: set<Position>, b: Box, w: seq<Position>, c: Position)
    requires Walk(cubes, b, w) && c !in cubes && OnEdge(b, c) && c in Neighbours(w[|w| - 1])
    ensures Escape(cubes, b, w + [c])
  {
    var s := w + [c];
    forall i | 0 <= i < |s| - 1
      ensures Inside(cubes, b, s[i]) && s[i + 1] in Neighbours(s[i])
    {
      assert s[i] == w[i];
      if i < |w| - 1 {
        assert s[i + 1] == w[i + 1];
      }
    }
  }

  /** Every visited cell is empty, strictly inside the box, and reached from p by a recorded walk. */
  ghost predicate Reached(cubes: set<Position>, b: Box, p: Position, visited: set<Position>, walks: map<Position, seq<Position>>)
  {
    forall v :: v in visited ==>
      Inside(cubes, b, v) && v in walks && Walk(cubes, b, walks[v]) && walks[v][0] == p && walks[v][|walks[v]| - 1] == v
  }

  /** Every stacked cell is empty, and is p or a neighbour of the visited cell recorded beside it. */
  ghost predicate Queued(cubes: set<Position>, p: Position, visited: set<Position>, stack: seq<Position>, via: seq<Position>)
  {
    |via| == |stack| &&
    forall i :: 0 <= i < |stack| ==>
      stack[i] !in cubes && (stack[i] == p || (via[i] in visited && stack[i] in Neighbours(via[i])))
  }

  /** Every empty neighbour of a visited cell is visited or waits on the stack. */
  ghost predicate Closed(cubes: set<Position>, visited: set<Position>, stack: seq<Position>)
  {
    forall v, k :: v in visited && 0 <= k < 6 && Neighbours(v)[k] !in cubes ==>
      Neighbours(v)[k] in visited || Neighbours(v)[k] in stack
  }

  /** The invariant of the flood fill's loop. */
  ghost predicate FillInv(cubes: set<Position>, b: Box, p: Position, visited: set<Position>, stack: seq<Position>,
                          walks: map<Position, seq<Position>>, via: seq<Position>)
  {
    Reached(cubes, b, p, visited, walks) && Queued(cubes, p, visited, stack, via) &&
    Closed(cubes, visited, stack) && (p in visited || p in stack)
  }

  /**
    * Once the stack is exhausted, the visited cells hold all their empty neighbours, so no way
    * out starts at any of them: none of them is on the edge.
    */
  lemma ClosedNotOpen(cubes: set<Position>, b: Box, visited: set<Position>, p: Position)
    requires p in visited
    requires forall v :: v in visited ==> Inside(cubes, b, v)
    requires Closed(cubes, visited, [])
    ensures !Open(cubes, b, p)
  {
    if Open(cubes, b, p) {
      var e :| Escape(cubes, b, e) && e[0] == p;
      var i := 0;
      while i < |e| - 1
        invariant 0 <= i < |e| && e[i] in visited
      {
        var k :| 0 <= k < 6 && Neighbours(e[i])[k] == e[i + 1];
        i := i + 1;
      }
    }
  }

  /** The cells strictly inside the box, of which the fill can visit no more. */
  function Interior(b: Box): set<Position>
  {
    set x: nat, y: nat, z: nat | b.lo.x < x < b.hi.x && b.lo.y < y < b.hi.y && b.lo.z < z < b.hi.z :: Position(x, y, z)
  }

  lemma InsideInterior(cubes: set<Position>, b: Box, c: Position)
    requires Inside(cubes, b, c)
    ensures c in Interior(b)
  {
    assert c == Position(c.x, c.y, c.z);
  }

  lemma Shrinks(all: set<Position>, visited: set<Position>, c: Position)
    requires c in all && c !in visited
    ensures |all - (visited + {c})| < |all - visited|
  {
    assert all - visited == (all - (visited + {c})) + {c};
  }

  lemma SplitLast(s: seq<Position>)
    requires s != []
    ensures s == s[..|s| - 1] + [s[|s| - 1]]
  {
  }

  /** The fill starts with p alone on the stack. */
  lemma FillStart(cubes: set<Position>, b: Box, p: Position)
    requires p !in cubes
    ensures FillInv(cubes, b, p, {}, [p], map[], [p])
  {
  }

  /** Popping a cell already visited keeps the invariant. */
  lemma PopVisited(cubes: set<Position>, b: Box, p: Position, visited: set<Position>, stack: seq<Position>,
                   walks: map<Position, seq<Position>>, via: seq<Position>, curr: Position)
    requires FillInv(cubes, b, p, visited, stack + [curr], walks, via) && curr in visited
    ensures FillInv(cubes, b, p, visited, stack, walks, via[..|stack|])
  {
    var full := stack + [curr];
    assert forall i :: 0 <= i < |stack| ==> stack[i] == full[i];
    forall v, k | v in visited && 0 <= k < 6 && Neighbours(v)[k] !in cubes
      ensures Neighbours(v)[k] in visited || Neighbours(v)[k] in stack
    {
      var q := Neighbours(v)[k];
      if q !in visited {
        var i :| 0 <= i < |full| && full[i] == q;
        assert i < |stack|;
      }
    }
    assert p in visited || p in full;
  }

  /** A popped cell found in empty_status: p is open exactly when that cell is. */
  lemma MemoHit(cubes: set<Position>, b: Box, p: Position, visited: set<Position>, stack: seq<Position>,
                walks: map<Position, seq<Position>>, via: seq<Position>, memo: map<Position, bool>)
    requires BoxIn(b) && p !in cubes && MemoSound(cubes, b, memo)
    requires FillInv(cubes, b, p, visited, stack, walks, via) && stack != [] && stack[|stack| - 1] in memo
    ensures memo[stack[|stack| - 1]] == Open(cubes, b, p)
  {
    var c := stack[|stack| - 1];
    if c != p {
      var u := via[|stack| - 1];
      WalkStep(cubes, b, walks[u], c);
      WalkOpenBoth(cubes, b, walks[u] + [c]);
    }
  }

  /** A popped cell on the edge: p is open. */
  lemma EdgeHit(cubes: set<Position>, b: Box, p: Position, visited: set<Position>, stack: seq<Position>,
                walks: map<Position, seq<Position>>, via: seq<Position>)
    requires p !in cubes
    requires FillInv(cubes, b, p, visited, stack, walks, via) && stack != [] && OnEdge(b, stack[|stack| - 1])
    ensures Open(cubes, b, p)
  {
    var c := stack[|stack| - 1];
    if c == p {
      assert Escape(cubes, b, [p]);
    } else {
      var u := via[|stack| - 1];
      WalkToEdge(cubes, b, walks[u], c);
    }
  }

  /** The empty cells of a list, in order: what the three `for c in [-1, 1]` loops push. */
  function Pushed(cubes: set<Position>, ps: seq<Position>): seq<Position>
    decreases |ps|
  {
    if ps == [] then []
    else Pushed(cubes, ps[..|ps| - 1]) + (if ps[|ps| - 1] !in cubes then [ps[|ps| - 1]] else [])
  }

  /** Exactly the empty cells of the list are pushed. */
  lemma {:induction false} PushedExactly(cubes: set<Position>, ps: seq<Position>)
    ensures forall q :: q in Pushed(cubes, ps) <==> q in ps && q !in cubes
    decreases |ps|
  {
    if ps != [] {
      var front := ps[..|ps| - 1];
      PushedExactly(cubes, front);
      assert ps == front + [ps[|ps| - 1]];
    }
  }

  /** The pushing loops of is_space_open: each empty neighbour of curr goes on the stack, in order. */
  method PushNeighbours(cubes: set<Position>, stack: seq<Position>, curr: Position) returns (stack': seq<Position>)
    ensures stack' == stack + Pushed(cubes, Neighbours(curr))
  {
    var ns := Neighbours(curr);
    stack' := stack;
    for k := 0 to 6
      invariant stack' == stack + Pushed(cubes, ns[..k])
    {
      assert ns[..k + 1][..k] == ns[..k];
      if ns[k] !in cubes {
        stack' := stack' + [ns[k]];
      }
    }
    assert ns[..6] == ns;
  }

  /** The walk to a newly visited cell: p itself, or the walk to the cell it was pushed from, one step on. */
  lemma WalkTo(cubes: set<Position>, b: Box, p: Position, visited: set<Position>, stack: seq<Position>,
               walks: map<Position, seq<Position>>, via: seq<Position>, curr: Position)
    returns (w: seq<Position>)
    requires FillInv(cubes, b, p, visited, stack + [curr], walks, via) && Inside(cubes, b, curr)
    ensures Walk(cubes, b, w) && w[0] == p && w[|w| - 1] == curr
  {
    var full := stack + [curr];
    assert full[|stack|] == curr;
    if curr == p {
      w := [p];
    } else {
      var u := via[|stack|];
      WalkStep(cubes, b, walks[u], curr);
      w := walks[u] + [curr];
    }
  }

  /** Recording that walk keeps every visited cell reached. */
  lemma ReachedAdd(cubes: set<Position>, b: Box, p: Position, visited: set<Position>,
                   walks: map<Position, seq<Position>>, curr: Position, w: seq<Position>)
    requires Reached(cubes, b, p, visited, walks) && Inside(cubes, b, curr)
    requires Walk(cubes, b, w) && w[0] == p && w[|w| - 1] == curr
    ensures Reached(cubes, b, p, visited + {curr}, walks[curr := w])
  {
  }

  /** The stack after an expansion: the old entries keep their record, the pushed ones record curr. */
  lemma QueuedAdd(cubes: set<Position>, p: Position, visited: set<Position>, stack: seq<Position>,
                  via: seq<Position>, curr: Position)
    returns (via': seq<Position>)
    requires Queued(cubes, p, visited, stack + [curr], via)
    ensures Queued(cubes, p, visited + {curr}, stack + Pushed(cubes, Neighbours(curr)), via')
  {
    var pushed := Pushed(cubes, Neighbours(curr));
    PushedExactly(cubes, Neighbours(curr));
    via' := via[..|stack|] + seq(|pushed|, _ => curr);
    var full := stack + [curr];
    var next := stack + pushed;
    forall i | 0 <= i < |next|
      ensures next[i] !in cubes && (next[i] == p || (via'[i] in visited + {curr} && next[i] in Neighbours(via'[i])))
    {
      if i < |stack| {
        assert next[i] == full[i] && via'[i] == via[i];
      } else {
        assert next[i] == pushed[i - |stack|] && via'[i] == curr;
      }
    }
  }

  /** Visiting curr after pushing its empty neighbours keeps the closure. */
  lemma ClosedAdd(cubes: set<Position>, p: Position, visited: set<Position>, stack: seq<Position>, curr: Position)
    requires Closed(cubes, visited, stack + [curr]) && (p in visited || p in stack + [curr])
    ensures Closed(cubes, visited + {curr}, stack + Pushed(cubes, Neighbours(curr)))
    ensures p in visited + {curr} || p in stack + Pushed(cubes, Neighbours(curr))
  {
    var pushed := Pushed(cubes, Neighbours(curr));
    PushedExactly(cubes, Neighbours(curr));
    var full := stack + [curr];
    var next := stack + pushed;
    forall v, k | v in visited + {curr} && 0 <= k < 6 && Neighbours(v)[k] !in cubes
      ensures Neighbours(v)[k] in visited + {curr} || Neighbours(v)[k] in next
    {
      var q := Neighbours(v)[k];
      if v == curr {
        assert q in pushed;
      } else if q !in visited && q != curr {
        assert q in full;
        var i :| 0 <= i < |full| && full[i] == q;
        assert next[i] == q;
      }
    }
    if p !in visited && p != curr {
      var i :| 0 <= i < |full| && full[i] == p;
      assert next[i] == p;
    }
  }

  /**
    * is_space_open: pop cells, skip visited ones, stop at a cell empty_status knows or at one on
    * the box's edge, and otherwise push the cell's empty neighbours and mark it visited; finally
    * record the answer for every visited cell. The answer is whether a way out starts at p.
    */
  method IsSpaceOpen(p: Position, cubes: set<Position>, b: Box, memo: map<Position, bool>)
    returns (open: bool, memo': map<Position, bool>)
    requires p !in cubes && BoxIn(b) && MemoSound(cubes, b, memo)
    ensures open == Open(cubes, b, p)
    ensures MemoSound(cubes, b, memo')
    ensures memo.Keys <= memo'.Keys
  {
    var visited: set<Position> := {};
    var stack: seq<Position> := [p];
    ghost var walks: map<Position, seq<Position>> := map[];
    ghost var via: seq<Position> := [p];
    FillStart(cubes, b, p);
    open := false;
    ghost var settled := false;
    while stack != []
      invariant FillInv(cubes, b, p, visited, stack, walks, via)
      invariant visited <= Interior(b)
      invariant !open && !settled
      decreases |Interior(b) - visited|, |stack|
    {
      ghost var full := stack;
      var curr := stack[|stack| - 1];
      stack := stack[..|stack| - 1];
      SplitLast(full);
      if curr in visited {
        PopVisited(cubes, b, p, visited, stack, walks, via, curr);
        via := via[..|stack|];
        continue;
      }
      if curr in memo {
        MemoHit(cubes, b, p, visited, full, walks, via, memo);
        open := memo[curr];
        settled := true;
        break;
      }
      if OnEdge(b, curr) {
        EdgeHit(cubes, b, p, visited, full, walks, via);
        open := true;
        settled := true;
        break;
      }
      ghost var rest := stack;
      stack := PushNeighbours(cubes, stack, curr);
      ghost var w := WalkTo(cubes, b, p, visited, rest, walks, via, curr);
      ReachedAdd(cubes, b, p, visited, walks, curr, w);
      walks := walks[curr := w];
      via := QueuedAdd(cubes, p, visited, rest, via, curr);
      ClosedAdd(cubes, p, visited, rest, curr);
      InsideInterior(cubes, b, curr);
      Shrinks(Interior(b), visited, curr);
      visited := visited + {curr};
    }
    if !settled {
      ClosedNotOpen(cubes, b, visited, p);
    }
    memo' := Record(cubes, b, p, memo, visited, walks, open);
  }

  /** empty_status after recording the answer for the cells of done: sound, and otherwise as before. */
  ghost predicate Recorded(cubes: set<Position>, b: Box, memo: map<Position, bool>, memo': map<Position, bool>,
                           done: set<Position>, open: bool)
  {
    MemoSound(cubes, b, memo') && memo'.Keys == memo.Keys + done &&
    forall c :: c in memo' ==> memo'[c] == if c in done then open else memo[c]
  }

  /** Recording one more visited cell, whose answer is p's since a walk joins them. */
  lemma RecordStep(cubes: set<Position>, b: Box, p: Position, memo: map<Position, bool>, memo': map<Position, bool>,
                   done: set<Position>, v: Position, w: seq<Position>, open: bool)
    requires BoxIn(b) && open == Open(cubes, b, p) && Recorded(cubes, b, memo, memo', done, open)
    requires Inside(cubes, b, v) && Walk(cubes, b, w) && w[0] == p && w[|w| - 1] == v
    ensures Recorded(cubes, b, memo, memo'[v := open], done + {v}, open)
  {
    WalkOpenBoth(cubes, b, w);
  }

  /** The final loop of is_space_open: every visited cell gets the answer, which is also theirs. */
  method Record(cubes: set<Position>, b: Box, p: Position, memo: map<Position, bool>, visited: set<Position>,
                ghost walks: map<Position, seq<Position>>, open: bool)
    returns (memo': map<Position, bool>)
    requires BoxIn(b) && MemoSound(cubes, b, memo) && open == Open(cubes, b, p)
    requires Reached(cubes, b, p, visited, walks)
    ensures Recorded(cubes, b, memo, memo', visited, open)
  {
    memo' := memo;
    var rest := visited;
    while rest != {}
      invariant rest <= visited
      invariant Recorded(cubes, b, memo, memo', visited - rest, open)
      decreases rest
    {
      var v :| v in rest;
      RecordStep(cubes, b, p, memo, memo', visited - rest, v, walks[v], open);
      memo' := memo'[v := open];
      assert visited - rest + {v} == visited - (rest - {v});
      rest := rest - {v};
    }
  }

  // ------------------------------------------------------------------
  // part2
  // ------------------------------------------------------------------

  /** The neighbour loops of part2 for one cube: empty neighbours from which the fill escapes. */
  method OpenFacesOf(cubes: set<Position>, b: Box, p: Position, memo: map<Position, bool>)
    returns (n: nat, memo': map<Position, bool>)
    requires BoxIn(b) && MemoSound(cubes, b, memo)
    ensures n == Escaping(cubes, b, Neighbours(p))
    ensures MemoSound(cubes, b, memo') && memo.Keys <= memo'.Keys
  {
    var ns := Neighbours(p);
    n := 0;
    memo' := memo;
    for k := 0 to 6
      invariant n == Escaping(cubes, b, ns[..k])
      invariant MemoSound(cubes, b, memo') && memo.Keys <= memo'.Keys
    {
      assert ns[..k + 1][..k] == ns[..k];
      if ns[k] !in cubes {
        var open;
        open, memo' := IsSpaceOpen(ns[k], cubes, b, memo');
        if open {
          n := n + 1;
        }
      }
    }
    assert ns[..6] == ns;
  }

  /** part2: the bounding box, then every cube's faces whose outside escapes, sharing empty_status. */
  method Part2(cubes: set<Position>) returns (count: nat)
    requires forall c :: c in cubes ==> InU32(c)
    ensures count == ExteriorArea(cubes)
  {
    var b := BoundingBox(cubes);
    BoxOfIn(cubes);
    count := 0;
    var memo: map<Position, bool> := map[];
    var rest := cubes;
    while rest != {}
      invariant rest <= cubes && MemoSound(cubes, b, memo)
      invariant count + SumOver(cubes, OpenFaces(b), rest) == SumOver(cubes, OpenFaces(b), cubes)
      decreases rest
    {
      var p :| p in rest;
      var n;
      n, memo := OpenFacesOf(cubes, b, p, memo);
      SumOverRemove(cubes, OpenFaces(b), rest, p);
      count := count + n;
      rest := rest - {p};
    }
  }

  // ------------------------------------------------------------------
  // generator
  // ------------------------------------------------------------------

  const ErrUnwrap := "called `Result::unwrap()` on an `Err` value"
  const NoneUnwrap := "called `Option::unwrap()` on a `None` value"

  /**
    * One line of the input: the first three comma-separated pieces, parsed as u32 in the order
    * the struct's fields are written; a missing piece or a bad number panics, later pieces are ignored.
    */
  function ParseLine(line: string): (r: Result<Position>)
    ensures r.Ok? ==> InU32(r.value)
  {
    var parts := Text.SplitOn(line, {','});
    var x := Text.ParseUnsigned(parts[0], U32 - 1);
    if x.None? then Panic(ErrUnwrap)
    else if |parts| < 2 then Panic(NoneUnwrap)
    else
      var y := Text.ParseUnsigned(parts[1], U32 - 1);
      if y.None? then Panic(ErrUnwrap)
      else if |parts| < 3 then Panic(NoneUnwrap)
      else
        var z := Text.ParseUnsigned(parts[2], U32 - 1);
        if z.None? then Panic(ErrUnwrap)
        else Ok(Position(x.value, y.value, z.value))
  }

  function ParseLines(lines: seq<string>): (r: Result<seq<Position>>)
    ensures r.Ok? ==> |r.value| == |lines| && forall i :: 0 <= i < |lines| ==> ParseLine(lines[i]) == Ok(r.value[i])
    decreases |lines|
  {
    if lines == [] then Ok([])
    else
      var head := ParseLine(lines[0]);
      if head.Panic? then Panic(head.msg)
      else
        var tail := ParseLines(lines[1..]);
        if tail.Panic? then Panic(tail.msg) else Ok([head.value] + tail.value)
  }

  /** `generator`: the set of positions, one per line (repeated lines collapse). */
  function Generator(input: string): Result<set<Position>>
  {
    var ps := ParseLines(Text.Lines(input));
    if ps.Panic? then Panic(ps.msg) else Ok(set p | p in ps.value)
  }

  /** How a position is written in the puzzle input. */
  function Show(p: Position): string
    requires InU32(p)
  {
    Text.DigitsOf(p.x) + "," + Text.DigitsOf(p.y) + "," + Text.DigitsOf(p.z)
  }

  /** Every u32 position is read back from its own line. */
  lemma ParseShow(p: Position)
    requires InU32(p)
    ensures ParseLine(Show(p)) == Ok(p)
  {
    var seps := {','};
    var a, b, c := Text.DigitsOf(p.x), Text.DigitsOf(p.y), Text.DigitsOf(p.z);
    Text.DigitsFree(p.x, seps);
    Text.DigitsFree(p.y, seps);
    Text.DigitsFree(p.z, seps);
    var s1 := b + [','] + c;
    var s0 := a + [','] + s1;
    assert Show(p) == s0;
    Text.SplitOnFree(c, seps);
    Text.SplitOnPiece(b, ',', c, seps);
    Text.SplitOnPiece(a, ',', s1, seps);
    assert Text.SplitOn(s0, seps) == [a, b, c];
    Text.ParseUnsignedDigits(p.x, U32 - 1);
    Text.ParseUnsignedDigits(p.y, U32 - 1);
    Text.ParseUnsignedDigits(p.z, U32 - 1);
  }

  predicate AllIn(ps: seq<Position>) { forall i :: 0 <= i < |ps| ==> InU32(ps[i]) }

  /** The text of a list of positions, one per line. */
  function Render(ps: seq<Position>): string
    requires AllIn(ps)
    decreases |ps|
  {
    if ps == [] then [] else Show(ps[0]) + "\n" + Render(ps[1..])
  }

  function ShowAll(ps: seq<Position>): (r: seq<string>)
    requires AllIn(ps)
    ensures |r| == |ps| && forall i :: 0 <= i < |ps| ==> r[i] == Show(ps[i])
    decreases |ps|
  {
    if ps == [] then [] else [Show(ps[0])] + ShowAll(ps[1..])
  }

  lemma {:induction false} SplitRender(ps: seq<Position>)
    requires AllIn(ps)
    ensures Text.SplitOn(Render(ps), {'\n'}) == ShowAll(ps) + [[]]
    decreases |ps|
  {
    if ps != [] {
      var p := ps[0];
      Text.DigitsFree(p.x, {'\n'});
      Text.DigitsFree(p.y, {'\n'});
      Text.DigitsFree(p.z, {'\n'});
      SplitRender(ps[1..]);
      Text.SplitOnPiece(Show(p), '\n', Render(ps[1..]), {'\n'});
    }
  }

  lemma {:induction false} ParseShown(ps: seq<Position>)
    requires AllIn(ps)
    ensures ParseLines(ShowAll(ps)) == Ok(ps)
    decreases |ps|
  {
    var lines := ShowAll(ps);
    if ps != [] {
      ParseShow(ps[0]);
      ParseShown(ps[1..]);
      assert lines[1..] == ShowAll(ps[1..]);
      assert [ps[0]] + ps[1..] == ps;
    }
  }

  /** `generator` reads back the set of every list of u32 positions written one per line. */
  lemma GeneratorRoundTrip(ps: seq<Position>)
    requires AllIn(ps)
    ensures Generator(Render(ps)) == Ok(set p | p in ps)
  {
    SplitRender(ps);
    var parts := ShowAll(ps) + [[]];
    assert parts[..|parts| - 1] == ShowAll(ps);
    assert Text.Lines(Render(ps)) == ShowAll(ps);
    ParseShown(ps);
  }

  // ------------------------------------------------------------------
  // Small droplets
  // ------------------------------------------------------------------

  /** Positions none of which is a cube count in full. */
  lemma {:induction false} MissingNone(cubes: set<Position>, ps: seq<Position>)
    requires forall i :: 0 <= i < |ps| ==> ps[i] !in cubes
    ensures Missing(cubes, ps) == |ps|
    decreases |ps|
  {
    if ps != [] {
      MissingNone(cubes, ps[..|ps| - 1]);
    }
  }

  /** Empty positions on the box's edge all escape. */
  lemma {:induction false} EscapingAllEdge(cubes: set<Position>, b: Box, ps: seq<Position>)
    requires forall i :: 0 <= i < |ps| ==> ps[i] !in cubes && OnEdge(b, ps[i])
    ensures Escaping(cubes, b, ps) == |ps|
    decreases |ps|
  {
    if ps != [] {
      EscapingAllEdge(cubes, b, ps[..|ps| - 1]);
      assert Escape(cubes, b, [ps[|ps| - 1]]);
    }
  }

  /** A lone cube shows all six faces, in both parts. */
  lemma LoneCube(c: Position)
    requires InU32(c) && c.x >= 1 && c.y >= 1 && c.z >= 1
    ensures SurfaceArea({c}) == 6 && ExteriorArea({c}) == 6
  {
    var cubes := {c};
    BoxOfRemove(cubes, c);
    assert cubes - {c} == {};
    var b := BoxOf(cubes);
    assert b == Box(c, c);
    var ns := Neighbours(c);
    assert forall i :: 0 <= i < 6 ==> ns[i] != c;
    MissingNone(cubes, ns);
    EscapingAllEdge(cubes, b, ns);
    SumOverRemove(cubes, Faces, cubes, c);
    SumOverRemove(cubes, OpenFaces(b), cubes, c);
  }

  lemma MulSucc(n: nat, m: nat)
    ensures n * (m + 1) == n * m + n
  {
  }

  /** A sum whose every term is n. */
  lemma {:induction false} SumOverConst(cubes: set<Position>, t: Tally, part: set<Position>, n: nat)
    requires forall p :: p in part ==> Count(cubes, t, p) == n
    ensures SumOver(cubes, t, part) == n * |part|
    decreases part
  {
    if part != {} {
      var p :| p in part;
      var rest := part - {p};
      SumOverRemove(cubes, t, part, p);
      SumOverConst(cubes, t, rest, n);
      assert |part| == |rest| + 1;
      MulSucc(n, |rest|);
    }
  }

  /** An empty cell strictly inside the box, all of whose neighbours are cubes, has no way out. */
  lemma SealedNotOpen(cubes: set<Position>, b: Box, c: Position)
    requires Inside(cubes, b, c) && forall k :: 0 <= k < 6 ==> Neighbours(c)[k] in cubes
    ensures !Open(cubes, b, c)
  {
    forall e | Escape(cubes, b, e)
      ensures e[0] != c
    {
      if Inside(cubes, b, e[0]) {
        EscapeLeaves(cubes, b, e);
      }
    }
  }

  /** A way out that starts strictly inside the box first steps to an empty neighbour. */
  lemma EscapeLeaves(cubes: set<Position>, b: Box, e: seq<Position>)
    requires Escape(cubes, b, e) && Inside(cubes, b, e[0])
    ensures |e| >= 2 && e[1] in Neighbours(e[0]) && e[1] !in cubes
  {
    if |e| > 2 {
      assert Inside(cubes, b, e[1]);
    }
  }

  /** Empty positions on the box's edge, but for one sealed cell at index k: all escape but that one. */
  lemma {:induction false} EscapingAllButOne(cubes: set<Position>, b: Box, ps: seq<Position>, k: nat)
    requires k < |ps| && !Open(cubes, b, ps[k])
    requires forall i :: 0 <= i < |ps| && i != k ==> ps[i] !in cubes && OnEdge(b, ps[i])
    ensures Escaping(cubes, b, ps) == |ps| - 1
    decreases |ps|
  {
    var front := ps[..|ps| - 1];
    if k == |ps| - 1 {
      EscapingAllEdge(cubes, b, front);
    } else {
      EscapingAllButOne(cubes, b, front, k);
      assert Escape(cubes, b, [ps[|ps| - 1]]);
    }
  }

  /** Six cubes around (2,2,2): the sealed cell inside. */
  const Hollow := Position(2, 2, 2)
  const Shell: set<Position> :=
    {Position(1, 2, 2), Position(3, 2, 2), Position(2, 1, 2), Position(2, 3, 2), Position(2, 2, 1), Position(2, 2, 3)}

  /** On every axis the shell reaches from 1 to 3. */
  lemma ShellAxis(a: nat)
    requires a < 3
    ensures Coord(BoxOf(Shell).lo, a) == 1 && Coord(BoxOf(Shell).hi, a) == 3
  {
    ShellCoords(a);
    BoxOfEncloses(Shell, a);
    BoxOfAttained(Shell, a);
  }

  lemma ShellCoords(a: nat)
    requires a < 3
    ensures forall c :: c in Shell ==> 1 <= Coord(c, a) <= 3
    ensures exists c :: c in Shell && Coord(c, a) == 1
    ensures exists c :: c in Shell && Coord(c, a) == 3
  {
    var lo1 := if a == 0 then Position(1, 2, 2) else if a == 1 then Position(2, 1, 2) else Position(2, 2, 1);
    var hi3 := if a == 0 then Position(3, 2, 2) else if a == 1 then Position(2, 3, 2) else Position(2, 2, 3);
    assert lo1 in Shell && hi3 in Shell;
  }

  /** The shell's box runs from (1,1,1) to (3,3,3). */
  lemma ShellBox()
    ensures BoxOf(Shell) == Box(Position(1, 1, 1), Position(3, 3, 3))
  {
    ShellAxis(0);
    ShellAxis(1);
    ShellAxis(2);
  }

  /** Each shell cube has six uncovered faces, one of which looks into the sealed cell. */
  lemma ShellCube(q: Position, k: nat)
    requires q in Shell && k < 6 && Neighbours(q)[k] == Hollow
    ensures Count(Shell, Faces, q) == 6
    ensures Count(Shell, OpenFaces(Box(Position(1, 1, 1), Position(3, 3, 3))), q) == 5
  {
    var b := Box(Position(1, 1, 1), Position(3, 3, 3));
    var ns := Neighbours(q);
    assert forall i :: 0 <= i < 6 ==> ns[i] !in Shell;
    MissingNone(Shell, ns);
    assert Neighbours(Hollow)[0] in Shell && Neighbours(Hollow)[1] in Shell && Neighbours(Hollow)[2] in Shell;
    assert Neighbours(Hollow)[3] in Shell && Neighbours(Hollow)[4] in Shell && Neighbours(Hollow)[5] in Shell;
    SealedNotOpen(Shell, b, Hollow);
    assert forall i :: 0 <= i < 6 && i != k ==> OnEdge(b, ns[i]);
    EscapingAllButOne(Shell, b, ns, k);
  }

  lemma ShellCubeAt(q: Position)
    requires q in Shell
    ensures Count(Shell, Faces, q) == 6
    ensures Count(Shell, OpenFaces(Box(Position(1, 1, 1), Position(3, 3, 3))), q) == 5
  {
    if q.x == 1 {
      ShellCube(q, 1);
    } else if q.x == 3 {
      ShellCube(q, 0);
    } else if q.y == 1 {
      ShellCube(q, 3);
    } else if q.y == 3 {
      ShellCube(q, 2);
    } else if q.z == 1 {
      ShellCube(q, 5);
    } else {
      ShellCube(q, 4);
    }
  }

  lemma ShellSize()
    ensures |Shell| == 6
  {
  }

  /** A hollow: part1 counts 36 faces, part2 leaves out the 6 that face the sealed cell. */
  lemma HollowShell()
    ensures SurfaceArea(Shell) == 36 && ExteriorArea(Shell) == 30
  {
    ShellBox();
    var b := Box(Position(1, 1, 1), Position(3, 3, 3));
    forall q | q in Shell
      ensures Count(Shell, Faces, q) == 6 && Count(Shell, OpenFaces(b), q) == 5
    {
      ShellCubeAt(q);
    }
    ShellSize();
    SumOverConst(Shell, Faces, Shell, 6);
    SumOverConst(Shell, OpenFaces(b), Shell, 5);
  }
}
