/**
  * Day 22, part 2: folding the board's net into a cube. Puzzle::map_edges zips the outline's
  * sides together pair by pair into a seam table, and Puzzle::follow_cube_path walks the
  * board, crossing the seams.
  */
module Day22Seams {
  import opened Wrappers
  import opened Day22
  import opened Day22Board
  import opened Day22Net

  // ------------------------------------------------------------------
  // Cells along a seam
  // ------------------------------------------------------------------

  /** Cell p moved k times by d (the `for _ in 0..k { p.add(&d) }` loops of map_edges). */
  function Along(p: XY, d: XY, k: nat): XY
    decreases k
  {
    if k == 0 then p else Add(Along(p, d, k - 1), d)
  }

  /** Moving k times by d is moving by k times d at once. */
  lemma {:induction false} AlongScales(p: XY, d: XY, k: nat)
    ensures Along(p, d, k) == XY(p.x + k * d.x, p.y + k * d.y)
    decreases k
  {
    if k > 0 {
      AlongScales(p, d, k - 1);
      assert (k - 1) * d.x + d.x == k * d.x && (k - 1) * d.y + d.y == k * d.y;
    }
  }

  /** Quarter turns keep a unit direction a unit direction. */
  lemma {:induction false} TurnsUnit(s: Step, d: XY, k: nat)
    requires IsUnit(d) && !s.Move?
    ensures IsUnit(Turns(s, d, k))
    decreases k
  {
    if k > 0 {
      TurnsUnit(s, d, k - 1);
      TurnKeepsUnit(s, Turns(s, d, k - 1));
    }
  }

  /** Walking a unit direction never revisits a cell. */
  lemma AlongInjective(p: XY, u: XY, i: nat, j: nat)
    requires IsUnit(u) && Along(p, u, i) == Along(p, u, j)
    ensures i == j
  {
    AlongScales(p, u, i);
    AlongScales(p, u, j);
    if u.x != 0 {
      assert u.x == 1 || u.x == -1;
      UnitCancel(i, j, u.x);
    } else {
      assert u.y == 1 || u.y == -1;
      UnitCancel(i, j, u.y);
    }
  }

  /** Multiplying by 1 or -1 loses nothing. */
  lemma UnitCancel(i: int, j: int, c: int)
    requires (c == 1 || c == -1) && i * c == j * c
    ensures i == j
  {
    if c == 1 {
      assert i * c == i && j * c == j;
    } else {
      assert i * c == -i && j * c == -j;
    }
  }

  /**
    * A walk of side - 1 unit steps from one end cell of a side to an end cell stays on the
    * side throughout.
    */
  lemma AlongOnEdge(e: Edge, side: nat, a: XY, b: XY, u: XY)
    requires Shaped(e, side) && side >= 1 && IsUnit(u)
    requires (a == e.p1 || a == e.p2) && (b == e.p1 || b == e.p2)
    requires Along(a, u, side - 1) == b
    ensures forall i :: 0 <= i < side ==> OnEdge(e, Along(a, u, i))
  {
    AlongScales(a, u, side - 1);
    forall i | 0 <= i < side
      ensures OnEdge(e, Along(a, u, i))
    {
      AlongScales(a, u, i);
      if u == East {
        assert Along(a, u, i) == XY(a.x + i, a.y);
      } else if u == West {
        assert Along(a, u, i) == XY(a.x - i, a.y);
      } else if u == South {
        assert Along(a, u, i) == XY(a.x, a.y + i);
      } else {
        assert Along(a, u, i) == XY(a.x, a.y - i);
      }
    }
  }

  /**
    * Conversely, such a walk reaches every cell of the side: the cell c is the walk's i-th for
    * i its distance from the starting end.
    */
  lemma EdgeCovered(e: Edge, side: nat, a: XY, b: XY, u: XY, c: XY)
    requires Shaped(e, side) && side >= 1 && IsUnit(u)
    requires (a == e.p1 || a == e.p2) && (b == e.p1 || b == e.p2)
    requires Along(a, u, side - 1) == b && OnEdge(e, c)
    ensures exists i :: 0 <= i < side && Along(a, u, i) == c
  {
    AlongScales(a, u, side - 1);
    var i := if u == East then c.x - a.x else if u == West then a.x - c.x
      else if u == South then c.y - a.y else a.y - c.y;
    if side == 1 {
      assert Along(a, u, 0) == c;
    } else {
      assert 0 <= i < side;
      AlongScales(a, u, i);
      assert Along(a, u, i) == c;
    }
  }

  /**
    * When a side is zipped to itself the two walks run over the same cells in opposite
    * orders: the partner's k-th cell is the start's (side - 1 - k)-th.
    */
  lemma SelfPair(s0: XY, smd: XY, n0: XY, nmd: XY, side: nat)
    requires side >= 1 && IsUnit(smd) && IsUnit(nmd)
    requires Along(s0, smd, side - 1) == n0 && Along(n0, nmd, side - 1) == s0
    ensures forall k :: 0 <= k < side ==> Along(n0, nmd, k) == Along(s0, smd, side - 1 - k)
  {
    if side > 1 {
      AlongScales(s0, smd, side - 1);
      AlongScales(n0, nmd, side - 1);
      UnitsCancel(smd, nmd, side - 1);
      forall k | 0 <= k < side
        ensures Along(n0, nmd, k) == Along(s0, smd, side - 1 - k)
      {
        WalkBack(s0, smd, side - 1, k);
      }
    }
  }

  /** Walking k steps back from n steps out ends n - k steps out. */
  lemma WalkBack(p: XY, u: XY, n: nat, k: nat)
    requires IsUnit(u) && k <= n
    ensures Along(Along(p, u, n), Reverse(u), k) == Along(p, u, n - k)
  {
    AlongScales(p, u, n);
    AlongScales(Along(p, u, n), Reverse(u), k);
    AlongScales(p, u, n - k);
    if u == East {
    } else if u == West {
    } else if u == South {
    } else {
    }
  }

  /** Two unit moves of n >= 1 steps that cancel out are opposite. */
  lemma UnitsCancel(u: XY, v: XY, n: nat)
    requires n >= 1 && IsUnit(u) && IsUnit(v)
    requires n * u.x + n * v.x == 0 && n * u.y + n * v.y == 0
    ensures v == Reverse(u)
  {
    if u == East {
      assert n * v.x + n == 0;
    } else if u == West {
      assert n * v.x == n;
    } else if u == South {
      assert n * v.y + n == 0;
    } else {
      assert n * v.y == n;
    }
  }

  // ------------------------------------------------------------------
  // Stitching one seam into the table
  // ------------------------------------------------------------------

  /** A seam being zipped: the start side's first cell and walking direction, then the partner's. */
  datatype Seam = Seam(s0: XY, smd: XY, n0: XY, nmd: XY)

  /** The first k cell pairs of a seam: the start side's i-th cell beside the partner's i-th. */
  function SeamCells(s: Seam, k: nat): (r: seq<(XY, XY)>)
    ensures |r| == k
    ensures forall i :: 0 <= i < k ==> r[i] == (Along(s.s0, s.smd, i), Along(s.n0, s.nmd, i))
    decreases k
  {
    if k == 0 then []
    else SeamCells(s, k - 1) + [(Along(s.s0, s.smd, k - 1), Along(s.n0, s.nmd, k - 1))]
  }

  /**
    * The inserts of one committed pairing, in the source's order: for each cell pair (a, b),
    * crossing out of a heading sd enters b heading against nd, and crossing out of b heading nd
    * enters a heading against sd. A later insert overwrites an earlier one, as HashMap::insert does.
    */
  function Stitch(m: map<Key, Key>, cells: seq<(XY, XY)>, sd: XY, nd: XY): map<Key, Key>
    decreases |cells|
  {
    if |cells| == 0 then m
    else
      var (a, b) := cells[|cells| - 1];
      Stitch(m, cells[..|cells| - 1], sd, nd)[(a, sd) := (b, Reverse(nd))][(b, nd) := (a, Reverse(sd))]
  }

  /** Key k is one a stitch of these cells writes. */
  predicate Stitched(cells: seq<(XY, XY)>, sd: XY, nd: XY, k: Key)
  {
    exists i :: 0 <= i < |cells| && (k == (cells[i].0, sd) || k == (cells[i].1, nd))
  }

  /** A stitch adds exactly its own keys and leaves every other entry alone. */
  lemma {:induction false} StitchShape(m: map<Key, Key>, cells: seq<(XY, XY)>, sd: XY, nd: XY)
    ensures forall k :: k in Stitch(m, cells, sd, nd) <==> k in m || Stitched(cells, sd, nd, k)
    ensures forall k :: k in m && !Stitched(cells, sd, nd, k) ==> Stitch(m, cells, sd, nd)[k] == m[k]
    decreases |cells|
  {
    if |cells| > 0 {
      var pre := cells[..|cells| - 1];
      var last := cells[|cells| - 1];
      StitchShape(m, pre, sd, nd);
      forall k
        ensures Stitched(cells, sd, nd, k) <==>
          Stitched(pre, sd, nd, k) || k == (last.0, sd) || k == (last.1, nd)
      {
        if Stitched(pre, sd, nd, k) {
          var i :| 0 <= i < |pre| && (k == (pre[i].0, sd) || k == (pre[i].1, nd));
          assert cells[i] == pre[i];
        }
        if Stitched(cells, sd, nd, k) {
          var i :| 0 <= i < |cells| && (k == (cells[i].0, sd) || k == (cells[i].1, nd));
          if i < |pre| {
            assert pre[i] == cells[i];
          }
        }
      }
    }
  }

  /**
    * The cell pairs never ask one key for two different targets: a start cell has one partner,
    * a partner cell one start, and when both sides face the same way a cell that is both a
    * start cell and a partner cell gets the same target either way.
    */
  predicate Consistent(cells: seq<(XY, XY)>, sd: XY, nd: XY)
  {
    forall i, j :: 0 <= i < |cells| && 0 <= j < |cells| ==>
      (cells[i].0 == cells[j].0 ==> cells[i].1 == cells[j].1) &&
      (cells[i].1 == cells[j].1 ==> cells[i].0 == cells[j].0) &&
      (sd == nd && cells[i].0 == cells[j].1 ==> cells[i].1 == cells[j].0)
  }

  /** With consistent cell pairs no insert undoes another: every pair reads back as written. */
  lemma {:induction false} StitchValues(m: map<Key, Key>, cells: seq<(XY, XY)>, sd: XY, nd: XY)
    requires Consistent(cells, sd, nd)
    ensures forall i :: 0 <= i < |cells| ==>
      (cells[i].0, sd) in Stitch(m, cells, sd, nd) &&
      Stitch(m, cells, sd, nd)[(cells[i].0, sd)] == (cells[i].1, Reverse(nd)) &&
      (cells[i].1, nd) in Stitch(m, cells, sd, nd) &&
      Stitch(m, cells, sd, nd)[(cells[i].1, nd)] == (cells[i].0, Reverse(sd))
    decreases |cells|
  {
    if |cells| > 0 {
      var n := |cells| - 1;
      var pre := cells[..n];
      assert Consistent(pre, sd, nd) by {
        forall i, j | 0 <= i < |pre| && 0 <= j < |pre|
          ensures (pre[i].0 == pre[j].0 ==> pre[i].1 == pre[j].1) &&
            (pre[i].1 == pre[j].1 ==> pre[i].0 == pre[j].0) &&
            (sd == nd && pre[i].0 == pre[j].1 ==> pre[i].1 == pre[j].0)
        {
          assert pre[i] == cells[i] && pre[j] == cells[j];
        }
      }
      StitchValues(m, pre, sd, nd);
      forall i | 0 <= i < |cells|
        ensures (cells[i].0, sd) in Stitch(m, cells, sd, nd) &&
          Stitch(m, cells, sd, nd)[(cells[i].0, sd)] == (cells[i].1, Reverse(nd)) &&
          (cells[i].1, nd) in Stitch(m, cells, sd, nd) &&
          Stitch(m, cells, sd, nd)[(cells[i].1, nd)] == (cells[i].0, Reverse(sd))
      {
        if i < n {
          assert pre[i] == cells[i];
        }
      }
    }
  }

  /**
    * Stitching consistent cell pairs whose keys are all new keeps a table mutually inverse:
    * each new key's target, turned round, is a new key leading back.
    */
  lemma StitchInverse(m: map<Key, Key>, cells: seq<(XY, XY)>, sd: XY, nd: XY)
    requires MutuallyInverse(m) && Consistent(cells, sd, nd)
    requires forall i :: 0 <= i < |cells| ==> (cells[i].0, sd) !in m && (cells[i].1, nd) !in m
    ensures MutuallyInverse(Stitch(m, cells, sd, nd))
  {
    FlipTwice();
    var r := Stitch(m, cells, sd, nd);
    StitchShape(m, cells, sd, nd);
    StitchValues(m, cells, sd, nd);
    assert StitchedAs(m, r, cells, sd, nd);
    forall k | k in r
      ensures Flip(r[k]) in r && r[Flip(r[k])] == Flip(k)
    {
      KeyInverse(m, r, cells, sd, nd, k);
    }
  }

  /** What StitchShape and StitchValues say of the stitched table r. */
  ghost predicate StitchedAs(m: map<Key, Key>, r: map<Key, Key>, cells: seq<(XY, XY)>, sd: XY, nd: XY)
  {
    (forall k :: k in r <==> k in m || Stitched(cells, sd, nd, k)) &&
    (forall k :: k in m && !Stitched(cells, sd, nd, k) ==> r[k] == m[k]) &&
    (forall i :: 0 <= i < |cells| ==>
      (cells[i].0, sd) in r && r[(cells[i].0, sd)] == (cells[i].1, Reverse(nd)) &&
      (cells[i].1, nd) in r && r[(cells[i].1, nd)] == (cells[i].0, Reverse(sd)))
  }

  /** One key of the stitched table leads to a key that leads back to its reverse. */
  lemma KeyInverse(m: map<Key, Key>, r: map<Key, Key>, cells: seq<(XY, XY)>, sd: XY, nd: XY, k: Key)
    requires MutuallyInverse(m) && StitchedAs(m, r, cells, sd, nd) && k in r
    requires forall i :: 0 <= i < |cells| ==> (cells[i].0, sd) !in m && (cells[i].1, nd) !in m
    ensures Flip(r[k]) in r && r[Flip(r[k])] == Flip(k)
  {
    FlipTwice();
    if Stitched(cells, sd, nd, k) {
      NewKeyInverse(m, r, cells, sd, nd, k);
    } else {
      OldKeyInverse(m, r, cells, sd, nd, k);
    }
  }

  /** Both keys of a stitched cell pair lead to each other's reverse. */
  lemma NewKeyInverse(m: map<Key, Key>, r: map<Key, Key>, cells: seq<(XY, XY)>, sd: XY, nd: XY, k: Key)
    requires StitchedAs(m, r, cells, sd, nd) && Stitched(cells, sd, nd, k)
    ensures k in r && Flip(r[k]) in r && r[Flip(r[k])] == Flip(k)
  {
    var i :| 0 <= i < |cells| && (k == (cells[i].0, sd) || k == (cells[i].1, nd));
    var (a, b) := cells[i];
    assert r[(a, sd)] == (b, Reverse(nd)) && Flip(r[(a, sd)]) == (b, nd);
    assert r[(b, nd)] == (a, Reverse(sd)) && Flip(r[(b, nd)]) == (a, sd);
  }

  /** An untouched key keeps its target, and its target's way back is untouched too. */
  lemma OldKeyInverse(m: map<Key, Key>, r: map<Key, Key>, cells: seq<(XY, XY)>, sd: XY, nd: XY, k: Key)
    requires MutuallyInverse(m) && k in m && !Stitched(cells, sd, nd, k) && StitchedAs(m, r, cells, sd, nd)
    requires forall i :: 0 <= i < |cells| ==> (cells[i].0, sd) !in m && (cells[i].1, nd) !in m
    ensures Flip(r[k]) in r && r[Flip(r[k])] == Flip(k)
  {
    FlipTwice();
    var back := Flip(m[k]);
    assert back in m && m[back] == Flip(k);
    OldNotStitched(m, cells, sd, nd, back);
  }

  /** A key already in the table is none of the new keys. */
  lemma OldNotStitched(m: map<Key, Key>, cells: seq<(XY, XY)>, sd: XY, nd: XY, k: Key)
    requires k in m
    requires forall i :: 0 <= i < |cells| ==> (cells[i].0, sd) !in m && (cells[i].1, nd) !in m
    ensures !Stitched(cells, sd, nd, k)
  {
  }

  // ------------------------------------------------------------------
  // Puzzle::map_edges
  // ------------------------------------------------------------------

  /** Every side faces out in a unit direction. */
  predicate Units(edges: seq<Edge>)
  {
    forall i :: 0 <= i < |edges| ==> IsUnit(edges[i].dir)
  }

  /** Every link names a side of the outline. */
  predicate LinksIn(links: seq<Link>)
  {
    forall i :: 0 <= i < |links| ==> links[i].prev < |links| && links[i].next < |links|
  }

  /** What map_edges works on: a positive side length and one in-range link pair per unit side. */
  predicate Wf(edges: seq<Edge>, links: seq<Link>, side: nat)
  {
    side >= 1 && |links| == |edges| && LinksIn(links) && Units(edges)
  }

  /** make_links only ever writes side indices, so its links stay in range. */
  lemma {:induction false} LinksLoopBounded(edges: seq<Edge>, links: seq<Link>, curr: nat, p: nat, k: nat)
    requires |links| == |edges| && (k > 0 ==> curr < |edges|) && LinksIn(links)
    ensures LinksLoop(edges, links, curr, p, k).Ok? ==> LinksIn(LinksLoop(edges, links, curr, p, k).value)
    decreases k
  {
    if k > 0 {
      match LinkStep(edges, curr, p)
      case Panic(_) =>
      case Ok(Hop(next, q)) =>
        LinksLoopBounded(edges, Wire(links, curr, next), next, q, k - 1);
    }
  }

  /** One hop round the outline: to the next side when turning right, the previous one otherwise. */
  function Follow(l: Link, right: bool): nat
  {
    if right then l.next else l.prev
  }

  /** The side k hops round the outline from side i. */
  function Chain(links: seq<Link>, i: nat, right: bool, k: nat): (r: nat)
    requires LinksIn(links) && i < |links|
    ensures r < |links|
    decreases k
  {
    if k == 0 then i else Chain(links, Follow(links[i], right), right, k - 1)
  }

  /** A skip result with c more mapped sides counted. */
  function Shift(r: Run<(nat, nat)>, c: nat): Run<(nat, nat)>
  {
    if r.Ends? then Ends((r.value.0, r.value.1 + c)) else r
  }

  /**
    * The `while mapped_edges.contains(&next_idx)` loop: from side i, hop round the outline past
    * mapped sides, giving the first unmapped side and how many mapped ones were passed. When
    * fuel + 1 sides in a row are mapped (fuel being the number of sides), the hops have closed a
    * circuit of mapped sides and the source never leaves the loop.
    */
  function Skip(links: seq<Link>, mapped: set<nat>, i: nat, right: bool, fuel: nat): (r: Run<(nat, nat)>)
    requires LinksIn(links) && i < |links|
    ensures !r.Panics?
    ensures r.Ends? ==> r.value.1 <= fuel && r.value.0 == Chain(links, i, right, r.value.1)
    ensures r.Ends? ==> r.value.0 !in mapped && forall t :: 0 <= t < r.value.1 ==> Chain(links, i, right, t) in mapped
    ensures r.Spins? <==> forall t :: 0 <= t <= fuel ==> Chain(links, i, right, t) in mapped
    decreases fuel
  {
    if i !in mapped then Ends((i, 0))
    else if fuel == 0 then
      assert Chain(links, i, right, 0) == i;
      Spins
    else
      var r := Skip(links, mapped, Follow(links[i], right), right, fuel - 1);
      assert forall t :: 0 < t <= fuel ==> Chain(links, i, right, t) == Chain(links, Follow(links[i], right), right, t - 1);
      Shift(r, 1)
  }

  /** The corner make_edges' walk starts from: identify_closest_right or identify_closest_left. */
  function Corner(e: Edge, right: bool): (r: XY)
    requires IsUnit(e.dir)
    ensures r == e.p1 || r == e.p2
  {
    if right then ClosestRight(e).value else ClosestLeft(e).value
  }

  /**
    * One pairing attempt between side idx and side j, reached after c mapped sides: each side's
    * walking direction is the other's outward direction given c / 2 quarter turns (the partner's
    * one way, the start's the other), and the pairing is accepted only when side - 1 steps from
    * each starting corner land exactly on that side's opposite corner.
    */
  function Attempt(edges: seq<Edge>, side: nat, idx: nat, j: nat, c: nat, right: bool): (r: Option<Seam>)
    requires Units(edges) && idx < |edges| && j < |edges| && side >= 1
    ensures r.Some? ==> IsUnit(r.value.smd) && IsUnit(r.value.nmd)
    ensures r.Some? ==> r.value.s0 == Corner(edges[idx], right) && r.value.n0 == Corner(edges[j], !right)
    ensures r.Some? <==> (
      var smd := Turns(if right then Left else Right, edges[j].dir, c / 2);
      var nmd := Turns(if right then Right else Left, edges[idx].dir, c / 2);
      Along(Corner(edges[idx], right), smd, side - 1) == Corner(edges[idx], !right) &&
      Along(Corner(edges[j], !right), nmd, side - 1) == Corner(edges[j], right))
    ensures r.Some? ==> r.value.smd == Turns(if right then Left else Right, edges[j].dir, c / 2)
    ensures r.Some? ==> r.value.nmd == Turns(if right then Right else Left, edges[idx].dir, c / 2)
  {
    var start := edges[idx];
    var next := edges[j];
    var nmd := Turns(if right then Right else Left, start.dir, c / 2);
    var smd := Turns(if right then Left else Right, next.dir, c / 2);
    TurnsUnit(if right then Right else Left, start.dir, c / 2);
    TurnsUnit(if right then Left else Right, next.dir, c / 2);
    if Along(Corner(start, right), smd, side - 1) == Corner(start, !right) &&
       Along(Corner(next, !right), nmd, side - 1) == Corner(next, right)
    then Some(Seam(Corner(start, right), smd, Corner(next, !right), nmd))
    else None
  }

  /** The loop state of map_edges: the seam table so far and the set of sides already zipped. */
  datatype Zip = Zip(m: map<Key, Key>, mapped: set<nat>)

  /** Every recorded side index is a side of the outline. */
  predicate MappedIn(mapped: set<nat>, n: nat)
  {
    forall i :: i in mapped ==> i < n
  }

  /** A committed pairing: side cells of the seam stitched into the table, both sides marked mapped. */
  function Commit(edges: seq<Edge>, side: nat, z: Zip, idx: nat, j: nat, s: Seam): Zip
    requires idx < |edges| && j < |edges|
  {
    Zip(Stitch(z.m, SeamCells(s, side), edges[idx].dir, edges[j].dir), z.mapped + {idx, j})
  }

  /**
    * One pairing attempt of the `for idx` loop's body, turning right (or left): find the first
    * unmapped side after (or before) side idx and commit the pairing if it is accepted.
    */
  function Try(edges: seq<Edge>, links: seq<Link>, side: nat, z: Zip, idx: nat, right: bool): (r: Run<Option<Zip>>)
    requires Wf(edges, links, side) && idx < |edges| && MappedIn(z.mapped, |edges|)
    ensures !r.Panics?
    ensures r.Ends? && r.value.Some? ==> z.mapped < r.value.value.mapped && MappedIn(r.value.value.mapped, |edges|)
  {
    match Skip(links, z.mapped, Follow(links[idx], right), right, |links|)
    case Spins => Spins
    case Panics(e) => Panics(e)
    case Ends((j, c)) =>
      match Attempt(edges, side, idx, j, c, right)
      case Some(s) =>
        CommitGrows(z.mapped, idx, j, |edges|);
        Ends(Some(Commit(edges, side, z, idx, j, s)))
      case None => Ends(None)
  }

  /** Marking an unmapped side j (and side idx) mapped strictly grows the mapped set and keeps it in range. */
  lemma CommitGrows(mapped: set<nat>, idx: nat, j: nat, n: nat)
    requires MappedIn(mapped, n) && idx < n && j < n && j !in mapped
    ensures mapped < mapped + {idx, j} && MappedIn(mapped + {idx, j}, n)
  {
  }

  /**
    * One turn of the `for idx` loop: an unmapped side is tried against the first unmapped side
    * after it turning right, then against the first unmapped side before it turning left; the
    * first accepted pairing is committed, and when neither is accepted nothing changes.
    */
  function Visit(edges: seq<Edge>, links: seq<Link>, side: nat, z: Zip, idx: nat): (r: Run<Zip>)
    requires Wf(edges, links, side) && idx < |edges| && MappedIn(z.mapped, |edges|)
    ensures !r.Panics?
    ensures r.Ends? ==> z.mapped <= r.value.mapped && MappedIn(r.value.mapped, |edges|)
    ensures r.Ends? && r.value.mapped == z.mapped ==> r.value == z
  {
    if idx in z.mapped then Ends(z)
    else
      match Try(edges, links, side, z, idx, true)
      case Ends(Some(z1)) => Ends(z1)
      case Ends(None) =>
        (match Try(edges, links, side, z, idx, false)
         case Ends(Some(z1)) => Ends(z1)
         case Ends(None) => Ends(z)
         case Spins => Spins
         case Panics(e) => Panics(e))
      case Spins => Spins
      case Panics(e) => Panics(e)
  }

  /** The `for idx in 0..edges.len()` loop, from idx on. */
  function Pass(edges: seq<Edge>, links: seq<Link>, side: nat, z: Zip, idx: nat): (r: Run<Zip>)
    requires Wf(edges, links, side) && idx <= |edges| && MappedIn(z.mapped, |edges|)
    ensures !r.Panics?
    ensures r.Ends? ==> z.mapped <= r.value.mapped && MappedIn(r.value.mapped, |edges|)
    ensures r.Ends? && r.value.mapped == z.mapped ==> r.value == z
    decreases |edges| - idx
  {
    if idx == |edges| then Ends(z)
    else
      match Visit(edges, links, side, z, idx)
      case Ends(z1) => Pass(edges, links, side, z1, idx + 1)
      case Spins => Spins
      case Panics(e) => Panics(e)
  }

  /** A set of side indices has at most as many members as there are sides. */
  lemma {:induction false} MappedBound(mapped: set<nat>, n: nat)
    requires MappedIn(mapped, n)
    ensures |mapped| <= n
    decreases n
  {
    if n > 0 {
      MappedBound(mapped - {n - 1}, n - 1);
    } else {
      assert mapped == {};
    }
  }

  /** A proper superset is strictly larger. */
  lemma GrowingSet(a: set<nat>, b: set<nat>)
    requires a <= b && a != b
    ensures |a| < |b|
  {
    var x :| x in b && x !in a;
    assert b == a + (b - a);
    assert x in b - a;
  }

  /**
    * The `while mapped_edges.len() < edges.len()` loop. It has no progress check: a pass that
    * zips no new side is followed by the same pass again, for ever.
    */
  function Zipping(edges: seq<Edge>, links: seq<Link>, side: nat, z: Zip): (r: Run<map<Key, Key>>)
    requires Wf(edges, links, side) && MappedIn(z.mapped, |edges|)
    ensures !r.Panics?
    decreases |edges| - |z.mapped|
  {
    if |z.mapped| >= |edges| then Ends(z.m)
    else
      match Pass(edges, links, side, z, 0)
      case Ends(z1) =>
        if z1.mapped == z.mapped then Spins
        else
          MappedBound(z1.mapped, |edges|);
          GrowingSet(z.mapped, z1.mapped);
          Zipping(edges, links, side, z1)
      case Spins => Spins
      case Panics(e) => Panics(e)
  }

  /**
    * Puzzle::map_edges: build the sides and their links, then zip them into the seam table.
    * A side length of 0 divides by zero in make_edges; a corner no other side touches panics
    * in make_links.
    */
  function Seams(lines: seq<Line>, side: nat): (r: Run<map<Key, Key>>)
    requires ValidLines(lines)
  {
    if side == 0 then Panics("attempt to divide by zero")
    else
      var edges := AllEdges(lines, side);
      match LinksLoop(edges, Unlinked(|edges|), 0, 2, |edges|)
      case Panic(e) => Panics(e)
      case Ok(links) =>
        EdgesShaped(lines, side);
        LinksLoopBounded(edges, Unlinked(|edges|), 0, 2, |edges|);
        Zipping(edges, links, side, Zip(map[], {}))
  }

  // ------------------------------------------------------------------
  // The seam table is mutually inverse
  // ------------------------------------------------------------------

  /** What make_edges guarantees of its sides: their shape, and no shared (cell, direction) key. */
  ghost predicate Facts(edges: seq<Edge>, side: nat)
  {
    (forall i :: 0 <= i < |edges| ==> Shaped(edges[i], side)) && DisjointKeys(edges)
  }

  /**
    * The loop invariant of map_edges: the table is mutually inverse, and each of its keys is a
    * cell of a mapped side heading out through it.
    */
  ghost predicate ZipInv(edges: seq<Edge>, z: Zip)
  {
    MutuallyInverse(z.m) && KeysOn(edges, z) && Complete(edges, z)
  }

  /** Every cell of a mapped side, heading out through it, is a key of the table. */
  ghost predicate Complete(edges: seq<Edge>, z: Zip)
  {
    forall j, c :: j in z.mapped && j < |edges| && OnEdge(edges[j], c) ==> (c, edges[j].dir) in z.m
  }

  /** Each key of the table is a cell of a mapped side heading out through it. */
  ghost predicate KeysOn(edges: seq<Edge>, z: Zip)
  {
    forall k :: k in z.m ==> exists j :: j in z.mapped && j < |edges| && OnEdge(edges[j], k.0) && k.1 == edges[j].dir
  }

  /** An unmapped side's keys are not yet in the table. */
  lemma FreshKey(edges: seq<Edge>, z: Zip, idx: nat, c: XY)
    requires DisjointKeys(edges) && KeysOn(edges, z)
    requires idx < |edges| && idx !in z.mapped && OnEdge(edges[idx], c)
    ensures (c, edges[idx].dir) !in z.m
  {
    if (c, edges[idx].dir) in z.m {
      assert false;
    }
  }

  /** The cells of an accepted seam lie on its two sides, the start's on side idx. */
  lemma SeamOnSides(edges: seq<Edge>, side: nat, idx: nat, j: nat, c: nat, right: bool, s: Seam)
    requires Units(edges) && Facts(edges, side) && side >= 1 && idx < |edges| && j < |edges|
    requires Attempt(edges, side, idx, j, c, right) == Some(s)
    ensures forall i :: 0 <= i < side ==> OnEdge(edges[idx], Along(s.s0, s.smd, i))
    ensures forall i :: 0 <= i < side ==> OnEdge(edges[j], Along(s.n0, s.nmd, i))
  {
    AlongOnEdge(edges[idx], side, s.s0, Corner(edges[idx], !right), s.smd);
    AlongOnEdge(edges[j], side, s.n0, Corner(edges[j], right), s.nmd);
  }

  /**
    * An accepted seam's cell pairs are consistent: walks along unit directions are one to one,
    * two different sides share no key, and a side zipped to itself is walked from both ends.
    */
  lemma SeamConsistent(edges: seq<Edge>, side: nat, idx: nat, j: nat, c: nat, right: bool, s: Seam)
    requires Units(edges) && Facts(edges, side) && side >= 1 && idx < |edges| && j < |edges|
    requires Attempt(edges, side, idx, j, c, right) == Some(s)
    ensures Consistent(SeamCells(s, side), edges[idx].dir, edges[j].dir)
  {
    var cells := SeamCells(s, side);
    var sd, nd := edges[idx].dir, edges[j].dir;
    SeamOnSides(edges, side, idx, j, c, right, s);
    if idx == j {
      SelfPair(s.s0, s.smd, s.n0, s.nmd, side);
    }
    forall a, b | 0 <= a < side && 0 <= b < side
      ensures (cells[a].0 == cells[b].0 ==> cells[a].1 == cells[b].1) &&
        (cells[a].1 == cells[b].1 ==> cells[a].0 == cells[b].0) &&
        (sd == nd && cells[a].0 == cells[b].1 ==> cells[a].1 == cells[b].0)
    {
      if idx != j && sd == nd {
        assert OnEdge(edges[idx], Along(s.s0, s.smd, a)) && OnEdge(edges[j], Along(s.n0, s.nmd, b));
      }
      CellsAgree(s, side, sd, nd, a, b, idx == j);
    }
  }

  /** The consistency of two cell pairs a and b of a seam, from the facts that give it. */
  lemma CellsAgree(s: Seam, side: nat, sd: XY, nd: XY, a: nat, b: nat, same: bool)
    requires IsUnit(s.smd) && IsUnit(s.nmd) && a < side && b < side
    requires same ==> Along(s.n0, s.nmd, a) == Along(s.s0, s.smd, side - 1 - a)
    requires same ==> Along(s.n0, s.nmd, b) == Along(s.s0, s.smd, side - 1 - b)
    requires !same && sd == nd ==> Along(s.s0, s.smd, a) != Along(s.n0, s.nmd, b)
    ensures Along(s.s0, s.smd, a) == Along(s.s0, s.smd, b) ==> Along(s.n0, s.nmd, a) == Along(s.n0, s.nmd, b)
    ensures Along(s.n0, s.nmd, a) == Along(s.n0, s.nmd, b) ==> Along(s.s0, s.smd, a) == Along(s.s0, s.smd, b)
    ensures sd == nd && Along(s.s0, s.smd, a) == Along(s.n0, s.nmd, b) ==>
      Along(s.n0, s.nmd, a) == Along(s.s0, s.smd, b)
  {
    if Along(s.s0, s.smd, a) == Along(s.s0, s.smd, b) {
      AlongInjective(s.s0, s.smd, a, b);
    }
    if Along(s.n0, s.nmd, a) == Along(s.n0, s.nmd, b) {
      AlongInjective(s.n0, s.nmd, a, b);
    }
    if sd == nd && Along(s.s0, s.smd, a) == Along(s.n0, s.nmd, b) && same {
      AlongInjective(s.s0, s.smd, a, side - 1 - b);
      assert side - 1 - a == b;
    }
  }

  /** Committing an accepted pairing of two unmapped sides keeps the loop invariant. */
  lemma CommitKeeps(edges: seq<Edge>, side: nat, z: Zip, idx: nat, j: nat, c: nat, right: bool, s: Seam)
    requires Units(edges) && Facts(edges, side) && side >= 1 && ZipInv(edges, z)
    requires idx < |edges| && j < |edges| && idx !in z.mapped && j !in z.mapped
    requires Attempt(edges, side, idx, j, c, right) == Some(s)
    ensures ZipInv(edges, Commit(edges, side, z, idx, j, s))
  {
    FlipTwice();
    var cells := SeamCells(s, side);
    SeamOnSides(edges, side, idx, j, c, right, s);
    SeamConsistent(edges, side, idx, j, c, right, s);
    assert forall i :: 0 <= i < |cells| ==> OnEdge(edges[idx], cells[i].0) && OnEdge(edges[j], cells[i].1);
    CommitInverse(edges, z, idx, j, cells);
    CommitKeysOn(edges, z, idx, j, cells);
    CommitComplete(edges, side, z, idx, j, c, right, s);
  }

  /** Committing a pairing keys every cell of both its sides, and keeps every key there was. */
  lemma CommitComplete(edges: seq<Edge>, side: nat, z: Zip, idx: nat, j: nat, c: nat, right: bool, s: Seam)
    requires Units(edges) && Facts(edges, side) && side >= 1 && Complete(edges, z)
    requires idx < |edges| && j < |edges|
    requires Attempt(edges, side, idx, j, c, right) == Some(s)
    ensures Complete(edges, Commit(edges, side, z, idx, j, s))
  {
    var cells := SeamCells(s, side);
    var sd, nd := edges[idx].dir, edges[j].dir;
    assert Shaped(edges[idx], side) && Shaped(edges[j], side);
    assert Along(s.s0, s.smd, side - 1) == Corner(edges[idx], !right);
    assert Along(s.n0, s.nmd, side - 1) == Corner(edges[j], right);
    forall x | OnEdge(edges[idx], x)
      ensures Stitched(cells, sd, nd, (x, sd))
    {
      SideKeyed(edges[idx], side, s.s0, Corner(edges[idx], !right), s.smd, x, cells, sd, nd, true);
    }
    forall x | OnEdge(edges[j], x)
      ensures Stitched(cells, sd, nd, (x, nd))
    {
      SideKeyed(edges[j], side, s.n0, Corner(edges[j], right), s.nmd, x, cells, sd, nd, false);
    }
    StitchComplete(edges, z, idx, j, cells);
  }

  /** A stitch that writes the keys of every cell of sides idx and j keeps the table complete once both are mapped. */
  lemma StitchComplete(edges: seq<Edge>, z: Zip, idx: nat, j: nat, cells: seq<(XY, XY)>)
    requires Complete(edges, z) && idx < |edges| && j < |edges|
    requires forall x :: OnEdge(edges[idx], x) ==> Stitched(cells, edges[idx].dir, edges[j].dir, (x, edges[idx].dir))
    requires forall x :: OnEdge(edges[j], x) ==> Stitched(cells, edges[idx].dir, edges[j].dir, (x, edges[j].dir))
    ensures Complete(edges, Zip(Stitch(z.m, cells, edges[idx].dir, edges[j].dir), z.mapped + {idx, j}))
  {
    StitchShape(z.m, cells, edges[idx].dir, edges[j].dir);
  }

  /**
    * Stitching the cells a walk covering a side visits (as start cells, or as partner cells)
    * writes the key of each of the side's cells.
    */
  lemma SideKeyed(e: Edge, side: nat, a: XY, b: XY, u: XY, x: XY, cells: seq<(XY, XY)>, sd: XY, nd: XY, first: bool)
    requires Shaped(e, side) && side >= 1 && IsUnit(u)
    requires (a == e.p1 || a == e.p2) && (b == e.p1 || b == e.p2)
    requires Along(a, u, side - 1) == b && OnEdge(e, x) && |cells| == side
    requires forall i :: 0 <= i < side ==> (if first then cells[i].0 else cells[i].1) == Along(a, u, i)
    ensures Stitched(cells, sd, nd, (x, if first then sd else nd))
  {
    EdgeCovered(e, side, a, b, u, x);
    var i :| 0 <= i < side && Along(a, u, i) == x;
    assert (if first then cells[i].0 else cells[i].1) == x;
  }

  /** Stitching cells of two unmapped sides into the table keeps it mutually inverse. */
  lemma {:induction false} CommitInverse(edges: seq<Edge>, z: Zip, idx: nat, j: nat, cells: seq<(XY, XY)>)
    requires DisjointKeys(edges) && MutuallyInverse(z.m) && KeysOn(edges, z)
    requires idx < |edges| && j < |edges| && idx !in z.mapped && j !in z.mapped
    requires forall i :: 0 <= i < |cells| ==> OnEdge(edges[idx], cells[i].0) && OnEdge(edges[j], cells[i].1)
    requires Consistent(cells, edges[idx].dir, edges[j].dir)
    ensures MutuallyInverse(Stitch(z.m, cells, edges[idx].dir, edges[j].dir))
  {
    FlipTwice();
    var sd, nd := edges[idx].dir, edges[j].dir;
    forall i | 0 <= i < |cells|
      ensures (cells[i].0, sd) !in z.m && (cells[i].1, nd) !in z.m
    {
      FreshKey(edges, z, idx, cells[i].0);
      FreshKey(edges, z, j, cells[i].1);
    }
    StitchInverse(z.m, cells, sd, nd);
  }

  /** After stitching cells of sides idx and j and marking both mapped, every key is on a mapped side. */
  lemma {:induction false} CommitKeysOn(edges: seq<Edge>, z: Zip, idx: nat, j: nat, cells: seq<(XY, XY)>)
    requires KeysOn(edges, z) && idx < |edges| && j < |edges|
    requires forall i :: 0 <= i < |cells| ==> OnEdge(edges[idx], cells[i].0) && OnEdge(edges[j], cells[i].1)
    ensures KeysOn(edges, Zip(Stitch(z.m, cells, edges[idx].dir, edges[j].dir), z.mapped + {idx, j}))
  {
    var sd, nd := edges[idx].dir, edges[j].dir;
    var z1 := Zip(Stitch(z.m, cells, sd, nd), z.mapped + {idx, j});
    StitchShape(z.m, cells, sd, nd);
    forall k | k in z1.m
      ensures exists t :: t in z1.mapped && t < |edges| && OnEdge(edges[t], k.0) && k.1 == edges[t].dir
    {
      if Stitched(cells, sd, nd, k) {
        var i :| 0 <= i < |cells| && (k == (cells[i].0, sd) || k == (cells[i].1, nd));
        if k == (cells[i].0, sd) {
          assert idx in z1.mapped && OnEdge(edges[idx], k.0);
        } else {
          assert j in z1.mapped && OnEdge(edges[j], k.0);
        }
      } else {
        var t :| t in z.mapped && t < |edges| && OnEdge(edges[t], k.0) && k.1 == edges[t].dir;
        assert t in z1.mapped;
      }
    }
  }

  /** One attempt keeps the loop invariant. */
  lemma {:induction false} TryKeeps(edges: seq<Edge>, links: seq<Link>, side: nat, z: Zip, idx: nat, right: bool)
    requires Wf(edges, links, side) && Facts(edges, side) && ZipInv(edges, z)
    requires idx < |edges| && idx !in z.mapped && MappedIn(z.mapped, |edges|)
    ensures var r := Try(edges, links, side, z, idx, right);
      r.Ends? && r.value.Some? ==> ZipInv(edges, r.value.value)
  {
    FlipTwice();
    match Skip(links, z.mapped, Follow(links[idx], right), right, |links|)
    case Spins =>
    case Panics(_) =>
    case Ends((j, c)) =>
      match Attempt(edges, side, idx, j, c, right)
      case Some(s) => CommitKeeps(edges, side, z, idx, j, c, right, s);
      case None =>
  }

  /** One turn of the `for idx` loop keeps the loop invariant. */
  lemma {:induction false} VisitKeeps(edges: seq<Edge>, links: seq<Link>, side: nat, z: Zip, idx: nat)
    requires Wf(edges, links, side) && Facts(edges, side) && ZipInv(edges, z)
    requires idx < |edges| && MappedIn(z.mapped, |edges|)
    ensures Visit(edges, links, side, z, idx).Ends? ==> ZipInv(edges, Visit(edges, links, side, z, idx).value)
  {
    FlipTwice();
    if idx !in z.mapped {
      VisitTries(edges, links, side, z, idx);
      TryKeeps(edges, links, side, z, idx, true);
      TryKeeps(edges, links, side, z, idx, false);
    }
  }

  /** A turn of the `for idx` loop on an unmapped side ends with the table as it was or as one attempt left it. */
  lemma VisitTries(edges: seq<Edge>, links: seq<Link>, side: nat, z: Zip, idx: nat)
    requires Wf(edges, links, side) && idx < |edges| && MappedIn(z.mapped, |edges|) && idx !in z.mapped
    ensures var v := Visit(edges, links, side, z, idx);
      var a := Try(edges, links, side, z, idx, true);
      var b := Try(edges, links, side, z, idx, false);
      v.Ends? ==> v.value == z || (a.Ends? && a.value == Some(v.value)) || (b.Ends? && b.value == Some(v.value))
  {
  }

  /** A whole pass keeps the loop invariant, one turn of the `for idx` loop at a time. */
  lemma PassKeeps(edges: seq<Edge>, links: seq<Link>, side: nat, z: Zip, r: Zip)
    requires Wf(edges, links, side) && Facts(edges, side) && MappedIn(z.mapped, |edges|)
    requires ZipInv(edges, z) && Pass(edges, links, side, z, 0) == Ends(r)
    ensures ZipInv(edges, r)
  {
    var y, idx := z, 0;
    while idx < |edges|
      invariant idx <= |edges| && MappedIn(y.mapped, |edges|) && ZipInv(edges, y)
      invariant Pass(edges, links, side, y, idx) == Ends(r)
    {
      y := VisitStep(edges, links, side, y, idx, r);
      idx := idx + 1;
    }
    PassDone(edges, links, side, y, idx, r);
  }

  /** A pass from past the last side ends with the table as it was. */
  lemma PassDone(edges: seq<Edge>, links: seq<Link>, side: nat, z: Zip, idx: nat, r: Zip)
    requires Wf(edges, links, side) && idx == |edges| && MappedIn(z.mapped, |edges|)
    requires Pass(edges, links, side, z, idx) == Ends(r)
    ensures r == z
  {
  }

  /** The first turn of a pass that ends leaves a table that keeps the invariant, from which the rest of the pass ends the same way. */
  lemma VisitStep(edges: seq<Edge>, links: seq<Link>, side: nat, z: Zip, idx: nat, r: Zip) returns (z1: Zip)
    requires Wf(edges, links, side) && Facts(edges, side) && idx < |edges| && MappedIn(z.mapped, |edges|)
    requires ZipInv(edges, z) && Pass(edges, links, side, z, idx) == Ends(r)
    ensures ZipInv(edges, z1) && MappedIn(z1.mapped, |edges|)
    ensures Pass(edges, links, side, z1, idx + 1) == Ends(r)
  {
    var v := Visit(edges, links, side, z, idx);
    PassUnfold(edges, links, side, z, idx, v);
    VisitKeeps(edges, links, side, z, idx);
    z1 := v.value;
  }

  /** One turn of the `for idx` loop, then the rest of the pass. */
  lemma PassUnfold(edges: seq<Edge>, links: seq<Link>, side: nat, z: Zip, idx: nat, v: Run<Zip>)
    requires Wf(edges, links, side) && idx < |edges| && MappedIn(z.mapped, |edges|)
    requires v == Visit(edges, links, side, z, idx)
    ensures v.Ends? ==> Pass(edges, links, side, z, idx) == Pass(edges, links, side, v.value, idx + 1)
    ensures !v.Ends? ==> !Pass(edges, links, side, z, idx).Ends?
  {
  }

  /** Each key of the table is a cell of some side of the outline, heading out through it. */
  ghost predicate OnSides(edges: seq<Edge>, m: map<Key, Key>)
  {
    forall k :: k in m ==> exists j :: 0 <= j < |edges| && OnEdge(edges[j], k.0) && k.1 == edges[j].dir
  }

  /** Every cell of every side of the outline, heading out through it, is a key of the table. */
  ghost predicate Covers(edges: seq<Edge>, m: map<Key, Key>)
  {
    forall j, c :: 0 <= j < |edges| && OnEdge(edges[j], c) ==> (c, edges[j].dir) in m
  }

  /**
    * The outer loop keeps the invariant, so a table it ends with is mutually inverse and its
    * keys are exactly the cells of the outline heading out through their side.
    */
  lemma {:induction false} ZippingKeeps(edges: seq<Edge>, links: seq<Link>, side: nat, z: Zip)
    requires Wf(edges, links, side) && Facts(edges, side) && ZipInv(edges, z) && MappedIn(z.mapped, |edges|)
    ensures Zipping(edges, links, side, z).Ends? ==>
      MutuallyInverse(Zipping(edges, links, side, z).value) && OnSides(edges, Zipping(edges, links, side, z).value)
    ensures Zipping(edges, links, side, z).Ends? ==> Covers(edges, Zipping(edges, links, side, z).value)
    decreases |edges| - |z.mapped|
  {
    FlipTwice();
    if |z.mapped| < |edges| {
      match Pass(edges, links, side, z, 0)
      case Ends(z1) =>
        PassKeeps(edges, links, side, z, z1);
        if z1.mapped != z.mapped {
          MappedBound(z1.mapped, |edges|);
          GrowingSet(z.mapped, z1.mapped);
          ZippingKeeps(edges, links, side, z1);
        }
      case Spins =>
      case Panics(_) =>
    } else {
      KeysOnSides(edges, z);
      AllMapped(edges, z);
    }
  }

  /** Once as many sides are mapped as there are, the table covers the whole outline. */
  lemma AllMapped(edges: seq<Edge>, z: Zip)
    requires Complete(edges, z) && MappedIn(z.mapped, |edges|) && |z.mapped| >= |edges|
    ensures Covers(edges, z.m)
  {
    forall j | 0 <= j < |edges|
      ensures j in z.mapped
    {
      if j !in z.mapped {
        MissingBound(z.mapped, |edges|, j);
      }
    }
  }

  /** A set of side indices that misses one of them has fewer members than there are sides. */
  lemma {:induction false} MissingBound(mapped: set<nat>, n: nat, j: nat)
    requires MappedIn(mapped, n) && j < n && j !in mapped
    ensures |mapped| < n
    decreases n
  {
    if j == n - 1 {
      MappedBound(mapped, n - 1);
    } else {
      MissingBound(mapped - {n - 1}, n - 1, j);
    }
  }

  /** Keys on mapped sides are keys on sides. */
  lemma KeysOnSides(edges: seq<Edge>, z: Zip)
    requires KeysOn(edges, z)
    ensures OnSides(edges, z.m)
  {
    forall k | k in z.m
      ensures exists j :: 0 <= j < |edges| && OnEdge(edges[j], k.0) && k.1 == edges[j].dir
    {
      var j :| j in z.mapped && j < |edges| && OnEdge(edges[j], k.0) && k.1 == edges[j].dir;
    }
  }

  /**
    * The seam table map_edges returns, when it returns, pairs every crossing with the crossing
    * back, and its keys are exactly the cells of the net's outline heading out through their side.
    */
  lemma SeamsInverse(lines: seq<Line>, side: nat)
    requires ValidLines(lines) && Seams(lines, side).Ends?
    ensures MutuallyInverse(Seams(lines, side).value)
    ensures OnSides(AllEdges(lines, side), Seams(lines, side).value)
    ensures Covers(AllEdges(lines, side), Seams(lines, side).value)
  {
    assert side >= 1;
    var edges := AllEdges(lines, side);
    var links := LinksLoop(edges, Unlinked(|edges|), 0, 2, |edges|).value;
    SeamsLinked(lines, side, links);
    FactsOf(lines, side);
    ZippingKeeps(edges, links, side, Zip(map[], {}));
  }

  /** The sides make_edges finds have the shape and the disjoint keys the zipping relies on. */
  lemma FactsOf(lines: seq<Line>, side: nat)
    requires ValidLines(lines) && side >= 1
    ensures Facts(AllEdges(lines, side), side)
  {
    var edges := AllEdges(lines, side);
    EdgesShaped(lines, side);
    EdgesDisjoint(lines, side);
    assert forall i :: 0 <= i < |edges| ==> edges[i] in edges;
  }

  // ------------------------------------------------------------------
  // map_edges as the source runs it
  // ------------------------------------------------------------------

  /** The skip loop: hop past mapped sides, giving up once a circuit of mapped sides is closed. */
  method SkipMapped(links: seq<Link>, mapped: set<nat>, i: nat, right: bool) returns (r: Run<(nat, nat)>)
    requires LinksIn(links) && i < |links|
    ensures r == Skip(links, mapped, i, right, |links|)
  {
    var j: nat := i;
    var c: nat := 0;
    ShiftTwice(Skip(links, mapped, i, right, |links|), 0, 0);
    while j in mapped
      invariant j < |links| && c <= |links| &&
        Skip(links, mapped, i, right, |links|) == Shift(Skip(links, mapped, j, right, |links| - c), c)
      decreases |links| - c
    {
      if c == |links| {
        return Spins;
      }
      SkipStep(links, mapped, j, right, |links| - c);
      ShiftTwice(Skip(links, mapped, Follow(links[j], right), right, |links| - c - 1), 1, c);
      j := Follow(links[j], right);
      c := c + 1;
    }
    assert Skip(links, mapped, j, right, |links| - c) == Ends((j, 0));
    r := Ends((j, c));
  }

  /** A mapped side hands the skip on to the side one hop further, counting one more. */
  lemma SkipStep(links: seq<Link>, mapped: set<nat>, j: nat, right: bool, fuel: nat)
    requires LinksIn(links) && j < |links| && j in mapped && fuel > 0
    ensures Skip(links, mapped, j, right, fuel) == Shift(Skip(links, mapped, Follow(links[j], right), right, fuel - 1), 1)
  {
  }

  lemma ShiftTwice(r: Run<(nat, nat)>, a: nat, b: nat)
    ensures Shift(Shift(r, a), b) == Shift(r, a + b)
    ensures Shift(r, 0) == r
  {
  }

  /** One attempt's turning and trial walk: the two c / 2 turn loops and the side - 1 step loop. */
  method TryPair(edges: seq<Edge>, side: nat, idx: nat, j: nat, c: nat, right: bool) returns (r: Option<Seam>)
    requires Units(edges) && idx < |edges| && j < |edges| && side >= 1
    ensures r == Attempt(edges, side, idx, j, c, right)
  {
    var start := edges[idx];
    var next := edges[j];
    var toStart: Step := if right then Right else Left;
    var toNext: Step := if right then Left else Right;
    var nmd := start.dir;
    var smd := next.dir;
    var t := 0;
    while t < c / 2
      invariant t <= c / 2
      invariant nmd == Turns(toStart, start.dir, t) && smd == Turns(toNext, next.dir, t)
    {
      nmd := ChangeDir(toStart, nmd);
      smd := ChangeDir(toNext, smd);
      t := t + 1;
    }
    var sp := Corner(start, right);
    var np := Corner(next, !right);
    var k := 0;
    while k < side - 1
      invariant k <= side - 1
      invariant sp == Along(Corner(start, right), smd, k) && np == Along(Corner(next, !right), nmd, k)
    {
      sp := Add(sp, smd);
      np := Add(np, nmd);
      k := k + 1;
    }
    if sp == Corner(start, !right) && np == Corner(next, right) {
      r := Some(Seam(Corner(start, right), smd, Corner(next, !right), nmd));
    } else {
      r := None;
    }
  }

  /** Stitching one more cell pair of a seam adds that pair's two inserts last. */
  lemma StitchMore(m: map<Key, Key>, s: Seam, k: nat, sd: XY, nd: XY)
    ensures Stitch(m, SeamCells(s, k + 1), sd, nd)
         == Stitch(m, SeamCells(s, k), sd, nd)[(Along(s.s0, s.smd, k), sd) := (Along(s.n0, s.nmd, k), Reverse(nd))]
                                               [(Along(s.n0, s.nmd, k), nd) := (Along(s.s0, s.smd, k), Reverse(sd))]
  {
    var cells := SeamCells(s, k + 1);
    assert cells[..k] == SeamCells(s, k);
    assert cells[k] == (Along(s.s0, s.smd, k), Along(s.n0, s.nmd, k));
  }

  /** The commit loop: side pairs of inserts, walking both sides in step. */
  method StitchSeam(m: map<Key, Key>, s: Seam, side: nat, sd: XY, nd: XY) returns (r: map<Key, Key>)
    ensures r == Stitch(m, SeamCells(s, side), sd, nd)
  {
    r := m;
    var sp, np := s.s0, s.n0;
    var k := 0;
    while k < side
      invariant k <= side && sp == Along(s.s0, s.smd, k) && np == Along(s.n0, s.nmd, k)
      invariant r == Stitch(m, SeamCells(s, k), sd, nd)
    {
      StitchMore(m, s, k, sd, nd);
      r := r[(sp, sd) := (np, Reverse(nd))][(np, nd) := (sp, Reverse(sd))];
      sp := Add(sp, s.smd);
      np := Add(np, s.nmd);
      k := k + 1;
    }
  }

  /** One attempt of the loop body, turning right or left. */
  method TrySide(edges: seq<Edge>, links: seq<Link>, side: nat, z: Zip, idx: nat, right: bool) returns (r: Run<Option<Zip>>)
    requires Wf(edges, links, side) && idx < |edges| && MappedIn(z.mapped, |edges|)
    ensures r == Try(edges, links, side, z, idx, right)
  {
    var sk := SkipMapped(links, z.mapped, Follow(links[idx], right), right);
    if !sk.Ends? {
      return Spins;
    }
    var (j, c) := sk.value;
    var seam := TryPair(edges, side, idx, j, c, right);
    if seam.None? {
      return Ends(None);
    }
    var m := StitchSeam(z.m, seam.value, side, edges[idx].dir, edges[j].dir);
    r := Ends(Some(Zip(m, z.mapped + {idx, j})));
  }

  /** The body of the `for idx` loop. */
  method VisitSide(edges: seq<Edge>, links: seq<Link>, side: nat, z: Zip, idx: nat) returns (r: Run<Zip>)
    requires Wf(edges, links, side) && idx < |edges| && MappedIn(z.mapped, |edges|)
    ensures r == Visit(edges, links, side, z, idx)
  {
    if idx in z.mapped {
      return Ends(z);
    }
    var t := TrySide(edges, links, side, z, idx, true);
    if !t.Ends? {
      return Spins;
    }
    if t.value.Some? {
      return Ends(t.value.value);
    }
    t := TrySide(edges, links, side, z, idx, false);
    if !t.Ends? {
      return Spins;
    }
    if t.value.Some? {
      return Ends(t.value.value);
    }
    r := Ends(z);
  }

  /**
    * Puzzle::map_edges. Where the source would loop for ever (a pass that zips nothing, or a
    * skip round a closed circuit of mapped sides) the method reports Spins instead. A table it
    * returns is mutually inverse, and its keys are exactly the outline's cells heading out.
    */
  method MapEdges(lines: seq<Line>, side: nat) returns (r: Run<map<Key, Key>>)
    requires ValidLines(lines)
    ensures r == Seams(lines, side)
    ensures r.Ends? ==> MutuallyInverse(r.value)
    ensures r.Ends? ==> OnSides(AllEdges(lines, side), r.value) && Covers(AllEdges(lines, side), r.value)
  {
    var made := MakeEdges(lines, side);
    if made.Panic? {
      return Panics("attempt to divide by zero");
    }
    var edges := made.value;
    var linked := MakeLinks(edges);
    if linked.Panic? {
      return Panics(linked.msg);
    }
    var links := linked.value;
    SeamsLinked(lines, side, links);
    r := ZipAll(edges, links, side);
    if r.Ends? {
      SeamsInverse(lines, side);
    }
  }

  /** Once make_links succeeds, the sides and links are well formed and the table is the zipping of them. */
  lemma SeamsLinked(lines: seq<Line>, side: nat, links: seq<Link>)
    requires ValidLines(lines) && side >= 1
    requires LinksLoop(AllEdges(lines, side), Unlinked(|AllEdges(lines, side)|), 0, 2, |AllEdges(lines, side)|) == Ok(links)
    ensures Wf(AllEdges(lines, side), links, side)
    ensures Seams(lines, side) == Zipping(AllEdges(lines, side), links, side, Zip(map[], {}))
  {
    var edges := AllEdges(lines, side);
    LinksLoopBounded(edges, Unlinked(|edges|), 0, 2, |edges|);
    EdgesShaped(lines, side);
    assert Units(edges) by {
      assert forall i :: 0 <= i < |edges| ==> edges[i] in edges;
    }
  }

  /** The outer `while mapped_edges.len() < edges.len()` loop, with no progress check of its own. */
  method ZipAll(edges: seq<Edge>, links: seq<Link>, side: nat) returns (r: Run<map<Key, Key>>)
    requires Wf(edges, links, side)
    ensures r == Zipping(edges, links, side, Zip(map[], {}))
  {
    var z := Zip(map[], {});
    ghost var goal := Zipping(edges, links, side, z);
    while |z.mapped| < |edges|
      invariant MappedIn(z.mapped, |edges|)
      invariant Zipping(edges, links, side, z) == goal
      decreases |edges| - |z.mapped|
    {
      var before := z;
      var p := RunPass(edges, links, side, z);
      if !p.Ends? {
        return Spins;
      }
      z := p.value;
      if z.mapped == before.mapped {
        return Spins;
      }
      MappedBound(z.mapped, |edges|);
      GrowingSet(before.mapped, z.mapped);
    }
    r := Ends(z.m);
  }

  /** The `for idx in 0..edges.len()` loop: one pass over the sides. */
  method RunPass(edges: seq<Edge>, links: seq<Link>, side: nat, z0: Zip) returns (r: Run<Zip>)
    requires Wf(edges, links, side) && MappedIn(z0.mapped, |edges|)
    ensures r == Pass(edges, links, side, z0, 0)
  {
    var z := z0;
    var idx := 0;
    while idx < |edges|
      invariant idx <= |edges| && MappedIn(z.mapped, |edges|)
      invariant Pass(edges, links, side, z, idx) == Pass(edges, links, side, z0, 0)
    {
      var v := VisitSide(edges, links, side, z, idx);
      if !v.Ends? {
        return Spins;
      }
      z := v.value;
      idx := idx + 1;
    }
    r := Ends(z);
  }

  // ------------------------------------------------------------------
  // The part 2 walk and the two answers
  // ------------------------------------------------------------------

  /**
    * What follow_cube_path computes: from the first tile of the top row facing east, the cube
    * walk over the seam table of the given side length; the empty board panics first, then
    * the table's panic or endless loop.
    */
  function CubePath(puzzle: Puzzle, side: nat): (r: Run<Key>)
    requires ValidLines(puzzle.lines)
  {
    match Start(puzzle.lines)
    case Panic(e) => Panics(e)
    case Ok(p) =>
      match Seams(puzzle.lines, side)
      case Panics(e) => Panics(e)
      case Spins => Spins
      case Ends(m) =>
        match CubeWalk(puzzle.lines, m, puzzle.steps, p, East)
        case Panic(e) => Panics(e)
        case Ok(k) => Ends(k)
  }

  /**
    * Puzzle::follow_cube_path: the initial state, the seam table, then every step in turn, each
    * move stopping at the first wall.
    */
  method FollowCubePath(puzzle: Puzzle, side: nat) returns (r: Run<State>)
    requires ValidLines(puzzle.lines)
    ensures r.Spins? <==> CubePath(puzzle, side).Spins?
    ensures r.Panics? <==> CubePath(puzzle, side).Panics?
    ensures r.Ends? ==> (r.value.p, r.value.dir) == CubePath(puzzle, side).value
  {
    var lines := puzzle.lines;
    var steps := puzzle.steps;
    if |lines| == 0 {
      return Panics("index out of bounds");
    }
    var curr := new State(XY(lines[0].minX, 0), East);
    var seams := MapEdges(lines, side);
    if seams.Spins? {
      return Spins;
    }
    if seams.Panics? {
      return Panics(seams.msg);
    }
    var walked := WalkCube(curr, lines, seams.value, steps);
    if walked.Panic? {
      return Panics(walked.msg);
    }
    r := Ends(curr);
  }

  /** The `for step in &self.steps` loop of follow_cube_path. */
  method WalkCube(curr: State, lines: seq<Line>, m: map<Key, Key>, steps: seq<Step>) returns (r: Result<Key>)
    modifies curr
    ensures r == CubeWalk(lines, m, steps, old(curr.p), old(curr.dir))
    ensures r.Ok? ==> (curr.p, curr.dir) == r.value
  {
    ghost var goal := CubeWalk(lines, m, steps, curr.p, curr.dir);
    var i := 0;
    while i < |steps|
      invariant 0 <= i <= |steps|
      invariant CubeWalk(lines, m, steps[i..], curr.p, curr.dir) == goal
    {
      assert steps[i..] == [steps[i]] + steps[i + 1..];
      match steps[i] {
        case Move(n) =>
          var moved := MoveCube(curr, lines, m, n);
          if moved.Panic? {
            return Panic(moved.msg);
          }
        case _ =>
          curr.dir := ChangeDir(steps[i], curr.dir);
      }
      i := i + 1;
    }
    r := Ok((curr.p, curr.dir));
  }

  /** A Move(n) step of follow_cube_path: up to n steps, stopping at the first wall. */
  method MoveCube(curr: State, lines: seq<Line>, m: map<Key, Key>, n: nat) returns (r: Result<Key>)
    modifies curr
    ensures r == CubeMoveN(lines, m, old(curr.p), old(curr.dir), n)
    ensures r.Ok? ==> (curr.p, curr.dir) == r.value
  {
    ghost var p0 := curr.p;
    ghost var d0 := curr.dir;
    var j := 0;
    while j < n
      invariant 0 <= j <= n
      invariant CubeMoveN(lines, m, curr.p, curr.dir, n - j) == CubeMoveN(lines, m, p0, d0, n)
    {
      var moved := curr.MoveForwardWithMappings(lines, m);
      if moved.Panic? {
        return Panic(moved.msg);
      }
      if !moved.value {
        break;
      }
      j := j + 1;
    }
    r := Ok((curr.p, curr.dir));
  }

  /** part1: the password of where the flat walk ends. */
  method Part1(puzzle: Puzzle) returns (r: Result<int>)
    requires ValidLines(puzzle.lines)
    ensures r.Ok? <==>
      (|puzzle.lines| > 0 && IsUnit(FlatWalk(puzzle.lines, puzzle.steps, Start(puzzle.lines).value, East).1))
    ensures r.Ok? ==> var (q, d) := FlatWalk(puzzle.lines, puzzle.steps, Start(puzzle.lines).value, East);
      r == Password(q, d)
  {
    var st := FollowPath(puzzle);
    if st.Panic? {
      return Panic(st.msg);
    }
    r := Password(st.value.p, st.value.dir);
  }

  /** part2: the password of where the cube walk over the side-50 seam table ends. */
  method Part2(puzzle: Puzzle) returns (r: Run<int>)
    requires ValidLines(puzzle.lines)
    ensures r.Spins? <==> CubePath(puzzle, 50).Spins?
    ensures r.Ends? <==> CubePath(puzzle, 50).Ends? && IsUnit(CubePath(puzzle, 50).value.1)
    ensures r.Ends? ==> Ends(r.value) == (var (q, d) := CubePath(puzzle, 50).value; Ends(Password(q, d).value))
  {
    var st := FollowCubePath(puzzle, 50);
    if st.Spins? {
      return Spins;
    }
    if st.Panics? {
      return Panics(st.msg);
    }
    var pw := Password(st.value.p, st.value.dir);
    if pw.Panic? {
      return Panics(pw.msg);
    }
    r := Ends(pw.value);
  }

  /** When the start tile is open, part1 never panics and its password encodes a tile. */
  lemma Part1Defined(puzzle: Puzzle)
    requires ValidLines(puzzle.lines) && |puzzle.lines| > 0
    requires GetSpace(puzzle.lines, Start(puzzle.lines).value) == Ok(OpenSpace)
    ensures var (q, d) := FlatWalk(puzzle.lines, puzzle.steps, Start(puzzle.lines).value, East);
      IsUnit(d) && GetSpace(puzzle.lines, q) == Ok(OpenSpace) && Password(q, d).Ok?
  {
    FlatWalkEndsOpen(puzzle.lines, puzzle.steps, Start(puzzle.lines).value, East);
  }

  /**
    * Every seam of the table comes out heading in a unit direction: the way back is a key,
    * and keys head out through a side.
    */
  lemma SeamHeadingsUnit(lines: seq<Line>, side: nat)
    requires ValidLines(lines) && Seams(lines, side).Ends?
    ensures forall k :: k in Seams(lines, side).value ==> IsUnit(Seams(lines, side).value[k].1)
  {
    SeamsInverse(lines, side);
    EdgesShaped(lines, side);
    var edges := AllEdges(lines, side);
    assert Units(edges) by {
      assert forall i :: 0 <= i < |edges| ==> edges[i] in edges;
    }
    InverseHeadingsUnit(edges, Seams(lines, side).value);
  }

  /** In a mutually inverse table whose keys head out through unit sides, every seam heads in a unit direction. */
  lemma InverseHeadingsUnit(edges: seq<Edge>, m: map<Key, Key>)
    requires Units(edges) && MutuallyInverse(m) && OnSides(edges, m)
    ensures forall k :: k in m ==> IsUnit(m[k].1)
  {
    FlipTwice();
    forall k | k in m
      ensures IsUnit(m[k].1)
    {
      assert Flip(m[k]) in m;
      SeamHeadingUnit(edges, m, k);
    }
  }

  /** A seam whose way back is a key comes out heading in a unit direction. */
  lemma SeamHeadingUnit(edges: seq<Edge>, m: map<Key, Key>, k: Key)
    requires Units(edges) && OnSides(edges, m) && k in m && Flip(m[k]) in m
    ensures IsUnit(m[k].1)
  {
    var back := Flip(m[k]);
    KeyHeadingUnit(edges, m, back);
    assert back.1 == Reverse(m[k].1);
  }

  /** A key on a unit side heads in a unit direction. */
  lemma KeyHeadingUnit(edges: seq<Edge>, m: map<Key, Key>, k: Key)
    requires Units(edges) && OnSides(edges, m) && k in m
    ensures IsUnit(k.1)
  {
    var j :| 0 <= j < |edges| && OnEdge(edges[j], k.0) && k.1 == edges[j].dir;
  }

  /** Every open tile whose step in direction d leaves the board lies on a side facing d. */
  ghost predicate Outlined(lines: seq<Line>, edges: seq<Edge>)
  {
    forall p: XY, d: XY {:trigger Add(p, d), GetSpace(lines, p)} ::
      GetSpace(lines, p) == Ok(OpenSpace) && IsUnit(d) && !OnGrid(lines, Add(p, d)) ==>
        exists j :: 0 <= j < |edges| && OnEdge(edges[j], p) && edges[j].dir == d
  }

  /** A table covering the outline seams every step off the board from an open tile on it. */
  lemma OutlineClosed(lines: seq<Line>, edges: seq<Edge>, m: map<Key, Key>)
    requires Outlined(lines, edges) && Covers(edges, m)
    ensures ClosedBy(lines, m)
  {
    forall p: XY, d: XY | GetSpace(lines, p) == Ok(OpenSpace) && IsUnit(d) && !OnGrid(lines, Add(p, d))
      ensures (p, d) in m
    {
      var j :| 0 <= j < |edges| && OnEdge(edges[j], p) && edges[j].dir == d;
    }
  }

  /**
    * On a board where every seam lands on the board and every open tile at the board's rim
    * lies on a side of the outline facing off the board, part 2 from an open start tile never
    * panics and ends on an open tile.
    */
  lemma Part2Defined(puzzle: Puzzle)
    requires ValidLines(puzzle.lines) && |puzzle.lines| > 0
    requires GetSpace(puzzle.lines, Start(puzzle.lines).value) == Ok(OpenSpace)
    requires Seams(puzzle.lines, 50).Ends?
    requires SeamsLandOnBoard(puzzle.lines, Seams(puzzle.lines, 50).value)
    requires Outlined(puzzle.lines, AllEdges(puzzle.lines, 50))
    ensures CubePath(puzzle, 50).Ends?
    ensures GetSpace(puzzle.lines, CubePath(puzzle, 50).value.0) == Ok(OpenSpace)
    ensures IsUnit(CubePath(puzzle, 50).value.1)
  {
    SeamHeadingsUnit(puzzle.lines, 50);
    SeamsInverse(puzzle.lines, 50);
    OutlineClosed(puzzle.lines, AllEdges(puzzle.lines, 50), Seams(puzzle.lines, 50).value);
    CubeWalkNoPanic(puzzle.lines, Seams(puzzle.lines, 50).value, puzzle.steps, Start(puzzle.lines).value, East);
  }
}
