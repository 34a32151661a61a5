// Day 14: sand pouring into a cave of rock segments.
module Day14 {
  import opened Wrappers

  const SandSourceX: int := 500
  const SandSourceY: int := 0

  datatype Tile = Sand | Air | Rock | Source

  datatype Pos = Pos(x: int, y: int)

  /** A rock path step: every cell of the rectangle between its ends is rock. */
  datatype Segment = Segment(a: Pos, b: Pos)

  function Min(a: int, b: int): int { if a <= b then a else b }
  function Max(a: int, b: int): int { if a <= b then b else a }

  // ------------------------------------------------------------------
  // grids of tiles
  // ------------------------------------------------------------------

  predicate Shaped(m: seq<seq<Tile>>, w: int, h: int)
  {
    |m| == h && forall j :: 0 <= j < |m| ==> |m[j]| == w
  }

  function Blank(w: nat, h: nat): (m: seq<seq<Tile>>)
    ensures Shaped(m, w, h)
    ensures forall j, i :: 0 <= j < h && 0 <= i < w ==> m[j][i] == Air
  {
    seq(h, _ => seq(w, _ => Air))
  }

  /** Writes `t` into row `y`, column `x`; every other cell keeps its tile. */
  function Place(m: seq<seq<Tile>>, y: int, x: int, t: Tile): (r: seq<seq<Tile>>)
    requires 0 <= y < |m| && 0 <= x < |m[y]|
    ensures |r| == |m| && forall j :: 0 <= j < |m| ==> |r[j]| == |m[j]|
  {
    m[y := m[y][x := t]]
  }

  function RowAir(row: seq<Tile>): nat
  {
    if row == [] then 0 else RowAir(row[..|row| - 1]) + (if row[|row| - 1] == Air then 1 else 0)
  }

  /** The number of air cells: every unit of sand that comes to rest lowers it. */
  function AirCount(m: seq<seq<Tile>>): nat
  {
    if m == [] then 0 else AirCount(m[..|m| - 1]) + RowAir(m[|m| - 1])
  }

  lemma {:induction false} RowAirUpdate(row: seq<Tile>, x: nat, t: Tile)
    requires x < |row|
    ensures RowAir(row[x := t]) == RowAir(row) - (if row[x] == Air then 1 else 0) + (if t == Air then 1 else 0)
    decreases |row|
  {
    var last := |row| - 1;
    if x < last {
      RowAirUpdate(row[..last], x, t);
      assert row[x := t][..last] == row[..last][x := t];
    } else {
      assert row[x := t][..last] == row[..last];
    }
  }

  lemma {:induction false} AirCountUpdate(m: seq<seq<Tile>>, y: nat, row: seq<Tile>)
    requires y < |m|
    ensures AirCount(m[y := row]) == AirCount(m) - RowAir(m[y]) + RowAir(row)
    decreases |m|
  {
    var last := |m| - 1;
    if y < last {
      AirCountUpdate(m[..last], y, row);
      assert m[y := row][..last] == m[..last][y := row];
    } else {
      assert m[y := row][..last] == m[..last];
    }
  }

  /** Sand settling on an air cell removes exactly that one air cell. */
  lemma FillsAir(m: seq<seq<Tile>>, y: int, x: int)
    requires 0 <= y < |m| && 0 <= x < |m[y]| && m[y][x] == Air
    ensures AirCount(Place(m, y, x, Sand)) == AirCount(m) - 1
  {
    RowAirUpdate(m[y], x, Sand);
    AirCountUpdate(m, y, m[y][x := Sand]);
  }

  // ------------------------------------------------------------------
  // drawing the rock
  // ------------------------------------------------------------------

  predicate Covers(s: Segment, x: int, y: int)
  {
    Min(s.a.x, s.b.x) <= x <= Max(s.a.x, s.b.x) && Min(s.a.y, s.b.y) <= y <= Max(s.a.y, s.b.y)
  }

  predicate CoveredBy(lines: seq<Segment>, x: int, y: int)
  {
    |lines| > 0 && (CoveredBy(lines[..|lines| - 1], x, y) || Covers(lines[|lines| - 1], x, y))
  }

  /** A cell is rock exactly when some segment covers it. */
  lemma {:induction false} CoveredByAny(lines: seq<Segment>, x: int, y: int)
    ensures CoveredBy(lines, x, y) <==> exists k :: 0 <= k < |lines| && Covers(lines[k], x, y)
    decreases |lines|
  {
    if |lines| > 0 {
      var init := lines[..|lines| - 1];
      CoveredByAny(init, x, y);
      if CoveredBy(init, x, y) {
        var k :| 0 <= k < |init| && Covers(init[k], x, y);
        assert lines[k] == init[k];
      }
      if exists k :: 0 <= k < |lines| && Covers(lines[k], x, y) {
        var k :| 0 <= k < |lines| && Covers(lines[k], x, y);
        if k < |init| {
          assert init[k] == lines[k];
        }
      }
    }
  }

  predicate InBox(lo: Pos, hi: Pos, p: Pos)
  {
    lo.x <= p.x <= hi.x && lo.y <= p.y <= hi.y
  }

  predicate SegmentsInBox(lo: Pos, hi: Pos, lines: seq<Segment>)
  {
    forall k :: 0 <= k < |lines| ==> InBox(lo, hi, lines[k].a) && InBox(lo, hi, lines[k].b)
  }

  /** Marks rock at column `x` from row `ylo` to row `yhi` (absolute coordinates). */
  method DrawColumn(m: seq<seq<Tile>>, lo: Pos, w: int, h: int, x: int, ylo: int, yhi: int)
    returns (r: seq<seq<Tile>>)
    requires Shaped(m, w, h)
    requires lo.x <= x < lo.x + w && lo.y <= ylo <= yhi < lo.y + h
    ensures Shaped(r, w, h)
    ensures forall j, i :: 0 <= j < h && 0 <= i < w ==>
      r[j][i] == if i + lo.x == x && ylo <= j + lo.y <= yhi then Rock else m[j][i]
  {
    r := m;
    var y := ylo;
    while y <= yhi
      invariant ylo <= y <= yhi + 1
      invariant Shaped(r, w, h)
      invariant forall j, i :: 0 <= j < h && 0 <= i < w ==>
        r[j][i] == if i + lo.x == x && ylo <= j + lo.y < y then Rock else m[j][i]
      decreases yhi - y
    {
      r := Place(r, y - lo.y, x - lo.x, Rock);
      y := y + 1;
    }
  }

  method DrawSegment(m: seq<seq<Tile>>, lo: Pos, w: int, h: int, s: Segment)
    returns (r: seq<seq<Tile>>)
    requires Shaped(m, w, h)
    requires InBox(lo, Pos(lo.x + w - 1, lo.y + h - 1), s.a) && InBox(lo, Pos(lo.x + w - 1, lo.y + h - 1), s.b)
    ensures Shaped(r, w, h)
    ensures forall j, i :: 0 <= j < h && 0 <= i < w ==>
      r[j][i] == if Covers(s, i + lo.x, j + lo.y) then Rock else m[j][i]
  {
    r := m;
    var xhi := Max(s.a.x, s.b.x);
    var x := Min(s.a.x, s.b.x);
    while x <= xhi
      invariant Min(s.a.x, s.b.x) <= x <= xhi + 1
      invariant Shaped(r, w, h)
      invariant forall j, i :: 0 <= j < h && 0 <= i < w ==>
        r[j][i] == if Covers(s, i + lo.x, j + lo.y) && i + lo.x < x then Rock else m[j][i]
      decreases xhi - x
    {
      r := DrawColumn(r, lo, w, h, x, Min(s.a.y, s.b.y), Max(s.a.y, s.b.y));
      x := x + 1;
    }
  }

  /** The rock map of the box from `lo` to `hi`: rock wherever a segment passes, air elsewhere. */
  method DrawRocks(lo: Pos, hi: Pos, lines: seq<Segment>) returns (m: seq<seq<Tile>>)
    requires lo.x <= hi.x && lo.y <= hi.y && SegmentsInBox(lo, hi, lines)
    ensures Shaped(m, hi.x - lo.x + 1, hi.y - lo.y + 1)
    ensures forall j, i :: 0 <= j <= hi.y - lo.y && 0 <= i <= hi.x - lo.x ==>
      m[j][i] == if CoveredBy(lines, i + lo.x, j + lo.y) then Rock else Air
  {
    var w, h := hi.x - lo.x + 1, hi.y - lo.y + 1;
    m := Blank(w, h);
    for k := 0 to |lines|
      invariant Shaped(m, w, h)
      invariant forall j, i :: 0 <= j < h && 0 <= i < w ==>
        m[j][i] == if CoveredBy(lines[..k], i + lo.x, j + lo.y) then Rock else Air
    {
      m := DrawSegment(m, lo, w, h, lines[k]);
      assert lines[..k + 1][..k] == lines[..k];
    }
    assert lines[..|lines|] == lines;
  }

  // ------------------------------------------------------------------
  // one unit of sand
  // ------------------------------------------------------------------

  /**
   * Where a unit of sand falling from column `x`, row `y` comes to rest: straight
   * down, else down-left, else down-right, while the cell there is air; `None` once
   * it reaches the left or right edge or the bottom row, where it falls out.
   */
  function Settle(m: seq<seq<Tile>>, w: int, h: int, x: int, y: int): (r: Option<Pos>)
    requires Shaped(m, w, h) && 0 <= x < w && 0 <= y < h
    ensures r.Some? ==> 0 < r.value.x < w - 1 && y <= r.value.y < h - 1
    decreases h - y
  {
    if x == 0 || x + 1 == w || y + 1 == h then None
    else if m[y + 1][x] == Air then Settle(m, w, h, x, y + 1)
    else if m[y + 1][x - 1] == Air then Settle(m, w, h, x - 1, y + 1)
    else if m[y + 1][x + 1] == Air then Settle(m, w, h, x + 1, y + 1)
    else Some(Pos(x, y))
  }

  /** A resting unit has no air below it nor diagonally below, and lies on air or on its start. */
  lemma {:induction false} SettleRests(m: seq<seq<Tile>>, w: int, h: int, x: int, y: int)
    requires Shaped(m, w, h) && 0 <= x < w && 0 <= y < h
    requires Settle(m, w, h, x, y).Some?
    ensures var p := Settle(m, w, h, x, y).value;
      0 < p.x < w - 1 && 0 <= p.y < h - 1 &&
      m[p.y + 1][p.x] != Air && m[p.y + 1][p.x - 1] != Air && m[p.y + 1][p.x + 1] != Air &&
      (p == Pos(x, y) || m[p.y][p.x] == Air)
    decreases h - y
  {
    if m[y + 1][x] == Air {
      SettleRests(m, w, h, x, y + 1);
    } else if m[y + 1][x - 1] == Air {
      SettleRests(m, w, h, x - 1, y + 1);
    } else if m[y + 1][x + 1] == Air {
      SettleRests(m, w, h, x + 1, y + 1);
    }
  }

  class Cave {
    var sandSource: Pos
    var tiles: seq<seq<Tile>>
    var height: int
    var width: int

    ghost predicate Valid()
      reads this
    {
      0 <= sandSource.x < width && 0 <= sandSource.y < height && Shaped(tiles, width, height)
    }

    /** The cave spanning `minPos` to `maxPos`, its rock drawn and its source marked. */
    constructor From(minPos: Pos, maxPos: Pos, lines: seq<Segment>)
      requires minPos.x <= maxPos.x && minPos.y <= maxPos.y && SegmentsInBox(minPos, maxPos, lines)
      requires InBox(minPos, maxPos, Pos(SandSourceX, SandSourceY))
      ensures Valid()
      ensures height == maxPos.y - minPos.y + 1 && width == maxPos.x - minPos.x + 1
      ensures sandSource == Pos(SandSourceX - minPos.x, SandSourceY - minPos.y)
      ensures forall j, i :: 0 <= j < height && 0 <= i < width ==>
        tiles[j][i] == if j == sandSource.y && i == sandSource.x then Source
          else if CoveredBy(lines, i + minPos.x, j + minPos.y) then Rock else Air
    {
      var m := DrawRocks(minPos, maxPos, lines);
      var src := Pos(SandSourceX - minPos.x, SandSourceY - minPos.y);
      height := maxPos.y - minPos.y + 1;
      width := maxPos.x - minPos.x + 1;
      sandSource := src;
      tiles := Place(m, src.y, src.x, Source);
    }

    constructor Copy(other: Cave)
      requires other.Valid()
      ensures Valid()
      ensures sandSource == other.sandSource && tiles == other.tiles
      ensures height == other.height && width == other.width
    {
      sandSource := other.sandSource;
      tiles := other.tiles;
      height := other.height;
      width := other.width;
    }

    /**
     * Pours one unit of sand from the source; true when it comes to rest (and is
     * drawn there), false when it falls out of the map.
     */
    method FillSand() returns (r: bool)
      requires Valid()
      modifies this
      ensures Valid() && sandSource == old(sandSource)
      ensures height == old(height) && width == old(width)
      ensures r <==> Settle(old(tiles), width, height, sandSource.x, sandSource.y).Some?
      ensures r ==> var p := Settle(old(tiles), width, height, sandSource.x, sandSource.y).value;
        tiles == Place(old(tiles), p.y, p.x, Sand)
      ensures !r ==> tiles == old(tiles)
    {
      var cx, cy := sandSource.x, sandSource.y;
      while true
        invariant 0 <= cx < width && 0 <= cy < height
        invariant Settle(tiles, width, height, cx, cy) == Settle(tiles, width, height, sandSource.x, sandSource.y)
        decreases height - cy
      {
        if cx == 0 || cx + 1 == width || cy + 1 == height {
          return false;
        }
        if tiles[cy + 1][cx] == Air {
          cy := cy + 1;
        } else if tiles[cy + 1][cx - 1] == Air {
          cx, cy := cx - 1, cy + 1;
        } else if tiles[cy + 1][cx + 1] == Air {
          cx, cy := cx + 1, cy + 1;
        } else {
          tiles := Place(tiles, cy, cx, Sand);
          return true;
        }
      }
    }
  }

  // ------------------------------------------------------------------
  // part 1
  // ------------------------------------------------------------------

  /**
   * Units of sand that come to rest before one falls out of the map, counting the
   * unit that settles on the source itself and stopping there.
   */
  function Poured(m: seq<seq<Tile>>, w: int, h: int, src: Pos): nat
    requires Shaped(m, w, h) && 0 <= src.x < w && 0 <= src.y < h
    decreases AirCount(m)
  {
    var s := Settle(m, w, h, src.x, src.y);
    if s.None? then 0
    else
      var next := Place(m, s.value.y, s.value.x, Sand);
      if next[src.y][src.x] == Sand then 1
      else
        SettleRests(m, w, h, src.x, src.y);
        FillsAir(m, s.value.y, s.value.x);
        1 + Poured(next, w, h, src)
  }

  /** Every counted unit but the last fills a cell of air, so the count is finite and bounded. */
  lemma {:induction false} PouredBound(m: seq<seq<Tile>>, w: int, h: int, src: Pos)
    requires Shaped(m, w, h) && 0 <= src.x < w && 0 <= src.y < h
    ensures Poured(m, w, h, src) <= AirCount(m) + 1
    decreases AirCount(m)
  {
    var s := Settle(m, w, h, src.x, src.y);
    if s.Some? {
      var next := Place(m, s.value.y, s.value.x, Sand);
      if next[src.y][src.x] != Sand {
        SettleRests(m, w, h, src.x, src.y);
        FillsAir(m, s.value.y, s.value.x);
        PouredBound(next, w, h, src);
      }
    }
  }

  /**
   * What part1's loop does as written: the number of units poured when one falls out,
   * or `Spins` once a unit rests on the source, since every later pour rests there too.
   */
  function PouredAsWritten(m: seq<seq<Tile>>, w: int, h: int, src: Pos): Run<nat>
    requires Shaped(m, w, h) && 0 <= src.x < w && 0 <= src.y < h
    decreases AirCount(m)
  {
    var s := Settle(m, w, h, src.x, src.y);
    if s.None? then Ends(0)
    else
      var next := Place(m, s.value.y, s.value.x, Sand);
      if next[src.y][src.x] == Sand then Spins
      else
        SettleRests(m, w, h, src.x, src.y);
        FillsAir(m, s.value.y, s.value.x);
        Later(PouredAsWritten(next, w, h, src))
  }

  /** One more unit before a run of pours. */
  function Later(r: Run<nat>): (r': Run<nat>)
    ensures r'.Ends? <==> r.Ends?
    ensures r.Ends? ==> r'.value == r.value + 1
  {
    if r.Ends? then Ends(r.value + 1) else r
  }

  /**
   * As written, part1 ends exactly when the corrected count does not stop on a blocked
   * source, and then with the same count.
   */
  lemma {:induction false} AsWrittenAgrees(m: seq<seq<Tile>>, w: int, h: int, src: Pos)
    requires Shaped(m, w, h) && 0 <= src.x < w && 0 <= src.y < h
    ensures !PouredAsWritten(m, w, h, src).Panics?
    ensures PouredAsWritten(m, w, h, src).Ends? ==> PouredAsWritten(m, w, h, src).value == Poured(m, w, h, src)
    ensures PouredAsWritten(m, w, h, src).Spins? ==> Poured(m, w, h, src) >= 1
    decreases AirCount(m)
  {
    var s := Settle(m, w, h, src.x, src.y);
    if s.Some? {
      var next := Place(m, s.value.y, s.value.x, Sand);
      if next[src.y][src.x] != Sand {
        SettleRests(m, w, h, src.x, src.y);
        FillsAir(m, s.value.y, s.value.x);
        AsWrittenAgrees(next, w, h, src);
      }
    }
  }

  /**
   * Sand that rests on the source leaves the map as it was found: every later pour rests
   * on the source again and changes nothing, so a loop that only stops when sand falls
   * out never stops.
   */
  lemma SourceBlockedRepeats(m: seq<seq<Tile>>, w: int, h: int, src: Pos)
    requires Shaped(m, w, h) && 0 <= src.x < w && 0 <= src.y < h
    requires Settle(m, w, h, src.x, src.y) == Some(src)
    ensures var next := Place(m, src.y, src.x, Sand);
      Settle(next, w, h, src.x, src.y) == Some(src) && Place(next, src.y, src.x, Sand) == next
  {
    SettleRests(m, w, h, src.x, src.y);
    var next := Place(m, src.y, src.x, Sand);
    assert next[src.y][src.x] == Sand;
    assert next[src.y][src.x := Sand] == next[src.y];
  }

  /** A three-wide shelf of rock right under the source: the first unit rests on the source. */
  lemma ShelfBlocksSource()
    ensures var m := [[Air, Source, Air], [Rock, Rock, Rock]];
      Settle(m, 3, 2, 1, 0) == Some(Pos(1, 0)) &&
      Settle(Place(m, 0, 1, Sand), 3, 2, 1, 0) == Some(Pos(1, 0)) &&
      PouredAsWritten(m, 3, 2, Pos(1, 0)) == Spins &&
      Poured(m, 3, 2, Pos(1, 0)) == 1
  {
    var m := [[Air, Source, Air], [Rock, Rock, Rock]];
    assert Settle(m, 3, 2, 1, 0) == Some(Pos(1, 0));
    SourceBlockedRepeats(m, 3, 2, Pos(1, 0));
  }

  /**
   * part1 as written: pours sand into a copy of the cave until a unit falls out. When a
   * unit rests on the source the map stops changing and the loop would go on for ever:
   * the result is then `Spins`.
   */
  method Part1(cave: Cave) returns (r: Run<nat>)
    requires cave.Valid()
    ensures r == PouredAsWritten(cave.tiles, cave.width, cave.height, cave.sandSource)
  {
    var c := new Cave.Copy(cave);
    var src := c.sandSource;
    var times := 0;
    while true
      invariant c.Valid() && c.sandSource == src == cave.sandSource
      invariant c.width == cave.width && c.height == cave.height
      invariant PouredAsWritten(cave.tiles, cave.width, cave.height, src) == Ahead(times, PouredAsWritten(c.tiles, c.width, c.height, src))
      decreases AirCount(c.tiles)
    {
      ghost var before := c.tiles;
      var filled := c.FillSand();
      if !filled {
        return Ends(times);
      }
      times := times + 1;
      if c.tiles[src.y][src.x] == Sand {
        return Spins;
      }
      AsWrittenStep(before, c.width, c.height, src);
    }
  }

  /** A unit that rests off the source: one more unit before the pours from the new map. */
  lemma AsWrittenStep(m: seq<seq<Tile>>, w: int, h: int, src: Pos)
    requires Shaped(m, w, h) && 0 <= src.x < w && 0 <= src.y < h
    requires Settle(m, w, h, src.x, src.y).Some?
    requires var p := Settle(m, w, h, src.x, src.y).value; Place(m, p.y, p.x, Sand)[src.y][src.x] != Sand
    ensures var p := Settle(m, w, h, src.x, src.y).value;
      var next := Place(m, p.y, p.x, Sand);
      AirCount(next) < AirCount(m) &&
      PouredAsWritten(m, w, h, src) == Later(PouredAsWritten(next, w, h, src))
  {
    var p := Settle(m, w, h, src.x, src.y).value;
    SettleRests(m, w, h, src.x, src.y);
    FillsAir(m, p.y, p.x);
  }

  /** `k` more units before a run of pours. */
  function Ahead(k: nat, r: Run<nat>): (r': Run<nat>)
    ensures r'.Ends? <==> r.Ends?
    ensures r.Ends? ==> r'.value == r.value + k
  {
    if r.Ends? then Ends(r.value + k) else r
  }

  /**
   * part1 as evidently intended: pours sand until a unit falls out or a unit comes to
   * rest on the source, counting that last unit too.
   */
  method Part1Corrected(cave: Cave) returns (times: nat)
    requires cave.Valid()
    ensures times == Poured(cave.tiles, cave.width, cave.height, cave.sandSource)
  {
    var c := new Cave.Copy(cave);
    var src := c.sandSource;
    times := 0;
    while true
      invariant c.Valid() && c.sandSource == src == cave.sandSource
      invariant c.width == cave.width && c.height == cave.height
      invariant times + Poured(c.tiles, c.width, c.height, src) == Poured(cave.tiles, cave.width, cave.height, src)
      decreases AirCount(c.tiles)
    {
      ghost var before := c.tiles;
      var filled := c.FillSand();
      if !filled {
        return;
      }
      times := times + 1;
      if c.tiles[src.y][src.x] == Sand {
        return;
      }
      var p := Settle(before, c.width, c.height, src.x, src.y).value;
      SettleRests(before, c.width, c.height, src.x, src.y);
      FillsAir(before, p.y, p.x);
    }
  }

  // ------------------------------------------------------------------
  // part 2
  // ------------------------------------------------------------------

  /**
   * What the second part reads of the cave: its map, its size, and the column
   * shift between the cave and a floor map of depth `height + 1`, twice as wide
   * plus one, whose source sits in the middle column.
   */
  datatype FloorView = FloorView(tiles: seq<seq<Tile>>, width: int, height: int, adjust: int)
  {
    predicate Fits() { 0 <= height && Shaped(tiles, width, height) }
    function Depth(): int { height + 1 }
    function FloorWidth(): int { 2 * Depth() + 1 }
  }

  function View(cave: Cave): (v: FloorView)
    reads cave
    ensures v.tiles == cave.tiles && v.height == cave.height && v.width == cave.width
    ensures cave.sandSource.x == v.Depth() + v.adjust
  {
    FloorView(cave.tiles, cave.width, cave.height, cave.sandSource.x - (cave.height + 1))
  }

  /** Row `y`, floor column `x` is free in the cave: below its last row, off its sides, or air. */
  predicate CaveAir(v: FloorView, y: int, x: int)
    requires v.Fits() && 0 <= y
  {
    y >= v.height || x + v.adjust < 0 || x + v.adjust >= v.width || v.tiles[y][x + v.adjust] == Air
  }

  /**
   * Sand reaches row `y`, floor column `x`: the source for row 0; below it, a free
   * cell inside the cone under the source with sand directly or diagonally above.
   */
  predicate Reached(v: FloorView, y: nat, x: int)
    requires v.Fits()
    decreases y
  {
    if y == 0 then x == v.Depth()
    else
      v.Depth() - y <= x <= v.Depth() + y && CaveAir(v, y, x) &&
      (Reached(v, y - 1, x) || (x - 1 >= 0 && Reached(v, y - 1, x - 1)) ||
       (x + 1 < v.FloorWidth() && Reached(v, y - 1, x + 1)))
  }

  /** The number of reached columns `x` of row `y` with `lo <= x < hi`. */
  function RowReached(v: FloorView, y: nat, lo: int, hi: int): nat
    requires v.Fits()
    decreases hi - lo
  {
    if hi <= lo then 0 else RowReached(v, y, lo, hi - 1) + (if Reached(v, y, hi - 1) then 1 else 0)
  }

  /** Reached cells in rows 1 to `n - 1`, each row counted over its cone. */
  function FloorTotal(v: FloorView, n: nat): nat
    requires v.Fits()
  {
    if n <= 1 then 0 else FloorTotal(v, n - 1) + RowReached(v, n - 1, v.Depth() - (n - 1), v.Depth() + n)
  }

  /** Sand never leaves the cone of slope one below the source. */
  lemma {:induction false} ReachedInCone(v: FloorView, y: nat, x: int)
    requires v.Fits() && Reached(v, y, x)
    ensures v.Depth() - y <= x <= v.Depth() + y
  {
  }

  /** Counting no more than the cells in range. */
  lemma {:induction false} RowReachedBound(v: FloorView, y: nat, lo: int, hi: int)
    requires v.Fits() && lo <= hi
    ensures RowReached(v, y, lo, hi) <= hi - lo
    decreases hi - lo
  {
    if lo < hi {
      RowReachedBound(v, y, lo, hi - 1);
    }
  }

  /** The floor holds at most `n * n` units counting the source: one row of width `2y + 1` per depth `y`. */
  lemma {:induction false} FloorTotalBound(v: FloorView, n: nat)
    requires v.Fits() && 1 <= n
    ensures FloorTotal(v, n) <= n * n - 1
  {
    if n > 1 {
      var m := n - 1;
      FloorTotalBound(v, m);
      RowReachedBound(v, m, v.Depth() - m, v.Depth() + n);
      assert FloorTotal(v, n) <= m * m - 1 + 2 * m + 1;
      assert n * n == m * m + 2 * m + 1;
    }
  }

  /** With no rock below the top row, sand fills the whole cone. */
  lemma {:induction false} OpenCaveFillsCone(v: FloorView, y: nat, x: int)
    requires v.Fits() && y < v.Depth()
    requires forall j, i :: 1 <= j < v.height && 0 <= i < v.width ==> v.tiles[j][i] == Air
    ensures Reached(v, y, x) <==> v.Depth() - y <= x <= v.Depth() + y
    decreases y
  {
    if y > 0 {
      if v.Depth() - y <= x <= v.Depth() + y {
        assert CaveAir(v, y, x);
        if x < v.Depth() {
          OpenCaveFillsCone(v, y - 1, x + 1);
        } else if x > v.Depth() {
          OpenCaveFillsCone(v, y - 1, x - 1);
        } else {
          OpenCaveFillsCone(v, y - 1, x);
        }
      }
    }
  }

  lemma {:induction false} OpenRowFull(v: FloorView, y: nat, hi: int)
    requires v.Fits() && y < v.Depth() && v.Depth() - y <= hi <= v.Depth() + y + 1
    requires forall j, i :: 1 <= j < v.height && 0 <= i < v.width ==> v.tiles[j][i] == Air
    ensures RowReached(v, y, v.Depth() - y, hi) == hi - (v.Depth() - y)
    decreases hi
  {
    if hi > v.Depth() - y {
      OpenRowFull(v, y, hi - 1);
      OpenCaveFillsCone(v, y, hi - 1);
    }
  }

  /** With no rock below the top row the second part counts all `n * n` cells of the cone. */
  lemma {:induction false} OpenCaveTotal(v: FloorView, n: nat)
    requires v.Fits() && 1 <= n <= v.Depth()
    requires forall j, i :: 1 <= j < v.height && 0 <= i < v.width ==> v.tiles[j][i] == Air
    ensures 1 + FloorTotal(v, n) == n * n
  {
    if n > 1 {
      var m := n - 1;
      OpenCaveTotal(v, m);
      OpenRowFull(v, m, v.Depth() + n);
      assert n * n == m * m + 2 * m + 1;
    }
  }

  /** The floor map holds sand on exactly the reached cells of rows before `y` and of row `y` left of `x`. */
  ghost predicate FloorUpTo(floor: seq<seq<Tile>>, v: FloorView, y: int, x: int)
    requires v.Fits()
  {
    forall j, i :: 0 <= j < |floor| && 0 <= i < |floor[j]| ==>
      floor[j][i] == if (j < y || (j == y && i < x)) && Reached(v, j, i) then Sand else Air
  }

  lemma StartRow(floor: seq<seq<Tile>>, v: FloorView, y: nat)
    requires v.Fits() && FloorUpTo(floor, v, y, 0)
    ensures FloorUpTo(floor, v, y, v.Depth() - y)
  {
    forall j, i | 0 <= j < |floor| && 0 <= i < |floor[j]| && j == y && Reached(v, j, i)
      ensures 0 <= i
    {
      ReachedInCone(v, j, i);
    }
  }

  lemma EndRow(floor: seq<seq<Tile>>, v: FloorView, y: nat)
    requires v.Fits() && FloorUpTo(floor, v, y, v.Depth() + y + 1)
    ensures FloorUpTo(floor, v, y + 1, 0)
  {
    forall j, i | 0 <= j < |floor| && 0 <= i < |floor[j]| && j == y && Reached(v, j, i)
      ensures i < v.Depth() + y + 1
    {
      ReachedInCone(v, j, i);
    }
  }

  /** The fill test of the second part, read off the previous row of the floor map, is `Reached`. */
  lemma CellRule(floor: seq<seq<Tile>>, v: FloorView, y: nat, x: int)
    requires v.Fits() && Shaped(floor, v.FloorWidth(), v.Depth()) && FloorUpTo(floor, v, y, x)
    requires 1 <= y < v.Depth() && v.Depth() - y <= x <= v.Depth() + y
    ensures Reached(v, y, x) <==> (CaveAir(v, y, x) &&
      (floor[y - 1][x] == Sand || (x - 1 >= 0 && floor[y - 1][x - 1] == Sand) ||
       (x + 1 < v.FloorWidth() && floor[y - 1][x + 1] == Sand)))
  {
    assert floor[y - 1][x] == Sand <==> Reached(v, y - 1, x);
    assert floor[y - 1][x - 1] == Sand <==> Reached(v, y - 1, x - 1);
    assert floor[y - 1][x + 1] == Sand <==> Reached(v, y - 1, x + 1);
  }

  /** The scan of row `y` has reached column `x`, having filled `count` cells of that row. */
  ghost predicate Scanned(floor: seq<seq<Tile>>, v: FloorView, y: nat, x: int, count: int)
    requires v.Fits()
  {
    Shaped(floor, v.FloorWidth(), v.Depth()) && FloorUpTo(floor, v, y, x) &&
    count == RowReached(v, y, v.Depth() - y, x)
  }

  /** One cell of the second part's scan: the fill test is `Reached`, and the map and count move on by one cell. */
  lemma CellUpdate(floor: seq<seq<Tile>>, v: FloorView, y: nat, x: int, count: int, cavePosAir: bool, fill: bool)
    requires v.Fits() && Scanned(floor, v, y, x, count)
    requires 1 <= y < v.Depth() && v.Depth() - y <= x <= v.Depth() + y
    requires cavePosAir == CaveAir(v, y, x)
    requires fill == (cavePosAir && (floor[y - 1][x] == Sand || (x - 1 >= 0 && floor[y - 1][x - 1] == Sand) ||
      (x + 1 < v.FloorWidth() && floor[y - 1][x + 1] == Sand)))
    ensures fill ==> Scanned(Place(floor, y, x, Sand), v, y, x + 1, count + 1)
    ensures !fill ==> Scanned(floor, v, y, x + 1, count)
  {
    CellRule(floor, v, y, x);
    CellStep(floor, v, y, x);
  }

  lemma RowDone(v: FloorView, y: nat, a: nat, b: nat)
    requires v.Fits() && 1 <= y
    requires a == FloorTotal(v, y) && b == RowReached(v, y, v.Depth() - y, v.Depth() + y + 1)
    ensures a + b == FloorTotal(v, y + 1)
  {
  }

  lemma CellStep(floor: seq<seq<Tile>>, v: FloorView, y: nat, x: int)
    requires v.Fits() && Shaped(floor, v.FloorWidth(), v.Depth()) && FloorUpTo(floor, v, y, x)
    requires 0 <= y < v.Depth() && 0 <= x < v.FloorWidth()
    ensures Reached(v, y, x) ==> FloorUpTo(Place(floor, y, x, Sand), v, y, x + 1)
    ensures !Reached(v, y, x) ==> FloorUpTo(floor, v, y, x + 1)
  {
  }

  /**
   * One row of the second part's scan: fills each cell of row `y` inside the cone
   * that the cave leaves free and that has sand directly or diagonally above it;
   * returns the new floor map and the number of cells filled.
   */
  method FillRow(cave: Cave, v: FloorView, floor: seq<seq<Tile>>, y: int) returns (next: seq<seq<Tile>>, count: nat)
    requires cave.Valid() && v == View(cave) && 1 <= y < v.Depth()
    requires Shaped(floor, v.FloorWidth(), v.Depth()) && FloorUpTo(floor, v, y, 0)
    ensures Shaped(next, v.FloorWidth(), v.Depth()) && FloorUpTo(next, v, y + 1, 0)
    ensures count == RowReached(v, y, v.Depth() - y, v.Depth() + y + 1)
  {
    var width := v.FloorWidth();
    var center := v.Depth();
    StartRow(floor, v, y);
    next, count := floor, 0;
    var x := center - y;
    while x <= center + y
      invariant center - y <= x <= center + y + 1
      invariant Scanned(next, v, y, x, count)
      decreases center + y - x
    {
      var cavePosAir := y >= cave.height || x + v.adjust < 0 || x + v.adjust >= cave.width
        || cave.tiles[y][x + v.adjust] == Air;
      var fill := cavePosAir && (next[y - 1][x] == Sand || (x - 1 >= 0 && next[y - 1][x - 1] == Sand)
          || (x + 1 < width && next[y - 1][x + 1] == Sand));
      CellUpdate(next, v, y, x, count, cavePosAir, fill);
      if fill {
        next := Place(next, y, x, Sand);
        count := count + 1;
      }
      x := x + 1;
    }
    EndRow(next, v, y);
  }

  /**
   * Fills the floor map row by row, below the source in the middle of the top
   * row, and counts the source and every filled cell.
   */
  method Part2(cave: Cave) returns (times: nat)
    requires cave.Valid()
    ensures times == 1 + FloorTotal(View(cave), cave.height + 1)
  {
    var v := View(cave);
    var height := cave.height + 1;
    var width := 2 * height + 1;
    var floor := Blank(width, height);
    var center := width / 2;
    assert center == v.Depth() && width == v.FloorWidth();
    floor := Place(floor, 0, center, Sand);
    times := 1;
    var y := 1;
    while y < height
      invariant 1 <= y <= height
      invariant Shaped(floor, width, height)
      invariant times == 1 + FloorTotal(v, y)
      invariant FloorUpTo(floor, v, y, 0)
    {
      var count;
      floor, count := FillRow(cave, v, floor, y);
      RowDone(v, y, times - 1, count);
      times := times + count;
      y := y + 1;
    }
  }
}
