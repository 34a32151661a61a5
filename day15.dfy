// Day 15: sensors, the beacons closest to them, and the cells of a row they rule out.
module Day15 {
  import opened Wrappers
  import opened Arith
  import Text

  datatype Pos = Pos(x: int, y: int)

  datatype Sensor = Sensor(position: Pos, beacon: Pos, manhattanDistance: nat)

  /** An inclusive range of columns `lo..=hi`. */
  datatype Span = Span(lo: int, hi: int)

  function Max(a: int, b: int): int { if a <= b then b else a }
  function Min(a: int, b: int): int { if a <= b then a else b }

  function Manhattan(a: Pos, b: Pos): nat { Abs(a.x - b.x) + Abs(a.y - b.y) }

  /** A sensor and the closest beacon to it. */
  function NewSensor(sensorX: int, sensorY: int, beaconX: int, beaconY: int): (s: Sensor)
    ensures Manhattan(s.position, s.beacon) == s.manhattanDistance
    ensures InRange(s, s.beacon.x, s.beacon.y)
  {
    Sensor(Pos(sensorX, sensorY), Pos(beaconX, beaconY), Abs(sensorX - beaconX) + Abs(sensorY - beaconY))
  }

  /** No beacon closer than the sensor's own can sit at `(x, y)`. */
  predicate InRange(s: Sensor, x: int, y: int)
  {
    Manhattan(s.position, Pos(x, y)) <= s.manhattanDistance
  }

  predicate In(r: Span, x: int) { r.lo <= x <= r.hi }

  /** Some span of `rs` holds column `x`. */
  predicate Proper(rs: seq<Span>) { forall k :: 0 <= k < |rs| ==> rs[k].lo <= rs[k].hi }

  predicate Covered(rs: seq<Span>, x: int)
  {
    |rs| > 0 && (Covered(rs[..|rs| - 1], x) || In(rs[|rs| - 1], x))
  }

  lemma {:induction false} CoveredAny(rs: seq<Span>, x: int)
    ensures Covered(rs, x) <==> exists k :: 0 <= k < |rs| && In(rs[k], x)
    decreases |rs|
  {
    if |rs| > 0 {
      var init := rs[..|rs| - 1];
      CoveredAny(init, x);
      if Covered(init, x) {
        var k :| 0 <= k < |init| && In(init[k], x);
        assert rs[k] == init[k];
      }
      if exists k :: 0 <= k < |rs| && In(rs[k], x) {
        var k :| 0 <= k < |rs| && In(rs[k], x);
        if k < |init| {
          assert init[k] == rs[k];
        }
      }
    }
  }

  // ------------------------------------------------------------------
  // the spans of one sensor
  // ------------------------------------------------------------------

  /**
   * The spans of row `y` the sensor rules out: nothing when the row lies beyond its
   * range, else the columns within range; without `includeBeacon` the sensor's own
   * beacon is cut out of the span, which may leave zero, one or two pieces.
   */
  function NoBeacons(s: Sensor, y: int, includeBeacon: bool): seq<Span>
  {
    var delta := s.manhattanDistance - Abs(y - s.position.y);
    if delta < 0 then []
    else
      var r := Span(s.position.x - delta, s.position.x + delta);
      if includeBeacon || s.beacon.x < r.lo || s.beacon.x > r.hi || y != s.beacon.y then [r]
      else if r.lo == s.beacon.x && r.hi == s.beacon.x then []
      else if r.lo == s.beacon.x then [Span(r.lo + 1, r.hi)]
      else if r.hi == s.beacon.x then [Span(r.lo, r.hi - 1)]
      else [Span(r.lo, s.beacon.x - 1), Span(s.beacon.x + 1, r.hi)]
  }

  /** The spans cover exactly the cells in range, less the beacon unless it is included; none is empty. */
  lemma NoBeaconsCover(s: Sensor, y: int, includeBeacon: bool, x: int)
    ensures Covered(NoBeacons(s, y, includeBeacon), x) <==>
      InRange(s, x, y) && (includeBeacon || Pos(x, y) != s.beacon)
    ensures forall k :: 0 <= k < |NoBeacons(s, y, includeBeacon)| ==>
      var r := NoBeacons(s, y, includeBeacon)[k];
      s.position.x - s.manhattanDistance <= r.lo <= r.hi <= s.position.x + s.manhattanDistance
  {
    var rs := NoBeacons(s, y, includeBeacon);
    CoveredAny(rs, x);
    if InRange(s, x, y) && (includeBeacon || Pos(x, y) != s.beacon) {
      var k :| 0 <= k < |rs| && In(rs[k], x);
    }
  }

  /** The spans of all sensors, in sensor order, as the pushes leave them. */
  function Collect(sensors: seq<Sensor>, y: int, includeBeacon: bool): seq<Span>
  {
    if sensors == [] then []
    else Collect(sensors[..|sensors| - 1], y, includeBeacon) + NoBeacons(sensors[|sensors| - 1], y, includeBeacon)
  }

  lemma CoveredConcat(a: seq<Span>, b: seq<Span>, x: int)
    ensures Covered(a + b, x) <==> Covered(a, x) || Covered(b, x)
  {
    CoveredAny(a + b, x);
    CoveredAny(a, x);
    CoveredAny(b, x);
    if Covered(a + b, x) {
      var k :| 0 <= k < |a + b| && In((a + b)[k], x);
      if k >= |a| {
        assert In(b[k - |a|], x);
      }
    }
    if Covered(a, x) {
      var k :| 0 <= k < |a| && In(a[k], x);
      assert (a + b)[k] == a[k];
    }
    if Covered(b, x) {
      var k :| 0 <= k < |b| && In(b[k], x);
      assert (a + b)[|a| + k] == b[k];
    }
  }

  /** A cell is covered exactly when some sensor rules it out. */
  lemma {:induction false} CollectCover(sensors: seq<Sensor>, y: int, includeBeacon: bool, x: int)
    ensures Covered(Collect(sensors, y, includeBeacon), x) <==>
      exists k :: 0 <= k < |sensors| && InRange(sensors[k], x, y) && (includeBeacon || Pos(x, y) != sensors[k].beacon)
    decreases |sensors|
  {
    if sensors != [] {
      var init, last := sensors[..|sensors| - 1], sensors[|sensors| - 1];
      CollectCover(init, y, includeBeacon, x);
      CoveredConcat(Collect(init, y, includeBeacon), NoBeacons(last, y, includeBeacon), x);
      NoBeaconsCover(last, y, includeBeacon, x);
      if exists k :: 0 <= k < |sensors| && InRange(sensors[k], x, y) && (includeBeacon || Pos(x, y) != sensors[k].beacon) {
        var k :| 0 <= k < |sensors| && InRange(sensors[k], x, y) && (includeBeacon || Pos(x, y) != sensors[k].beacon);
        if k < |init| {
          assert init[k] == sensors[k];
        }
      }
      if exists k :: 0 <= k < |init| && InRange(init[k], x, y) && (includeBeacon || Pos(x, y) != init[k].beacon) {
        var k :| 0 <= k < |init| && InRange(init[k], x, y) && (includeBeacon || Pos(x, y) != init[k].beacon);
        assert sensors[k] == init[k];
      }
    }
  }

  /** Every sensor's reach along a row stays strictly inside the `i32` columns. */
  predicate WithinI32(sensors: seq<Sensor>)
  {
    forall k :: 0 <= k < |sensors| ==>
      Text.I32Min < sensors[k].position.x - sensors[k].manhattanDistance &&
      sensors[k].position.x + sensors[k].manhattanDistance <= Text.I32Max
  }

  lemma {:induction false} CollectProper(sensors: seq<Sensor>, y: int, includeBeacon: bool)
    ensures Proper(Collect(sensors, y, includeBeacon))
    decreases |sensors|
  {
    if sensors != [] {
      CollectProper(sensors[..|sensors| - 1], y, includeBeacon);
      NoBeaconsCover(sensors[|sensors| - 1], y, includeBeacon, 0);
    }
  }

  /** Every span of the collection lies within some sensor's reach. */
  lemma {:induction false} CollectBounds(sensors: seq<Sensor>, y: int, includeBeacon: bool, lo: int, hi: int)
    requires forall k :: 0 <= k < |sensors| ==>
      lo <= sensors[k].position.x - sensors[k].manhattanDistance && sensors[k].position.x + sensors[k].manhattanDistance <= hi
    ensures forall k :: 0 <= k < |Collect(sensors, y, includeBeacon)| ==>
      lo <= Collect(sensors, y, includeBeacon)[k].lo <= Collect(sensors, y, includeBeacon)[k].hi <= hi
    decreases |sensors|
  {
    if sensors != [] {
      var init, last := sensors[..|sensors| - 1], sensors[|sensors| - 1];
      CollectBounds(init, y, includeBeacon, lo, hi);
      NoBeaconsCover(last, y, includeBeacon, 0);
    }
  }

  // ------------------------------------------------------------------
  // sorting spans
  // ------------------------------------------------------------------

  /** Tuple order: by start, then by end. */
  predicate Le(a: Span, b: Span) { a.lo < b.lo || (a.lo == b.lo && a.hi <= b.hi) }

  predicate Sorted(rs: seq<Span>)
  {
    forall i, j :: 0 <= i < j < |rs| ==> Le(rs[i], rs[j])
  }

  function Insert(r: Span, rs: seq<Span>): seq<Span>
  {
    if rs == [] || Le(r, rs[0]) then [r] + rs else [rs[0]] + Insert(r, rs[1..])
  }

  /** The spans in tuple order, as the library sort leaves them. */
  function Sort(rs: seq<Span>): seq<Span>
  {
    if rs == [] then [] else Insert(rs[0], Sort(rs[1..]))
  }

  lemma {:induction false} InsertPerm(r: Span, rs: seq<Span>)
    ensures multiset(Insert(r, rs)) == multiset(rs) + multiset{r}
    decreases |rs|
  {
    if rs != [] && !Le(r, rs[0]) {
      InsertPerm(r, rs[1..]);
      assert rs == [rs[0]] + rs[1..];
    }
  }

  lemma InsertFront(r: Span, rs: seq<Span>)
    requires Sorted(rs) && (rs == [] || Le(r, rs[0]))
    ensures Sorted([r] + rs)
  {
    var t := [r] + rs;
    forall i, j | 0 <= i < j < |t|
      ensures Le(t[i], t[j])
    {
      if i > 0 {
        assert t[i] == rs[i - 1];
      }
      assert t[j] == rs[j - 1];
    }
  }

  lemma InsertBehind(first: Span, t: seq<Span>)
    requires Sorted(t) && forall k :: 0 <= k < |t| ==> Le(first, t[k])
    ensures Sorted([first] + t)
  {
    var w := [first] + t;
    forall i, j | 0 <= i < j < |w|
      ensures Le(w[i], w[j])
    {
      assert w[j] == t[j - 1];
      if i > 0 {
        assert w[i] == t[i - 1];
      }
    }
  }

  lemma {:induction false} InsertSorted(r: Span, rs: seq<Span>)
    requires Sorted(rs)
    ensures Sorted(Insert(r, rs))
    decreases |rs|
  {
    if rs == [] || Le(r, rs[0]) {
      InsertFront(r, rs);
    } else {
      var u := rs[1..];
      InsertSorted(r, u);
      InsertPerm(r, u);
      var t := Insert(r, u);
      forall k | 0 <= k < |t|
        ensures Le(rs[0], t[k])
      {
        assert t[k] in multiset(u) + multiset{r};
        if t[k] != r {
          var m :| 0 <= m < |u| && u[m] == t[k];
          assert u[m] == rs[m + 1];
        }
      }
      InsertBehind(rs[0], t);
    }
  }

  /** Sorting yields the same spans in tuple order. */
  lemma {:induction false} SortSorted(rs: seq<Span>)
    ensures Sorted(Sort(rs)) && multiset(Sort(rs)) == multiset(rs)
    decreases |rs|
  {
    if rs != [] {
      SortSorted(rs[1..]);
      InsertSorted(rs[0], Sort(rs[1..]));
      InsertPerm(rs[0], Sort(rs[1..]));
      assert rs == [rs[0]] + rs[1..];
    }
  }

  lemma SameSpansCover(a: seq<Span>, b: seq<Span>, x: int)
    requires multiset(a) == multiset(b)
    ensures Covered(a, x) <==> Covered(b, x)
  {
    CoveredAny(a, x);
    CoveredAny(b, x);
    if Covered(a, x) {
      var k :| 0 <= k < |a| && In(a[k], x);
      assert a[k] in multiset(b);
    }
    if Covered(b, x) {
      var k :| 0 <= k < |b| && In(b[k], x);
      assert b[k] in multiset(a);
    }
  }

  // ------------------------------------------------------------------
  // counting the union
  // ------------------------------------------------------------------

  /** The number of covered columns `x` with `lo <= x < hi`. */
  function CountIn(rs: seq<Span>, lo: int, hi: int): nat
    decreases hi - lo
  {
    if hi <= lo then 0 else CountIn(rs, lo, hi - 1) + (if Covered(rs, hi - 1) then 1 else 0)
  }

  lemma {:induction false} CountSplit(rs: seq<Span>, a: int, b: int, c: int)
    requires a <= b <= c
    ensures CountIn(rs, a, c) == CountIn(rs, a, b) + CountIn(rs, b, c)
    decreases c - b
  {
    if b < c {
      CountSplit(rs, a, b, c - 1);
    }
  }

  lemma {:induction false} CountSame(rs: seq<Span>, ts: seq<Span>, a: int, b: int)
    requires forall x :: a <= x < b ==> (Covered(rs, x) <==> Covered(ts, x))
    ensures CountIn(rs, a, b) == CountIn(ts, a, b)
    decreases b - a
  {
    if a < b {
      CountSame(rs, ts, a, b - 1);
    }
  }

  lemma {:induction false} CountAll(rs: seq<Span>, a: int, b: int)
    requires a <= b && forall x :: a <= x < b ==> Covered(rs, x)
    ensures CountIn(rs, a, b) == b - a
    decreases b - a
  {
    if a < b {
      CountAll(rs, a, b - 1);
    }
  }

  lemma {:induction false} CountNone(rs: seq<Span>, a: int, b: int)
    requires forall x :: a <= x < b ==> !Covered(rs, x)
    ensures CountIn(rs, a, b) == 0
    decreases b - a
  {
    if a < b {
      CountNone(rs, a, b - 1);
    }
  }

  lemma CoveredSnoc(rs: seq<Span>, i: int, x: int)
    requires 0 <= i < |rs|
    ensures Covered(rs[..i + 1], x) <==> Covered(rs[..i], x) || In(rs[i], x)
  {
    assert rs[..i + 1][..i] == rs[..i];
  }

  predicate Bounded(rs: seq<Span>)
  {
    forall k :: 0 <= k < |rs| ==> Text.I32Min < rs[k].lo <= rs[k].hi <= Text.I32Max
  }

  /**
   * The sweep over sorted spans has handled the first `i`: `maxX` is the largest end
   * seen (the least `i32` before any), every cell from the last start to `maxX` is
   * covered, nothing beyond `maxX` is, and `count` is the size of the union.
   */
  ghost predicate Swept(rs: seq<Span>, i: int, count: int, maxX: int)
    requires 0 <= i <= |rs|
  {
    Text.I32Min <= maxX &&
    (i == 0 ==> maxX == Text.I32Min) &&
    (forall x :: Covered(rs[..i], x) ==> x <= maxX) &&
    (i > 0 ==> forall x :: rs[i - 1].lo <= x <= maxX ==> Covered(rs[..i], x)) &&
    count == CountIn(rs[..i], Text.I32Min + 1, maxX + 1)
  }

  lemma SnocCover(rs: seq<Span>, i: int)
    requires 0 <= i < |rs|
    ensures forall x :: Covered(rs[..i + 1], x) <==> Covered(rs[..i], x) || In(rs[i], x)
  {
    forall x ensures Covered(rs[..i + 1], x) <==> Covered(rs[..i], x) || In(rs[i], x) {
      CoveredSnoc(rs, i, x);
    }
  }

  /** What `Swept` says, spelled out for the lemmas below. */
  lemma SweptFacts(rs: seq<Span>, i: int, count: int, maxX: int)
    requires 0 <= i <= |rs| && Swept(rs, i, count, maxX)
    ensures Text.I32Min <= maxX && (i == 0 ==> maxX == Text.I32Min)
    ensures forall x :: Covered(rs[..i], x) ==> x <= maxX
    ensures i > 0 ==> forall x :: rs[i - 1].lo <= x <= maxX ==> Covered(rs[..i], x)
    ensures count == CountIn(rs[..i], Text.I32Min + 1, maxX + 1)
  {
  }

  lemma SweptIntro(rs: seq<Span>, i: int, count: int, maxX: int)
    requires 0 < i <= |rs| && Text.I32Min <= maxX
    requires forall x :: Covered(rs[..i], x) ==> x <= maxX
    requires forall x :: rs[i - 1].lo <= x <= maxX ==> Covered(rs[..i], x)
    requires count == CountIn(rs[..i], Text.I32Min + 1, maxX + 1)
    ensures Swept(rs, i, count, maxX)
  {
  }

  /** Up to `maxX` the next span adds nothing: sorted, it starts no earlier than the last one. */
  lemma SweepBelow(rs: seq<Span>, i: int, count: int, maxX: int)
    requires Sorted(rs) && Bounded(rs) && 0 <= i < |rs| && Swept(rs, i, count, maxX)
    ensures forall x :: x <= maxX ==> (Covered(rs[..i + 1], x) <==> Covered(rs[..i], x))
    ensures CountIn(rs[..i + 1], Text.I32Min + 1, maxX + 1) == count
  {
    SweptFacts(rs, i, count, maxX);
    SnocCover(rs, i);
    forall x | x <= maxX
      ensures Covered(rs[..i + 1], x) <==> Covered(rs[..i], x)
    {
      if In(rs[i], x) {
        assert i > 0;
        assert Le(rs[i - 1], rs[i]);
        assert rs[i - 1].lo <= x;
      }
    }
    CountSame(rs[..i + 1], rs[..i], Text.I32Min + 1, maxX + 1);
  }

  lemma SweepInside(rs: seq<Span>, i: int, count: int, maxX: int)
    requires Sorted(rs) && Bounded(rs) && 0 <= i < |rs| && Swept(rs, i, count, maxX)
    requires rs[i].hi <= maxX
    ensures Swept(rs, i + 1, count, maxX)
  {
    SweptFacts(rs, i, count, maxX);
    SweepBelow(rs, i, count, maxX);
    assert i > 0;
    assert Le(rs[i - 1], rs[i]);
    var before, after := rs[..i], rs[..i + 1];
    forall x | rs[i].lo <= x <= maxX
      ensures Covered(after, x)
    {
      CoveredSnoc(rs, i, x);
      assert Covered(before, x);
    }
    forall x | Covered(after, x)
      ensures x <= maxX
    {
      CoveredSnoc(rs, i, x);
    }
    SweptIntro(rs, i + 1, count, maxX);
  }

  lemma SweepOverlap(rs: seq<Span>, i: int, count: int, maxX: int)
    requires Sorted(rs) && Bounded(rs) && 0 <= i < |rs| && Swept(rs, i, count, maxX)
    requires rs[i].lo <= maxX < rs[i].hi
    ensures Swept(rs, i + 1, count + rs[i].hi - maxX, rs[i].hi)
  {
    var after, r := rs[..i + 1], rs[i];
    SweptFacts(rs, i, count, maxX);
    SweepBelow(rs, i, count, maxX);
    assert i > 0;
    assert Le(rs[i - 1], r);
    forall x | r.lo <= x <= r.hi
      ensures Covered(after, x)
    {
      CoveredSnoc(rs, i, x);
      assert In(r, x);
    }
    forall x | Covered(after, x)
      ensures x <= r.hi
    {
      CoveredSnoc(rs, i, x);
    }
    CountSplit(after, Text.I32Min + 1, maxX + 1, r.hi + 1);
    CountAll(after, maxX + 1, r.hi + 1);
    SweptIntro(rs, i + 1, count + r.hi - maxX, r.hi);
  }

  lemma BeyondCount(rs: seq<Span>, maxX: int, lo: int, hi: int)
    requires Text.I32Min <= maxX < lo <= hi
    requires forall x :: maxX < x < lo ==> !Covered(rs, x)
    requires forall x :: lo <= x <= hi ==> Covered(rs, x)
    ensures CountIn(rs, Text.I32Min + 1, hi + 1) == CountIn(rs, Text.I32Min + 1, maxX + 1) + hi - lo + 1
  {
    CountSplit(rs, Text.I32Min + 1, maxX + 1, lo);
    CountSplit(rs, Text.I32Min + 1, lo, hi + 1);
    CountNone(rs, maxX + 1, lo);
    CountAll(rs, lo, hi + 1);
  }

  lemma SweepBeyond(rs: seq<Span>, i: int, count: int, maxX: int)
    requires Sorted(rs) && Bounded(rs) && 0 <= i < |rs| && Swept(rs, i, count, maxX)
    requires maxX < rs[i].lo
    ensures Swept(rs, i + 1, count + rs[i].hi - rs[i].lo + 1, rs[i].hi)
  {
    var after, r := rs[..i + 1], rs[i];
    SweptFacts(rs, i, count, maxX);
    SweepBelow(rs, i, count, maxX);
    forall x | maxX < x < r.lo
      ensures !Covered(after, x)
    {
      CoveredSnoc(rs, i, x);
    }
    forall x | r.lo <= x <= r.hi
      ensures Covered(after, x)
    {
      CoveredSnoc(rs, i, x);
      assert In(r, x);
    }
    forall x | Covered(after, x)
      ensures x <= r.hi
    {
      CoveredSnoc(rs, i, x);
    }
    BeyondCount(after, maxX, r.lo, r.hi);
    SweptIntro(rs, i + 1, count + r.hi - r.lo + 1, r.hi);
  }

  /** Sorting keeps the spans' bounds and the cells they cover. */
  lemma SortKeeps(rs: seq<Span>)
    requires Bounded(rs)
    ensures Sorted(Sort(rs)) && Bounded(Sort(rs))
    ensures forall x :: Covered(Sort(rs), x) <==> Covered(rs, x)
  {
    var sorted := Sort(rs);
    SortSorted(rs);
    forall k | 0 <= k < |sorted|
      ensures Text.I32Min < sorted[k].lo <= sorted[k].hi <= Text.I32Max
    {
      assert sorted[k] in multiset(rs);
    }
    forall x ensures Covered(sorted, x) <==> Covered(rs, x) {
      SameSpansCover(sorted, rs, x);
    }
  }

  /** A finished sweep has counted every covered `i32` column of the spans it was given. */
  lemma SweepDone(rs: seq<Span>, spans: seq<Span>, count: int, maxX: int)
    requires Swept(rs, |rs|, count, maxX) && maxX <= Text.I32Max
    requires forall x :: Covered(rs, x) <==> Covered(spans, x)
    ensures count == CountIn(spans, Text.I32Min + 1, Text.I32Max + 1)
  {
    SweptFacts(rs, |rs|, count, maxX);
    assert rs[..|rs|] == rs;
    CountSplit(rs, Text.I32Min + 1, maxX + 1, Text.I32Max + 1);
    CountNone(rs, maxX + 1, Text.I32Max + 1);
    CountSame(rs, spans, Text.I32Min + 1, Text.I32Max + 1);
  }

  /**
   * Counts the columns of row `y` where no beacon can be: each sensor's spans,
   * beacons cut out, sorted, then swept once keeping the largest end seen.
   */
  method CountNoBeacons(sensors: seq<Sensor>, y: int) returns (count: int)
    requires WithinI32(sensors)
    ensures count == CountIn(Collect(sensors, y, false), Text.I32Min + 1, Text.I32Max + 1)
  {
    var noBeacons := CollectSpans(sensors, y, false);
    CollectBounds(sensors, y, false, Text.I32Min + 1, Text.I32Max);
    ghost var collected := noBeacons;
    SortKeeps(collected);
    noBeacons := Sort(noBeacons);
    count := 0;
    var maxX := Text.I32Min;
    for i := 0 to |noBeacons|
      invariant Swept(noBeacons, i, count, maxX) && maxX <= Text.I32Max
    {
      var r := noBeacons[i];
      if r.hi <= maxX {
        SweepInside(noBeacons, i, count, maxX);
        continue;
      } else if r.lo <= maxX {
        SweepOverlap(noBeacons, i, count, maxX);
        count := count + (r.hi - maxX);
      } else {
        SweepBeyond(noBeacons, i, count, maxX);
        count := count + (r.hi - r.lo + 1);
      }
      maxX := Max(maxX, r.hi);
    }
    SweepDone(noBeacons, collected, count, maxX);
  }

  method Part1(sensors: seq<Sensor>) returns (count: int)
    requires WithinI32(sensors)
    ensures count == CountIn(Collect(sensors, 2000000, false), Text.I32Min + 1, Text.I32Max + 1)
  {
    count := CountNoBeacons(sensors, 2000000);
  }

  // ------------------------------------------------------------------
  // part 2: the one uncovered cell
  // ------------------------------------------------------------------

  /** Drops spans outside `low..=high` and clips the rest to it, in order. */
  function Clip(rs: seq<Span>, low: int, high: int): seq<Span>
  {
    if rs == [] then []
    else
      var r := rs[|rs| - 1];
      Clip(rs[..|rs| - 1], low, high) +
      (if r.hi < low || r.lo > high then [] else [Span(Max(r.lo, low), Min(r.hi, high))])
  }

  /** Clipping keeps exactly the covered cells within `low..=high`. */
  lemma {:induction false} ClipCover(rs: seq<Span>, low: int, high: int, x: int)
    requires Proper(rs)
    ensures Covered(Clip(rs, low, high), x) <==> low <= x <= high && Covered(rs, x)
    decreases |rs|
  {
    if rs != [] {
      var init, r := rs[..|rs| - 1], rs[|rs| - 1];
      var piece := if r.hi < low || r.lo > high then [] else [Span(Max(r.lo, low), Min(r.hi, high))];
      ClipCover(init, low, high, x);
      CoveredConcat(Clip(init, low, high), piece, x);
      CoveredAny(piece, x);
      assert rs[..|rs|][..|rs| - 1] == init;
    }
  }

  /** Every clipped span is non-empty and lies inside `low..=high`. */
  lemma {:induction false} ClipBounds(rs: seq<Span>, low: int, high: int)
    requires Proper(rs) && low <= high
    ensures forall k :: 0 <= k < |Clip(rs, low, high)| ==>
      low <= Clip(rs, low, high)[k].lo <= Clip(rs, low, high)[k].hi <= high
    decreases |rs|
  {
    if rs != [] {
      var init, r := rs[..|rs| - 1], rs[|rs| - 1];
      var piece := if r.hi < low || r.lo > high then [] else [Span(Max(r.lo, low), Min(r.hi, high))];
      ClipBounds(init, low, high);
      var before := Clip(init, low, high);
      var c := Clip(rs, low, high);
      assert c == before + piece;
      assert r.lo <= r.hi;
      forall k | 0 <= k < |c|
        ensures low <= c[k].lo <= c[k].hi <= high
      {
        if k >= |before| {
          assert c[k] == piece[k - |before|];
        } else {
          assert c[k] == before[k];
        }
      }
    }
  }

  /** The spans `find_beacon_pos` examines on row `y`. */
  function RowSpans(sensors: seq<Sensor>, y: int, low: int, high: int): seq<Span>
  {
    Sort(Clip(Collect(sensors, y, true), low, high))
  }

  /** The sweep for a gap, with the running maximum end `currMax`; a gap is a cell strictly between spans. */
  function GapFrom(rs: seq<Span>, i: nat, currMax: int): Option<int>
    decreases |rs| - i
  {
    if i >= |rs| then None
    else if currMax + 1 < rs[i].lo then Some(currMax + 1)
    else GapFrom(rs, i + 1, Max(currMax, rs[i].hi))
  }

  function FirstGap(rs: seq<Span>): Option<int>
    requires rs != []
  {
    GapFrom(rs, 0, rs[0].lo)
  }

  /** The sweep as written stops at `currMax < lo`, which also fires when the next span starts right after. */
  function GapFromAsWritten(rs: seq<Span>, i: nat, currMax: int): Option<int>
    decreases |rs| - i
  {
    if i >= |rs| then None
    else if currMax < rs[i].lo then Some(currMax + 1)
    else GapFromAsWritten(rs, i + 1, Max(currMax, rs[i].hi))
  }

  /** Two adjacent spans: the sweep as written reports column 6, which the second span covers. */
  lemma AdjacentSpansAsWritten()
    ensures var rs := [Span(0, 5), Span(6, 20)];
      GapFromAsWritten(rs, 0, rs[0].lo) == Some(6) && Covered(rs, 6) && FirstGap(rs) == None
  {
    var rs := [Span(0, 5), Span(6, 20)];
    assert rs[..1][..0] == [];
    assert rs[..2][..1] == rs[..1];
    assert In(rs[1], 6);
  }

  function FirstGapAsWritten(rs: seq<Span>): Option<int>
    requires rs != []
  {
    GapFromAsWritten(rs, 0, rs[0].lo)
  }

  /**
   * The sweep as written fires no later than the intended one: it reports the same cell,
   * or else a cell that a span covers (the start of a span right after `currMax`).
   */
  lemma {:induction false} GapAsWrittenVsIntended(rs: seq<Span>, i: nat, currMax: int)
    requires Proper(rs)
    ensures GapFromAsWritten(rs, i, currMax) == GapFrom(rs, i, currMax) ||
      (GapFromAsWritten(rs, i, currMax).Some? && Covered(rs, GapFromAsWritten(rs, i, currMax).value))
    decreases |rs| - i
  {
    if i < |rs| {
      if currMax + 1 < rs[i].lo {
      } else if currMax < rs[i].lo {
        CoveredAny(rs, rs[i].lo);
        assert In(rs[i], rs[i].lo);
      } else {
        GapAsWrittenVsIntended(rs, i + 1, Max(currMax, rs[i].hi));
      }
    }
  }

  /**
   * What the gap sweep knows after `i` spans: before any, `currMax` is the first
   * start; afterwards every cell from the first start to `currMax` is covered and
   * nothing beyond it is.
   */
  ghost predicate GapInv(rs: seq<Span>, i: int, currMax: int)
    requires 0 <= i <= |rs| && rs != []
  {
    (i == 0 ==> currMax == rs[0].lo) &&
    (i > 0 ==> (forall x :: rs[0].lo <= x <= currMax ==> Covered(rs[..i], x)) &&
               (forall x :: Covered(rs[..i], x) ==> x <= currMax))
  }

  lemma GapStep(rs: seq<Span>, i: int, currMax: int)
    requires Sorted(rs) && Proper(rs) && 0 <= i < |rs| && GapInv(rs, i, currMax)
    requires rs[i].lo <= currMax + 1
    ensures GapInv(rs, i + 1, Max(currMax, rs[i].hi))
  {
    var m, after := Max(currMax, rs[i].hi), rs[..i + 1];
    forall x | rs[0].lo <= x <= m
      ensures Covered(after, x)
    {
      CoveredSnoc(rs, i, x);
      if i == 0 {
        assert In(rs[0], x);
      } else if x > currMax {
        assert In(rs[i], x);
      }
    }
    forall x | Covered(after, x)
      ensures x <= m
    {
      CoveredSnoc(rs, i, x);
    }
  }

  /** A gap found at span `i` is covered by no span: the earlier ones end before it, the later ones start after. */
  lemma GapAt(rs: seq<Span>, i: int, currMax: int)
    requires Sorted(rs) && Proper(rs) && 0 <= i < |rs| && GapInv(rs, i, currMax)
    requires currMax + 1 < rs[i].lo
    ensures !Covered(rs, currMax + 1) && rs[0].lo < currMax + 1
  {
    var g := currMax + 1;
    CoveredAny(rs, g);
    CoveredAny(rs[..i], g);
    if i > 0 {
      CoveredAny(rs[..i], rs[0].lo);
      assert rs[..i][0] == rs[0] && In(rs[0], rs[0].lo);
    }
    forall k | 0 <= k < |rs|
      ensures !In(rs[k], g)
    {
      if k < i {
        assert rs[..i][k] == rs[k];
      } else {
        assert Le(rs[i], rs[k]) || k == i;
      }
    }
  }

  lemma {:induction false} GapFromSound(rs: seq<Span>, i: int, currMax: int)
    requires Sorted(rs) && Proper(rs) && rs != [] && 0 <= i <= |rs| && GapInv(rs, i, currMax)
    ensures GapFrom(rs, i, currMax).Some? ==>
      var g := GapFrom(rs, i, currMax).value;
      !Covered(rs, g) && rs[0].lo < g && exists k :: 0 <= k < |rs| && g < rs[k].lo
    ensures GapFrom(rs, i, currMax).None? ==>
      forall x, z :: rs[0].lo <= x <= z && Covered(rs, z) ==> Covered(rs, x)
    decreases |rs| - i
  {
    if i == |rs| {
      assert rs[..i] == rs;
    } else if currMax + 1 < rs[i].lo {
      GapAt(rs, i, currMax);
    } else {
      GapStep(rs, i, currMax);
      GapFromSound(rs, i + 1, Max(currMax, rs[i].hi));
    }
  }

  /**
   * A gap the sweep reports lies strictly between two spans and no span covers it;
   * when it reports none, the covered cells run without a hole from the first start.
   */
  lemma FirstGapSound(rs: seq<Span>)
    requires Sorted(rs) && Proper(rs) && rs != []
    ensures FirstGap(rs).Some? ==>
      var g := FirstGap(rs).value;
      !Covered(rs, g) && rs[0].lo < g && exists k :: 0 <= k < |rs| && g < rs[k].lo
    ensures FirstGap(rs).None? ==>
      forall x, z :: rs[0].lo <= x <= z && Covered(rs, z) ==> Covered(rs, x)
  {
    GapFromSound(rs, 0, rs[0].lo);
  }

  /** What row `y` decides: a panic on an empty row, the gap it holds, or nothing (go on). */
  function RowOutcome(sensors: seq<Sensor>, y: int, low: int, high: int): Option<Result<Pos>>
  {
    var row := RowSpans(sensors, y, low, high);
    if row == [] then Some(Panic("called `Option::unwrap()` on a `None` value"))
    else if FirstGap(row).Some? then Some(Ok(Pos(FirstGap(row).value, y)))
    else None
  }

  /** The rows from `y` on, as `find_beacon_pos` scans them. */
  function Search(sensors: seq<Sensor>, low: int, high: int, y: int): Result<Pos>
    decreases high + 1 - y
  {
    if y > high then Ok(Pos(0, 0))
    else if RowOutcome(sensors, y, low, high).Some? then RowOutcome(sensors, y, low, high).value
    else Search(sensors, low, high, y + 1)
  }

  /** Row `y` as `find_beacon_pos` decides it, with the sweep as written. */
  function RowOutcomeAsWritten(sensors: seq<Sensor>, y: int, low: int, high: int): Option<Result<Pos>>
  {
    var row := RowSpans(sensors, y, low, high);
    if row == [] then Some(Panic("called `Option::unwrap()` on a `None` value"))
    else if FirstGapAsWritten(row).Some? then Some(Ok(Pos(FirstGapAsWritten(row).value, y)))
    else None
  }

  /** The rows from `y` on, as `find_beacon_pos` scans them with the sweep as written. */
  function SearchAsWritten(sensors: seq<Sensor>, low: int, high: int, y: int): Result<Pos>
    decreases high + 1 - y
  {
    if y > high then Ok(Pos(0, 0))
    else if RowOutcomeAsWritten(sensors, y, low, high).Some? then RowOutcomeAsWritten(sensors, y, low, high).value
    else SearchAsWritten(sensors, low, high, y + 1)
  }

  /** The spans of a row, sorted and clipped, keep the cells in range that some sensor reaches. */
  lemma RowSpansFacts(sensors: seq<Sensor>, y: int, low: int, high: int)
    requires low <= high
    ensures Sorted(RowSpans(sensors, y, low, high)) && Proper(RowSpans(sensors, y, low, high))
    ensures forall k :: 0 <= k < |RowSpans(sensors, y, low, high)| ==>
      low <= RowSpans(sensors, y, low, high)[k].lo <= high
    ensures forall x :: Covered(RowSpans(sensors, y, low, high), x) <==>
      low <= x <= high && Covered(Collect(sensors, y, true), x)
  {
    var spans := Collect(sensors, y, true);
    var clipped := Clip(spans, low, high);
    var row := Sort(clipped);
    CollectProper(sensors, y, true);
    ClipBounds(spans, low, high);
    SortSorted(clipped);
    forall k | 0 <= k < |row|
      ensures low <= row[k].lo <= row[k].hi <= high
    {
      assert row[k] in multiset(clipped);
    }
    forall x ensures Covered(row, x) <==> low <= x <= high && Covered(spans, x) {
      SameSpansCover(row, clipped, x);
      ClipCover(spans, low, high, x);
    }
  }

  /**
   * A position the search reports, other than the `(0, 0)` it gives up with, lies
   * strictly inside the scanned box and out of every sensor's reach.
   */
  lemma {:induction false} SearchSound(sensors: seq<Sensor>, low: int, high: int, y: int)
    requires low <= y
    requires Search(sensors, low, high, y).Ok? && Search(sensors, low, high, y).value != Pos(0, 0)
    ensures var p := Search(sensors, low, high, y).value;
      y <= p.y <= high && low < p.x < high &&
      forall k :: 0 <= k < |sensors| ==> !InRange(sensors[k], p.x, p.y)
    decreases high + 1 - y
  {
    var row := RowSpans(sensors, y, low, high);
    if FirstGap(row).None? {
      SearchSound(sensors, low, high, y + 1);
    } else {
      var g := FirstGap(row).value;
      RowSpansFacts(sensors, y, low, high);
      FirstGapSound(row);
      CollectCover(sensors, y, true, g);
    }
  }

  /**
   * On each row the sweep as written gives the intended verdict, or reports a cell that
   * some sensor reaches, where no beacon can hide.
   */
  lemma RowAsWrittenVsIntended(sensors: seq<Sensor>, y: int, low: int, high: int)
    requires low <= high
    ensures RowOutcomeAsWritten(sensors, y, low, high) == RowOutcome(sensors, y, low, high) ||
      (RowOutcomeAsWritten(sensors, y, low, high).Some? && RowOutcomeAsWritten(sensors, y, low, high).value.Ok? &&
       var p := RowOutcomeAsWritten(sensors, y, low, high).value.value;
       p.y == y && exists k :: 0 <= k < |sensors| && InRange(sensors[k], p.x, y))
  {
    var row := RowSpans(sensors, y, low, high);
    if row != [] {
      RowSpansFacts(sensors, y, low, high);
      GapAsWrittenVsIntended(row, 0, row[0].lo);
      if FirstGapAsWritten(row) != FirstGap(row) {
        CollectCover(sensors, y, true, FirstGapAsWritten(row).value);
      }
    }
  }

  /** Pushes each sensor's spans on row `y`, in sensor order (the `no_beacons` loop). */
  method CollectSpans(sensors: seq<Sensor>, y: int, includeBeacon: bool) returns (spans: seq<Span>)
    ensures spans == Collect(sensors, y, includeBeacon)
  {
    spans := [];
    for k := 0 to |sensors|
      invariant spans == Collect(sensors[..k], y, includeBeacon)
    {
      spans := spans + NoBeacons(sensors[k], y, includeBeacon);
      assert sensors[..k + 1][..k] == sensors[..k];
    }
    assert sensors[..|sensors|] == sensors;
  }

  /** The `retain_mut` pass: drops spans outside `low..=high` and clips the others to it. */
  method ClipSpans(spans: seq<Span>, low: int, high: int) returns (kept: seq<Span>)
    ensures kept == Clip(spans, low, high)
  {
    kept := [];
    for j := 0 to |spans|
      invariant kept == Clip(spans[..j], low, high)
    {
      var x1, x2 := spans[j].lo, spans[j].hi;
      if !(x2 < low || x1 > high) {
        kept := kept + [Span(Max(x1, low), Min(x2, high))];
      }
      assert spans[..j + 1][..j] == spans[..j];
    }
    assert spans[..|spans|] == spans;
  }

  /** The sweep over one sorted row, as written: it stops at the first span starting after `currMax`. */
  method ScanGap(exclusions: seq<Span>) returns (gap: Option<int>)
    requires exclusions != []
    ensures gap == FirstGapAsWritten(exclusions)
  {
    var currMax := exclusions[0].lo;
    for i := 0 to |exclusions|
      invariant GapFromAsWritten(exclusions, i, currMax) == FirstGapAsWritten(exclusions)
    {
      if currMax < exclusions[i].lo {
        return Some(currMax + 1);
      }
      currMax := Max(currMax, exclusions[i].hi);
    }
    return None;
  }

  /** The spans of row `y`: collected with beacons, clipped to `low..=high`, sorted. */
  method RowExclusions(sensors: seq<Sensor>, y: int, low: int, high: int) returns (exclusions: seq<Span>)
    ensures exclusions == RowSpans(sensors, y, low, high)
  {
    exclusions := CollectSpans(sensors, y, true);
    exclusions := ClipSpans(exclusions, low, high);
    exclusions := Sort(exclusions);
  }

  /** One row of `find_beacon_pos`: its spans, then the verdict they give. */
  method ScanRow(sensors: seq<Sensor>, y: int, low: int, high: int) returns (outcome: Option<Result<Pos>>)
    ensures outcome == RowOutcomeAsWritten(sensors, y, low, high)
  {
    var exclusions := RowExclusions(sensors, y, low, high);
    if exclusions == [] {
      return Some(Panic("called `Option::unwrap()` on a `None` value"));
    }
    var gap := ScanGap(exclusions);
    if gap.Some? {
      return Some(Ok(Pos(gap.value, y)));
    }
    return None;
  }

  /** Rows that decide nothing are skipped: the search from `low` is the search from `y`. */
  lemma {:induction false} SearchSkips(sensors: seq<Sensor>, low: int, high: int, y: int)
    requires low <= y <= high + 1
    requires forall z :: low <= z < y ==> RowOutcomeAsWritten(sensors, z, low, high).None?
    ensures SearchAsWritten(sensors, low, high, low) == SearchAsWritten(sensors, low, high, y)
    decreases y - low
  {
    if y > low {
      SearchSkips(sensors, low, high, y - 1);
    }
  }

  /**
   * Scans rows `low..=high` with the sweep as written; a row with no span at all fails
   * like the unwrap it models.
   */
  method FindBeaconPos(sensors: seq<Sensor>, low: nat, high: nat) returns (r: Result<Pos>)
    ensures r == SearchAsWritten(sensors, low, high, low)
  {
    if high < low {
      return Ok(Pos(0, 0));
    }
    var y := low;
    while y <= high
      invariant low <= y <= high + 1
      invariant forall z :: low <= z < y ==> RowOutcomeAsWritten(sensors, z, low, high).None?
      decreases high + 1 - y
    {
      var outcome := ScanRow(sensors, y, low, high);
      if outcome.Some? {
        SearchSkips(sensors, low, high, y);
        return outcome.value;
      }
      y := y + 1;
    }
    SearchSkips(sensors, low, high, y);
    r := Ok(Pos(0, 0));
  }

  /** The tuning frequency of the beacon position found in `0..=4000000`. */
  method Part2(sensors: seq<Sensor>) returns (r: Result<int>)
    ensures r.Ok? ==> (SearchAsWritten(sensors, 0, 4000000, 0).Ok? &&
      r.value == 4000000 * SearchAsWritten(sensors, 0, 4000000, 0).value.x + SearchAsWritten(sensors, 0, 4000000, 0).value.y)
    ensures r.Panic? <==> SearchAsWritten(sensors, 0, 4000000, 0).Panic?
  {
    var pos := FindBeaconPos(sensors, 0, 4000000);
    if pos.Panic? {
      return Panic(pos.msg);
    }
    r := Ok(4000000 * pos.value.x + pos.value.y);
  }
}
