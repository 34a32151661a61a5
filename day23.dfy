/**
 * Day 23, unstable diffusion. Elves stand on a grid; in each round every elf with a neighbour
 * proposes a step in the first of four directions, tried from a rotating start, whose three cells
 * ahead are empty, and an elf takes its step when no other elf proposed the same cell.
 */
module Day23 {
  import opened Wrappers
  import opened Text
  import opened Arith

  datatype XY = XY(x: int, y: int)
  {
    function Add(dx: int, dy: int): XY { XY(x + dx, y + dy) }
  }

  const ElfChar: char := '#'

  const North: nat := 0
  const South: nat := 1
  const West: nat := 2
  const East: nat := 3
  const DirectionCount: nat := 4

  /** Masks over the neighbour bits: the three cells north, south, west and east of an elf. */
  const NorthBits: bv8 := 224
  const SouthBits: bv8 := 7
  const WestBits: bv8 := 148
  const EastBits: bv8 := 41

  predicate Distinct(s: seq<XY>)
  {
    forall i, j :: 0 <= i < j < |s| ==> s[i] != s[j]
  }

  // ------------------------------------------------------------------
  // generator
  // ------------------------------------------------------------------

  /** The elves of one row, left to right: the x of every '#', on line y. */
  function RowElves(row: string, y: int): seq<XY>
    decreases |row|
  {
    if row == [] then []
    else RowElves(row[..|row| - 1], y) + (if row[|row| - 1] == ElfChar then [XY(|row| - 1, y)] else [])
  }

  /** The elves of all rows, top to bottom: the layout `generator` builds. */
  function ElvesIn(rows: seq<string>): seq<XY>
    decreases |rows|
  {
    if rows == [] then [] else ElvesIn(rows[..|rows| - 1]) + RowElves(rows[|rows| - 1], |rows| - 1)
  }

  lemma {:induction false} RowElvesIff(row: string, y: int, p: XY)
    ensures p in RowElves(row, y) <==> p.y == y && 0 <= p.x < |row| && row[p.x] == ElfChar
    ensures p in RowElves(row, y) ==> p.x < |row|
    decreases |row|
  {
    if row != [] {
      var init := row[..|row| - 1];
      RowElvesIff(init, y, p);
      if 0 <= p.x < |init| {
        assert init[p.x] == row[p.x];
      }
    }
  }

  lemma {:induction false} RowElvesDistinct(row: string, y: int)
    ensures Distinct(RowElves(row, y))
    decreases |row|
  {
    if row != [] {
      var init := row[..|row| - 1];
      RowElvesDistinct(init, y);
      var s := RowElves(row, y);
      forall i, j | 0 <= i < j < |s| ensures s[i] != s[j] {
        if j >= |RowElves(init, y)| {
          assert s[i] in RowElves(init, y);
          RowElvesIff(init, y, s[i]);
        }
      }
    }
  }

  /** Every '#' of the input, and nothing else, is an elf: (x, y) is on the layout iff line y has '#' at x. */
  lemma {:induction false} ElvesInIff(rows: seq<string>, p: XY)
    ensures p in ElvesIn(rows) <==> 0 <= p.y < |rows| && 0 <= p.x < |rows[p.y]| && rows[p.y][p.x] == ElfChar
    decreases |rows|
  {
    if rows != [] {
      var init := rows[..|rows| - 1];
      ElvesInIff(init, p);
      RowElvesIff(rows[|rows| - 1], |rows| - 1, p);
      if 0 <= p.y < |init| {
        assert init[p.y] == rows[p.y];
      }
    }
  }

  /** No elf is recorded twice. */
  lemma {:induction false} ElvesInDistinct(rows: seq<string>)
    ensures Distinct(ElvesIn(rows))
    decreases |rows|
  {
    if rows != [] {
      var init := rows[..|rows| - 1];
      var last := RowElves(rows[|rows| - 1], |rows| - 1);
      ElvesInDistinct(init);
      RowElvesDistinct(rows[|rows| - 1], |rows| - 1);
      var s := ElvesIn(rows);
      forall i, j | 0 <= i < j < |s| ensures s[i] != s[j] {
        if i < |ElvesIn(init)| <= j {
          assert s[i] in ElvesIn(init) && s[j] in last;
          ElvesInIff(init, s[i]);
          RowElvesIff(rows[|rows| - 1], |rows| - 1, s[j]);
        }
      }
    }
  }

  method Generator(input: string) returns (elves: Elves)
    ensures fresh(elves) && elves.layout == ElvesIn(Lines(input))
  {
    var rows := Lines(input);
    var layout: seq<XY> := [];
    for y := 0 to |rows|
      invariant layout == ElvesIn(rows[..y])
    {
      var row := rows[y];
      ghost var above := layout;
      for x := 0 to |row|
        invariant layout == above + RowElves(row[..x], y)
      {
        assert row[..x + 1][..x] == row[..x];
        if row[x] == ElfChar {
          layout := layout + [XY(x, y)];
        }
      }
      assert row[..|row|] == row;
      assert rows[..y + 1][..y] == rows[..y];
    }
    assert rows[..|rows|] == rows;
    elves := new Elves(layout);
  }

  // ------------------------------------------------------------------
  // Neighbours
  // ------------------------------------------------------------------

  function Bit(positions: set<XY>, p: XY): bv8 { if p in positions then 1 else 0 }

  /** The eight cells around an elf in the order the mask takes them, from bit 7 down to bit 0: NW, N, NE, W, E, SW, S, SE. */
  const Ring: seq<(int, int)> := [(-1, -1), (0, -1), (1, -1), (-1, 0), (1, 0), (-1, 1), (0, 1), (1, 1)]

  /** The neighbour mask written out bit by bit. */
  function Spread(elf: XY, positions: set<XY>): bv8
  {
    (Bit(positions, elf.Add(-1, -1)) << 7) | (Bit(positions, elf.Add(0, -1)) << 6)
    | (Bit(positions, elf.Add(1, -1)) << 5) | (Bit(positions, elf.Add(-1, 0)) << 4)
    | (Bit(positions, elf.Add(1, 0)) << 3) | (Bit(positions, elf.Add(-1, 1)) << 2)
    | (Bit(positions, elf.Add(0, 1)) << 1) | Bit(positions, elf.Add(1, 1))
  }

  /** The mask after the first n cells of the ring are shifted in. */
  function MaskPrefix(elf: XY, positions: set<XY>, n: nat): bv8
    requires n <= 8
  {
    if n == 0 then 0
    else (MaskPrefix(elf, positions, n - 1) << 1) + Bit(positions, elf.Add(Ring[n - 1].0, Ring[n - 1].1))
  }

  /** The mask of an elf: the eight cells around it shifted in one by one, as `neighbors` builds it. */
  function Mask(elf: XY, positions: set<XY>): bv8
  {
    MaskPrefix(elf, positions, 8)
  }

  lemma MaskSpread(elf: XY, positions: set<XY>)
    ensures Mask(elf, positions) == Spread(elf, positions)
  {
    var m1 := MaskPrefix(elf, positions, 1);
    var m2 := MaskPrefix(elf, positions, 2);
    var m3 := MaskPrefix(elf, positions, 3);
    var m4 := MaskPrefix(elf, positions, 4);
    var m5 := MaskPrefix(elf, positions, 5);
    var m6 := MaskPrefix(elf, positions, 6);
    var m7 := MaskPrefix(elf, positions, 7);
    assert MaskPrefix(elf, positions, 0) == 0;
    assert Ring[0] == (-1, -1) && Ring[1] == (0, -1) && Ring[2] == (1, -1) && Ring[3] == (-1, 0);
    assert Ring[4] == (1, 0) && Ring[5] == (-1, 1) && Ring[6] == (0, 1) && Ring[7] == (1, 1);
    assert m1 == Bit(positions, elf.Add(-1, -1));
    assert m2 == (m1 << 1) + Bit(positions, elf.Add(0, -1));
    assert m3 == (m2 << 1) + Bit(positions, elf.Add(1, -1));
    assert m4 == (m3 << 1) + Bit(positions, elf.Add(-1, 0));
    assert m5 == (m4 << 1) + Bit(positions, elf.Add(1, 0));
    assert m6 == (m5 << 1) + Bit(positions, elf.Add(-1, 1));
    assert m7 == (m6 << 1) + Bit(positions, elf.Add(0, 1));
  }

  /** Bit 7 - k of the mask is set exactly when the k-th cell around the elf holds an elf. */
  lemma MaskBits(elf: XY, positions: set<XY>, k: nat)
    requires k < 8
    ensures Mask(elf, positions) & (1 << (7 - k)) != 0 <==> elf.Add(Ring[k].0, Ring[k].1) in positions
  {
    MaskSpread(elf, positions);
  }

  /** How many cells of the ring the scan has passed before reaching offset (dx, dy). */
  function Scanned(dx: int, dy: int): nat
    requires -1 <= dx <= 2 && -1 <= dy <= 2
  {
    var k := 3 * (dy + 1) + (dx + 1);
    if k > 4 then k - 1 else k
  }

  lemma MaskStep(elf: XY, positions: set<XY>, dx: int, dy: int)
    requires -1 <= dx <= 1 && -1 <= dy <= 1 && !(dx == 0 && dy == 0)
    ensures Scanned(dx, dy) < 8 && Scanned(dx + 1, dy) == Scanned(dx, dy) + 1
    ensures MaskPrefix(elf, positions, Scanned(dx + 1, dy)) == (MaskPrefix(elf, positions, Scanned(dx, dy)) << 1) + Bit(positions, elf.Add(dx, dy))
  {
    assert Ring[Scanned(dx, dy)] == (dx, dy);
  }

  /** `Elves::neighbors`: the eight neighbour cells, scanned row by row, shifted into a mask. */
  method Neighbors(elf: XY, positions: set<XY>) returns (r: bv8)
    ensures r == Mask(elf, positions)
  {
    r := 0;
    for dy := -1 to 2
      invariant r == MaskPrefix(elf, positions, Scanned(-1, dy))
    {
      for dx := -1 to 2
        invariant r == MaskPrefix(elf, positions, Scanned(dx, dy))
      {
        if dx == 0 && dy == 0 {
          continue;
        }
        MaskStep(elf, positions, dx, dy);
        r := r << 1;
        if elf.Add(dx, dy) in positions {
          r := r + 1;
        }
      }
    }
  }

  // ------------------------------------------------------------------
  // Proposals
  // ------------------------------------------------------------------

  function DirectionBits(d: nat): bv8
    requires d < DirectionCount
  {
    if d == North then NorthBits else if d == South then SouthBits else if d == West then WestBits else EastBits
  }

  /** The step an elf proposes in direction d. */
  function Step(d: nat): (int, int)
    requires d < DirectionCount
  {
    if d == North then (0, -1) else if d == South then (0, 1) else if d == West then (-1, 0) else (1, 0)
  }

  /** The three cells looked at before stepping in direction d: the step itself and its two diagonals. */
  function Side(d: nat): seq<(int, int)>
    requires d < DirectionCount
  {
    if d == North then [(-1, -1), (0, -1), (1, -1)]
    else if d == South then [(-1, 1), (0, 1), (1, 1)]
    else if d == West then [(-1, -1), (-1, 0), (-1, 1)]
    else [(1, -1), (1, 0), (1, 1)]
  }

  predicate Free(d: nat, mask: bv8)
    requires d < DirectionCount
  {
    DirectionBits(d) & mask == 0
  }

  /** A direction's mask test passes exactly when its three cells hold no elf, the step among them. */
  lemma FreeIff(elf: XY, positions: set<XY>, d: nat)
    requires d < DirectionCount
    ensures Step(d) in Side(d)
    ensures Free(d, Mask(elf, positions)) <==> forall c :: c in Side(d) ==> elf.Add(c.0, c.1) !in positions
  {
    MaskSpread(elf, positions);
  }

  /** The direction tried i places after `start`. */
  function Dir(start: nat, i: nat): nat
  {
    (start + i) % DirectionCount
  }

  /** The first of the directions tried i, i + 1, .. 3 places after `start` (mod 4) whose test passes. */
  function FirstFree(mask: bv8, start: nat, i: nat): (r: Option<nat>)
    requires i <= DirectionCount
    decreases DirectionCount - i
  {
    if i == DirectionCount then None
    else if Free(Dir(start, i), mask) then Some(Dir(start, i))
    else FirstFree(mask, start, i + 1)
  }

  /** What an elf with neighbour mask `mask` proposes in a round whose directions start at `start`. */
  function Proposal(elf: XY, start: nat, mask: bv8): Option<XY>
  {
    if mask == 0 then None
    else match FirstFree(mask, start, 0)
      case None => None
      case Some(d) => Some(elf.Add(Step(d).0, Step(d).1))
  }

  /** Direction k after `start` is the first, from the i-th try on, whose test passes. */
  predicate FirstFreeAt(mask: bv8, start: nat, i: nat, k: nat)
  {
    && i <= k < DirectionCount && Free(Dir(start, k), mask)
    && forall j :: i <= j < k ==> !Free(Dir(start, j), mask)
  }

  lemma {:induction false} FirstFreeIff(mask: bv8, start: nat, i: nat, d: nat)
    requires i <= DirectionCount
    ensures FirstFree(mask, start, i) == Some(d) <==> exists k :: FirstFreeAt(mask, start, i, k) && d == Dir(start, k)
    decreases DirectionCount - i
  {
    if i < DirectionCount {
      FirstFreeIff(mask, start, i + 1, d);
      if Free(Dir(start, i), mask) {
        if exists k :: FirstFreeAt(mask, start, i, k) && d == Dir(start, k) {
          var k :| FirstFreeAt(mask, start, i, k) && d == Dir(start, k);
          assert k == i;
        }
        assert FirstFreeAt(mask, start, i, i);
      } else {
        if exists k :: FirstFreeAt(mask, start, i + 1, k) && d == Dir(start, k) {
          var k :| FirstFreeAt(mask, start, i + 1, k) && d == Dir(start, k);
          assert FirstFreeAt(mask, start, i, k);
        }
        if exists k :: FirstFreeAt(mask, start, i, k) && d == Dir(start, k) {
          var k :| FirstFreeAt(mask, start, i, k) && d == Dir(start, k);
          assert FirstFreeAt(mask, start, i + 1, k);
        }
      }
    }
  }

  /**
   * An elf proposes iff it has a neighbour and some direction is free; it then proposes the step in
   * the first free direction counted from `start`.
   */
  lemma ProposalIff(elf: XY, start: nat, mask: bv8, p: XY)
    ensures Proposal(elf, start, mask) == Some(p) <==>
      mask != 0 && exists k :: FirstFreeAt(mask, start, 0, k) && p == elf.Add(Step(Dir(start, k)).0, Step(Dir(start, k)).1)
  {
    if mask != 0 {
      var f := FirstFree(mask, start, 0);
      if f.Some? {
        FirstFreeIff(mask, start, 0, f.value);
      }
      if exists k :: FirstFreeAt(mask, start, 0, k) && p == elf.Add(Step(Dir(start, k)).0, Step(Dir(start, k)).1) {
        var k :| FirstFreeAt(mask, start, 0, k) && p == elf.Add(Step(Dir(start, k)).0, Step(Dir(start, k)).1);
        FirstFreeIff(mask, start, 0, Dir(start, k));
      }
    }
  }

  /** A proposed cell is a neighbouring cell that no elf stands on. */
  lemma ProposalVacant(elf: XY, start: nat, positions: set<XY>)
    requires Proposal(elf, start, Mask(elf, positions)).Some?
    ensures var p := Proposal(elf, start, Mask(elf, positions)).value;
      p != elf && p !in positions
  {
    var mask := Mask(elf, positions);
    var d := FirstFree(mask, start, 0).value;
    FirstFreeIff(mask, start, 0, d);
    FreeIff(elf, positions, d);
  }

  /** `Elves::propose`: no proposal without neighbours, else the first free direction from `start`. */
  method Propose(elf: XY, start: nat, positions: set<XY>) returns (r: Option<XY>)
    ensures r == Proposal(elf, start, Mask(elf, positions))
  {
    var neighbors := Neighbors(elf, positions);
    if neighbors == 0 {
      return None;
    }
    for i := 0 to DirectionCount
      invariant FirstFree(neighbors, start, 0) == FirstFree(neighbors, start, i)
    {
      var d := Dir(start, i);
      if d == North && NorthBits & neighbors == 0 {
        return Some(elf.Add(0, -1));
      } else if d == South && SouthBits & neighbors == 0 {
        return Some(elf.Add(0, 1));
      } else if d == West && WestBits & neighbors == 0 {
        return Some(elf.Add(-1, 0));
      } else if d == East && EastBits & neighbors == 0 {
        return Some(elf.Add(1, 0));
      }
    }
    return None;
  }

  // ------------------------------------------------------------------
  // A round
  // ------------------------------------------------------------------

  /** The cells elves stand on. */
  function Positions(layout: seq<XY>): set<XY>
  {
    set e | e in layout
  }

  /** Every elf's proposal, in layout order. */
  function Proposals(layout: seq<XY>, positions: set<XY>, start: nat): (r: seq<Option<XY>>)
    ensures |r| == |layout|
    decreases |layout|
  {
    if layout == [] then []
    else
      var elf := layout[|layout| - 1];
      Proposals(layout[..|layout| - 1], positions, start) + [Proposal(elf, start, Mask(elf, positions))]
  }

  lemma {:induction false} ProposalsAt(layout: seq<XY>, positions: set<XY>, start: nat, i: nat)
    requires i < |layout|
    ensures Proposals(layout, positions, start)[i] == Proposal(layout[i], start, Mask(layout[i], positions))
    decreases |layout|
  {
    if i < |layout| - 1 {
      ProposalsAt(layout[..|layout| - 1], positions, start, i);
    }
  }

  /** How many elves propose cell p. */
  function Count(next: seq<Option<XY>>, p: XY): nat
    decreases |next|
  {
    if next == [] then 0 else Count(next[..|next| - 1], p) + (if next[|next| - 1] == Some(p) then 1 else 0)
  }

  /** The proposal counts, built one proposal at a time as the `proposals` map of `perform_round` is. */
  function Tally(next: seq<Option<XY>>): map<XY, nat>
    decreases |next|
  {
    if next == [] then map[]
    else
      var m := Tally(next[..|next| - 1]);
      match next[|next| - 1]
        case None => m
        case Some(p) => m[p := if p in m then m[p] + 1 else 1]
  }

  /** The map holds exactly the proposed cells, each with the number of elves proposing it. */
  lemma {:induction false} TallyCount(next: seq<Option<XY>>, p: XY)
    ensures p in Tally(next) <==> Count(next, p) > 0
    ensures p in Tally(next) ==> Tally(next)[p] == Count(next, p)
    decreases |next|
  {
    if next != [] {
      TallyCount(next[..|next| - 1], p);
    }
  }

  lemma {:induction false} CountOne(next: seq<Option<XY>>, i: nat, p: XY)
    requires i < |next| && next[i] == Some(p)
    ensures Count(next, p) >= 1
    decreases |next|
  {
    if i < |next| - 1 {
      CountOne(next[..|next| - 1], i, p);
    }
  }

  lemma {:induction false} CountTwo(next: seq<Option<XY>>, i: nat, j: nat, p: XY)
    requires i < j < |next| && next[i] == Some(p) && next[j] == Some(p)
    ensures Count(next, p) >= 2
    decreases |next|
  {
    var init := next[..|next| - 1];
    if j == |next| - 1 {
      CountOne(init, i, p);
    } else {
      CountTwo(init, i, j, p);
    }
  }

  /** Elf i takes its proposed step: no other elf proposed the same cell. */
  predicate Taken(next: seq<Option<XY>>, i: nat)
    requires i < |next|
  {
    next[i].Some? && Count(next, next[i].value) == 1
  }

  /** The first k elves after the round: an elf whose proposal is taken stands on it, the others stay. */
  function Moved(layout: seq<XY>, next: seq<Option<XY>>, k: nat): (r: seq<XY>)
    requires |next| == |layout| && k <= |layout|
    ensures |r| == k
    decreases k
  {
    if k == 0 then []
    else Moved(layout, next, k - 1) + [if Taken(next, k - 1) then next[k - 1].value else layout[k - 1]]
  }

  lemma {:induction false} MovedAt(layout: seq<XY>, next: seq<Option<XY>>, k: nat, i: nat)
    requires |next| == |layout| && i < k <= |layout|
    ensures Moved(layout, next, k)[i] == if Taken(next, i) then next[i].value else layout[i]
    decreases k
  {
    if i < k - 1 {
      MovedAt(layout, next, k - 1, i);
    }
  }

  /** The layout after one round whose directions start at `start`. */
  function NextLayout(layout: seq<XY>, start: nat): (r: seq<XY>)
    ensures |r| == |layout|
  {
    var next := Proposals(layout, Positions(layout), start);
    Moved(layout, next, |layout|)
  }

  /** Elf i after the round: on its proposed cell if the proposal is taken, where it was otherwise. */
  lemma NextAt(layout: seq<XY>, start: nat, i: nat)
    requires i < |layout|
    ensures var positions := Positions(layout);
      var next := Proposals(layout, positions, start);
      && next[i] == Proposal(layout[i], start, Mask(layout[i], positions))
      && NextLayout(layout, start)[i] == if Taken(next, i) then next[i].value else layout[i]
  {
    ProposalsAt(layout, Positions(layout), start, i);
    MovedAt(layout, Proposals(layout, Positions(layout), start), |layout|, i);
  }

  /** Some elf moves in a round exactly when some elf's proposal is its own. */
  lemma MovedIff(layout: seq<XY>, start: nat)
    ensures NextLayout(layout, start) != layout ==> exists i :: 0 <= i < |layout| && Taken(Proposals(layout, Positions(layout), start), i)
    ensures (exists i :: 0 <= i < |layout| && Taken(Proposals(layout, Positions(layout), start), i)) ==> NextLayout(layout, start) != layout
  {
    var positions := Positions(layout);
    var next := Proposals(layout, positions, start);
    var r := NextLayout(layout, start);
    forall i | 0 <= i < |layout|
      ensures r[i] != layout[i] <==> Taken(next, i)
    {
      NextAt(layout, start, i);
      if Taken(next, i) {
        ProposalVacant(layout[i], start, positions);
      }
    }
    if r != layout {
      var i :| 0 <= i < |layout| && r[i] != layout[i];
      assert Taken(next, i);
      assert exists j :: 0 <= j < |layout| && Taken(next, j);
    } else {
      forall i | 0 <= i < |layout| ensures !Taken(next, i) {
        assert r[i] == layout[i];
      }
    }
  }

  /** A round keeps the elves on pairwise distinct cells. */
  lemma RoundKeepsDistinct(layout: seq<XY>, start: nat)
    requires Distinct(layout)
    ensures Distinct(NextLayout(layout, start))
  {
    var positions := Positions(layout);
    var next := Proposals(layout, positions, start);
    var r := NextLayout(layout, start);
    forall i, j | 0 <= i < j < |r|
      ensures r[i] != r[j]
    {
      NextAt(layout, start, i);
      NextAt(layout, start, j);
      if Taken(next, i) && Taken(next, j) {
        if next[i] == next[j] {
          CountTwo(next, i, j, next[i].value);
        }
      } else if Taken(next, i) {
        ProposalVacant(layout[i], start, positions);
        assert layout[j] in positions;
      } else if Taken(next, j) {
        ProposalVacant(layout[j], start, positions);
        assert layout[i] in positions;
      }
    }
  }

  lemma ProposalsSnoc(layout: seq<XY>, positions: set<XY>, start: nat, i: nat)
    requires i < |layout|
    ensures Proposals(layout[..i + 1], positions, start)
      == Proposals(layout[..i], positions, start) + [Proposal(layout[i], start, Mask(layout[i], positions))]
  {
    assert layout[..i + 1][..i] == layout[..i];
  }

  // ------------------------------------------------------------------
  // Rounds
  // ------------------------------------------------------------------

  /** A round, as a function of the layout and the round's first direction. */
  type Rule = (seq<XY>, nat) -> seq<XY>

  /** The rule every round of the elves follows. */
  const Round: Rule := (layout: seq<XY>, start: nat) => NextLayout(layout, start)

  /** `perform_rounds`: at most n rounds starting with direction `start`, stopping after the first in which no elf moves. */
  function Settle(round: Rule, layout: seq<XY>, start: nat, n: nat): seq<XY>
    decreases n
  {
    if n == 0 then layout
    else
      var next := round(layout, start);
      if next == layout then layout else Settle(round, next, start + 1, n - 1)
  }

  /** k rounds, whether or not the elves move. */
  function Evolve(round: Rule, layout: seq<XY>, k: nat): seq<XY>
  {
    if k == 0 then layout else round(Evolve(round, layout, k - 1), k - 1)
  }

  /** Round k (counted from 0) moves no elf. */
  predicate Still(round: Rule, layout: seq<XY>, k: nat)
  {
    round(Evolve(round, layout, k), k) == Evolve(round, layout, k)
  }

  lemma EvolveStep(round: Rule, l0: seq<XY>, k: nat, prev: seq<XY>)
    requires prev == Evolve(round, l0, k)
    ensures Evolve(round, l0, k + 1) == round(prev, k)
    ensures Still(round, l0, k) <==> round(prev, k) == prev
  {
  }

  lemma {:induction false} SettleDistinct(round: Rule, layout: seq<XY>, start: nat, n: nat)
    requires forall l, s :: Distinct(l) ==> Distinct(round(l, s))
    requires Distinct(layout)
    ensures Distinct(Settle(round, layout, start, n))
    decreases n
  {
    if n > 0 {
      SettleDistinct(round, round(layout, start), start + 1, n - 1);
    }
  }

  /** Rounds keep the elves on pairwise distinct cells. */
  lemma RoundsKeepDistinct(layout: seq<XY>, n: nat)
    requires Distinct(layout)
    ensures Distinct(Settle(Round, layout, 0, n))
  {
    forall l, s | Distinct(l) ensures Distinct(Round(l, s)) {
      RoundKeepsDistinct(l, s);
    }
    SettleDistinct(Round, layout, 0, n);
  }

  /** While every round moves some elf, stopping early changes nothing: n rounds from round i on are just the rounds. */
  lemma {:induction false} SettleEvolve(round: Rule, layout: seq<XY>, i: nat, n: nat)
    requires forall k :: i <= k < i + n ==> !Still(round, layout, k)
    ensures Settle(round, Evolve(round, layout, i), i, n) == Evolve(round, layout, i + n)
    decreases n
  {
    if n > 0 {
      assert !Still(round, layout, i);
      SettleEvolve(round, layout, i + 1, n - 1);
    }
  }

  // ------------------------------------------------------------------
  // The bounding box
  // ------------------------------------------------------------------

  datatype Box = Box(minX: int, maxX: int, minY: int, maxY: int)

  function Min(a: int, b: int): int { if a <= b then a else b }
  function Max(a: int, b: int): int { if a >= b then a else b }

  /** The box `bounds` computes: folds of min and max over the elves, from i32::MAX and i32::MIN. */
  function BoundsOf(layout: seq<XY>): Box
    decreases |layout|
  {
    if layout == [] then Box(I32Max, I32Min, I32Max, I32Min)
    else
      var b := BoundsOf(layout[..|layout| - 1]);
      var p := layout[|layout| - 1];
      Box(Min(b.minX, p.x), Max(b.maxX, p.x), Min(b.minY, p.y), Max(b.maxY, p.y))
  }

  predicate Contains(b: Box, p: XY)
  {
    b.minX <= p.x <= b.maxX && b.minY <= p.y <= b.maxY
  }

  /**
   * The box holds every elf, and each side is either its starting value or touched by an elf: the
   * smallest box around the elves (for elves within i32).
   */
  lemma {:induction false} BoundsTight(layout: seq<XY>)
    ensures var b := BoundsOf(layout);
      && (forall k :: 0 <= k < |layout| ==> Contains(b, layout[k]))
      && b.minX <= I32Max && b.maxX >= I32Min && b.minY <= I32Max && b.maxY >= I32Min
      && (b.minX == I32Max || exists k :: 0 <= k < |layout| && layout[k].x == b.minX)
      && (b.maxX == I32Min || exists k :: 0 <= k < |layout| && layout[k].x == b.maxX)
      && (b.minY == I32Max || exists k :: 0 <= k < |layout| && layout[k].y == b.minY)
      && (b.maxY == I32Min || exists k :: 0 <= k < |layout| && layout[k].y == b.maxY)
    decreases |layout|
  {
    if layout != [] {
      var init := layout[..|layout| - 1];
      BoundsTight(init);
      assert forall k :: 0 <= k < |init| ==> init[k] == layout[k];
    }
  }

  /** The number of values lo..=hi: `RangeInclusive::count`. */
  function RangeCount(lo: int, hi: int): nat
  {
    if lo <= hi then hi - lo + 1 else 0
  }

  /** `empty_space_count`: box area minus the number of elves; usize subtraction panics below zero. */
  function EmptySpace(layout: seq<XY>): Result<nat>
  {
    var b := BoundsOf(layout);
    var area := RangeCount(b.minX, b.maxX) * RangeCount(b.minY, b.maxY);
    if area < |layout| then Panic("attempt to subtract with overflow") else Ok(area - |layout|)
  }

  /** The cells of a box. */
  function Cells(b: Box): set<XY>
  {
    set x, y | b.minX <= x <= b.maxX && b.minY <= y <= b.maxY :: XY(x, y)
  }

  lemma {:induction false} RowCells(x0: int, x1: int, y: int)
    ensures |set x | x0 <= x <= x1 :: XY(x, y)| == RangeCount(x0, x1)
    decreases x1 - x0
  {
    if x0 <= x1 {
      RowCells(x0, x1 - 1, y);
      assert (set x | x0 <= x <= x1 :: XY(x, y)) == (set x | x0 <= x <= x1 - 1 :: XY(x, y)) + {XY(x1, y)};
    } else {
      assert (set x | x0 <= x <= x1 :: XY(x, y)) == {};
    }
  }

  lemma CellsIn(b: Box, p: XY)
    ensures p in Cells(b) <==> Contains(b, p)
  {
    if Contains(b, p) {
      assert p == XY(p.x, p.y);
    }
  }

  lemma {:induction false} CellsCount(b: Box)
    ensures |Cells(b)| == RangeCount(b.minX, b.maxX) * RangeCount(b.minY, b.maxY)
    decreases b.maxY - b.minY
  {
    if b.minY <= b.maxY {
      var top := b.(maxY := b.maxY - 1);
      var row := set x | b.minX <= x <= b.maxX :: XY(x, b.maxY);
      CellsCount(top);
      RowCells(b.minX, b.maxX, b.maxY);
      forall p ensures p in Cells(b) <==> p in Cells(top) || p in row {
        CellsIn(b, p);
        CellsIn(top, p);
        if p.y == b.maxY && b.minX <= p.x <= b.maxX {
          assert p == XY(p.x, b.maxY);
        }
      }
      assert Cells(b) == Cells(top) + row;
      assert Cells(top) * row == {} by {
        forall p | p in row ensures p !in Cells(top) {
          CellsIn(top, p);
        }
      }
      assert |Cells(b)| == |Cells(top)| + |row|;
      var w, h := RangeCount(b.minX, b.maxX), RangeCount(b.minY, b.maxY);
      assert RangeCount(top.minY, top.maxY) == h - 1;
      MulPred(w, h);
    } else {
      forall p ensures p !in Cells(b) {
        CellsIn(b, p);
      }
      assert Cells(b) == {};
    }
  }

  lemma {:induction false} DistinctPositions(layout: seq<XY>)
    requires Distinct(layout)
    ensures |Positions(layout)| == |layout|
    decreases |layout|
  {
    if layout != [] {
      var init := layout[..|layout| - 1];
      DistinctPositions(init);
      assert Positions(layout) == Positions(init) + {layout[|layout| - 1]};
    }
  }

  lemma ElvesInBox(layout: seq<XY>)
    ensures Positions(layout) <= Cells(BoundsOf(layout))
  {
    var b := BoundsOf(layout);
    BoundsTight(layout);
    forall p | p in Positions(layout) ensures p in Cells(b) {
      var k :| 0 <= k < |layout| && layout[k] == p;
      assert Contains(b, layout[k]);
      CellsIn(b, p);
    }
  }

  /** With the elves on distinct cells the subtraction never underflows: the count is the box's cells without an elf. */
  lemma EmptySpaceCells(layout: seq<XY>)
    requires Distinct(layout)
    ensures EmptySpace(layout) == Ok(|Cells(BoundsOf(layout)) - Positions(layout)|)
  {
    var cells, elves := Cells(BoundsOf(layout)), Positions(layout);
    ElvesInBox(layout);
    CellsCount(BoundsOf(layout));
    DistinctPositions(layout);
    assert cells == (cells - elves) + elves;
    assert (cells - elves) * elves == {};
  }

  /**
   * What the second pass of `perform_round` finds for elf i: its proposal, if any, is counted, and
   * the count is one exactly when the proposal is taken, which moves the elf.
   */
  lemma Settles(elves: seq<XY>, start: nat, proposals: map<XY, nat>, i: nat)
    requires i < |elves| && proposals == Tally(Proposals(elves, Positions(elves), start))
    ensures var next := Proposals(elves, Positions(elves), start);
      && (next[i].Some? ==> next[i].value in proposals && (proposals[next[i].value] == 1 <==> Taken(next, i)))
      && NextLayout(elves, start)[i] == (if Taken(next, i) then next[i].value else elves[i])
      && (Taken(next, i) ==> next[i].value != elves[i])
  {
    var positions := Positions(elves);
    var next := Proposals(elves, positions, start);
    NextAt(elves, start, i);
    if next[i].Some? {
      TallyCount(next, next[i].value);
      CountOne(next, i, next[i].value);
      ProposalVacant(elves[i], start, positions);
    }
  }

  /** The first pass of `perform_round`: every elf's proposal, in order, and the count of each proposed cell. */
  method ProposeAll(elves: seq<XY>, positions: set<XY>, start: nat) returns (elfNext: seq<Option<XY>>, proposals: map<XY, nat>)
    ensures elfNext == Proposals(elves, positions, start)
    ensures proposals == Tally(elfNext)
  {
    elfNext := [];
    proposals := map[];
    for i := 0 to |elves|
      invariant elfNext == Proposals(elves[..i], positions, start)
      invariant proposals == Tally(elfNext)
    {
      var proposal := Propose(elves[i], start, positions);
      ProposalsSnoc(elves, positions, start, i);
      if proposal.Some? {
        var p := proposal.value;
        proposals := proposals[p := if p in proposals then proposals[p] + 1 else 1];
      }
      elfNext := elfNext + [proposal];
      assert elfNext[..|elfNext| - 1] == Proposals(elves[..i], positions, start);
    }
    assert elves[..|elves|] == elves;
  }

  class Elves {
    var layout: seq<XY>

    constructor(layout: seq<XY>)
      ensures this.layout == layout
    {
      this.layout := layout;
    }

    /** `Elves::bounds`. */
    method Bounds() returns (b: Box)
      ensures b == BoundsOf(layout)
    {
      b := Box(I32Max, I32Min, I32Max, I32Min);
      for i := 0 to |layout|
        invariant b == BoundsOf(layout[..i])
      {
        var p := layout[i];
        b := Box(Min(b.minX, p.x), Max(b.maxX, p.x), Min(b.minY, p.y), Max(b.maxY, p.y));
        assert layout[..i + 1][..i] == layout[..i];
      }
      assert layout[..|layout|] == layout;
    }

    /** `Elves::empty_space_count`. */
    method EmptySpaceCount() returns (r: Result<nat>)
      ensures r == EmptySpace(layout)
    {
      var b := Bounds();
      var area := RangeCount(b.minX, b.maxX) * RangeCount(b.minY, b.maxY);
      if area < |layout| {
        return Panic("attempt to subtract with overflow");
      }
      return Ok(area - |layout|);
    }

    /**
     * `Elves::perform_round`: collect every proposal and count them per cell, then, walking the
     * elves from the back, move each elf whose proposed cell was proposed once.
     */
    method PerformRound(start: nat) returns (moved: bool)
      modifies this
      ensures layout == Round(old(layout), start)
      ensures moved <==> layout != old(layout)
    {
      var positions := Positions(layout);
      var elfNext, proposals := ProposeAll(layout, positions, start);
      moved := Commit(start, elfNext, proposals);
    }

    /** The second pass of `perform_round`: pop the proposals from the back and move every elf whose cell was proposed once. */
    method Commit(ghost start: nat, elfNext: seq<Option<XY>>, proposals: map<XY, nat>) returns (moved: bool)
      modifies this
      requires elfNext == Proposals(layout, Positions(layout), start) && proposals == Tally(elfNext)
      ensures layout == NextLayout(old(layout), start)
      ensures moved <==> layout != old(layout)
    {
      ghost var next := elfNext;
      ghost var elves := layout;
      ghost var after := NextLayout(elves, start);
      var current := layout;
      var elfNext := elfNext;
      moved := false;
      var i := |current|;
      while i > 0
        invariant 0 <= i <= |current| == |elves| && elfNext == next[..i]
        invariant forall k :: 0 <= k < i ==> current[k] == elves[k]
        invariant forall k :: i <= k < |current| ==> current[k] == after[k]
        invariant moved <==> exists k :: i <= k < |current| && current[k] != elves[k]
      {
        i := i - 1;
        var proposal := elfNext[|elfNext| - 1];
        elfNext := elfNext[..|elfNext| - 1];
        Settles(elves, start, proposals, i);
        if proposal.Some? {
          var p := proposal.value;
          if proposals[p] == 1 {
            current := current[i := p];
            moved := true;
          }
        }
      }
      layout := current;
    }

    /** `Elves::perform_rounds`. */
    method PerformRounds(rounds: nat)
      modifies this
      ensures layout == Settle(Round, old(layout), 0, rounds)
    {
      for i := 0 to rounds
        invariant Settle(Round, old(layout), 0, rounds) == Settle(Round, layout, i, rounds - i)
      {
        var moved := PerformRound(i);
        if !moved {
          break;
        }
      }
    }

    /**
     * `Elves::run`: rounds until one moves no elf, returning that round's number counted from 1;
     * None when `fuel` rounds all moved some elf.
     */
    method Run(fuel: nat) returns (r: Option<nat>)
      modifies this
      ensures r.Some? ==> && r.value >= 1 && Still(Round, old(layout), r.value - 1)
                          && (forall k :: 0 <= k < r.value - 1 ==> !Still(Round, old(layout), k))
                          && layout == Evolve(Round, old(layout), r.value - 1)
      ensures r.None? ==> forall k :: 0 <= k < fuel ==> !Still(Round, old(layout), k)
    {
      var round := 0;
      while round < fuel
        invariant round <= fuel && layout == Evolve(Round, old(layout), round)
        invariant forall k :: 0 <= k < round ==> !Still(Round, old(layout), k)
      {
        ghost var prev := layout;
        var moved := PerformRound(round);
        EvolveStep(Round, old(layout), round, prev);
        if !moved {
          return Some(round + 1);
        }
        round := round + 1;
      }
      return None;
    }
  }

  /** part1: ten rounds on a copy, then the empty cells of the bounding box. */
  method Part1(elves: Elves) returns (r: Result<nat>)
    ensures r == EmptySpace(Settle(Round, elves.layout, 0, 10))
  {
    var copy := new Elves(elves.layout);
    copy.PerformRounds(10);
    r := copy.EmptySpaceCount();
  }

  /** part2: the number of the first round in which no elf moves, on a copy. */
  method Part2(elves: Elves, fuel: nat) returns (r: Option<nat>)
    ensures r.Some? ==> && r.value >= 1 && Still(Round, elves.layout, r.value - 1)
                        && forall k :: 0 <= k < r.value - 1 ==> !Still(Round, elves.layout, k)
  {
    var copy := new Elves(elves.layout);
    r := copy.Run(fuel);
  }
}
