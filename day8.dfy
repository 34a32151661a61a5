/**
 * Day 8, treetop tree house: a square grid of tree heights 0..9. A tree is visible when every tree
 * between it and some edge of the grid is shorter (part 1 counts them); its scenic score is the
 * product of its four viewing distances (part 2 takes the largest).
 *
 * Both tables are filled by one sweep per row index i and step j that serves the four directions at
 * once: left-to-right along row i, top-to-bottom along column i, right-to-left along row size-1-i and
 * bottom-to-top along column size-1-i. A "line" below is the list of trees between a cell and one
 * edge, listed from the edge toward the cell: the order in which the sweep meets them.
 */
module Day8 {
  import opened Wrappers
  import opened Text

  /** A square grid of single-digit heights. */
  predicate IsGrid(t: seq<seq<int>>)
  {
    forall r :: 0 <= r < |t| ==> |t[r]| == |t| && forall c :: 0 <= c < |t| ==> 0 <= t[r][c] <= 9
  }

  function Min(a: int, b: int): int { if a <= b then a else b }
  function Max(a: int, b: int): int { if a >= b then a else b }

  // ------------------------------------------------------------------
  // Lines of sight
  // ------------------------------------------------------------------

  /** The first k trees of row r from the left edge. */
  function LeftLine(t: seq<seq<int>>, r: nat, k: nat): (s: seq<int>)
    requires IsGrid(t) && r < |t| && k <= |t|
    ensures |s| == k && forall q :: 0 <= q < k ==> s[q] == t[r][q]
  {
    t[r][..k]
  }

  /** The first k trees of row r from the right edge. */
  function RightLine(t: seq<seq<int>>, r: nat, k: nat): (s: seq<int>)
    requires IsGrid(t) && r < |t| && k <= |t|
    ensures |s| == k && forall q :: 0 <= q < k ==> s[q] == t[r][|t| - 1 - q]
  {
    seq(k, q requires 0 <= q < k => t[r][|t| - 1 - q])
  }

  /** The first k trees of column c from the top edge. */
  function UpLine(t: seq<seq<int>>, c: nat, k: nat): (s: seq<int>)
    requires IsGrid(t) && c < |t| && k <= |t|
    ensures |s| == k && forall q :: 0 <= q < k ==> s[q] == t[q][c]
  {
    seq(k, q requires 0 <= q < k => t[q][c])
  }

  /** The first k trees of column c from the bottom edge. */
  function DownLine(t: seq<seq<int>>, c: nat, k: nat): (s: seq<int>)
    requires IsGrid(t) && c < |t| && k <= |t|
    ensures |s| == k && forall q :: 0 <= q < k ==> s[q] == t[|t| - 1 - q][c]
  {
    seq(k, q requires 0 <= q < k => t[|t| - 1 - q][c])
  }

  /** The tallest tree of a line, or -1 for an empty line. */
  function MaxOf(s: seq<int>): (m: int)
    ensures m >= -1
    decreases |s|
  {
    if s == [] then -1 else Max(MaxOf(s[..|s| - 1]), s[|s| - 1])
  }

  lemma {:induction false} MaxOfMeans(s: seq<int>, x: int)
    ensures x > MaxOf(s) <==> x > -1 && forall q :: 0 <= q < |s| ==> s[q] < x
    decreases |s|
  {
    if s != [] {
      var init := s[..|s| - 1];
      MaxOfMeans(init, x);
      assert forall q :: 0 <= q < |init| ==> s[q] == init[q];
    }
  }

  lemma MaxOfSnoc(s: seq<int>, x: int)
    ensures MaxOf(s + [x]) == Max(MaxOf(s), x)
  {
    assert (s + [x])[..|s|] == s;
  }

  // ------------------------------------------------------------------
  // compute_max
  // ------------------------------------------------------------------

  /** The sweep has served the left-to-right direction of cell (r, c) before step (i, j). */
  predicate DoneL(i: int, j: int, r: int, c: int) { r < i || (r == i && c < j) }
  predicate DoneU(i: int, j: int, r: int, c: int) { c < i || (c == i && r < j) }
  predicate DoneR(n: int, i: int, j: int, r: int, c: int) { r > n - 1 - i || (r == n - 1 - i && c > n - 1 - j) }
  predicate DoneD(n: int, i: int, j: int, r: int, c: int) { c > n - 1 - i || (c == n - 1 - i && r > n - 1 - j) }

  /** A direction's contribution to the entry: its line maximum once served, `i8::MAX` before. */
  function Part(done: bool, v: int): int { if done then v else 127 }

  /** The `min` of the four contributions, from `i8::MAX`. */
  function Fold4(dl: bool, du: bool, dr: bool, dd: bool, vl: int, vu: int, vr: int, vd: int): int
  {
    Min(127, Min(Min(Part(dl, vl), Part(du, vu)), Min(Part(dr, vr), Part(dd, vd))))
  }

  /** The table entry once the directions flagged have been folded in by `min`, from `i8::MAX`. */
  function MaxEntry(t: seq<seq<int>>, r: nat, c: nat, dl: bool, du: bool, dr: bool, dd: bool): int
    requires IsGrid(t) && r < |t| && c < |t|
  {
    var n := |t|;
    Fold4(dl, du, dr, dd, MaxOf(LeftLine(t, r, c)), MaxOf(UpLine(t, c, r)),
          MaxOf(RightLine(t, r, n - 1 - c)), MaxOf(DownLine(t, c, n - 1 - r)))
  }

  /**
   * What the finished table holds for a cell: the smallest, over the four directions, of the tallest
   * tree strictly between the cell and that edge (-1 when the cell is on that edge).
   */
  function Sight(t: seq<seq<int>>, r: nat, c: nat): int
    requires IsGrid(t) && r < |t| && c < |t|
  {
    MaxEntry(t, r, c, true, true, true, true)
  }

  lemma RightBelow(t: seq<seq<int>>, r: nat, c: nat, x: int)
    requires IsGrid(t) && r < |t| && c < |t|
    ensures x > MaxOf(RightLine(t, r, |t| - 1 - c)) <==> x > -1 && forall q :: c < q < |t| ==> t[r][q] < x
  {
    var n, right := |t|, RightLine(t, r, |t| - 1 - c);
    MaxOfMeans(right, x);
    if forall q :: 0 <= q < |right| ==> right[q] < x {
      forall q | c < q < n ensures t[r][q] < x { assert right[n - 1 - q] == t[r][q]; }
    }
  }

  lemma DownBelow(t: seq<seq<int>>, r: nat, c: nat, x: int)
    requires IsGrid(t) && r < |t| && c < |t|
    ensures x > MaxOf(DownLine(t, c, |t| - 1 - r)) <==> x > -1 && forall q :: r < q < |t| ==> t[q][c] < x
  {
    var n, down := |t|, DownLine(t, c, |t| - 1 - r);
    MaxOfMeans(down, x);
    if forall q :: 0 <= q < |down| ==> down[q] < x {
      forall q | r < q < n ensures t[q][c] < x { assert down[n - 1 - q] == t[q][c]; }
    }
  }

  /** A tree is visible exactly when, along some direction, every tree up to the edge is shorter. */
  lemma SightMeans(t: seq<seq<int>>, r: nat, c: nat)
    requires IsGrid(t) && r < |t| && c < |t|
    ensures t[r][c] > Sight(t, r, c) <==>
              (forall q :: 0 <= q < c ==> t[r][q] < t[r][c])
              || (forall q :: 0 <= q < r ==> t[q][c] < t[r][c])
              || (forall q :: c < q < |t| ==> t[r][q] < t[r][c])
              || (forall q :: r < q < |t| ==> t[q][c] < t[r][c])
  {
    var x := t[r][c];
    MaxOfMeans(LeftLine(t, r, c), x);
    MaxOfMeans(UpLine(t, c, r), x);
    RightBelow(t, r, c, x);
    DownBelow(t, r, c, x);
  }

  /** On the border some line is empty, so the entry is -1 (every border tree is visible). */
  lemma SightOnBorder(t: seq<seq<int>>, r: nat, c: nat)
    requires IsGrid(t) && r < |t| && c < |t|
    requires r == 0 || c == 0 || r == |t| - 1 || c == |t| - 1
    ensures Sight(t, r, c) == -1
  {
    var n := |t|;
    MaxOfMeans(LeftLine(t, r, c), -1);
    MaxOfMeans(UpLine(t, c, r), -1);
    MaxOfMeans(RightLine(t, r, n - 1 - c), -1);
    MaxOfMeans(DownLine(t, c, n - 1 - r), -1);
  }

  /**
   * The direction flags of cell (r, c) at step (i, j) after the first s of the step's four updates
   * (left-to-right, top-to-bottom, right-to-left, bottom-to-top) have been made.
   */
  predicate FlagL(n: int, i: int, j: int, s: nat, r: int, c: int) { DoneL(i, if s >= 1 then j + 1 else j, r, c) }
  predicate FlagU(n: int, i: int, j: int, s: nat, r: int, c: int) { DoneU(i, if s >= 2 then j + 1 else j, r, c) }
  predicate FlagR(n: int, i: int, j: int, s: nat, r: int, c: int) { DoneR(n, i, if s >= 3 then j + 1 else j, r, c) }
  predicate FlagD(n: int, i: int, j: int, s: nat, r: int, c: int) { DoneD(n, i, if s >= 4 then j + 1 else j, r, c) }

  /** An n-by-n table. */
  predicate IsSquare(m: seq<seq<int>>, n: nat)
  {
    |m| == n && forall r :: 0 <= r < n ==> |m[r]| == n
  }

  /** The table invariant of `compute_max` at step (i, j) after s updates. */
  ghost predicate MaxTable(t: seq<seq<int>>, maxs: seq<seq<int>>, i: int, j: int, s: nat)
    requires IsGrid(t)
  {
    var n := |t|;
    IsSquare(maxs, n) &&
    forall r, c :: 0 <= r < n && 0 <= c < n ==>
      maxs[r][c] == MaxEntry(t, r, c, FlagL(n, i, j, s, r, c), FlagU(n, i, j, s, r, c), FlagR(n, i, j, s, r, c), FlagD(n, i, j, s, r, c))
  }

  /** The cell the s-th update of step (i, j) writes. */
  function StageCell(n: nat, i: nat, j: nat, s: nat): (nat, nat)
    requires i < n && j < n && s < 4
  {
    if s == 0 then (i, j) else if s == 1 then (j, i) else if s == 2 then (n - 1 - i, n - 1 - j) else (n - 1 - j, n - 1 - i)
  }

  /** The line whose running maximum the s-th update of step (i, j) uses. */
  function StageLine(t: seq<seq<int>>, i: nat, j: nat, s: nat): seq<int>
    requires IsGrid(t) && i < |t| && j <= |t| && s < 4
  {
    var n := |t|;
    if s == 0 then LeftLine(t, i, j) else if s == 1 then UpLine(t, i, j)
    else if s == 2 then RightLine(t, n - 1 - i, j) else DownLine(t, n - 1 - i, j)
  }

  /** The s-th update of step (i, j) leaves the flags of every other cell as they were. */
  lemma StageFlipsOff(n: nat, i: nat, j: nat, s: nat, a: nat, b: nat)
    requires i < n && j < n && s < 4 && a < n && b < n && (a, b) != StageCell(n, i, j, s)
    ensures FlagL(n, i, j, s + 1, a, b) == FlagL(n, i, j, s, a, b) && FlagU(n, i, j, s + 1, a, b) == FlagU(n, i, j, s, a, b)
    ensures FlagR(n, i, j, s + 1, a, b) == FlagR(n, i, j, s, a, b) && FlagD(n, i, j, s + 1, a, b) == FlagD(n, i, j, s, a, b)
  {
  }

  /** The s-th update of step (i, j) turns on the s-th flag of its own cell, which was off, and no other. */
  lemma StageFlipsAt(n: nat, i: nat, j: nat, s: nat, a: nat, b: nat)
    requires i < n && j < n && s < 4 && (a, b) == StageCell(n, i, j, s)
    ensures FlagL(n, i, j, s + 1, a, b) == (FlagL(n, i, j, s, a, b) || s == 0) && !(s == 0 && FlagL(n, i, j, s, a, b))
    ensures FlagU(n, i, j, s + 1, a, b) == (FlagU(n, i, j, s, a, b) || s == 1) && !(s == 1 && FlagU(n, i, j, s, a, b))
    ensures FlagR(n, i, j, s + 1, a, b) == (FlagR(n, i, j, s, a, b) || s == 2) && !(s == 2 && FlagR(n, i, j, s, a, b))
    ensures FlagD(n, i, j, s + 1, a, b) == (FlagD(n, i, j, s, a, b) || s == 3) && !(s == 3 && FlagD(n, i, j, s, a, b))
  {
  }

  /** Serving one more direction folds its value into the `min`. */
  lemma Fold4Flip(dl: bool, du: bool, dr: bool, dd: bool, vl: int, vu: int, vr: int, vd: int, s: nat)
    requires s < 4
    requires s == 0 ==> !dl
    requires s == 1 ==> !du
    requires s == 2 ==> !dr
    requires s == 3 ==> !dd
    ensures Fold4(dl || s == 0, du || s == 1, dr || s == 2, dd || s == 3, vl, vu, vr, vd)
            == Min(Fold4(dl, du, dr, dd, vl, vu, vr, vd), if s == 0 then vl else if s == 1 then vu else if s == 2 then vr else vd)
  {
  }

  /** The s-th line of cell (r, c): left, up, right, down. */
  function CellLine(t: seq<seq<int>>, r: nat, c: nat, s: nat): seq<int>
    requires IsGrid(t) && r < |t| && c < |t| && s < 4
  {
    var n := |t|;
    if s == 0 then LeftLine(t, r, c) else if s == 1 then UpLine(t, c, r)
    else if s == 2 then RightLine(t, r, n - 1 - c) else DownLine(t, c, n - 1 - r)
  }

  /** Turning on the s-th flag of cell (r, c) folds the maximum of its s-th line into the entry. */
  lemma MaxEntryFlip(t: seq<seq<int>>, r: nat, c: nat, dl: bool, du: bool, dr: bool, dd: bool, s: nat)
    requires IsGrid(t) && r < |t| && c < |t| && s < 4
    requires s == 0 ==> !dl
    requires s == 1 ==> !du
    requires s == 2 ==> !dr
    requires s == 3 ==> !dd
    ensures MaxEntry(t, r, c, dl || s == 0, du || s == 1, dr || s == 2, dd || s == 3)
            == Min(MaxEntry(t, r, c, dl, du, dr, dd), MaxOf(CellLine(t, r, c, s)))
  {
    var n := |t|;
    var vl, vu := MaxOf(LeftLine(t, r, c)), MaxOf(UpLine(t, c, r));
    var vr, vd := MaxOf(RightLine(t, r, n - 1 - c)), MaxOf(DownLine(t, c, n - 1 - r));
    assert MaxOf(CellLine(t, r, c, s)) == if s == 0 then vl else if s == 1 then vu else if s == 2 then vr else vd;
    assert MaxEntry(t, r, c, dl, du, dr, dd) == Fold4(dl, du, dr, dd, vl, vu, vr, vd);
    assert MaxEntry(t, r, c, dl || s == 0, du || s == 1, dr || s == 2, dd || s == 3)
           == Fold4(dl || s == 0, du || s == 1, dr || s == 2, dd || s == 3, vl, vu, vr, vd);
    Fold4Flip(dl, du, dr, dd, vl, vu, vr, vd, s);
  }

  /** Turning on the s-th flag of the s-th update's cell (a, b) folds that line's maximum into the entry. */
  lemma EntryFlip(t: seq<seq<int>>, i: nat, j: nat, s: nat, a: nat, b: nat)
    requires IsGrid(t) && i < |t| && j < |t| && s < 4 && (a, b) == StageCell(|t|, i, j, s)
    ensures MaxEntry(t, a, b, FlagL(|t|, i, j, s + 1, a, b), FlagU(|t|, i, j, s + 1, a, b),
                     FlagR(|t|, i, j, s + 1, a, b), FlagD(|t|, i, j, s + 1, a, b))
            == Min(MaxEntry(t, a, b, FlagL(|t|, i, j, s, a, b), FlagU(|t|, i, j, s, a, b),
                            FlagR(|t|, i, j, s, a, b), FlagD(|t|, i, j, s, a, b)),
                   MaxOf(StageLine(t, i, j, s)))
  {
    var n := |t|;
    StageFlipsAt(n, i, j, s, a, b);
    MaxEntryFlip(t, a, b, FlagL(n, i, j, s, a, b), FlagU(n, i, j, s, a, b), FlagR(n, i, j, s, a, b), FlagD(n, i, j, s, a, b), s);
    StageValue(t, i, j, s, a, b);
  }

  /** The line the s-th update uses is the s-th line of the cell it writes. */
  lemma StageValue(t: seq<seq<int>>, i: nat, j: nat, s: nat, a: nat, b: nat)
    requires IsGrid(t) && i < |t| && j < |t| && s < 4 && (a, b) == StageCell(|t|, i, j, s)
    ensures StageLine(t, i, j, s) == CellLine(t, a, b, s)
  {
    var n := |t|;
    if s == 0 {
      assert (a, b) == (i, j);
    } else if s == 1 {
      assert (a, b) == (j, i);
    } else if s == 2 {
      assert a == n - 1 - i && n - 1 - b == j;
    } else {
      assert b == n - 1 - i && n - 1 - a == j;
    }
  }

  /** `maxs[r][c] = maxs[r][c].min(m)`. */
  function Lower(maxs: seq<seq<int>>, r: nat, c: nat, m: int): (maxs': seq<seq<int>>)
    requires r < |maxs| && c < |maxs[r]|
    ensures |maxs'| == |maxs| && forall a :: 0 <= a < |maxs| ==> |maxs'[a]| == |maxs[a]|
    ensures maxs'[r][c] == Min(maxs[r][c], m)
    ensures forall a, b :: 0 <= a < |maxs| && 0 <= b < |maxs[a]| && (a, b) != (r, c) ==> maxs'[a][b] == maxs[a][b]
  {
    maxs[r := maxs[r][c := Min(maxs[r][c], m)]]
  }

  /** The s-th update of step (i, j), with the running maximum m of its line, keeps the table invariant. */
  lemma Serve(t: seq<seq<int>>, maxs: seq<seq<int>>, i: nat, j: nat, s: nat, m: int)
    requires IsGrid(t) && i < |t| && j < |t| && s < 4 && MaxTable(t, maxs, i, j, s)
    requires m == MaxOf(StageLine(t, i, j, s))
    ensures MaxTable(t, Lower(maxs, StageCell(|t|, i, j, s).0, StageCell(|t|, i, j, s).1, m), i, j, s + 1)
  {
    var n := |t|;
    var (r, c) := StageCell(n, i, j, s);
    EntryFlip(t, i, j, s, r, c);
    var maxs' := Lower(maxs, r, c, m);
    forall a, b | 0 <= a < n && 0 <= b < n
      ensures maxs'[a][b] == MaxEntry(t, a, b, FlagL(n, i, j, s + 1, a, b), FlagU(n, i, j, s + 1, a, b),
                                      FlagR(n, i, j, s + 1, a, b), FlagD(n, i, j, s + 1, a, b))
    {
      if (a, b) != (r, c) {
        StageFlipsOff(n, i, j, s, a, b);
      }
    }
  }

  lemma TableNextStep(t: seq<seq<int>>, maxs: seq<seq<int>>, i: nat, j: nat)
    requires IsGrid(t) && MaxTable(t, maxs, i, j, 4)
    ensures MaxTable(t, maxs, i, j + 1, 0)
  {
  }

  lemma TableNextRow(t: seq<seq<int>>, maxs: seq<seq<int>>, i: nat)
    requires IsGrid(t) && i < |t| && MaxTable(t, maxs, i, |t|, 0)
    ensures MaxTable(t, maxs, i + 1, 0, 0)
  {
    var n := |t|;
    forall r, c | 0 <= r < n && 0 <= c < n
      ensures FlagL(n, i, n, 0, r, c) == FlagL(n, i + 1, 0, 0, r, c) && FlagU(n, i, n, 0, r, c) == FlagU(n, i + 1, 0, 0, r, c)
      ensures FlagR(n, i, n, 0, r, c) == FlagR(n, i + 1, 0, 0, r, c) && FlagD(n, i, n, 0, r, c) == FlagD(n, i + 1, 0, 0, r, c)
    {
    }
  }

  lemma TableDone(t: seq<seq<int>>, maxs: seq<seq<int>>)
    requires IsGrid(t) && MaxTable(t, maxs, |t|, 0, 0)
    ensures forall r, c :: 0 <= r < |t| && 0 <= c < |t| ==> maxs[r][c] == Sight(t, r, c)
  {
    var n := |t|;
    forall r, c | 0 <= r < n && 0 <= c < n ensures maxs[r][c] == Sight(t, r, c) {
      assert FlagL(n, n, 0, 0, r, c) && FlagU(n, n, 0, 0, r, c) && FlagR(n, n, 0, 0, r, c) && FlagD(n, n, 0, 0, r, c);
    }
  }

  /** The running maximum of the s-th line of step (i, j + 1) folds in the tree step (i, j) visits. */
  lemma StageMaxGrow(t: seq<seq<int>>, i: nat, j: nat, s: nat)
    requires IsGrid(t) && i < |t| && j < |t| && s < 4
    ensures MaxOf(StageLine(t, i, j + 1, s)) == Max(MaxOf(StageLine(t, i, j, s)), StageTree(t, i, j, s))
  {
    StageLineGrow(t, i, j, s);
    MaxOfSnoc(StageLine(t, i, j, s), StageTree(t, i, j, s));
  }

  /** The running maxima of row/column i after j steps: one per line of the step. */
  predicate Running(t: seq<seq<int>>, i: nat, j: nat, mLR: int, mUD: int, mRL: int, mDU: int)
    requires IsGrid(t) && i < |t| && j <= |t|
  {
    mLR == MaxOf(StageLine(t, i, j, 0)) && mUD == MaxOf(StageLine(t, i, j, 1)) &&
    mRL == MaxOf(StageLine(t, i, j, 2)) && mDU == MaxOf(StageLine(t, i, j, 3))
  }

  lemma RunningStart(t: seq<seq<int>>, i: nat)
    requires IsGrid(t) && i < |t|
    ensures Running(t, i, 0, -1, -1, -1, -1)
  {
    assert StageLine(t, i, 0, 0) == [] && StageLine(t, i, 0, 1) == [];
    assert StageLine(t, i, 0, 2) == [] && StageLine(t, i, 0, 3) == [];
  }

  /** One step folds the visited trees into the running maxima. */
  lemma RunningStep(t: seq<seq<int>>, i: nat, j: nat, mLR: int, mUD: int, mRL: int, mDU: int)
    requires IsGrid(t) && i < |t| && j < |t| && Running(t, i, j, mLR, mUD, mRL, mDU)
    ensures Running(t, i, j + 1, Max(mLR, StageTree(t, i, j, 0)), Max(mUD, StageTree(t, i, j, 1)),
                    Max(mRL, StageTree(t, i, j, 2)), Max(mDU, StageTree(t, i, j, 3)))
  {
    StageMaxGrow(t, i, j, 0);
    StageMaxGrow(t, i, j, 1);
    StageMaxGrow(t, i, j, 2);
    StageMaxGrow(t, i, j, 3);
  }

  /** The tree the s-th update of step (i, j) visits, folded into its running maximum afterwards. */
  function StageTree(t: seq<seq<int>>, i: nat, j: nat, s: nat): int
    requires IsGrid(t) && i < |t| && j < |t| && s < 4
  {
    var (r, c) := StageCell(|t|, i, j, s);
    t[r][c]
  }

  /** The s-th update of step (i, j) followed by the growth of its running maximum. */
  method Visit(t: seq<seq<int>>, maxs: seq<seq<int>>, i: nat, j: nat, s: nat, m: int) returns (maxs': seq<seq<int>>, m': int)
    requires IsGrid(t) && i < |t| && j < |t| && s < 4 && MaxTable(t, maxs, i, j, s)
    requires m == MaxOf(StageLine(t, i, j, s))
    ensures MaxTable(t, maxs', i, j, s + 1) && m' == Max(m, StageTree(t, i, j, s))
  {
    var (r, c) := StageCell(|t|, i, j, s);
    Serve(t, maxs, i, j, s, m);
    maxs' := Lower(maxs, r, c, m);
    m' := Max(m, t[r][c]);
  }

  /** Updates s and s + 1 of step (i, j), each with the running maximum of its line. */
  method VisitTwo(t: seq<seq<int>>, maxs: seq<seq<int>>, i: nat, j: nat, s: nat, m0: int, m1: int)
    returns (maxs': seq<seq<int>>, m0': int, m1': int)
    requires IsGrid(t) && i < |t| && j < |t| && s < 3 && MaxTable(t, maxs, i, j, s)
    requires m0 == MaxOf(StageLine(t, i, j, s)) && m1 == MaxOf(StageLine(t, i, j, s + 1))
    ensures MaxTable(t, maxs', i, j, s + 2)
    ensures m0' == Max(m0, StageTree(t, i, j, s)) && m1' == Max(m1, StageTree(t, i, j, s + 1))
  {
    maxs', m0' := Visit(t, maxs, i, j, s, m0);
    maxs', m1' := Visit(t, maxs', i, j, s + 1, m1);
  }

  /**
   * One step (i, j) of `compute_max`'s inner loop: the four updates, each with the running
   * maximum of its line, and the four running maxima grown by the trees visited.
   */
  method SweepStep(t: seq<seq<int>>, maxs: seq<seq<int>>, i: nat, j: nat, mLR: int, mUD: int, mRL: int, mDU: int)
    returns (maxs': seq<seq<int>>, mLR': int, mUD': int, mRL': int, mDU': int)
    requires IsGrid(t) && i < |t| && j < |t| && MaxTable(t, maxs, i, j, 0) && Running(t, i, j, mLR, mUD, mRL, mDU)
    ensures MaxTable(t, maxs', i, j + 1, 0) && Running(t, i, j + 1, mLR', mUD', mRL', mDU')
  {
    RunningStep(t, i, j, mLR, mUD, mRL, mDU);
    maxs', mLR', mUD' := VisitTwo(t, maxs, i, j, 0, mLR, mUD);  // left -> right, up -> down
    maxs', mRL', mDU' := VisitTwo(t, maxs', i, j, 2, mRL, mDU); // right -> left, down -> up
    TableNextStep(t, maxs', i, j);
  }

  /** `compute_max`: every entry ends as the cell's `Sight`, the lowest of its four line maxima. */
  method ComputeMax(t: seq<seq<int>>) returns (maxs: seq<seq<int>>)
    requires IsGrid(t)
    ensures IsSquare(maxs, |t|)
    ensures forall r, c :: 0 <= r < |t| && 0 <= c < |t| ==> maxs[r][c] == Sight(t, r, c)
  {
    var size := |t|;
    maxs := seq(size, _ => seq(size, _ => 127));
    for i := 0 to size
      invariant MaxTable(t, maxs, i, 0, 0)
    {
      var mLR, mRL, mUD, mDU := -1, -1, -1, -1;
      RunningStart(t, i);
      for j := 0 to size
        invariant MaxTable(t, maxs, i, j, 0)
        invariant Running(t, i, j, mLR, mUD, mRL, mDU)
      {
        maxs, mLR, mUD, mRL, mDU := SweepStep(t, maxs, i, j, mLR, mUD, mRL, mDU);
      }
      TableNextRow(t, maxs, i);
    }
    TableDone(t, maxs);
  }

  // ------------------------------------------------------------------
  // compute_scenic_score
  // ------------------------------------------------------------------

  /** Where the view from the end of a line stops: the last tree at least h tall, or the edge (index 0). */
  function Blocker(line: seq<int>, h: int): (b: nat)
    ensures line == [] ==> b == 0
    ensures line != [] ==> b < |line|
    decreases |line|
  {
    if line == [] then 0
    else if line[|line| - 1] >= h then |line| - 1
    else Blocker(line[..|line| - 1], h)
  }

  /** The viewing distance of a tree of height h standing just past the end of the line. */
  function View(line: seq<int>, h: int): nat
  {
    |line| - Blocker(line, h)
  }

  /**
   * The view takes in every tree from the nearest one up to the first that is at least as tall,
   * or up to the edge when none is.
   */
  lemma {:induction false} ViewMeans(line: seq<int>, h: int)
    ensures line != [] ==> 1 <= View(line, h)
    ensures forall k :: |line| - View(line, h) < k < |line| ==> line[k] < h
    ensures View(line, h) < |line| ==> line[|line| - View(line, h)] >= h
    decreases |line|
  {
    if line != [] && line[|line| - 1] < h {
      var init := line[..|line| - 1];
      ViewMeans(init, h);
      assert forall k :: 0 <= k < |init| ==> init[k] == line[k];
    }
  }

  /** The index of the last tree of height exactly h, or 0 when there is none: an entry of `m_lr` and the like. */
  function LastAt(line: seq<int>, h: int): (k: nat)
    ensures line == [] ==> k == 0
    ensures line != [] ==> k < |line|
    decreases |line|
  {
    if line == [] then 0
    else if line[|line| - 1] == h then |line| - 1
    else LastAt(line[..|line| - 1], h)
  }

  lemma LastAtSnoc(line: seq<int>, x: int, h: int)
    ensures LastAt(line + [x], h) == if x == h then |line| else LastAt(line, h)
  {
    assert (line + [x])[..|line|] == line;
  }

  predicate Digits(line: seq<int>) { forall k :: 0 <= k < |line| ==> 0 <= line[k] <= 9 }

  /** No digit reaches 10. */
  lemma {:induction false} BlockerTen(line: seq<int>)
    requires Digits(line)
    ensures Blocker(line, 10) == 0
    decreases |line|
  {
    if line != [] {
      BlockerTen(line[..|line| - 1]);
    }
  }

  /** The blocker for height h is the later of the last h and the blocker for h + 1. */
  lemma {:induction false} BlockerSplit(line: seq<int>, h: int)
    requires Digits(line)
    ensures Blocker(line, h) == Max(LastAt(line, h), Blocker(line, h + 1))
    decreases |line|
  {
    if line != [] {
      BlockerSplit(line[..|line| - 1], h);
    }
  }

  /** `m[h..].iter().max().unwrap()`: the largest entry from index h on. */
  function SliceMax(m: seq<int>, h: nat): (r: int)
    requires h < |m|
    ensures r in m[h..] && forall k :: h <= k < |m| ==> m[k] <= r
    decreases |m| - h
  {
    if h == |m| - 1 then m[h] else Max(m[h], SliceMax(m, h + 1))
  }

  /** The ten entries of `m_lr` (and the like) for a line: the last index of each height. */
  predicate Lasts(line: seq<int>, m: seq<int>)
  {
    |m| == 10 && forall h :: 0 <= h < 10 ==> m[h] == LastAt(line, h)
  }

  /** With the last index of every height at hand, the slice maximum from h is the blocker for h. */
  lemma {:induction false} SliceBlocker(line: seq<int>, m: seq<int>, h: nat)
    requires Digits(line) && Lasts(line, m) && h < 10
    ensures SliceMax(m, h) == Blocker(line, h)
    decreases 10 - h
  {
    BlockerSplit(line, h);
    if h == 9 {
      BlockerTen(line);
    } else {
      SliceBlocker(line, m, h + 1);
    }
  }

  /** The scenic score of a tree: the product of its four viewing distances. */
  function Scenic(t: seq<seq<int>>, r: nat, c: nat): nat
    requires IsGrid(t) && r < |t| && c < |t|
  {
    ScoreEntry(t, r, c, true, true, true, true)
  }

  /** A direction's factor: its viewing distance once served, 1 before. */
  function Factor(done: bool, v: nat): nat { if done then v else 1 }

  function Prod4(dl: bool, du: bool, dr: bool, dd: bool, vl: nat, vu: nat, vr: nat, vd: nat): nat
  {
    Factor(dl, vl) * Factor(du, vu) * Factor(dr, vr) * Factor(dd, vd)
  }

  /** The score table entry once the directions flagged have been multiplied in, from 1. */
  function ScoreEntry(t: seq<seq<int>>, r: nat, c: nat, dl: bool, du: bool, dr: bool, dd: bool): nat
    requires IsGrid(t) && r < |t| && c < |t|
  {
    var n, h := |t|, t[r][c];
    Prod4(dl, du, dr, dd, View(LeftLine(t, r, c), h), View(UpLine(t, c, r), h),
          View(RightLine(t, r, n - 1 - c), h), View(DownLine(t, c, n - 1 - r), h))
  }

  /** The score table invariant of `compute_scenic_score` at step (i, j) after s updates. */
  ghost predicate ScoreTable(t: seq<seq<int>>, sc: seq<seq<int>>, i: int, j: int, s: nat)
    requires IsGrid(t)
  {
    var n := |t|;
    IsSquare(sc, n) &&
    forall r, c :: 0 <= r < n && 0 <= c < n ==>
      sc[r][c] == ScoreEntry(t, r, c, FlagL(n, i, j, s, r, c), FlagU(n, i, j, s, r, c), FlagR(n, i, j, s, r, c), FlagD(n, i, j, s, r, c))
  }

  /** Serving one more direction multiplies its distance in. */
  lemma Prod4Flip(dl: bool, du: bool, dr: bool, dd: bool, vl: nat, vu: nat, vr: nat, vd: nat, s: nat)
    requires s < 4
    requires s == 0 ==> !dl
    requires s == 1 ==> !du
    requires s == 2 ==> !dr
    requires s == 3 ==> !dd
    ensures Prod4(dl || s == 0, du || s == 1, dr || s == 2, dd || s == 3, vl, vu, vr, vd)
            == Prod4(dl, du, dr, dd, vl, vu, vr, vd) * (if s == 0 then vl else if s == 1 then vu else if s == 2 then vr else vd)
  {
    var fl, fu, fr, fd := Factor(dl, vl), Factor(du, vu), Factor(dr, vr), Factor(dd, vd);
    if s == 0 {
      assert fl == 1;
      Rotate(vl, fu, fr, fd);
    } else if s == 1 {
      assert fu == 1;
      Rotate2(fl, vu, fr, fd);
    } else if s == 2 {
      assert fr == 1;
      Rotate3(fl, fu, vr, fd);
    } else {
      assert fd == 1;
    }
  }

  lemma Rotate(x: int, b: int, c: int, d: int)
    ensures x * b * c * d == 1 * b * c * d * x
  {
    calc {
      x * b * c * d;
      (x * b) * c * d;
      { assert x * b == b * x; }
      (b * x) * c * d;
      { assert (b * x) * c == (b * c) * x; }
      (b * c) * x * d;
      { assert ((b * c) * x) * d == ((b * c) * d) * x; }
      1 * b * c * d * x;
    }
  }

  lemma Rotate2(a: int, x: int, c: int, d: int)
    ensures a * x * c * d == a * 1 * c * d * x
  {
    calc {
      a * x * c * d;
      { assert (a * x) * c == (a * c) * x; }
      (a * c) * x * d;
      { assert ((a * c) * x) * d == ((a * c) * d) * x; }
      a * 1 * c * d * x;
    }
  }

  lemma Rotate3(a: int, b: int, x: int, d: int)
    ensures a * b * x * d == a * b * 1 * d * x
  {
    assert ((a * b) * x) * d == ((a * b) * d) * x;
  }

  /** Turning on the s-th flag of cell (r, c) multiplies in the view along its s-th line. */
  lemma ScoreEntryFlip(t: seq<seq<int>>, r: nat, c: nat, dl: bool, du: bool, dr: bool, dd: bool, s: nat)
    requires IsGrid(t) && r < |t| && c < |t| && s < 4
    requires s == 0 ==> !dl
    requires s == 1 ==> !du
    requires s == 2 ==> !dr
    requires s == 3 ==> !dd
    ensures ScoreEntry(t, r, c, dl || s == 0, du || s == 1, dr || s == 2, dd || s == 3)
            == ScoreEntry(t, r, c, dl, du, dr, dd) * View(CellLine(t, r, c, s), t[r][c])
  {
    var n, h := |t|, t[r][c];
    var vl, vu := View(LeftLine(t, r, c), h), View(UpLine(t, c, r), h);
    var vr, vd := View(RightLine(t, r, n - 1 - c), h), View(DownLine(t, c, n - 1 - r), h);
    assert View(CellLine(t, r, c, s), h) == if s == 0 then vl else if s == 1 then vu else if s == 2 then vr else vd;
    assert ScoreEntry(t, r, c, dl, du, dr, dd) == Prod4(dl, du, dr, dd, vl, vu, vr, vd);
    assert ScoreEntry(t, r, c, dl || s == 0, du || s == 1, dr || s == 2, dd || s == 3)
           == Prod4(dl || s == 0, du || s == 1, dr || s == 2, dd || s == 3, vl, vu, vr, vd);
    Prod4Flip(dl, du, dr, dd, vl, vu, vr, vd, s);
  }

  /** Turning on the s-th flag of the s-th update's cell multiplies in the view along that line. */
  lemma ScoreFlip(t: seq<seq<int>>, i: nat, j: nat, s: nat, a: nat, b: nat)
    requires IsGrid(t) && i < |t| && j < |t| && s < 4 && (a, b) == StageCell(|t|, i, j, s)
    ensures ScoreEntry(t, a, b, FlagL(|t|, i, j, s + 1, a, b), FlagU(|t|, i, j, s + 1, a, b),
                       FlagR(|t|, i, j, s + 1, a, b), FlagD(|t|, i, j, s + 1, a, b))
            == ScoreEntry(t, a, b, FlagL(|t|, i, j, s, a, b), FlagU(|t|, i, j, s, a, b),
                          FlagR(|t|, i, j, s, a, b), FlagD(|t|, i, j, s, a, b))
               * View(StageLine(t, i, j, s), t[a][b])
  {
    var n := |t|;
    StageFlipsAt(n, i, j, s, a, b);
    ScoreEntryFlip(t, a, b, FlagL(n, i, j, s, a, b), FlagU(n, i, j, s, a, b), FlagR(n, i, j, s, a, b), FlagD(n, i, j, s, a, b), s);
    StageValue(t, i, j, s, a, b);
  }

  /** `sc[r][c] = sc[r][c] * f`. */
  function Scale(sc: seq<seq<int>>, r: nat, c: nat, f: int): (sc': seq<seq<int>>)
    requires r < |sc| && c < |sc[r]|
    ensures |sc'| == |sc| && forall a :: 0 <= a < |sc| ==> |sc'[a]| == |sc[a]|
    ensures sc'[r][c] == sc[r][c] * f
    ensures forall a, b :: 0 <= a < |sc| && 0 <= b < |sc[a]| && (a, b) != (r, c) ==> sc'[a][b] == sc[a][b]
  {
    sc[r := sc[r][c := sc[r][c] * f]]
  }

  /** The s-th update of step (i, j), multiplying in the view along its line, keeps the score table invariant. */
  lemma ServeScore(t: seq<seq<int>>, sc: seq<seq<int>>, i: nat, j: nat, s: nat)
    requires IsGrid(t) && i < |t| && j < |t| && s < 4 && ScoreTable(t, sc, i, j, s)
    ensures var (r, c) := StageCell(|t|, i, j, s);
      ScoreTable(t, Scale(sc, r, c, View(StageLine(t, i, j, s), t[r][c])), i, j, s + 1)
  {
    var n := |t|;
    var (r, c) := StageCell(n, i, j, s);
    ScoreFlip(t, i, j, s, r, c);
    var sc' := Scale(sc, r, c, View(StageLine(t, i, j, s), t[r][c]));
    forall a, b | 0 <= a < n && 0 <= b < n
      ensures sc'[a][b] == ScoreEntry(t, a, b, FlagL(n, i, j, s + 1, a, b), FlagU(n, i, j, s + 1, a, b),
                                      FlagR(n, i, j, s + 1, a, b), FlagD(n, i, j, s + 1, a, b))
    {
      if (a, b) != (r, c) {
        StageFlipsOff(n, i, j, s, a, b);
      }
    }
  }

  /** The s-th line of step (i, j + 1) is that of step (i, j) and the tree step (i, j) visits. */
  lemma StageLineGrow(t: seq<seq<int>>, i: nat, j: nat, s: nat)
    requires IsGrid(t) && i < |t| && j < |t| && s < 4
    ensures StageLine(t, i, j + 1, s) == StageLine(t, i, j, s) + [StageTree(t, i, j, s)]
  {
    var n := |t|;
    var longer, line := StageLine(t, i, j + 1, s), StageLine(t, i, j, s);
    if s == 0 {
      assert longer[j] == t[i][j];
    } else if s == 1 {
      assert longer[j] == t[j][i];
    } else if s == 2 {
      assert longer[j] == t[n - 1 - i][n - 1 - j];
    } else {
      assert longer[j] == t[n - 1 - j][n - 1 - i];
    }
    Extends(longer, line, StageTree(t, i, j, s));
  }

  /** A line one tree longer that agrees with a shorter one on its prefix is that line and the tree. */
  lemma Extends(longer: seq<int>, line: seq<int>, x: int)
    requires |longer| == |line| + 1 && longer[|line|] == x
    requires forall q :: 0 <= q < |line| ==> longer[q] == line[q]
    ensures longer == line + [x]
  {
  }

  lemma StageLineDigits(t: seq<seq<int>>, i: nat, j: nat, s: nat)
    requires IsGrid(t) && i < |t| && j <= |t| && s < 4
    ensures Digits(StageLine(t, i, j, s)) && |StageLine(t, i, j, s)| == j
  {
  }

  /**
   * The s-th update of step (i, j) of `compute_scenic_score`: the view is j less the slice maximum
   * of the line's last-index table from the tree's height on; then the table records the tree at j.
   */
  method VisitScore(t: seq<seq<int>>, sc: seq<seq<int>>, i: nat, j: nat, s: nat, m: seq<int>)
    returns (sc': seq<seq<int>>, m': seq<int>)
    requires IsGrid(t) && i < |t| && j < |t| && s < 4 && ScoreTable(t, sc, i, j, s)
    requires Lasts(StageLine(t, i, j, s), m)
    ensures ScoreTable(t, sc', i, j, s + 1) && Lasts(StageLine(t, i, j + 1, s), m')
  {
    var (r, c) := StageCell(|t|, i, j, s);
    var h := t[r][c];
    ViewBySlice(t, i, j, s, m);
    ServeScore(t, sc, i, j, s);
    sc' := Scale(sc, r, c, j - SliceMax(m, h));
    m' := m[h := j];
    LastsGrow(t, i, j, s, m);
  }

  /** j less the slice maximum from the tree's height is the view along the s-th line. */
  lemma ViewBySlice(t: seq<seq<int>>, i: nat, j: nat, s: nat, m: seq<int>)
    requires IsGrid(t) && i < |t| && j < |t| && s < 4 && Lasts(StageLine(t, i, j, s), m)
    ensures var h := StageTree(t, i, j, s);
      0 <= h < 10 && j - SliceMax(m, h) == View(StageLine(t, i, j, s), h)
  {
    StageLineDigits(t, i, j, s);
    SliceBlocker(StageLine(t, i, j, s), m, StageTree(t, i, j, s));
  }

  /** Recording the visited tree at index j keeps the last-index table exact for the grown line. */
  lemma LastsGrow(t: seq<seq<int>>, i: nat, j: nat, s: nat, m: seq<int>)
    requires IsGrid(t) && i < |t| && j < |t| && s < 4 && Lasts(StageLine(t, i, j, s), m)
    ensures 0 <= StageTree(t, i, j, s) < 10 && Lasts(StageLine(t, i, j + 1, s), m[StageTree(t, i, j, s) := j])
  {
    var line, h := StageLine(t, i, j, s), StageTree(t, i, j, s);
    StageLineGrow(t, i, j, s);
    StageLineDigits(t, i, j, s);
    forall k | 0 <= k < 10 ensures m[h := j][k] == LastAt(line + [h], k) {
      LastAtSnoc(line, h, k);
    }
  }

  lemma ScoreNextStep(t: seq<seq<int>>, sc: seq<seq<int>>, i: nat, j: nat)
    requires IsGrid(t) && ScoreTable(t, sc, i, j, 4)
    ensures ScoreTable(t, sc, i, j + 1, 0)
  {
  }

  lemma ScoreNextRow(t: seq<seq<int>>, sc: seq<seq<int>>, i: nat)
    requires IsGrid(t) && i < |t| && ScoreTable(t, sc, i, |t|, 0)
    ensures ScoreTable(t, sc, i + 1, 0, 0)
  {
    var n := |t|;
    forall r, c | 0 <= r < n && 0 <= c < n
      ensures FlagL(n, i, n, 0, r, c) == FlagL(n, i + 1, 0, 0, r, c) && FlagU(n, i, n, 0, r, c) == FlagU(n, i + 1, 0, 0, r, c)
      ensures FlagR(n, i, n, 0, r, c) == FlagR(n, i + 1, 0, 0, r, c) && FlagD(n, i, n, 0, r, c) == FlagD(n, i + 1, 0, 0, r, c)
    {
    }
  }

  lemma ScoreDone(t: seq<seq<int>>, sc: seq<seq<int>>)
    requires IsGrid(t) && ScoreTable(t, sc, |t|, 0, 0)
    ensures forall r, c :: 0 <= r < |t| && 0 <= c < |t| ==> sc[r][c] == Scenic(t, r, c)
  {
    var n := |t|;
    forall r, c | 0 <= r < n && 0 <= c < n ensures sc[r][c] == Scenic(t, r, c) {
      assert FlagL(n, n, 0, 0, r, c) && FlagU(n, n, 0, 0, r, c) && FlagR(n, n, 0, 0, r, c) && FlagD(n, n, 0, 0, r, c);
    }
  }

  /** The four last-index tables of row/column i after j steps. */
  predicate AllLasts(t: seq<seq<int>>, i: nat, j: nat, mLR: seq<int>, mUD: seq<int>, mRL: seq<int>, mDU: seq<int>)
    requires IsGrid(t) && i < |t| && j <= |t|
  {
    Lasts(StageLine(t, i, j, 0), mLR) && Lasts(StageLine(t, i, j, 1), mUD) &&
    Lasts(StageLine(t, i, j, 2), mRL) && Lasts(StageLine(t, i, j, 3), mDU)
  }

  /** `m.fill(0)` at the start of a row: every line is empty, so every last index is 0. */
  lemma LastsStart(t: seq<seq<int>>, i: nat, zeros: seq<int>)
    requires IsGrid(t) && i < |t| && zeros == seq(10, _ => 0)
    ensures AllLasts(t, i, 0, zeros, zeros, zeros, zeros)
  {
    assert StageLine(t, i, 0, 0) == [] && StageLine(t, i, 0, 1) == [];
    assert StageLine(t, i, 0, 2) == [] && StageLine(t, i, 0, 3) == [];
  }

  /** Updates s and s + 1 of step (i, j) of `compute_scenic_score`. */
  method VisitScoreTwo(t: seq<seq<int>>, sc: seq<seq<int>>, i: nat, j: nat, s: nat, m0: seq<int>, m1: seq<int>)
    returns (sc': seq<seq<int>>, m0': seq<int>, m1': seq<int>)
    requires IsGrid(t) && i < |t| && j < |t| && s < 3 && ScoreTable(t, sc, i, j, s)
    requires Lasts(StageLine(t, i, j, s), m0) && Lasts(StageLine(t, i, j, s + 1), m1)
    ensures ScoreTable(t, sc', i, j, s + 2)
    ensures Lasts(StageLine(t, i, j + 1, s), m0') && Lasts(StageLine(t, i, j + 1, s + 1), m1')
  {
    sc', m0' := VisitScore(t, sc, i, j, s, m0);
    sc', m1' := VisitScore(t, sc', i, j, s + 1, m1);
  }

  /** One step (i, j) of `compute_scenic_score`'s inner loop: the four updates in the source's order. */
  method ScoreStep(t: seq<seq<int>>, sc: seq<seq<int>>, i: nat, j: nat, mLR: seq<int>, mUD: seq<int>, mRL: seq<int>, mDU: seq<int>)
    returns (sc': seq<seq<int>>, mLR': seq<int>, mUD': seq<int>, mRL': seq<int>, mDU': seq<int>)
    requires IsGrid(t) && i < |t| && j < |t| && ScoreTable(t, sc, i, j, 0) && AllLasts(t, i, j, mLR, mUD, mRL, mDU)
    ensures ScoreTable(t, sc', i, j + 1, 0) && AllLasts(t, i, j + 1, mLR', mUD', mRL', mDU')
  {
    sc', mLR', mUD' := VisitScoreTwo(t, sc, i, j, 0, mLR, mUD);  // left -> right, up -> down
    sc', mRL', mDU' := VisitScoreTwo(t, sc', i, j, 2, mRL, mDU); // right -> left, down -> up
    ScoreNextStep(t, sc', i, j);
  }

  /** `compute_scenic_score`: every entry ends as the cell's scenic score. */
  method ComputeScenicScore(t: seq<seq<int>>) returns (sc: seq<seq<int>>)
    requires IsGrid(t)
    ensures IsSquare(sc, |t|)
    ensures forall r, c :: 0 <= r < |t| && 0 <= c < |t| ==> sc[r][c] == Scenic(t, r, c)
  {
    var size := |t|;
    sc := seq(size, _ => seq(size, _ => 1));
    var zeros := seq(10, _ => 0);
    for i := 0 to size
      invariant ScoreTable(t, sc, i, 0, 0)
    {
      var mLR, mRL, mUD, mDU := zeros, zeros, zeros, zeros;
      LastsStart(t, i, zeros);
      for j := 0 to size
        invariant ScoreTable(t, sc, i, j, 0)
        invariant AllLasts(t, i, j, mLR, mUD, mRL, mDU)
      {
        sc, mLR, mUD, mRL, mDU := ScoreStep(t, sc, i, j, mLR, mUD, mRL, mDU);
      }
      ScoreNextRow(t, sc, i);
    }
    ScoreDone(t, sc);
  }

  // ------------------------------------------------------------------
  // part1, part2
  // ------------------------------------------------------------------

  /** Every tree between (r, c) and some edge is shorter. */
  predicate Visible(t: seq<seq<int>>, r: nat, c: nat)
    requires IsGrid(t) && r < |t| && c < |t|
  {
    (forall q :: 0 <= q < c ==> t[r][q] < t[r][c])
    || (forall q :: 0 <= q < r ==> t[q][c] < t[r][c])
    || (forall q :: c < q < |t| ==> t[r][q] < t[r][c])
    || (forall q :: r < q < |t| ==> t[q][c] < t[r][c])
  }

  /** The visible trees among the first k of row r. */
  function RowVisible(t: seq<seq<int>>, r: nat, k: nat): nat
    requires IsGrid(t) && r < |t| && k <= |t|
  {
    if k == 0 then 0 else RowVisible(t, r, k - 1) + (if Visible(t, r, k - 1) then 1 else 0)
  }

  /** The visible trees among the first k rows. */
  function GridVisible(t: seq<seq<int>>, k: nat): nat
    requires IsGrid(t) && k <= |t|
  {
    if k == 0 then 0 else GridVisible(t, k - 1) + RowVisible(t, k - 1, |t|)
  }

  /** Every tree on the edge of the grid is visible. */
  lemma BorderVisible(t: seq<seq<int>>, r: nat, c: nat)
    requires IsGrid(t) && r < |t| && c < |t|
    requires r == 0 || c == 0 || r == |t| - 1 || c == |t| - 1
    ensures Visible(t, r, c)
  {
    SightOnBorder(t, r, c);
    SightMeans(t, r, c);
  }

  /** The inner loop of `part1`: the visible trees of row i, read off the `compute_max` table. */
  method CountRow(t: seq<seq<int>>, maxs: seq<seq<int>>, i: nat) returns (count: nat)
    requires IsGrid(t) && IsSquare(maxs, |t|) && i < |t|
    requires forall r, c :: 0 <= r < |t| && 0 <= c < |t| ==> maxs[r][c] == Sight(t, r, c)
    ensures count == RowVisible(t, i, |t|)
  {
    count := 0;
    for j := 0 to |t|
      invariant count == RowVisible(t, i, j)
    {
      SightMeans(t, i, j);
      if t[i][j] > maxs[i][j] {
        count := count + 1;
      }
    }
  }

  /** `part1`: the number of visible trees, read off the `compute_max` table. */
  method Part1(t: seq<seq<int>>) returns (count: int)
    requires IsGrid(t)
    ensures count == GridVisible(t, |t|)
  {
    var size := |t|;
    var maxs := ComputeMax(t);
    count := 0;
    for i := 0 to size
      invariant count == GridVisible(t, i)
    {
      var row := CountRow(t, maxs, i);
      count := count + row;
    }
  }

  /** `iter().flatten().max()` over a non-empty square table, with where the maximum was found. */
  method TableMax(sc: seq<seq<int>>, n: nat) returns (best: int, ba: nat, bb: nat)
    requires IsSquare(sc, n) && n > 0
    ensures ba < n && bb < n && best == sc[ba][bb]
    ensures forall a, b :: 0 <= a < n && 0 <= b < n ==> sc[a][b] <= best
  {
    best, ba, bb := sc[0][0], 0, 0;
    for i := 0 to n
      invariant ba < n && bb < n && best == sc[ba][bb]
      invariant forall a, b :: 0 <= a < i && 0 <= b < n ==> sc[a][b] <= best
    {
      for j := 0 to n
        invariant ba < n && bb < n && best == sc[ba][bb]
        invariant forall a, b :: 0 <= a < i && 0 <= b < n ==> sc[a][b] <= best
        invariant forall b :: 0 <= b < j ==> sc[i][b] <= best
      {
        if sc[i][j] > best {
          best, ba, bb := sc[i][j], i, j;
        }
      }
    }
  }

  /**
   * `part2`: the largest scenic score. An empty grid has none, and `unwrap` panics.
   */
  method Part2(t: seq<seq<int>>) returns (r: Result<int>)
    requires IsGrid(t)
    ensures r.Panic? <==> |t| == 0
    ensures r.Ok? ==> (exists a, b :: 0 <= a < |t| && 0 <= b < |t| && r.value == Scenic(t, a, b))
                      && forall a, b :: 0 <= a < |t| && 0 <= b < |t| ==> Scenic(t, a, b) <= r.value
  {
    var size := |t|;
    if size == 0 {
      return Panic("called `Option::unwrap()` on a `None` value");
    }
    var sc := ComputeScenicScore(t);
    var best, ba, bb := TableMax(sc, size);
    assert best == Scenic(t, ba, bb);
    return Ok(best);
  }

  // ------------------------------------------------------------------
  // generator
  // ------------------------------------------------------------------

  /** One line of digits; `to_digit(10).unwrap()` panics on anything else. */
  function ParseRow(line: string): (r: Result<seq<int>>)
    ensures r.Ok? <==> AllDigits(line)
    ensures r.Ok? ==> |r.value| == |line| && forall k :: 0 <= k < |line| ==> r.value[k] == DigitValue(line[k])
  {
    if AllDigits(line) then Ok(seq(|line|, k requires 0 <= k < |line| => DigitValue(line[k] ) as int))
    else Panic("called `Option::unwrap()` on a `None` value")
  }

  function ParseRows(lines: seq<string>): (r: Result<seq<seq<int>>>)
    ensures r.Ok? <==> forall i :: 0 <= i < |lines| ==> AllDigits(lines[i])
    ensures r.Ok? ==> |r.value| == |lines| && forall i :: 0 <= i < |lines| ==> ParseRow(lines[i]) == Ok(r.value[i])
    decreases |lines|
  {
    if lines == [] then Ok([])
    else
      match ParseRow(lines[0])
      case Panic(msg) => Panic(msg)
      case Ok(row) =>
        match ParseRows(lines[1..])
        case Panic(msg) => Panic(msg)
        case Ok(rows) => Ok([row] + rows)
  }

  /** `generator`: the grid of digits, which must be square. */
  function Generator(input: string): (r: Result<seq<seq<int>>>)
    ensures r.Ok? <==> (forall i :: 0 <= i < |Lines(input)| ==> AllDigits(Lines(input)[i]) && |Lines(input)[i]| == |Lines(input)|)
    ensures r.Ok? ==> IsGrid(r.value)
  {
    var lines := Lines(input);
    match ParseRows(lines)
    case Panic(msg) => Panic(msg)
    case Ok(rows) =>
      if exists i :: 0 <= i < |rows| && |rows[i]| != |rows| then Panic("Unexpected, input is not a square")
      else
        assert forall i :: 0 <= i < |rows| ==> ParseRow(lines[i]) == Ok(rows[i]);
        Ok(rows)
  }

  /** A height written as its digit. */
  function RowText(row: seq<int>): (s: string)
    requires Digits(row)
    ensures |s| == |row| && AllDigits(s) && FreeOf(s, {'\n'})
    ensures forall k :: 0 <= k < |row| ==> DigitValue(s[k]) == row[k]
  {
    seq(|row|, k requires 0 <= k < |row| => ('0' as int + row[k]) as char)
  }

  function GridTexts(t: seq<seq<int>>): (rows: seq<string>)
    requires IsGrid(t)
    ensures |rows| == |t| && forall i :: 0 <= i < |t| ==> rows[i] == RowText(t[i])
  {
    seq(|t|, i requires 0 <= i < |t| => RowText(t[i]))
  }

  /** The grid written one row of digits per line. */
  function Render(t: seq<seq<int>>): string
    requires IsGrid(t)
  {
    Unlines(GridTexts(t))
  }

  /** `generator` reads back every square grid of digits. */
  lemma GeneratorRoundTrip(t: seq<seq<int>>)
    requires IsGrid(t)
    ensures Generator(Render(t)) == Ok(t)
  {
    var rows := GridTexts(t);
    LinesUnlines(rows);
    var g := ParseRows(rows);
    assert g.Ok?;
    forall i | 0 <= i < |t| ensures g.value[i] == t[i] {
      assert ParseRow(rows[i]) == Ok(g.value[i]);
      assert |g.value[i]| == |t[i]|;
      forall k | 0 <= k < |t[i]| ensures g.value[i][k] == t[i][k] {
        assert DigitValue(rows[i][k]) == t[i][k];
      }
    }
    assert g.value == t;
  }

  // ------------------------------------------------------------------
  // The puzzle's example
  // ------------------------------------------------------------------

  function SampleGrid(): seq<seq<int>>
  {
    [[3, 0, 3, 7, 3], [2, 5, 5, 1, 2], [6, 5, 3, 3, 2], [3, 3, 5, 4, 9], [3, 5, 3, 9, 0]]
  }

  /** The middle 5 of the second row sees 1 tree left, 1 up, 2 right and 2 down. */
  lemma SampleScenic1()
    ensures IsGrid(SampleGrid()) && Scenic(SampleGrid(), 1, 2) == 4
  {
    var t := SampleGrid();
    assert LeftLine(t, 1, 2) == [2, 5] && View([2, 5], 5) == 1;
    assert UpLine(t, 2, 1) == [3] && View([3], 5) == 1;
    assert RightLine(t, 1, 2) == [2, 1] && View([2, 1], 5) == 2;
    assert DownLine(t, 2, 3) == [3, 5, 3] && View([3, 5, 3], 5) == 2;
  }

  /** The middle 5 of the fourth row sees 2 trees left, 2 up, 2 right and 1 down. */
  lemma SampleScenic2()
    ensures IsGrid(SampleGrid()) && Scenic(SampleGrid(), 3, 2) == 8
  {
    var t := SampleGrid();
    assert LeftLine(t, 3, 2) == [3, 3] && View([3, 3], 5) == 2;
    assert UpLine(t, 2, 3) == [3, 5, 3] && View([3, 5, 3], 5) == 2;
    assert RightLine(t, 3, 2) == [9, 4] && View([9, 4], 5) == 2;
    assert DownLine(t, 2, 1) == [3] && View([3], 5) == 1;
  }
}
