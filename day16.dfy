/**
 * Day 16 (Proboscidea Volcanium): valves with flow rates joined by tunnels. Walking a tunnel takes
 * a minute and opening a valve takes a minute; an open valve releases its rate every minute that
 * remains. The answer is the most pressure that can be released before the time runs out, alone
 * (30 minutes) or with an elephant helping (26 minutes). Distances between valves are filled in
 * first; the search then walks an explicit stack of partial plans, pruned by an optimistic bound.
 */
module Day16 {
  import opened Wrappers
  import opened Text
  import Arith

  // ------------------------------------------------------------------
  // The bitmap of remaining valves
  // ------------------------------------------------------------------

  /** `u64::MAX`: every bit set. */
  const AllBits: bv64 := 0xFFFF_FFFF_FFFF_FFFF

  /** A set of valve indices below 64, one bit each. */
  datatype BitMap = BitMap(bits: bv64)

  /** Bit `i` of the word is set, as `is_set` tests it; indices are `u32`, as in the source. */
  predicate Has(m: bv64, i: bv32)
    requires i < 64
  {
    m & (1 << i) != 0
  }

  /** `BitMap::_new`: no valve. */
  function NewBitMap(): (b: BitMap)
    ensures forall i: bv32 | i < 64 :: !Has(b.bits, i)
  {
    BitMap(0)
  }

  /** `is_set`: whether the index is in the map; an index past the 64 bits panics. */
  function IsSet(b: BitMap, idx: bv32): (r: Result<bool>)
    ensures r.Ok? <==> idx < 64
    ensures r.Ok? ==> (r.value <==> Has(b.bits, idx))
  {
    if idx < 64 then IsSetAt(b.bits, idx); Ok(b.bits & (1 << idx) > 0) else Panic("explicit panic")
  }

  /** `_set`: the index is added and no other bit changes; an index past the 64 bits panics. */
  function Set(b: BitMap, idx: bv32): (r: Result<BitMap>)
    ensures r.Ok? <==> idx < 64
    ensures r.Ok? ==> forall i: bv32 | i < 64 :: Has(r.value.bits, i) <==> Has(b.bits, i) || i == idx
  {
    if idx < 64 then
      SetAll(b.bits, idx);
      Ok(BitMap(With(b.bits, idx)))
    else Panic("explicit panic")
  }

  /** `unset`: the index is removed and no other bit changes; an index past the 64 bits panics. */
  function Unset(b: BitMap, idx: bv32): (r: Result<BitMap>)
    ensures r.Ok? <==> idx < 64
    ensures r.Ok? ==> forall i: bv32 | i < 64 :: Has(r.value.bits, i) <==> Has(b.bits, i) && i != idx
  {
    if idx < 64 then
      UnsetAll(b.bits, idx);
      Ok(BitMap(Cleared(b.bits, idx)))
    else Panic("explicit panic")
  }

  /** `map & (u64::MAX ^ (1 << idx))`: the word with bit idx cleared. */
  function Cleared(m: bv64, idx: bv32): bv64
    requires idx < 64
  {
    m & (AllBits ^ (1 << idx))
  }

  /** `map | (1 << idx)`: the word with bit idx set. */
  function With(m: bv64, idx: bv32): bv64
    requires idx < 64
  {
    m | (1 << idx)
  }

  lemma IsSetAt(m: bv64, idx: bv32)
    requires idx < 64
    ensures (m & (1 << idx) > 0) == Has(m, idx)
  {
  }

  lemma SetAll(m: bv64, idx: bv32)
    requires idx < 64
    ensures forall i: bv32 | i < 64 :: Has(With(m, idx), i) <==> Has(m, i) || i == idx
  {
    forall i: bv32 | i < 64
      ensures Has(With(m, idx), i) <==> Has(m, i) || i == idx
    {
      SetAt(m, idx, i);
    }
  }

  lemma UnsetAll(m: bv64, idx: bv32)
    requires idx < 64
    ensures forall i: bv32 | i < 64 :: Has(Cleared(m, idx), i) <==> Has(m, i) && i != idx
  {
    forall i: bv32 | i < 64
      ensures Has(Cleared(m, idx), i) <==> Has(m, i) && i != idx
    {
      UnsetAt(m, idx, i);
    }
  }

  lemma SetAt(m: bv64, idx: bv32, i: bv32)
    requires idx < 64 && i < 64
    ensures Has(With(m, idx), i) <==> Has(m, i) || i == idx
  {
    var w := m | (1 << idx);
    assert With(m, idx) == w;
    assert Has(w, i) <==> Has(m, i) || i == idx;
  }

  lemma UnsetAt(m: bv64, idx: bv32, i: bv32)
    requires idx < 64 && i < 64
    ensures Has(m & (AllBits ^ (1 << idx)), i) <==> Has(m, i) && i != idx
  {
  }

  /** The word `Entry::new` builds after k rounds of shifting left and adding one. */
  function Ones(k: nat): bv64
  {
    if k == 0 then 0 else (Ones(k - 1) << 1) + 1
  }

  /** k rounds set exactly the bits below k (all 64 once k reaches 64: the top bit shifts out). */
  lemma {:induction false} OnesHas(k: nat, i: bv32)
    requires i < 64
    ensures Has(Ones(k), i) <==> i as nat < k
  {
    if k > 0 {
      if i > 0 {
        OnesHas(k - 1, i - 1);
        PushAt(Ones(k - 1), i);
      } else {
        PushAt(Ones(k - 1), i);
      }
    }
  }

  /** Shifting in a one: bit 0 is set and every other bit is the one below it before. */
  lemma PushAt(m: bv64, i: bv32)
    requires i < 64
    ensures Has((m << 1) + 1, i) <==> i == 0 || Has(m, i - 1)
  {
  }

  // ------------------------------------------------------------------
  // Valves, entries and one step of a plan
  // ------------------------------------------------------------------

  const U32Max: nat := 0xFFFF_FFFF

  datatype Valve = Valve(id: nat, code: string, rate: nat)

  /**
   * The valves sorted by falling rate, the distance matrix (`u32::MAX` where unknown), the index of
   * valve AA, and how many valves have a non-zero rate: they come first, so they are 0..pressureValves.
   */
  datatype Puzzle = Puzzle(valves: seq<Valve>, distances: seq<seq<nat>>, start: nat, pressureValves: nat)

  /** A square matrix with one row and one column per valve. */
  predicate Square(distances: seq<seq<nat>>, n: nat)
  {
    |distances| == n && forall a :: 0 <= a < n ==> |distances[a]| == n
  }

  /** What `Puzzle::new` leaves in place: the matrix fits the valves and both counts fit in them. */
  predicate Sized(p: Puzzle)
  {
    Square(p.distances, |p.valves|) && p.start < |p.valves| && p.pressureValves <= |p.valves|
  }

  /** A partial plan: the pressure its opened valves will release by the end, and the valves still closed. */
  datatype Entry = Entry(pressure: nat, remaining: BitMap)

  /** Where a plan stands: the last valve opened (or the start), the minute it was opened, and the entry. */
  datatype Visit = Visit(valve: nat, time: nat, entry: Entry)

  /** `Entry::new`: no pressure yet, and every valve below `pressureValves` still closed. */
  method NewEntry(pressureValves: nat) returns (e: Entry)
    ensures e.pressure == 0 && e.remaining.bits == Ones(pressureValves)
    ensures forall i: bv32 | i < 64 :: Has(e.remaining.bits, i) <==> i as nat < pressureValves
  {
    var m: bv64 := 0;
    for k := 0 to pressureValves
      invariant m == Ones(k)
    {
      m := m << 1;
      m := m + 1;
    }
    forall i: bv32 | i < 64
      ensures Has(m, i) <==> i as nat < pressureValves
    {
      OnesHas(pressureValves, i);
    }
    e := Entry(0, BitMap(m));
  }

  /**
   * `process_entry`: walk from `prev` to valve `to` and open it. Nothing comes of it when the valve is
   * already open or is opened too late to release anything; otherwise the valve leaves the remaining
   * set and its rate counts for every minute left. Valve 64 and above panic in the bitmap.
   */
  function ProcessEntry(p: Puzzle, prev: nat, time: nat, entry: Entry, to: nat, until: nat): (r: Result<Option<Visit>>)
    requires Sized(p) && prev < |p.valves| && to < |p.valves|
    ensures r.Panic? <==> to >= 64
    ensures r.Ok? ==> (r.value.Some? <==> Has(entry.remaining.bits, to as bv32) && time + 1 + p.distances[prev][to] < until)
    ensures r.Ok? && r.value.Some? ==>
      var v, t := r.value.value, time + 1 + p.distances[prev][to];
      && v.valve == to && v.time == t
      && v.entry.pressure == entry.pressure + (until - t) * p.valves[to].rate
      && forall i: bv32 | i < 64 :: Has(v.entry.remaining.bits, i) <==> Has(entry.remaining.bits, i) && i != to as bv32
  {
    if to >= 64 then Panic("explicit panic")
    else
      var idx := to as bv32;
      if !IsSet(entry.remaining, idx).value then Ok(None)
      else
        var t := time + 1 + p.distances[prev][to];
        if t < until then
          var released := (until - t) * p.valves[to].rate;
          Arith.MulNonneg(until - t, p.valves[to].rate);
          Ok(Some(Visit(to, t, Entry(entry.pressure + released, Unset(entry.remaining, idx).value))))
        else Ok(None)
  }

  // ------------------------------------------------------------------
  // The optimistic bounds that prune the search
  // ------------------------------------------------------------------

  /**
   * The bound `max_pressure_ignoring_travel` computes from valve i on, with the next opening at
   * minute t and pressure `acc` so far: every closed valve, best rate first, is opened two minutes
   * after the one before, as if every valve were one step away, until the time runs out.
   */
  function Optimistic(p: Puzzle, entry: Entry, i: nat, t: nat, until: nat, acc: nat): Result<nat>
    requires Sized(p) && i <= p.pressureValves
    decreases p.pressureValves - i
  {
    if i == p.pressureValves then Ok(acc)
    else if i >= 64 then Panic("explicit panic")
    else if !Has(entry.remaining.bits, i as bv32) then Optimistic(p, entry, i + 1, t, until, acc)
    else if t < until then
      Arith.MulNonneg(p.valves[i].rate, until - t);
      Optimistic(p, entry, i + 1, t + 2, until, acc + p.valves[i].rate * (until - t))
    else Ok(acc)
  }

  /** The bound never falls below the pressure it starts from, so an entry is never pruned against itself. */
  lemma {:induction false} OptimisticAtLeast(p: Puzzle, entry: Entry, i: nat, t: nat, until: nat, acc: nat)
    requires Sized(p) && i <= p.pressureValves
    ensures Optimistic(p, entry, i, t, until, acc).Ok? ==> Optimistic(p, entry, i, t, until, acc).value >= acc
    decreases p.pressureValves - i
  {
    if i < p.pressureValves && i < 64 {
      if !Has(entry.remaining.bits, i as bv32) {
        OptimisticAtLeast(p, entry, i + 1, t, until, acc);
      } else if t < until {
        Arith.MulNonneg(p.valves[i].rate, until - t);
        OptimisticAtLeast(p, entry, i + 1, t + 2, until, acc + p.valves[i].rate * (until - t));
      }
    }
  }

  /** With at most 64 valves to open, the bitmap is never asked past its last bit. */
  lemma {:induction false} OptimisticOk(p: Puzzle, entry: Entry, i: nat, t: nat, until: nat, acc: nat)
    requires Sized(p) && i <= p.pressureValves <= 64
    ensures Optimistic(p, entry, i, t, until, acc).Ok?
    decreases p.pressureValves - i
  {
    if i < p.pressureValves {
      if !Has(entry.remaining.bits, i as bv32) {
        OptimisticOk(p, entry, i + 1, t, until, acc);
      } else if t < until {
        Arith.MulNonneg(p.valves[i].rate, until - t);
        OptimisticOk(p, entry, i + 1, t + 2, until, acc + p.valves[i].rate * (until - t));
      }
    }
  }

  /** `max_pressure_ignoring_travel`: the bound for an entry whose last valve opened at minute `time`. */
  method MaxPressureIgnoringTravel(entry: Entry, time: nat, until: nat, p: Puzzle) returns (r: Result<nat>)
    requires Sized(p)
    ensures r == Optimistic(p, entry, 0, time + 2, until, entry.pressure)
    ensures r.Panic? ==> p.pressureValves > 64
  {
    if p.pressureValves <= 64 {
      OptimisticOk(p, entry, 0, time + 2, until, entry.pressure);
    }
    var t: nat := time + 2;
    var acc: nat := entry.pressure;
    for i: nat := 0 to p.pressureValves
      invariant Optimistic(p, entry, i, t, until, acc) == Optimistic(p, entry, 0, time + 2, until, entry.pressure)
    {
      if i >= 64 {
        return Panic("explicit panic");
      }
      if !Has(entry.remaining.bits, i as bv32) {
        continue;
      }
      if t < until {
        Arith.MulNonneg(p.valves[i].rate, until - t);
        acc := acc + p.valves[i].rate * (until - t);
        t := t + 2;
      } else {
        return Ok(acc);
      }
    }
    r := Ok(acc);
  }

  /**
   * The bound `max_pressure_ignoring_travel_with_helper` computes from valve i on: each closed valve
   * goes to whichever of the two is free earlier (you on a tie), two minutes after their last, as long
   * as either still has time.
   */
  function OptimisticWithHelper(p: Puzzle, entry: Entry, i: nat, t1: nat, t2: nat, until: nat, acc: nat): Result<nat>
    requires Sized(p) && i <= p.pressureValves
    decreases p.pressureValves - i
  {
    if !(t1 < until || t2 < until) || i == p.pressureValves then Ok(acc)
    else if i >= 64 then Panic("explicit panic")
    else if !Has(entry.remaining.bits, i as bv32) then OptimisticWithHelper(p, entry, i + 1, t1, t2, until, acc)
    else if t1 < t2 then
      Arith.MulNonneg(p.valves[i].rate, until - t1);
      OptimisticWithHelper(p, entry, i + 1, t1 + 2, t2, until, acc + p.valves[i].rate * (until - t1))
    else
      Arith.MulNonneg(p.valves[i].rate, until - t2);
      OptimisticWithHelper(p, entry, i + 1, t1, t2 + 2, until, acc + p.valves[i].rate * (until - t2))
  }

  lemma {:induction false} OptimisticWithHelperAtLeast(p: Puzzle, entry: Entry, i: nat, t1: nat, t2: nat, until: nat, acc: nat)
    requires Sized(p) && i <= p.pressureValves
    ensures OptimisticWithHelper(p, entry, i, t1, t2, until, acc).Ok? ==> OptimisticWithHelper(p, entry, i, t1, t2, until, acc).value >= acc
    decreases p.pressureValves - i
  {
    if (t1 < until || t2 < until) && i < p.pressureValves && i < 64 {
      if !Has(entry.remaining.bits, i as bv32) {
        OptimisticWithHelperAtLeast(p, entry, i + 1, t1, t2, until, acc);
      } else if t1 < t2 {
        Arith.MulNonneg(p.valves[i].rate, until - t1);
        OptimisticWithHelperAtLeast(p, entry, i + 1, t1 + 2, t2, until, acc + p.valves[i].rate * (until - t1));
      } else {
        Arith.MulNonneg(p.valves[i].rate, until - t2);
        OptimisticWithHelperAtLeast(p, entry, i + 1, t1, t2 + 2, until, acc + p.valves[i].rate * (until - t2));
      }
    }
  }

  lemma {:induction false} OptimisticWithHelperOk(p: Puzzle, entry: Entry, i: nat, t1: nat, t2: nat, until: nat, acc: nat)
    requires Sized(p) && i <= p.pressureValves <= 64
    ensures OptimisticWithHelper(p, entry, i, t1, t2, until, acc).Ok?
    decreases p.pressureValves - i
  {
    if (t1 < until || t2 < until) && i < p.pressureValves {
      if !Has(entry.remaining.bits, i as bv32) {
        OptimisticWithHelperOk(p, entry, i + 1, t1, t2, until, acc);
      } else if t1 < t2 {
        Arith.MulNonneg(p.valves[i].rate, until - t1);
        OptimisticWithHelperOk(p, entry, i + 1, t1 + 2, t2, until, acc + p.valves[i].rate * (until - t1));
      } else {
        Arith.MulNonneg(p.valves[i].rate, until - t2);
        OptimisticWithHelperOk(p, entry, i + 1, t1, t2 + 2, until, acc + p.valves[i].rate * (until - t2));
      }
    }
  }

  /** `max_pressure_ignoring_travel_with_helper`: the bound for an entry, you at `time1`, the helper at `time2`. */
  method MaxPressureIgnoringTravelWithHelper(entry: Entry, time1: nat, time2: nat, until: nat, p: Puzzle) returns (r: Result<nat>)
    requires Sized(p)
    ensures r == OptimisticWithHelper(p, entry, 0, time1 + 2, time2 + 2, until, entry.pressure)
    ensures r.Panic? ==> p.pressureValves > 64
  {
    if p.pressureValves <= 64 {
      OptimisticWithHelperOk(p, entry, 0, time1 + 2, time2 + 2, until, entry.pressure);
    }
    var acc: nat := entry.pressure;
    var i: nat := 0;
    var t1: nat, t2: nat := time1 + 2, time2 + 2;
    while t1 < until || t2 < until
      invariant i <= p.pressureValves
      invariant OptimisticWithHelper(p, entry, i, t1, t2, until, acc) == OptimisticWithHelper(p, entry, 0, time1 + 2, time2 + 2, until, entry.pressure)
      decreases p.pressureValves - i
    {
      if i == p.pressureValves {
        break;
      }
      if i >= 64 {
        return Panic("explicit panic");
      }
      if Has(entry.remaining.bits, i as bv32) {
        if t1 < t2 {
          Arith.MulNonneg(p.valves[i].rate, until - t1);
          acc := acc + p.valves[i].rate * (until - t1);
          t1 := t1 + 2;
        } else {
          Arith.MulNonneg(p.valves[i].rate, until - t2);
          acc := acc + p.valves[i].rate * (until - t2);
          t2 := t2 + 2;
        }
      }
      i := i + 1;
    }
    r := Ok(acc);
  }

  // ------------------------------------------------------------------
  // The search, alone
  // ------------------------------------------------------------------

  /** Where the search starts: valve AA at minute 0, every valve with a non-zero rate still closed. */
  function Start(p: Puzzle): Visit
  {
    Visit(p.start, 0, Entry(0, BitMap(Ones(p.pressureValves))))
  }

  /**
   * Where a plan leads: the valves in order, each reached and opened through `process_entry` from the
   * one before. None when a step opens nothing or names a valve past the ones with a rate.
   */
  ghost function Walk(p: Puzzle, until: nat, plan: seq<nat>): (r: Option<Visit>)
    requires Sized(p)
    ensures r.Some? ==> r.value.valve < |p.valves|
  {
    if plan == [] then Some(Start(p))
    else
      var w := Walk(p, until, plan[..|plan| - 1]);
      var to := plan[|plan| - 1];
      if w.None? || to >= p.pressureValves || to >= 64 then None
      else ProcessEntry(p, w.value.valve, w.value.time, w.value.entry, to, until).value
  }

  /** The stack of `compute_max_pressure`: each visit is where its plan leads, no later than the end. */
  ghost predicate Stacked(p: Puzzle, until: nat, stack: seq<Visit>, plans: seq<seq<nat>>)
    requires Sized(p)
  {
    && |plans| == |stack|
    && (stack != [] ==>
      && Stacked(p, until, stack[..|stack| - 1], plans[..|plans| - 1])
      && Walk(p, until, plans[|plans| - 1]) == Some(stack[|stack| - 1])
      && stack[|stack| - 1].time <= until)
  }

  lemma StackedSnoc(p: Puzzle, until: nat, stack: seq<Visit>, plans: seq<seq<nat>>, v: Visit, plan: seq<nat>)
    requires Sized(p) && Stacked(p, until, stack, plans) && Walk(p, until, plan) == Some(v) && v.time <= until
    ensures Stacked(p, until, stack + [v], plans + [plan])
  {
    assert (stack + [v])[..|stack|] == stack;
    assert (plans + [plan])[..|plans|] == plans;
  }

  lemma PrefixTrans<T>(a: seq<T>, b: seq<T>, c: seq<T>)
    requires |a| <= |b| && b[..|a|] == a && |b| <= |c| && c[..|b|] == b
    ensures c[..|a|] == a
  {
    assert forall k :: 0 <= k < |a| ==> c[..|a|][k] == c[..|b|][k];
  }

  function Power(b: nat, e: nat): (r: nat)
    ensures b >= 1 ==> r >= 1
  {
    if e == 0 then 1 else Arith.MulNonneg(b, Power(b, e - 1)); b * Power(b, e - 1)
  }

  lemma {:induction false} PowerMono(b: nat, e: nat, f: nat)
    requires b >= 1 && e <= f
    ensures Power(b, e) <= Power(b, f)
    decreases f
  {
    if e < f {
      PowerMono(b, e, f - 1);
      Arith.MulAtLeast(b, Power(b, f - 1));
    }
  }

  /**
   * The termination measure of the search: a visit with m minutes left weighs (P + 1)^m for P valves
   * with a rate. A visit pushes at most P visits, each with fewer minutes left, so the sum falls.
   */
  function Weight(p: Puzzle, until: nat, stack: seq<Visit>): nat
  {
    if stack == [] then 0
    else
      var last := stack[|stack| - 1];
      Weight(p, until, stack[..|stack| - 1]) + Power(p.pressureValves + 1, if last.time <= until then until - last.time else 0)
  }

  /** k copies of u added up: k * u, unfolded one copy at a time. */
  function Times(k: nat, u: nat): nat
  {
    if k == 0 then 0 else Times(k - 1, u) + u
  }

  /** n pushes of one unit each weigh less than one entry a minute earlier: n * b^(e-1) < (n+1)^e with b = n + 1. */
  lemma UnitBound(n: nat, e: nat, unit: nat)
    requires e > 0 && unit == Power(n + 1, e - 1)
    ensures Times(n, unit) < Power(n + 1, e)
  {
    TimesMul(n + 1, unit);
    assert Times(n + 1, unit) == Times(n, unit) + unit;
  }

  lemma {:induction false} TimesMul(k: nat, u: nat)
    ensures Times(k, u) == k * u
  {
    if k > 0 {
      TimesMul(k - 1, u);
      Arith.MulPred(k, u);
    }
  }

  lemma WeightLast(p: Puzzle, until: nat, stack: seq<Visit>)
    requires stack != [] && stack[|stack| - 1].time <= until
    ensures Weight(p, until, stack) == Weight(p, until, stack[..|stack| - 1]) + Power(p.pressureValves + 1, until - stack[|stack| - 1].time)
  {
  }

  lemma WeightSnoc(p: Puzzle, until: nat, stack: seq<Visit>, v: Visit)
    ensures Weight(p, until, stack + [v]) == Weight(p, until, stack) + Power(p.pressureValves + 1, if v.time <= until then until - v.time else 0)
  {
    assert (stack + [v])[..|stack|] == stack;
  }

  /** A pushed visit is later than the one it came from, so it weighs at most one unit of the budget. */
  lemma PushWeighs(p: Puzzle, until: nat, pushed: seq<Visit>, v: Visit, time: nat, unit: nat, i: nat, total: nat)
    requires time < v.time < until && unit == Power(p.pressureValves + 1, until - time - 1)
    requires Weight(p, until, pushed) + Times(i + 1, unit) <= total
    ensures Weight(p, until, pushed + [v]) + Times(i, unit) <= total
  {
    WeightSnoc(p, until, pushed, v);
    PowerMono(p.pressureValves + 1, until - v.time, until - time - 1);
  }

  /**
   * The loop below with i valves still to try: the stack grows from `stack`, stays within the plans,
   * and each valve still to try has one unit of the budget left.
   */
  ghost predicate Pushing(p: Puzzle, until: nat, top: Visit, stack: seq<Visit>, pushed: seq<Visit>, plans: seq<seq<nat>>,
                          i: nat, unit: nat, total: nat)
    requires Sized(p)
  {
    && Stacked(p, until, pushed, plans) && |stack| <= |pushed| && pushed[..|stack|] == stack
    && (top.time == until ==> pushed == stack)
    && Weight(p, until, pushed) + Times(i, unit) <= total
  }

  /** With no valve left to try, the stack weighs less than it did with the top still on it. */
  lemma PushingDone(p: Puzzle, until: nat, top: Visit, stack: seq<Visit>, pushed: seq<Visit>, plans: seq<seq<nat>>,
                    unit: nat, total: nat)
    requires Sized(p) && top.time <= until && Pushing(p, until, top, stack, pushed, plans, 0, unit, total)
    requires unit == (if top.time < until then Power(p.pressureValves + 1, until - top.time - 1) else 0)
    requires total == Weight(p, until, stack) + Times(p.pressureValves, unit)
    ensures Weight(p, until, pushed) < Weight(p, until, stack) + Power(p.pressureValves + 1, until - top.time)
  {
    assert Times(0, unit) == 0;
    if top.time < until {
      UnitBound(p.pressureValves, until - top.time, unit);
    } else {
      assert Power(p.pressureValves + 1, 0) == 1;
    }
  }

  /** One turn of the loop below: valve i is pushed when the top visit can open it next. */
  method Consider(p: Puzzle, until: nat, top: Visit, ghost topPlan: seq<nat>, i: nat, pushed: seq<Visit>,
                  ghost plans: seq<seq<nat>>, ghost unit: nat, ghost total: nat, ghost stack: seq<Visit>)
    returns (r: Result<seq<Visit>>, ghost plans': seq<seq<nat>>)
    requires Sized(p) && top.time <= until && Walk(p, until, topPlan) == Some(top) && i < p.pressureValves
    requires unit == if top.time < until then Power(p.pressureValves + 1, until - top.time - 1) else 0
    requires Pushing(p, until, top, stack, pushed, plans, i + 1, unit, total)
    ensures r.Panic? <==> i >= 64
    ensures r.Ok? ==> Stacked(p, until, r.value, plans') && |pushed| <= |r.value| && r.value[..|pushed|] == pushed
    ensures r.Ok? ==> Weight(p, until, r.value) + Times(i, unit) <= total
    ensures r.Ok? && top.time == until ==> r.value == pushed
    ensures r.Ok? ==> Pushing(p, until, top, stack, r.value, plans', i, unit, total)
  {
    plans' := plans;
    var next := ProcessEntry(p, top.valve, top.time, top.entry, i, until);
    if next.Panic? {
      return Panic(next.msg), plans';
    }
    r := Ok(pushed);
    if next.value.Some? {
      var v := next.value.value;
      assert Walk(p, until, topPlan + [i]) == Some(v) by {
        assert (topPlan + [i])[..|topPlan|] == topPlan;
      }
      PushWeighs(p, until, pushed, v, top.time, unit, i, total);
      StackedSnoc(p, until, pushed, plans, v, topPlan + [i]);
      PrefixTrans(stack, pushed, pushed + [v]);
      r := Ok(pushed + [v]);
      plans' := plans + [topPlan + [i]];
    }
  }

  /**
   * The `for i in (0..pressure_valves).rev()` loop of `compute_max_pressure`: every visit the top
   * visit can go on to is pushed, highest valve first. It panics at once when a valve index reaches
   * the bitmap's 64 bits. The stack weighs less than it did with the top still on it.
   */
  method Expand(p: Puzzle, until: nat, top: Visit, ghost topPlan: seq<nat>, stack: seq<Visit>, ghost plans: seq<seq<nat>>)
    returns (r: Result<seq<Visit>>, ghost plans': seq<seq<nat>>)
    requires Sized(p) && top.time <= until && Walk(p, until, topPlan) == Some(top)
    requires Stacked(p, until, stack, plans)
    ensures r.Panic? <==> p.pressureValves > 64
    ensures r.Ok? ==> Stacked(p, until, r.value, plans') && |stack| <= |r.value| && r.value[..|stack|] == stack
    ensures r.Ok? ==> Weight(p, until, r.value) < Weight(p, until, stack) + Power(p.pressureValves + 1, until - top.time)
  {
    var n := p.pressureValves;
    var unit := if top.time < until then Power(n + 1, until - top.time - 1) else 0;
    var pushed := stack;
    plans' := plans;
    ghost var total := Weight(p, until, stack) + Times(n, unit);
    for i: nat := n downto 0
      invariant Pushing(p, until, top, stack, pushed, plans', i, unit, total)
      invariant n > 64 ==> i == n
    {
      var next;
      next, plans' := Consider(p, until, top, topPlan, i, pushed, plans', unit, total, stack);
      if next.Panic? {
        return Panic(next.msg), plans';
      }
      pushed := next.value;
    }
    PushingDone(p, until, top, stack, pushed, plans', unit, total);
    r := Ok(pushed);
  }

  /**
   * `compute_max_pressure`: a depth-first search over plans, skipping an entry whose optimistic bound
   * is below the best found, and scoring an entry when it can go nowhere else. The answer is the
   * pressure of a plan that can be carried out. More than 64 valves with a rate panic.
   */
  method ComputeMaxPressure(p: Puzzle, until: nat) returns (r: Result<nat>, ghost plan: seq<nat>)
    requires Sized(p)
    ensures r.Panic? <==> p.pressureValves > 64
    ensures r.Ok? ==> Walk(p, until, plan).Some? && Walk(p, until, plan).value.entry.pressure == r.value
  {
    var maxPressure: nat := 0;
    plan := [];
    var entry := NewEntry(p.pressureValves);
    var stack := [Visit(p.start, 0, entry)];
    ghost var plans: seq<seq<nat>> := [[]];
    while stack != []
      invariant Stacked(p, until, stack, plans)
      invariant Walk(p, until, plan).Some? && Walk(p, until, plan).value.entry.pressure == maxPressure
      invariant p.pressureValves > 64 ==> stack == [Start(p)] && maxPressure == 0
      decreases Weight(p, until, stack)
    {
      var top := stack[|stack| - 1];
      ghost var topPlan := plans[|plans| - 1];
      assert Walk(p, until, topPlan) == Some(top) && top.time <= until;
      WeightLast(p, until, stack);
      stack, plans := stack[..|stack| - 1], plans[..|plans| - 1];
      var bound := MaxPressureIgnoringTravel(top.entry, top.time, until, p);
      if bound.Panic? {
        return Panic(bound.msg), plan;
      }
      if bound.value < maxPressure {
        continue;
      }
      var stackSize := |stack|;
      var expanded;
      expanded, plans := Expand(p, until, top, topPlan, stack, plans);
      if expanded.Panic? {
        return Panic(expanded.msg), plan;
      }
      stack := expanded.value;
      if stackSize == |stack| && top.entry.pressure > maxPressure {
        maxPressure := top.entry.pressure;
        plan := topPlan;
      }
    }
    r := Ok(maxPressure);
  }

  // ------------------------------------------------------------------
  // The search, with the elephant helping
  // ------------------------------------------------------------------

  /** Where a shared plan stands: your last valve and minute, the helper's, and the entry both share. */
  datatype Visit2 = Visit2(prev1: nat, time1: nat, prev2: nat, time2: nat, entry: Entry)

  /** Both at valve AA at minute 0, every valve with a non-zero rate still closed. */
  function Start2(p: Puzzle): Visit2
  {
    Visit2(p.start, 0, p.start, 0, Entry(0, BitMap(Ones(p.pressureValves))))
  }

  /** The minutes the two have left between them. */
  function Left(until: nat, v: Visit2): nat
  {
    (if v.time1 <= until then until - v.time1 else 0) + (if v.time2 <= until then until - v.time2 else 0)
  }

  /**
   * One turn of the `for i` loop of `compute_max_pressure_with_helper`: both try valve `to` from
   * where they stand, with the same entry. You take it when you can and are strictly closer;
   * otherwise the helper takes it when the helper can. When the helper cannot but you could (and
   * are not closer), nobody takes it.
   */
  function Assign(p: Puzzle, v: Visit2, to: nat, until: nat): (r: Result<Option<Visit2>>)
    requires Sized(p) && v.prev1 < |p.valves| && v.prev2 < |p.valves| && to < |p.valves|
    ensures r.Panic? <==> to >= 64
    ensures r.Ok? ==>
      var r1 := ProcessEntry(p, v.prev1, v.time1, v.entry, to, until).value;
      var r2 := ProcessEntry(p, v.prev2, v.time2, v.entry, to, until).value;
      var closer := p.distances[v.prev1][to] < p.distances[v.prev2][to];
      && (r.value.None? <==> r2.None? && !(r1.Some? && closer))
      && (r.value.Some? ==>
        var w := r.value.value;
        || (&& r1.Some? && closer && r1.value == Visit(w.prev1, w.time1, w.entry)
            && w.prev2 == v.prev2 && w.time2 == v.time2)
        || (&& !(r1.Some? && closer) && r2.Some? && r2.value == Visit(w.prev2, w.time2, w.entry)
            && w.prev1 == v.prev1 && w.time1 == v.time1))
    ensures r.Ok? && r.value.Some? ==> r.value.value.prev1 < |p.valves| && r.value.value.prev2 < |p.valves|
    ensures r.Ok? && r.value.Some? && v.time1 <= until && v.time2 <= until ==>
      var w := r.value.value;
      w.time1 <= until && w.time2 <= until && Left(until, w) < Left(until, v)
  {
    if to >= 64 then Panic("explicit panic")
    else
      var r1 := ProcessEntry(p, v.prev1, v.time1, v.entry, to, until).value;
      var r2 := ProcessEntry(p, v.prev2, v.time2, v.entry, to, until).value;
      if r1.Some? && p.distances[v.prev1][to] < p.distances[v.prev2][to] then
        Ok(Some(Visit2(r1.value.valve, r1.value.time, v.prev2, v.time2, r1.value.entry)))
      else if r2.Some? then
        Ok(Some(Visit2(v.prev1, v.time1, r2.value.valve, r2.value.time, r2.value.entry)))
      else Ok(None)
  }

  /** Where a shared plan leads: the valves in order, each handed to you or the helper by `Assign`. */
  ghost function Walk2(p: Puzzle, until: nat, plan: seq<nat>): (r: Option<Visit2>)
    requires Sized(p)
    ensures r.Some? ==> r.value.prev1 < |p.valves| && r.value.prev2 < |p.valves|
  {
    if plan == [] then Some(Start2(p))
    else
      var w := Walk2(p, until, plan[..|plan| - 1]);
      var to := plan[|plan| - 1];
      if w.None? || to >= p.pressureValves || to >= 64 then None
      else Assign(p, w.value, to, until).value
  }

  /** The stack of `compute_max_pressure_with_helper`: each visit is where its plan leads, within the time. */
  ghost predicate Stacked2(p: Puzzle, until: nat, stack: seq<Visit2>, plans: seq<seq<nat>>)
    requires Sized(p)
  {
    && |plans| == |stack|
    && (stack != [] ==>
      && Stacked2(p, until, stack[..|stack| - 1], plans[..|plans| - 1])
      && Walk2(p, until, plans[|plans| - 1]) == Some(stack[|stack| - 1])
      && stack[|stack| - 1].time1 <= until && stack[|stack| - 1].time2 <= until)
  }

  lemma Stacked2Snoc(p: Puzzle, until: nat, stack: seq<Visit2>, plans: seq<seq<nat>>, v: Visit2, plan: seq<nat>)
    requires Sized(p) && Stacked2(p, until, stack, plans) && Walk2(p, until, plan) == Some(v)
    requires v.time1 <= until && v.time2 <= until
    ensures Stacked2(p, until, stack + [v], plans + [plan])
  {
    assert (stack + [v])[..|stack|] == stack;
    assert (plans + [plan])[..|plans|] == plans;
  }

  /** The measure of the shared search: a visit with m minutes left between the two weighs (P + 1)^m. */
  function Weight2(p: Puzzle, until: nat, stack: seq<Visit2>): nat
  {
    if stack == [] then 0
    else Weight2(p, until, stack[..|stack| - 1]) + Power(p.pressureValves + 1, Left(until, stack[|stack| - 1]))
  }

  lemma Weight2Last(p: Puzzle, until: nat, stack: seq<Visit2>)
    requires stack != []
    ensures Weight2(p, until, stack) == Weight2(p, until, stack[..|stack| - 1]) + Power(p.pressureValves + 1, Left(until, stack[|stack| - 1]))
  {
  }

  lemma Weight2Snoc(p: Puzzle, until: nat, stack: seq<Visit2>, v: Visit2)
    ensures Weight2(p, until, stack + [v]) == Weight2(p, until, stack) + Power(p.pressureValves + 1, Left(until, v))
  {
    assert (stack + [v])[..|stack|] == stack;
  }

  lemma PushWeighs2(p: Puzzle, until: nat, pushed: seq<Visit2>, v: Visit2, left: nat, unit: nat, i: nat, total: nat)
    requires Left(until, v) < left && unit == Power(p.pressureValves + 1, left - 1)
    requires Weight2(p, until, pushed) + Times(i + 1, unit) <= total
    ensures Weight2(p, until, pushed + [v]) + Times(i, unit) <= total
  {
    Weight2Snoc(p, until, pushed, v);
    PowerMono(p.pressureValves + 1, Left(until, v), left - 1);
  }

  /** The loop below with i valves still to try, as `Pushing` is for the search alone. */
  ghost predicate Pushing2(p: Puzzle, until: nat, top: Visit2, stack: seq<Visit2>, pushed: seq<Visit2>, plans: seq<seq<nat>>,
                           i: nat, unit: nat, total: nat)
    requires Sized(p)
  {
    && Stacked2(p, until, pushed, plans) && |stack| <= |pushed| && pushed[..|stack|] == stack
    && (Left(until, top) == 0 ==> pushed == stack)
    && Weight2(p, until, pushed) + Times(i, unit) <= total
  }

  /** With no valve left to try, the stack weighs less than it did with the top still on it. */
  lemma Pushing2Done(p: Puzzle, until: nat, top: Visit2, stack: seq<Visit2>, pushed: seq<Visit2>, plans: seq<seq<nat>>,
                     unit: nat, total: nat)
    requires Sized(p) && Pushing2(p, until, top, stack, pushed, plans, 0, unit, total)
    requires unit == (if Left(until, top) > 0 then Power(p.pressureValves + 1, Left(until, top) - 1) else 0)
    requires total == Weight2(p, until, stack) + Times(p.pressureValves, unit)
    ensures Weight2(p, until, pushed) < Weight2(p, until, stack) + Power(p.pressureValves + 1, Left(until, top))
  {
    assert Times(0, unit) == 0;
    if Left(until, top) > 0 {
      UnitBound(p.pressureValves, Left(until, top), unit);
    } else {
      assert Power(p.pressureValves + 1, 0) == 1;
    }
  }

  /** One turn of the loop below: valve i goes to you or the helper, as `Assign` decides, and is pushed. */
  method Consider2(p: Puzzle, until: nat, top: Visit2, ghost topPlan: seq<nat>, i: nat, pushed: seq<Visit2>,
                   ghost plans: seq<seq<nat>>, ghost unit: nat, ghost total: nat, ghost stack: seq<Visit2>)
    returns (r: Result<seq<Visit2>>, ghost plans': seq<seq<nat>>)
    requires Sized(p) && top.time1 <= until && top.time2 <= until && Walk2(p, until, topPlan) == Some(top)
    requires i < p.pressureValves
    requires unit == if Left(until, top) > 0 then Power(p.pressureValves + 1, Left(until, top) - 1) else 0
    requires Pushing2(p, until, top, stack, pushed, plans, i + 1, unit, total)
    ensures r.Panic? <==> i >= 64
    ensures r.Ok? ==> Stacked2(p, until, r.value, plans') && |pushed| <= |r.value| && r.value[..|pushed|] == pushed
    ensures r.Ok? ==> Weight2(p, until, r.value) + Times(i, unit) <= total
    ensures r.Ok? && Left(until, top) == 0 ==> r.value == pushed
    ensures r.Ok? ==> Pushing2(p, until, top, stack, r.value, plans', i, unit, total)
  {
    plans' := plans;
    var next := Assign(p, top, i, until);
    if next.Panic? {
      return Panic(next.msg), plans';
    }
    r := Ok(pushed);
    if next.value.Some? {
      var v := next.value.value;
      assert Walk2(p, until, topPlan + [i]) == Some(v) by {
        assert (topPlan + [i])[..|topPlan|] == topPlan;
      }
      PushWeighs2(p, until, pushed, v, Left(until, top), unit, i, total);
      Stacked2Snoc(p, until, pushed, plans, v, topPlan + [i]);
      PrefixTrans(stack, pushed, pushed + [v]);
      r := Ok(pushed + [v]);
      plans' := plans + [topPlan + [i]];
    }
  }

  /** The `for i in (0..pressure_valves).rev()` loop of `compute_max_pressure_with_helper`. */
  method Expand2(p: Puzzle, until: nat, top: Visit2, ghost topPlan: seq<nat>, stack: seq<Visit2>, ghost plans: seq<seq<nat>>)
    returns (r: Result<seq<Visit2>>, ghost plans': seq<seq<nat>>)
    requires Sized(p) && top.time1 <= until && top.time2 <= until && Walk2(p, until, topPlan) == Some(top)
    requires Stacked2(p, until, stack, plans)
    ensures r.Panic? <==> p.pressureValves > 64
    ensures r.Ok? ==> Stacked2(p, until, r.value, plans') && |stack| <= |r.value| && r.value[..|stack|] == stack
    ensures r.Ok? ==> Weight2(p, until, r.value) < Weight2(p, until, stack) + Power(p.pressureValves + 1, Left(until, top))
  {
    var n := p.pressureValves;
    var unit := if Left(until, top) > 0 then Power(n + 1, Left(until, top) - 1) else 0;
    var pushed := stack;
    plans' := plans;
    ghost var total := Weight2(p, until, stack) + Times(n, unit);
    for i: nat := n downto 0
      invariant Pushing2(p, until, top, stack, pushed, plans', i, unit, total)
      invariant n > 64 ==> i == n
    {
      var next;
      next, plans' := Consider2(p, until, top, topPlan, i, pushed, plans', unit, total, stack);
      if next.Panic? {
        return Panic(next.msg), plans';
      }
      pushed := next.value;
    }
    Pushing2Done(p, until, top, stack, pushed, plans', unit, total);
    r := Ok(pushed);
  }

  /**
   * `compute_max_pressure_with_helper`: the same search over shared plans, pruned by the bound with
   * the helper. The answer is the pressure of a shared plan that can be carried out, each valve handed
   * out by the source's closest-first rule. More than 64 valves with a rate panic.
   */
  method ComputeMaxPressureWithHelper(p: Puzzle, until: nat) returns (r: Result<nat>, ghost plan: seq<nat>)
    requires Sized(p)
    ensures r.Panic? <==> p.pressureValves > 64
    ensures r.Ok? ==> Walk2(p, until, plan).Some? && Walk2(p, until, plan).value.entry.pressure == r.value
  {
    var maxPressure: nat := 0;
    plan := [];
    var entry := NewEntry(p.pressureValves);
    var stack := [Visit2(p.start, 0, p.start, 0, entry)];
    ghost var plans: seq<seq<nat>> := [[]];
    while stack != []
      invariant Stacked2(p, until, stack, plans)
      invariant Walk2(p, until, plan).Some? && Walk2(p, until, plan).value.entry.pressure == maxPressure
      invariant p.pressureValves > 64 ==> stack == [Start2(p)] && maxPressure == 0
      decreases Weight2(p, until, stack)
    {
      var top := stack[|stack| - 1];
      ghost var topPlan := plans[|plans| - 1];
      assert Walk2(p, until, topPlan) == Some(top) && top.time1 <= until && top.time2 <= until;
      Weight2Last(p, until, stack);
      stack, plans := stack[..|stack| - 1], plans[..|plans| - 1];
      var bound := MaxPressureIgnoringTravelWithHelper(top.entry, top.time1, top.time2, until, p);
      if bound.Panic? {
        return Panic(bound.msg), plan;
      }
      if bound.value < maxPressure {
        continue;
      }
      var stackSize := |stack|;
      var expanded;
      expanded, plans := Expand2(p, until, top, topPlan, stack, plans);
      if expanded.Panic? {
        return Panic(expanded.msg), plan;
      }
      stack := expanded.value;
      if stackSize == |stack| && top.entry.pressure > maxPressure {
        maxPressure := top.entry.pressure;
        plan := topPlan;
      }
    }
    r := Ok(maxPressure);
  }

  // ------------------------------------------------------------------
  // Parsing the scan
  // ------------------------------------------------------------------

  const NoneUnwrapped := "called `Option::unwrap()` on a `None` value"
  const RateExpected := "Expecting a number for rate"
  const KeyMissing := "no entry found for key"
  const U16Max: nat := 0xFFFF

  /** One line of the scan: the valve's code, its flow rate and the codes its tunnels lead to. */
  datatype Scan = Scan(code: string, rate: nat, links: seq<string>)

  /** The code in a tunnel word: the text before its first comma ("DD," gives "DD"). */
  function LinkCode(word: string): string
  {
    SplitOn(word, {','})[0]
  }

  /**
   * One line, `parse`'s loop body: word 1 is the code, the rate sits between '=' and ';' in word 4,
   * and every word from 9 on names a tunnel. A line too short for word 1 or word 4, or with nothing
   * after the '=', panics on an unwrap; a rate that is not a `u16` panics.
   */
  function ParseLine(line: string): (r: Result<Scan>)
    ensures r.Ok? ==> r.value.rate <= U16Max
  {
    var w := SplitWhitespace(line);
    if |w| < 5 then Panic(NoneUnwrapped)
    else
      var pieces := SplitTerminator(w[4], {'=', ';'});
      if |pieces| < 2 then Panic(NoneUnwrapped)
      else
        var rate := ParseUnsigned(pieces[1], U16Max);
        if rate.None? then Panic(RateExpected)
        else Ok(Scan(w[1], rate.value, TunnelCodes(w)))
  }

  /** The codes named by the words from 9 on; none when the line has no more than nine words. */
  function TunnelCodes(w: seq<string>): (r: seq<string>)
    ensures |r| == if |w| <= 9 then 0 else |w| - 9
    ensures forall k :: 0 <= k < |r| ==> r[k] == LinkCode(w[9 + k])
  {
    if |w| <= 9 then [] else seq(|w| - 9, k requires 0 <= k < |w| - 9 => LinkCode(w[9 + k]))
  }

  /** A valid code or tunnel name: some characters, none of them whitespace or a comma. */
  predicate Name(code: string)
  {
    code != [] && FreeOf(code, Whitespace + {','})
  }

  /** The line the puzzle's scan shows for a valve: "Valve AA has flow rate=0; tunnels lead to valves DD, II, BB". */
  function ShowScan(v: Scan): string
  {
    Join(ScanWords(v), ' ')
  }

  function ScanWords(v: Scan): seq<string>
  {
    ["Valve", v.code, "has", "flow", "rate=" + DigitsOf(v.rate) + ";", "tunnels", "lead", "to", "valves"] + LinkWords(v.links)
  }

  /** The tunnel names as words: a comma after each but the last. */
  function LinkWords(links: seq<string>): (r: seq<string>)
    ensures |r| == |links|
    ensures forall k :: 0 <= k < |links| ==> r[k] == if k < |links| - 1 then links[k] + [','] else links[k]
  {
    seq(|links|, k requires 0 <= k < |links| => if k < |links| - 1 then links[k] + [','] else links[k])
  }

  /** The rate word "rate=N;" splits into "rate" and N. */
  lemma RateWord(rate: nat)
    ensures SplitTerminator("rate=" + DigitsOf(rate) + ";", {'=', ';'}) == ["rate", DigitsOf(rate)]
  {
    var n := DigitsOf(rate);
    var seps := {'=', ';'};
    DigitsFree(rate, seps);
    assert "rate=" + n + ";" == "rate" + ['='] + (n + [';'] + []);
    SplitOnPiece(n, ';', [], seps);
    SplitOnPiece("rate", '=', n + [';'] + [], seps);
  }

  /** The code is read back from every tunnel word. */
  lemma LinkWordCode(name: string)
    requires Name(name)
    ensures LinkCode(name) == name && LinkCode(name + [',']) == name
  {
    SplitOnFree(name, {','});
    assert name + [','] == name + [','] + [];
    SplitOnPiece(name, ',', [], {','});
  }

  lemma RateWordPrintable(rate: nat)
    ensures Printable("rate=" + DigitsOf(rate) + ";")
  {
    ValueOfDigits(rate);
  }

  /** A well-formed scan line splits into its words. */
  lemma ShowScanWords(v: Scan)
    requires Name(v.code) && forall k :: 0 <= k < |v.links| ==> Name(v.links[k])
    ensures SplitWhitespace(ShowScan(v)) == ScanWords(v)
  {
    ScanHeadFree(v);
    ScanLinksFree(v);
    WordsJoined(ScanWords(v));
  }

  /** The nine words before the tunnel names are non-empty and hold no whitespace. */
  lemma ScanHeadFree(v: Scan)
    requires Name(v.code)
    ensures forall i :: 0 <= i < 9 ==> ScanWords(v)[i] != [] && FreeOf(ScanWords(v)[i], Whitespace)
  {
    var words := ScanWords(v);
    forall i | 0 <= i < 9 ensures words[i] != [] && FreeOf(words[i], Whitespace) {
      if i == 4 {
        RateWordPrintable(v.rate);
        PrintableFree(words[i]);
      } else if i != 1 {
        PrintableFree(words[i]);
      }
    }
  }

  /** The tunnel words are non-empty and hold no whitespace. */
  lemma ScanLinksFree(v: Scan)
    requires forall k :: 0 <= k < |v.links| ==> Name(v.links[k])
    ensures forall i :: 9 <= i < |ScanWords(v)| ==> ScanWords(v)[i] != [] && FreeOf(ScanWords(v)[i], Whitespace)
  {
    var words := ScanWords(v);
    forall i | 9 <= i < |words| ensures words[i] != [] && FreeOf(words[i], Whitespace) {
      assert words[i] == LinkWords(v.links)[i - 9];
      assert Name(v.links[i - 9]);
    }
  }

  /** `parse` reads back the valve of every well-formed scan line. */
  lemma ParseShowScan(v: Scan)
    requires Name(v.code) && v.rate <= U16Max && forall k :: 0 <= k < |v.links| ==> Name(v.links[k])
    ensures ParseLine(ShowScan(v)) == Ok(v)
  {
    ShowScanWords(v);
    RateWord(v.rate);
    ParseUnsignedDigits(v.rate, U16Max);
    ScanWordsLinks(v);
    var w := ScanWords(v);
    assert w[1] == v.code && w[4] == "rate=" + DigitsOf(v.rate) + ";";
  }

  /** The tunnel words of a scan line name its tunnels. */
  lemma ScanWordsLinks(v: Scan)
    requires forall k :: 0 <= k < |v.links| ==> Name(v.links[k])
    ensures TunnelCodes(ScanWords(v)) == v.links
  {
    var words := ScanWords(v);
    var links := TunnelCodes(words);
    forall k | 0 <= k < |v.links| ensures links[k] == v.links[k] {
      assert words[9 + k] == LinkWords(v.links)[k];
      LinkWordCode(v.links[k]);
    }
  }

  // ------------------------------------------------------------------
  // Sorting by falling rate
  // ------------------------------------------------------------------

  /** Rates never rise along the sequence. */
  predicate Descending(s: seq<Scan>)
  {
    forall i, j :: 0 <= i < j < |s| ==> s[i].rate >= s[j].rate
  }

  /** The scans with rate k, in the order they appear. */
  function WithRate(s: seq<Scan>, k: nat): (r: seq<Scan>)
    ensures |r| <= |s|
  {
    if s == [] then []
    else (if s[0].rate == k then [s[0]] else []) + WithRate(s[1..], k)
  }

  /** One scan put in front of the first one whose rate is not higher: after the higher, before the rest. */
  function Insert(x: Scan, t: seq<Scan>): (r: seq<Scan>)
    requires Descending(t)
    ensures |r| == |t| + 1 && multiset(r) == multiset(t) + multiset{x}
    ensures r[0] == x || (t != [] && r[0] == t[0])
    ensures Descending(r)
  {
    if t == [] || t[0].rate <= x.rate then [x] + t
    else
      var rest := Insert(x, t[1..]);
      assert multiset(t) == multiset{t[0]} + multiset(t[1..]) by { assert t == [t[0]] + t[1..]; }
      DescendingCons(t[0], rest);
      [t[0]] + rest
  }

  lemma DescendingCons(x: Scan, t: seq<Scan>)
    requires Descending(t) && (t != [] ==> x.rate >= t[0].rate)
    ensures Descending([x] + t)
  {
  }

  /**
   * `values.sort_by_key(|(_, rate, _)| Reverse(*rate))`: a stable sort on falling rate, written as an
   * insertion sort from the back.
   */
  function SortByRate(s: seq<Scan>): (r: seq<Scan>)
    ensures |r| == |s| && multiset(r) == multiset(s)
    ensures Descending(r)
  {
    if s == [] then []
    else
      assert multiset(s) == multiset{s[0]} + multiset(s[1..]) by { assert s == [s[0]] + s[1..]; }
      Insert(s[0], SortByRate(s[1..]))
  }

  lemma {:induction false} InsertWithRate(x: Scan, t: seq<Scan>, k: nat)
    requires Descending(t)
    ensures WithRate(Insert(x, t), k) == WithRate([x] + t, k)
    decreases |t|
  {
    if !(t == [] || t[0].rate <= x.rate) {
      var rest := Insert(x, t[1..]);
      InsertWithRate(x, t[1..], k);
      WithRateCons(t[0], rest, k);
      WithRateCons(x, t, k);
      WithRateCons(x, t[1..], k);
      WithRateCons(t[0], t[1..], k);
      assert [t[0]] + t[1..] == t;
      if k == x.rate {
        assert WithRate(Insert(x, t), k) == WithRate(rest, k);
      } else {
        assert WithRate([x] + t, k) == WithRate(t, k);
      }
    }
  }

  lemma WithRateCons(a: Scan, s: seq<Scan>, k: nat)
    ensures WithRate([a] + s, k) == (if a.rate == k then [a] else []) + WithRate(s, k)
  {
    assert ([a] + s)[1..] == s;
  }

  /** The sort is stable: the scans of every rate keep the order they had in the scan. */
  lemma {:induction false} SortByRateStable(s: seq<Scan>, k: nat)
    ensures WithRate(SortByRate(s), k) == WithRate(s, k)
    decreases |s|
  {
    if s != [] {
      SortByRateStable(s[1..], k);
      InsertWithRate(s[0], SortByRate(s[1..]), k);
      assert ([s[0]] + SortByRate(s[1..]))[1..] == SortByRate(s[1..]);
    }
  }

  // ------------------------------------------------------------------
  // parse
  // ------------------------------------------------------------------

  /** The scan lines read in order; the first bad line panics. */
  function ScanLines(lines: seq<string>): (r: Result<seq<Scan>>)
    ensures r.Ok? <==> forall k :: 0 <= k < |lines| ==> ParseLine(lines[k]).Ok?
    ensures r.Ok? ==> |r.value| == |lines| && forall k :: 0 <= k < |lines| ==> r.value[k] == ParseLine(lines[k]).value
  {
    var rs := seq(|lines|, k requires 0 <= k < |lines| => ParseLine(lines[k]));
    assert forall k :: 0 <= k < |lines| ==> rs[k] == ParseLine(lines[k]);
    Gather(rs)
  }

  /** The values of the results in order; the first panic among them, if any. */
  function Gather(rs: seq<Result<Scan>>): (r: Result<seq<Scan>>)
    ensures r.Ok? <==> forall k :: 0 <= k < |rs| ==> rs[k].Ok?
    ensures r.Ok? ==> |r.value| == |rs| && forall k :: 0 <= k < |rs| ==> r.value[k] == rs[k].value
  {
    if rs == [] then Ok([])
    else
      var prev := Gather(rs[..|rs| - 1]);
      var last := rs[|rs| - 1];
      if prev.Panic? then prev
      else if last.Panic? then Panic(last.msg)
      else Ok(prev.value + [last.value])
  }

  /** m maps every code of s, and only those, to the last position holding it. */
  ghost predicate IndexesCodes(m: map<string, nat>, s: seq<Scan>)
  {
    && (forall c :: c in m <==> exists i :: 0 <= i < |s| && s[i].code == c)
    && (forall c :: c in m ==> m[c] < |s| && s[m[c]].code == c && forall j :: m[c] < j < |s| ==> s[j].code != c)
  }

  /** The map `parse` builds from codes to ids: a later valve with the same code overwrites the id. */
  function Codes(s: seq<Scan>): (r: map<string, nat>)
    ensures IndexesCodes(r, s)
  {
    if s == [] then map[]
    else
      var prev := Codes(s[..|s| - 1]);
      CodesSnoc(s, prev);
      prev[s[|s| - 1].code := |s| - 1]
  }

  lemma CodesSnoc(s: seq<Scan>, prev: map<string, nat>)
    requires s != [] && IndexesCodes(prev, s[..|s| - 1])
    ensures IndexesCodes(prev[s[|s| - 1].code := |s| - 1], s)
  {
    var n := |s|;
    var m := prev[s[n - 1].code := n - 1];
    forall c ensures c in m <==> exists i :: 0 <= i < n && s[i].code == c {
      if c != s[n - 1].code && exists i :: 0 <= i < n && s[i].code == c {
        var i :| 0 <= i < n && s[i].code == c;
        assert s[..n - 1][i].code == c;
      }
    }
    forall c | c in m ensures m[c] < n && s[m[c]].code == c && forall j :: m[c] < j < n ==> s[j].code != c {
      if c != s[n - 1].code {
        assert s[..n - 1][prev[c]] == s[prev[c]];
        forall j | prev[c] < j < n ensures s[j].code != c {
          if j < n - 1 {
            assert s[..n - 1][j] == s[j];
          }
        }
      }
    }
  }

  /** The valves `parse` builds: each scan's code and rate, its id its position. */
  function ValvesOf(s: seq<Scan>): (r: seq<Valve>)
    ensures |r| == |s| && forall i :: 0 <= i < |s| ==> r[i] == Valve(i, s[i].code, s[i].rate)
  {
    seq(|s|, i requires 0 <= i < |s| => Valve(i, s[i].code, s[i].rate))
  }

  /** Every tunnel leads to a code of the scan. */
  predicate Known(codes: map<string, nat>, s: seq<Scan>)
  {
    forall i, k :: 0 <= i < |s| && 0 <= k < |s[i].links| ==> s[i].links[k] in codes
  }

  /** Valve v (at index a) has a tunnel to valve b. */
  predicate Linked(codes: map<string, nat>, v: Scan, b: nat)
    requires forall k :: 0 <= k < |v.links| ==> v.links[k] in codes
  {
    exists k :: 0 <= k < |v.links| && codes[v.links[k]] == b
  }

  /**
   * The distance `parse` records from valve a to valve b: 1 along a tunnel and `u32::MAX` (unknown)
   * without one. Every tunnel of a first sets a's own entry to 0 before marking its end, so that
   * entry is 0 for a valve with tunnels, unless its last tunnel leads back to itself.
   */
  function Tunnel(codes: map<string, nat>, v: Scan, a: nat, b: nat): nat
    requires forall k :: 0 <= k < |v.links| ==> v.links[k] in codes
  {
    if a == b && v.links != [] then (if codes[v.links[|v.links| - 1]] == a then 1 else 0)
    else if Linked(codes, v, b) then 1
    else U32Max
  }

  /** What `parse` returns: the valves, the first distances and the id of valve AA. */
  datatype Parsed = Parsed(valves: seq<Valve>, distances: seq<seq<nat>>, start: nat)

  /**
   * The row of valve `id` after `for link in links`: the diagonal set to 0 and each tunnel's end to 1.
   * A tunnel to an unknown code panics.
   */
  method LinkRow(codes: map<string, nat>, v: Scan, id: nat, n: nat) returns (r: Result<seq<nat>>)
    requires id < n && forall c :: c in codes ==> codes[c] < n
    ensures r.Ok? <==> forall k :: 0 <= k < |v.links| ==> v.links[k] in codes
    ensures r.Ok? ==> |r.value| == n && forall b :: 0 <= b < n ==> r.value[b] == Tunnel(codes, v, id, b)
  {
    var row: seq<nat> := seq(n, _ => U32Max);
    for j: nat := 0 to |v.links|
      invariant forall k :: 0 <= k < j ==> v.links[k] in codes
      invariant |row| == n
      invariant forall b :: 0 <= b < n ==>
        row[b] == if b == id && j > 0 then (if codes[v.links[j - 1]] == id then 1 else 0)
                  else if exists k :: 0 <= k < j && codes[v.links[k]] == b then 1
                  else U32Max
    {
      if v.links[j] !in codes {
        return Panic(KeyMissing);
      }
      var linkId := codes[v.links[j]];
      row := row[id := 0];
      row := row[linkId := 1];
    }
    r := Ok(row);
  }

  /** `parse`'s first loop: every line scanned, in order. */
  method ScanAll(lines: seq<string>) returns (r: Result<seq<Scan>>)
    ensures r.Ok? <==> ScanLines(lines).Ok?
    ensures r.Ok? ==> r == ScanLines(lines)
  {
    var values: seq<Scan> := [];
    ghost var all := ScanLines(lines);
    for i: nat := 0 to |lines|
      invariant |values| == i
      invariant forall k :: 0 <= k < i ==> ParseLine(lines[k]).Ok? && values[k] == ParseLine(lines[k]).value
    {
      var line := ParseLine(lines[i]);
      if line.Panic? {
        assert !all.Ok?;
        return Panic(line.msg);
      }
      values := values + [line.value];
    }
    assert all.Ok? && values == all.value;
    r := Ok(values);
  }

  /** `parse`'s second loop: each valve numbered by its position and its code entered in the map. */
  method Number(values: seq<Scan>) returns (codes: map<string, nat>, valves: seq<Valve>)
    ensures codes == Codes(values) && valves == ValvesOf(values)
  {
    codes, valves := map[], [];
    for id: nat := 0 to |values|
      invariant codes == Codes(values[..id]) && valves == ValvesOf(values[..id])
    {
      assert values[..id + 1][..id] == values[..id];
      codes := codes[values[id].code := id];
      valves := valves + [Valve(id, values[id].code, values[id].rate)];
    }
    assert values[..|values|] == values;
  }

  /** `parse`'s third loop: the matrix of `u32::MAX`, with every valve's tunnels marked in its row. */
  method LinkAll(codes: map<string, nat>, values: seq<Scan>) returns (r: Result<seq<seq<nat>>>)
    requires forall c :: c in codes ==> codes[c] < |values|
    ensures r.Ok? <==> Known(codes, values)
    ensures r.Ok? ==> Square(r.value, |values|)
    ensures r.Ok? ==> forall a, b :: 0 <= a < |values| && 0 <= b < |values| ==> r.value[a][b] == Tunnel(codes, values[a], a, b)
  {
    var n := |values|;
    var distances: seq<seq<nat>> := seq(n, _ => seq(n, _ => U32Max));
    for id: nat := 0 to n
      invariant Square(distances, n)
      invariant forall a, k :: 0 <= a < id && 0 <= k < |values[a].links| ==> values[a].links[k] in codes
      invariant forall a, b :: 0 <= a < id && 0 <= b < n ==> distances[a][b] == Tunnel(codes, values[a], a, b)
    {
      var row := LinkRow(codes, values[id], id, n);
      if row.Panic? {
        return Panic(row.msg);
      }
      distances := distances[id := row.value];
    }
    r := Ok(distances);
  }

  /**
   * `parse`: scan every line, sort the scans by falling rate, number them, and fill the first
   * distances from the tunnels. A bad line, a tunnel to an unknown code, or no valve AA panics.
   */
  method Parse(input: string) returns (r: Result<Parsed>)
    ensures var scanned := ScanLines(Lines(input));
      r.Ok? <==> scanned.Ok? && Known(Codes(SortByRate(scanned.value)), SortByRate(scanned.value))
                 && "AA" in Codes(SortByRate(scanned.value))
    ensures r.Ok? ==>
      var s := SortByRate(ScanLines(Lines(input)).value);
      var codes := Codes(s);
      && r.value.valves == ValvesOf(s) && Square(r.value.distances, |s|) && r.value.start == codes["AA"]
      && forall a, b :: 0 <= a < |s| && 0 <= b < |s| ==> r.value.distances[a][b] == Tunnel(codes, s[a], a, b)
    ensures r.Ok? ==> r.value.start < |r.value.valves| && Positive(r.value.distances, |r.value.valves|)
  {
    var scanned := ScanAll(Lines(input));
    if scanned.Panic? {
      return Panic(scanned.msg);
    }
    var values := SortByRate(scanned.value);
    var codes, valves := Number(values);
    var distances := LinkAll(codes, values);
    if distances.Panic? {
      return Panic(distances.msg);
    }
    if "AA" !in codes {
      return Panic(KeyMissing);
    }
    TunnelPositive(codes, values, distances.value);
    r := Ok(Parsed(valves, distances.value, codes["AA"]));
  }

  // ------------------------------------------------------------------
  // compute_distances
  // ------------------------------------------------------------------

  /** Every distance between two different valves is at least one step. */
  ghost predicate Positive(d: seq<seq<nat>>, n: nat)
    requires Square(d, n)
  {
    forall a, b :: 0 <= a < n && 0 <= b < n && a != b ==> d[a][b] >= 1
  }

  ghost predicate Symmetric(d: seq<seq<nat>>, n: nat)
    requires Square(d, n)
  {
    forall a, b :: 0 <= a < n && 0 <= b < n ==> d[a][b] == d[b][a]
  }

  /** d2 only lowers entries of d1, keeps its diagonal, and keeps it symmetric and positive if it was. */
  ghost predicate Tightens(d1: seq<seq<nat>>, d2: seq<seq<nat>>, n: nat)
    requires Square(d1, n)
  {
    && Square(d2, n)
    && (forall a, b :: 0 <= a < n && 0 <= b < n ==> d2[a][b] <= d1[a][b])
    && (forall a :: 0 <= a < n ==> d2[a][a] == d1[a][a])
    && (Symmetric(d1, n) ==> Symmetric(d2, n))
    && (Positive(d1, n) ==> Positive(d2, n))
  }

  /** Outside row and column `from`, d2 is d1. */
  ghost predicate Only(d1: seq<seq<nat>>, d2: seq<seq<nat>>, n: nat, from: nat)
    requires Square(d1, n) && Square(d2, n)
  {
    forall a, b :: 0 <= a < n && 0 <= b < n && a != from && b != from ==> d2[a][b] == d1[a][b]
  }

  lemma TightensTrans(d1: seq<seq<nat>>, d2: seq<seq<nat>>, d3: seq<seq<nat>>, n: nat, from: nat)
    requires Square(d1, n) && Tightens(d1, d2, n) && Tightens(d2, d3, n)
    requires Only(d1, d2, n, from) && Only(d2, d3, n, from)
    ensures Tightens(d1, d3, n) && Only(d1, d3, n, from)
  {
    TightensChain(d1, d2, d3, n);
  }

  lemma TightensChain(d1: seq<seq<nat>>, d2: seq<seq<nat>>, d3: seq<seq<nat>>, n: nat)
    requires Square(d1, n) && Tightens(d1, d2, n) && Tightens(d2, d3, n)
    ensures Tightens(d1, d3, n)
  {
  }

  /** `distances[a][b] = distances[a][b].min(v)`. */
  function Lower(d: seq<seq<nat>>, n: nat, a: nat, b: nat, v: nat): (r: seq<seq<nat>>)
    requires Square(d, n) && a < n && b < n
    ensures Square(r, n)
    ensures forall x, y :: 0 <= x < n && 0 <= y < n ==> r[x][y] == if x == a && y == b then Min(d[a][b], v) else d[x][y]
  {
    var row: seq<nat> := d[a][b := Min(d[a][b], v)];
    d[a := row]
  }

  function Min(x: nat, y: nat): nat { if x <= y then x else y }

  /** Lowering both entries between `from` and another valve to the same length tightens the matrix. */
  lemma LowerPair(d: seq<seq<nat>>, n: nat, from: nat, next: nat, v: nat)
    requires Square(d, n) && from < n && next < n && from != next
    requires Positive(d, n) ==> v >= 1
    ensures Tightens(d, Lower(Lower(d, n, from, next, v), n, next, from, v), n)
    ensures Only(d, Lower(Lower(d, n, from, next, v), n, next, from, v), n, from)
  {
  }

  /**
   * The `for curr_next` loop: from `curr`, reached at `distance`, every known neighbour other than
   * `curr` and `from` gets its distance to and from `from` lowered to the way through `curr`, and is
   * queued with its distance from `from`.
   */
  method Relax(d: seq<seq<nat>>, n: nat, from: nat, curr: nat, distance: nat, queue: seq<(nat, nat)>)
    returns (d': seq<seq<nat>>, queue': seq<(nat, nat)>)
    requires Square(d, n) && from < n && curr < n
    ensures Tightens(d, d', n) && Only(d, d', n, from)
    ensures |queue| <= |queue'| && queue'[..|queue|] == queue
    ensures forall k :: |queue| <= k < |queue'| ==> queue'[k].0 < n
  {
    d', queue' := d, queue;
    for next: nat := 0 to n
      invariant Tightens(d, d', n) && Only(d, d', n, from)
      invariant |queue| <= |queue'| && queue'[..|queue|] == queue
      invariant forall k :: |queue| <= k < |queue'| ==> queue'[k].0 < n
    {
      if d'[curr][next] == U32Max || next == curr || next == from {
        continue;
      }
      var v := distance + d'[curr][next];
      ghost var before := d';
      LowerPair(before, n, from, next, v);
      d' := Lower(d', n, from, next, v);
      d' := Lower(d', n, next, from, v);
      TightensTrans(d, before, d', n, from);
      queue' := queue' + [(next, d'[from][next])];
    }
  }

  /**
   * The breadth-first search from `from` until `to` leaves the queue. The source's loop need not end
   * (once `to` cannot be reached, valves keep being queued again), so the model takes at most `fuel`
   * turns and gives None when they run out.
   */
  method Search(d: seq<seq<nat>>, n: nat, from: nat, to: nat, fuel: nat) returns (r: Option<seq<seq<nat>>>)
    requires Square(d, n) && from < n
    ensures r.Some? ==> Tightens(d, r.value, n) && Only(d, r.value, n, from)
  {
    var dist := d;
    var queue: seq<(nat, nat)> := [(from, 0)];
    var left := fuel;
    while queue != []
      invariant Tightens(d, dist, n) && Only(d, dist, n, from)
      invariant forall k :: 0 <= k < |queue| ==> queue[k].0 < n
      decreases left
    {
      if left == 0 {
        return None;
      }
      left := left - 1;
      var (curr, distance) := queue[0];
      queue := queue[1..];
      if curr == to {
        break;
      }
      ghost var before := dist;
      dist, queue := Relax(dist, n, from, curr, distance, queue);
      TightensTrans(d, before, dist, n, from);
    }
    r := Some(dist);
  }

  /** How a computation with a bounded search ends: a value, out of fuel, or a panic. */
  datatype Outcome<T> = Done(value: T) | Stalled | Panicked(msg: string)

  /** A valve `compute_distances` searches from and to: one with a rate, or the start. */
  predicate Source(valves: seq<Valve>, start: nat, x: nat)
    requires x < |valves|
  {
    valves[x].rate != 0 || x == start
  }

  /** A source below `bound`: one the search has started from once `bound` valves are done. */
  predicate SearchedFrom(valves: seq<Valve>, start: nat, bound: nat, x: nat)
    requires x < |valves|
  {
    x < bound && Source(valves, start, x)
  }

  /** d2 is d1 between any two valves neither of which the search has started from. */
  ghost predicate Untouched(d1: seq<seq<nat>>, d2: seq<seq<nat>>, valves: seq<Valve>, start: nat, bound: nat)
    requires Square(d1, |valves|) && Square(d2, |valves|)
  {
    forall a, b :: 0 <= a < |valves| && 0 <= b < |valves| && !SearchedFrom(valves, start, bound, a) && !SearchedFrom(valves, start, bound, b)
      ==> d2[a][b] == d1[a][b]
  }

  /**
   * `compute_distances`: a search from every source but the last valve to every later source. The
   * matrix only gets shorter, keeps its diagonal, stays symmetric and positive if it was, and changes
   * only in the rows and columns of the sources searched from. No valves at all underflow `len() - 1`.
   */
  method ComputeDistances(valves: seq<Valve>, d: seq<seq<nat>>, start: nat, fuel: nat) returns (r: Outcome<seq<seq<nat>>>)
    requires Square(d, |valves|)
    ensures r.Panicked? <==> valves == []
    ensures r.Done? ==> Tightens(d, r.value, |valves|) && Untouched(d, r.value, valves, start, |valves| - 1)
  {
    var n := |valves|;
    if n == 0 {
      return Panicked("attempt to subtract with overflow");
    }
    var dist := d;
    for from: nat := 0 to n - 1
      invariant Tightens(d, dist, n) && Untouched(d, dist, valves, start, from)
    {
      if valves[from].rate == 0 && from != start {
        forall a, b | 0 <= a < n && 0 <= b < n &&
          !SearchedFrom(valves, start, from + 1, a) && !SearchedFrom(valves, start, from + 1, b)
          ensures dist[a][b] == d[a][b]
        {
          assert !SearchedFrom(valves, start, from, a) && !SearchedFrom(valves, start, from, b);
        }
        continue;
      }
      ghost var outer := dist;
      for to: nat := from + 1 to n
        invariant Tightens(d, dist, n) && Tightens(outer, dist, n) && Only(outer, dist, n, from)
      {
        if valves[to].rate == 0 && to != start {
          continue;
        }
        ghost var before := dist;
        var found := Search(dist, n, from, to, fuel);
        if found.None? {
          return Stalled;
        }
        dist := found.value;
        TightensTrans(outer, before, dist, n, from);
        TightensChain(d, before, dist, n);
      }
      forall a, b | 0 <= a < n && 0 <= b < n &&
        !SearchedFrom(valves, start, from + 1, a) && !SearchedFrom(valves, start, from + 1, b)
        ensures dist[a][b] == d[a][b]
      {
        assert a != from && b != from;
        assert !SearchedFrom(valves, start, from, a) && !SearchedFrom(valves, start, from, b);
      }
    }
    r := Done(dist);
  }

  // ------------------------------------------------------------------
  // Puzzle::new, generator and the two parts
  // ------------------------------------------------------------------

  /** `valves.iter().find(|v| v.rate == 0)`: the position of the first valve without flow. */
  function FirstIdle(valves: seq<Valve>): (r: Option<nat>)
    ensures r.Some? <==> exists i :: 0 <= i < |valves| && valves[i].rate == 0
    ensures r.Some? ==> r.value < |valves| && valves[r.value].rate == 0 && forall j :: 0 <= j < r.value ==> valves[j].rate != 0
  {
    if valves == [] then None
    else if valves[0].rate == 0 then Some(0)
    else
      var rest := FirstIdle(valves[1..]);
      assert forall i :: 1 <= i < |valves| ==> valves[i] == valves[1..][i - 1];
      if rest.None? then None else Some(rest.value + 1)
  }

  /**
   * `Puzzle::new`: the number of valves with a rate is the id of the first valve without one, which
   * must exist. The loops that follow compute minima nobody reads, so they leave no trace here.
   */
  function NewPuzzle(valves: seq<Valve>, distances: seq<seq<nat>>, start: nat): (r: Result<Puzzle>)
    ensures r.Ok? <==> exists i :: 0 <= i < |valves| && valves[i].rate == 0
    ensures r.Ok? ==> r.value.valves == valves && r.value.distances == distances && r.value.start == start
    ensures r.Ok? ==> exists i :: 0 <= i < |valves| && valves[i].rate == 0 && r.value.pressureValves == valves[i].id
                                  && forall j :: 0 <= j < i ==> valves[j].rate != 0
  {
    var idle := FirstIdle(valves);
    if idle.None? then Panic(NoneUnwrapped)
    else Ok(Puzzle(valves, distances, start, valves[idle.value].id))
  }

  /**
   * With the valves sorted by falling rate and numbered by position, the valves with a rate are
   * exactly those below `pressureValves`: the bitmap of closed valves and every loop over
   * `0..pressure_valves` cover them all and nothing else.
   */
  lemma PressureValvesFirst(s: seq<Scan>, distances: seq<seq<nat>>, start: nat)
    requires Descending(s) && NewPuzzle(ValvesOf(s), distances, start).Ok?
    ensures var p := NewPuzzle(ValvesOf(s), distances, start).value;
      p.pressureValves < |s| && forall i :: 0 <= i < |s| ==> (s[i].rate > 0 <==> i < p.pressureValves)
  {
    var p := NewPuzzle(ValvesOf(s), distances, start).value;
    var valves := ValvesOf(s);
    var k :| 0 <= k < |valves| && valves[k].rate == 0 && p.pressureValves == valves[k].id
             && forall j :: 0 <= j < k ==> valves[j].rate != 0;
    assert p.pressureValves == k;
    forall i | 0 <= i < |s| ensures s[i].rate > 0 <==> i < k {
      if i < k {
        assert valves[i].rate != 0;
      } else {
        assert s[k].rate == 0;
      }
    }
  }

  /** The lines `parse` accepts: each scans, every tunnel leads to a known code, and valve AA exists. */
  ghost predicate Parses(input: string)
  {
    var scanned := ScanLines(Lines(input));
    scanned.Ok? && Known(Codes(SortByRate(scanned.value)), SortByRate(scanned.value))
    && "AA" in Codes(SortByRate(scanned.value))
  }

  /** The scans of the input, sorted as `parse` sorts them. */
  ghost function Sorted(input: string): seq<Scan>
    requires ScanLines(Lines(input)).Ok?
  {
    SortByRate(ScanLines(Lines(input)).value)
  }

  /** Every valve has a flow rate: `Puzzle::new` finds no valve without one. */
  predicate NoIdle(s: seq<Scan>)
  {
    forall i :: 0 <= i < |s| ==> s[i].rate != 0
  }

  /** Every distance `parse` records between two different valves is 1 or unknown, never 0. */
  lemma TunnelPositive(codes: map<string, nat>, s: seq<Scan>, d: seq<seq<nat>>)
    requires Known(codes, s) && Square(d, |s|)
    requires forall a, b :: 0 <= a < |s| && 0 <= b < |s| ==> d[a][b] == Tunnel(codes, s[a], a, b)
    ensures Positive(d, |s|)
  {
  }

  /**
   * The last two steps of `generator`, on the valves of sorted scans s: fill in the distances and
   * count the valves with a rate. Panics only when every valve has a rate.
   */
  method Build(ghost s: seq<Scan>, parsed: Parsed, fuel: nat) returns (r: Outcome<Puzzle>)
    requires Descending(s) && parsed.valves == ValvesOf(s) && Square(parsed.distances, |s|) && parsed.start < |s|
    requires Positive(parsed.distances, |s|)
    ensures !r.Stalled? ==> (r.Panicked? <==> NoIdle(s))
    ensures r.Done? ==> Sized(r.value) && Tightens(parsed.distances, r.value.distances, |s|) && Positive(r.value.distances, |s|)
    ensures r.Done? ==> r.value.valves == ValvesOf(s) && r.value.start == parsed.start
    ensures r.Done? ==> forall i :: 0 <= i < |s| ==> (s[i].rate > 0 <==> i < r.value.pressureValves)
  {
    var filled := ComputeDistances(parsed.valves, parsed.distances, parsed.start, fuel);
    if filled.Stalled? {
      return Stalled;
    }
    assert filled.Done?;
    var puzzle := NewPuzzle(parsed.valves, filled.value, parsed.start);
    if puzzle.Panic? {
      assert forall i :: 0 <= i < |s| ==> s[i].rate == parsed.valves[i].rate;
      return Panicked(puzzle.msg);
    }
    PressureValvesFirst(s, filled.value, parsed.start);
    assert s[puzzle.value.pressureValves].rate == 0;
    r := Done(puzzle.value);
  }

  /**
   * `generator`: parse, fill in the distances, and count the valves with a rate. The puzzle fits
   * its valves, its valves are the scans sorted by falling rate, the valves with a rate come first,
   * and no two different valves are 0 apart. Panics come from `parse`, or from a scan in which every
   * valve has a rate; `fuel` bounds each breadth-first search.
   */
  method Generator(input: string, fuel: nat) returns (r: Outcome<Puzzle>)
    ensures !r.Stalled? ==> (r.Panicked? <==> !Parses(input) || NoIdle(Sorted(input)))
    ensures r.Stalled? ==> Parses(input)
    ensures r.Done? ==> Parses(input) && Sized(r.value) && Positive(r.value.distances, |r.value.valves|)
    ensures r.Done? ==>
      var s := Sorted(input);
      && r.value.valves == ValvesOf(s) && r.value.start == Codes(s)["AA"]
      && forall i :: 0 <= i < |s| ==> (s[i].rate > 0 <==> i < r.value.pressureValves)
  {
    var parsed := Parse(input);
    if parsed.Panic? {
      return Panicked(parsed.msg);
    }
    r := Build(Sorted(input), parsed.value, fuel);
  }

  /** `part1`: the most pressure found alone in 30 minutes, the pressure of a plan that can be carried out. */
  method Part1(p: Puzzle) returns (r: Result<nat>, ghost plan: seq<nat>)
    requires Sized(p)
    ensures r.Panic? <==> p.pressureValves > 64
    ensures r.Ok? ==> Walk(p, 30, plan).Some? && Walk(p, 30, plan).value.entry.pressure == r.value
  {
    r, plan := ComputeMaxPressure(p, 30);
  }

  /** `part2`: the most pressure found with the helper in 26 minutes, the pressure of a shared plan. */
  method Part2(p: Puzzle) returns (r: Result<nat>, ghost plan: seq<nat>)
    requires Sized(p)
    ensures r.Panic? <==> p.pressureValves > 64
    ensures r.Ok? ==> Walk2(p, 26, plan).Some? && Walk2(p, 26, plan).value.entry.pressure == r.value
  {
    r, plan := ComputeMaxPressureWithHelper(p, 26);
  }

  /** The bitmap test: bits 0, 5 and 15 set one by one, each read back, and the bits between still clear. */
  lemma BitMapSample()
    ensures var b0 := NewBitMap();
      var b1 := Set(b0, 0).value;
      var b2 := Set(b1, 5).value;
      var b3 := Set(b2, 15).value;
      && IsSet(b0, 0) == Ok(false) && IsSet(b1, 0) == Ok(true) && IsSet(b1, 5) == Ok(false)
      && IsSet(b2, 5) == Ok(true) && IsSet(b2, 3) == Ok(false) && IsSet(b2, 15) == Ok(false)
      && IsSet(b3, 15) == Ok(true)
  {
  }
}
