/**
 * Day 11, part 2's key fact: tracking every item by its residues modulo all the divisors gives the
 * same throws, and so the same inspection counts, as tracking the undivided worry levels themselves.
 */
module Day11Residues {
  import opened Wrappers
  import opened Day11

  /** The fields that no round changes. */
  function Shape(s: MonkeyState): MonkeyState
  {
    s.(items := [], modItems := [], counter := 0)
  }

  predicate SameShapes(a: seq<MonkeyState>, b: seq<MonkeyState>)
  {
    |a| == |b| && forall k {:trigger Shape(a[k])} {:trigger Shape(b[k])} :: 0 <= k < |a| ==> Shape(a[k]) == Shape(b[k])
  }

  /**
   * Monkeys as the puzzle describes them: monkey k has id k, a positive divisor, and throws to two
   * other monkeys that exist.
   */
  predicate WellFormed(ms: seq<MonkeyState>)
  {
    forall k :: 0 <= k < |ms| ==> Wired(ms, k)
  }

  /** Monkey k has id k, a positive divisor, and throws to two other monkeys that exist. */
  predicate Wired(ms: seq<MonkeyState>, k: nat)
    requires k < |ms|
  {
    ms[k].id == k && ms[k].divisor > 0 && ms[k].trueTo < |ms| && ms[k].falseTo < |ms|
    && ms[k].trueTo != k && ms[k].falseTo != k
  }

  lemma WellFormedShapes(a: seq<MonkeyState>, b: seq<MonkeyState>)
    requires WellFormed(a) && SameShapes(a, b)
    ensures WellFormed(b)
  {
    forall k | 0 <= k < |b| ensures Wired(b, k) {
      assert Wired(a, k) && Shape(a[k]) == Shape(b[k]);
    }
  }

  lemma ShapesTrans(a: seq<MonkeyState>, b: seq<MonkeyState>, c: seq<MonkeyState>)
    requires SameShapes(a, b) && SameShapes(b, c)
    ensures SameShapes(a, c)
  {
    forall k | 0 <= k < |a| ensures Shape(a[k]) == Shape(c[k]) {
      assert Shape(a[k]) == Shape(b[k]);
    }
  }

  /** A monkey of part 2 that stands for a monkey of the undivided process. */
  predicate TracksOne(p: MonkeyState, m: MonkeyState, divs: seq<nat>)
    requires Positive(divs)
  {
    Shape(p) == Shape(m) && p.counter == m.counter && |m.modItems| == |p.items|
    && forall j {:trigger m.modItems[j]} :: 0 <= j < |p.items| ==> m.modItems[j] == Residues(p.items[j], divs)
  }

  predicate Tracks(plain: seq<MonkeyState>, mods: seq<MonkeyState>, divs: seq<nat>)
  {
    |plain| == |mods| == |divs| && Positive(divs)
    && (forall k :: 0 <= k < |plain| ==> divs[k] == plain[k].divisor)
    && forall k {:trigger TracksOne(plain[k], mods[k], divs)} :: 0 <= k < |plain| ==> TracksOne(plain[k], mods[k], divs)
  }

  /** `inspect_mods` on a residue vector gives the residue vector of the new worry level. */
  lemma ReducedResidues(op: Operation, w: nat, divs: seq<nat>)
    requires Positive(divs)
    ensures Reduced(op, Residues(w, divs), divs, |divs|) == Ok(Residues(BinOp(op, w), divs))
  {
    var m := Residues(w, divs);
    var r := Reduced(op, m, divs, |divs|);
    ReducedValues(op, m, divs, |divs|);
    assert !exists i :: 0 <= i < |divs| && i < |divs| && divs[i] == 0;
    var v := BinOp(op, w);
    forall i | 0 <= i < |divs| ensures r.value[i] == v % divs[i] {
      BinOpMod(op, w, divs[i]);
    }
    assert r.value == Residues(v, divs);
  }

  /** The first j throws of a tracking monkey follow those of the monkey it tracks. */
  lemma {:induction false} ThrowsTrack(p: MonkeyState, m: MonkeyState, divs: seq<nat>, j: nat)
    requires Positive(divs) && TracksOne(p, m, divs) && p.divisor > 0
    requires p.id < |divs| && divs[p.id] == p.divisor && j <= |p.items|
    ensures ModThrows(m, divs, j).Ok? && Inspected(p, 1).Ok?
    ensures forall i :: 0 <= i < j ==>
              ModThrows(m, divs, j).value[i].to == Inspected(p, 1).value[i].to
              && ModThrows(m, divs, j).value[i].residues == Residues(Inspected(p, 1).value[i].worry, divs)
    decreases j
  {
    if j > 0 {
      ThrowsTrack(p, m, divs, j - 1);
      var w := p.items[j - 1];
      ReducedResidues(p.op, w, divs);
      assert m.modItems[j - 1] == Residues(w, divs);
      var v := BinOp(p.op, w);
      var t := Inspected(p, 1).value[j - 1];
      assert t == Route(p, v / 1);
      var prev := ModThrows(m, divs, j - 1).value;
      var mt := ModThrow(if Residues(v, divs)[m.id] == 0 then m.trueTo else m.falseTo, Residues(v, divs));
      assert ModThrows(m, divs, j) == Ok(prev + [mt]);
      assert mt.to == t.to && mt.residues == Residues(t.worry, divs);
      ThrowsAppend(prev, mt, Inspected(p, 1).value, divs, j);
    }
  }

  /** One more tracking throw after j - 1 tracking ones. */
  lemma ThrowsAppend(prev: seq<ModThrow>, mt: ModThrow, ts: seq<Throw>, divs: seq<nat>, j: nat)
    requires Positive(divs) && 0 < j <= |ts| && |prev| == j - 1
    requires forall i :: 0 <= i < j - 1 ==> prev[i].to == ts[i].to && prev[i].residues == Residues(ts[i].worry, divs)
    requires mt.to == ts[j - 1].to && mt.residues == Residues(ts[j - 1].worry, divs)
    ensures forall i :: 0 <= i < j ==> (prev + [mt])[i].to == ts[i].to && (prev + [mt])[i].residues == Residues(ts[i].worry, divs)
  {
  }

  /** Delivering tracking throws keeps the tracking and the shapes. */
  lemma {:induction false} DeliveredTracks(p0: seq<MonkeyState>, m0: seq<MonkeyState>, divs: seq<nat>,
                                           ts: seq<Throw>, mts: seq<ModThrow>, k: nat, j: nat)
    requires Tracks(p0, m0, divs) && |ts| == |mts| && j <= |ts|
    requires forall i :: 0 <= i < |ts| ==> ts[i].to < |p0| && ts[i].to != k
    requires forall i :: 0 <= i < |ts| ==> mts[i].to == ts[i].to && mts[i].residues == Residues(ts[i].worry, divs)
    ensures Delivered(p0, ts, k, j).Ok? && ModDelivered(m0, mts, k, j).Ok?
    ensures Tracks(Delivered(p0, ts, k, j).value, ModDelivered(m0, mts, k, j).value, divs)
    ensures SameShapes(p0, Delivered(p0, ts, k, j).value)
    decreases j
  {
    if j > 0 {
      DeliveredTracks(p0, m0, divs, ts, mts, k, j - 1);
      var p1, m1 := Delivered(p0, ts, k, j - 1).value, ModDelivered(m0, mts, k, j - 1).value;
      var t, mt := ts[j - 1], mts[j - 1];
      var p2 := p1[t.to := p1[t.to].(items := p1[t.to].items + [t.worry])];
      var m2 := m1[t.to := m1[t.to].(modItems := m1[t.to].modItems + [mt.residues])];
      assert Delivered(p0, ts, k, j) == Ok(p2);
      assert ModDelivered(m0, mts, k, j) == Ok(m2);
      assert TracksOne(p2[t.to], m2[t.to], divs) by {
        assert TracksOne(p1[t.to], m1[t.to], divs);
      }
      assert forall i :: 0 <= i < |p2| && i != t.to ==> p2[i] == p1[i] && m2[i] == m1[i];
      assert Shape(p2[t.to]) == Shape(p1[t.to]);
    }
  }

  /** One turn of the undivided process and the matching turn of part 2 keep the tracking. */
  lemma TurnTracks(plain: seq<MonkeyState>, mods: seq<MonkeyState>, divs: seq<nat>, k: nat)
    requires WellFormed(plain) && Tracks(plain, mods, divs) && k < |plain|
    ensures Turn(plain, k, 1).Ok? && ModTurn(mods, k, divs).Ok?
    ensures Tracks(Turn(plain, k, 1).value, ModTurn(mods, k, divs).value, divs)
    ensures SameShapes(plain, Turn(plain, k, 1).value)
  {
    var p, m := plain[k], mods[k];
    assert TracksOne(p, m, divs) && Wired(plain, k);
    ThrowsTrack(p, m, divs, |p.items|);
    var ts := Inspected(p, 1).value;
    var mts := ModThrows(m, divs, |m.modItems|).value;
    forall i | 0 <= i < |ts| ensures ts[i].to < |plain| && ts[i].to != k {
      assert ts[i] == Route(p, BinOp(p.op, p.items[i]) / 1);
    }
    var p0 := plain[k := AfterInspect(p)];
    var m0 := mods[k := AfterInspectMods(m)];
    assert TracksOne(p0[k], m0[k], divs);
    assert Tracks(p0, m0, divs) by {
      forall i | 0 <= i < |p0| ensures TracksOne(p0[i], m0[i], divs) && divs[i] == p0[i].divisor {
        if i != k {
          assert TracksOne(plain[i], mods[i], divs);
        }
      }
    }
    DeliveredTracks(p0, m0, divs, ts, mts, k, |ts|);
    assert SameShapes(plain, p0) by {
      assert Shape(p0[k]) == Shape(plain[k]);
    }
  }

  /** Both results are `Ok`, their states track each other, and the plain one keeps plain's shapes. */
  predicate TrackedPair(plain: seq<MonkeyState>, rp: Result<seq<MonkeyState>>, rm: Result<seq<MonkeyState>>, divs: seq<nat>)
  {
    rp.Ok? && rm.Ok? && Tracks(rp.value, rm.value, divs) && SameShapes(plain, rp.value)
  }

  /** The first k turns of a round keep the tracking. */
  lemma {:induction false} RoundTracks(plain: seq<MonkeyState>, mods: seq<MonkeyState>, divs: seq<nat>, k: nat)
    requires WellFormed(plain) && Tracks(plain, mods, divs) && k <= |plain|
    ensures TrackedPair(plain, Round(plain, 1, k), ModRound(mods, divs, k), divs)
    decreases k
  {
    if k > 0 {
      RoundTracks(plain, mods, divs, k - 1);
      RoundTracksStep(plain, mods, divs, k);
    }
  }

  /** Turn k - 1 keeps the tracking that the first k - 1 turns kept. */
  lemma RoundTracksStep(plain: seq<MonkeyState>, mods: seq<MonkeyState>, divs: seq<nat>, k: nat)
    requires WellFormed(plain) && 0 < k <= |plain| && k <= |mods|
    requires TrackedPair(plain, Round(plain, 1, k - 1), ModRound(mods, divs, k - 1), divs)
    ensures TrackedPair(plain, Round(plain, 1, k), ModRound(mods, divs, k), divs)
  {
    var p1, m1 := Round(plain, 1, k - 1).value, ModRound(mods, divs, k - 1).value;
    RoundStep(plain, mods, divs, k);
    TurnStep(plain, p1, m1, divs, k - 1, Round(plain, 1, k), ModRound(mods, divs, k));
  }

  /** Turn k - 1 follows the first k - 1 turns, in both processes. */
  lemma RoundStep(plain: seq<MonkeyState>, mods: seq<MonkeyState>, divs: seq<nat>, k: nat)
    requires 0 < k <= |plain| && k <= |mods| && Round(plain, 1, k - 1).Ok? && ModRound(mods, divs, k - 1).Ok?
    ensures Round(plain, 1, k) == Turn(Round(plain, 1, k - 1).value, k - 1, 1)
    ensures ModRound(mods, divs, k) == ModTurn(ModRound(mods, divs, k - 1).value, k - 1, divs)
  {
  }

  /** A turn taken from states that track each other and keep the first state's shapes. */
  lemma TurnStep(plain: seq<MonkeyState>, p1: seq<MonkeyState>, m1: seq<MonkeyState>, divs: seq<nat>, k: nat,
                 rp: Result<seq<MonkeyState>>, rm: Result<seq<MonkeyState>>)
    requires WellFormed(plain) && SameShapes(plain, p1) && Tracks(p1, m1, divs) && k < |p1|
    requires rp == Turn(p1, k, 1) && rm == ModTurn(m1, k, divs)
    ensures TrackedPair(plain, rp, rm, divs)
  {
    WellFormedShapes(plain, p1);
    TurnTracks(p1, m1, divs, k);
    ShapesTrans(plain, p1, Turn(p1, k, 1).value);
  }

  lemma {:induction false} RoundsTrack(plain: seq<MonkeyState>, mods: seq<MonkeyState>, divs: seq<nat>, n: nat)
    requires WellFormed(plain) && Tracks(plain, mods, divs)
    ensures Rounds(plain, 1, n).Ok? && ModRounds(mods, divs, n).Ok?
    ensures Tracks(Rounds(plain, 1, n).value, ModRounds(mods, divs, n).value, divs)
    ensures SameShapes(plain, Rounds(plain, 1, n).value)
    decreases n
  {
    if n > 0 {
      RoundsTrack(plain, mods, divs, n - 1);
      var p1, m1 := Rounds(plain, 1, n - 1).value, ModRounds(mods, divs, n - 1).value;
      WellFormedShapes(plain, p1);
      RoundTracks(p1, m1, divs, |p1|);
      ShapesTrans(plain, p1, Round(p1, 1, |p1|).value);
    }
  }

  /** `initialize_mods` on the first k monkeys makes them track themselves and leaves the rest. */
  lemma {:induction false} InitTracks(ms: seq<MonkeyState>, k: nat)
    requires WellFormed(ms) && k <= |ms|
    ensures Positive(Divisors(ms)) && InitAll(ms, Divisors(ms), k).Ok?
    ensures forall i :: 0 <= i < k ==> TracksOne(ms[i], InitAll(ms, Divisors(ms), k).value[i], Divisors(ms))
    ensures forall i :: k <= i < |ms| ==> InitAll(ms, Divisors(ms), k).value[i] == ms[i]
    decreases k
  {
    var divs := Divisors(ms);
    assert Positive(divs) by {
      forall i | 0 <= i < |divs| ensures divs[i] > 0 {
        assert Wired(ms, i);
      }
    }
    if k > 0 {
      InitTracks(ms, k - 1);
      var r := InitAll(ms, divs, k - 1).value;
      var s := InitMods(r[k - 1], divs);
      assert r[k - 1] == ms[k - 1];
      assert s.Ok?;
      assert TracksOne(ms[k - 1], s.value, divs);
    }
  }

  /**
   * Part 2 counts exactly the inspections of the undivided process (worry divisor 1) after ten
   * thousand rounds, and for well-formed monkeys it never panics.
   */
  lemma Part2Undivided(ms: seq<MonkeyState>)
    requires WellFormed(ms)
    ensures Rounds(ms, 1, 10000).Ok?
    ensures Part2Spec(ms) == Business(Counters(Rounds(ms, 1, 10000).value))
  {
    var divs := Divisors(ms);
    InitTracks(ms, |ms|);
    var mods := InitAll(ms, divs, |ms|).value;
    assert Tracks(ms, mods, divs);
    RoundsTrack(ms, mods, divs, 10000);
    var p, m := Rounds(ms, 1, 10000).value, ModRounds(mods, divs, 10000).value;
    assert Counters(p) == Counters(m) by {
      forall i | 0 <= i < |p| ensures p[i].counter == m[i].counter {
        assert TracksOne(p[i], m[i], divs);
      }
    }
  }
}
