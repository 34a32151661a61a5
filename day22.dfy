/**
  * Day 22 ("Monkey Map"): a board drawn as rows of '.' (open) and '#' (wall) tiles, walked by a
  * list of moves and turns, either wrapping around each row and column ("flat" walk) or folded
  * into a cube whose seams are worked out from the unfolded net ("cube" walk).
  */
module Day22 {
  import opened Wrappers
  import opened Arith
  import opened Text

  // ------------------------------------------------------------------
  // Coordinates and headings (struct XY, enum Step, Step::change_dir)
  // ------------------------------------------------------------------

  /** A cell (column x, row y; y grows downward) or a heading. */
  datatype XY = XY(x: int, y: int)

  /** XY::add, as a value. */
  function Add(a: XY, b: XY): XY { XY(a.x + b.x, a.y + b.y) }

  /** XY::reverse. */
  function Reverse(d: XY): XY { XY(-d.x, -d.y) }

  const East := XY(1, 0)
  const South := XY(0, 1)
  const West := XY(-1, 0)
  const North := XY(0, -1)

  predicate IsUnit(d: XY) { d == East || d == South || d == West || d == North }

  /** One element of the move list: walk n tiles, or turn a quarter. */
  datatype Step = Move(n: nat) | Left | Right

  /**
    * Step::change_dir, with the `&mut` heading returned as the new value. On a heading with a zero
    * coordinate Left is the rotation (x, y) -> (y, -x) and Right its inverse (x, y) -> (-y, x);
    * a Move, or a heading with no zero coordinate, leaves the heading alone.
    */
  function ChangeDir(s: Step, d: XY): (r: XY)
    ensures s.Move? || (d.x != 0 && d.y != 0) ==> r == d
    ensures s.Left? && (d.x == 0 || d.y == 0) ==> r == XY(d.y, -d.x)
    ensures s.Right? && (d.x == 0 || d.y == 0) ==> r == XY(-d.y, d.x)
  {
    match s
    case Left =>
      if d.x == 0 then XY(d.y, 0)
      else if d.y == 0 then XY(0, -d.x)
      else d
    case Right =>
      if d.y == 0 then XY(0, d.x)
      else if d.x == 0 then XY(-d.y, 0)
      else d
    case Move(_) => d
  }

  /** A turn maps the four unit headings onto each other, always to a perpendicular one. */
  lemma TurnKeepsUnit(s: Step, d: XY)
    requires IsUnit(d) && !s.Move?
    ensures IsUnit(ChangeDir(s, d))
    ensures ChangeDir(s, d).x * d.x + ChangeDir(s, d).y * d.y == 0
  {
  }

  /** Left then Right, or Right then Left, restores any heading. */
  lemma TurnBack(d: XY)
    ensures ChangeDir(Right, ChangeDir(Left, d)) == d
    ensures ChangeDir(Left, ChangeDir(Right, d)) == d
  {
  }

  /** k quarter turns the same way (the `for _ in 0..k { change_dir }` loops of map_edges). */
  function Turns(s: Step, d: XY, k: nat): XY
    decreases k
  {
    if k == 0 then d else ChangeDir(s, Turns(s, d, k - 1))
  }

  /** Four turns the same way restore any heading. */
  lemma FourTurns(s: Step, d: XY)
    ensures Turns(s, d, 4) == d
  {
    var d1 := ChangeDir(s, d);
    var d2 := ChangeDir(s, d1);
    var d3 := ChangeDir(s, d2);
    assert Turns(s, d, 4) == ChangeDir(s, d3);
  }

  /** So k turns the same way depend only on k mod 4. */
  lemma {:induction false} TurnsPeriod(s: Step, d: XY, k: nat)
    ensures Turns(s, d, k + 4) == Turns(s, d, k)
    decreases k
  {
    if k == 0 {
      FourTurns(s, d);
    } else {
      TurnsPeriod(s, d, k - 1);
    }
  }

  lemma {:induction false} TurnsMod4(s: Step, d: XY, k: nat)
    ensures Turns(s, d, k) == Turns(s, d, k % 4)
    decreases k
  {
    if k >= 4 {
      TurnsMod4(s, d, k - 4);
      TurnsPeriod(s, d, k - 4);
    }
  }

  /** Two quarter turns the same way reverse an axis heading. */
  lemma TwoTurnsReverse(s: Step, d: XY)
    requires !s.Move? && (d.x == 0 || d.y == 0)
    ensures Turns(s, d, 2) == Reverse(d)
  {
    var d1 := ChangeDir(s, d);
    assert Turns(s, d, 1) == d1;
    if s.Left? {
      assert d1 == XY(d.y, -d.x);
    } else {
      assert d1 == XY(-d.y, d.x);
    }
    assert Turns(s, d, 2) == ChangeDir(s, d1);
  }

  /** State::facing: 0 for East, 1 South, 2 West, 3 North; any other heading panics. */
  function Facing(d: XY): (r: Result<nat>)
    ensures r.Ok? <==> IsUnit(d)
    ensures r.Ok? ==> r.value < 4 && Turns(Right, East, r.value) == d
  {
    if d == East then Ok(0)
    else if d == South then
      assert Turns(Right, East, 1) == South;
      Ok(1)
    else if d == West then
      assert Turns(Right, East, 2) == West;
      Ok(2)
    else if d == North then
      assert Turns(Right, East, 3) == North;
      Ok(3)
    else Panic("Unexpected direction")
  }

  /** State::password: 1000 * (row + 1) + 4 * (column + 1) + facing. */
  function Password(p: XY, d: XY): (r: Result<int>)
    ensures r.Ok? <==> IsUnit(d)
    ensures r.Ok? ==> r.value - 1000 * (p.y + 1) - 4 * (p.x + 1) in {0, 1, 2, 3}
  {
    match Facing(d)
    case Ok(f) => Ok(1000 * (p.y + 1) + 4 * (p.x + 1) + f)
    case Panic(m) => Panic(m)
  }

  /** On a board narrower than 249 columns the password determines row, column and facing. */
  lemma PasswordDecodes(p: XY, d: XY)
    requires IsUnit(d) && 0 <= p.y && 0 <= p.x < 249
    ensures Password(p, d).Ok?
    ensures Password(p, d).value / 1000 == p.y + 1
    ensures Password(p, d).value % 1000 / 4 == p.x + 1
    ensures Password(p, d).value % 4 == Facing(d).value
  {
    var f := Facing(d).value;
    var v := Password(p, d).value;
    var low := 4 * (p.x + 1) + f;
    DivModUnique(v, 1000, p.y + 1, low);
    DivModUnique(low, 4, p.x + 1, f);
    DivModUnique(v, 4, 250 * (p.y + 1) + p.x + 1, f);
  }

  // ------------------------------------------------------------------
  // The move list (make_steps)
  // ------------------------------------------------------------------

  /** What make_steps has built after a prefix: the steps pushed so far and the pending `move_steps`. */
  datatype Scan = Scan(done: seq<Step>, pending: nat)

  /** Push the pending count as a Move, unless it is zero. */
  function Flush(st: Scan): seq<Step>
  {
    st.done + (if st.pending > 0 then [Move(st.pending)] else [])
  }

  /** One iteration of the make_steps loop. */
  function ScanChar(st: Scan, c: char): Result<Scan>
  {
    if IsDigit(c) then Ok(Scan(st.done, st.pending * 10 + DigitValue(c)))
    else if c == 'L' then Ok(Scan(Flush(st) + [Left], 0))
    else if c == 'R' then Ok(Scan(Flush(st) + [Right], 0))
    else Panic("Unexpected character")
  }

  function ScanAll(s: string): Result<Scan>
    decreases |s|
  {
    if s == [] then Ok(Scan([], 0))
    else
      match ScanAll(s[..|s| - 1])
      case Ok(st) => ScanChar(st, s[|s| - 1])
      case Panic(m) => Panic(m)
  }

  /** The move list make_steps returns for a line, or its panic. */
  function ParseSteps(s: string): Result<seq<Step>>
  {
    match ScanAll(s)
    case Ok(st) => Ok(Flush(st))
    case Panic(m) => Panic(m)
  }

  lemma ScanAppend(s: string, c: char)
    ensures ScanAll(s + [c]) == match ScanAll(s) case Ok(st) => ScanChar(st, c) case Panic(m) => Panic(m)
  {
    assert (s + [c])[..|s|] == s;
  }

  /** A panic in a prefix is the panic of the whole line. */
  lemma {:induction false} PanicPersists(s: string, i: nat)
    requires i <= |s| && ScanAll(s[..i]).Panic?
    ensures ScanAll(s) == ScanAll(s[..i])
    decreases |s| - i
  {
    if i < |s| {
      ScanAppend(s[..i], s[i]);
      assert s[..i + 1] == s[..i] + [s[i]];
      PanicPersists(s, i + 1);
    } else {
      assert s[..i] == s;
    }
  }

  /** make_steps, as the loop of the source: digits accumulate, a letter flushes the pending Move. */
  method MakeSteps(input: string) returns (r: Result<seq<Step>>)
    ensures r == ParseSteps(input)
  {
    var result: seq<Step> := [];
    var moveSteps: nat := 0;
    var i := 0;
    while i < |input|
      invariant 0 <= i <= |input|
      invariant ScanAll(input[..i]) == Ok(Scan(result, moveSteps))
    {
      var c := input[i];
      ghost var st := Scan(result, moveSteps);
      ScanPrefix(input, i);
      if !IsDigit(c) {
        if moveSteps > 0 {
          result := result + [Move(moveSteps)];
        }
        moveSteps := 0;
        assert result == Flush(st);
      }
      if c == 'L' {
        result := result + [Left];
      } else if c == 'R' {
        result := result + [Right];
      } else if IsDigit(c) {
        moveSteps := moveSteps * 10 + DigitValue(c);
      } else {
        PanicPersists(input, i + 1);
        return Panic("Unexpected character");
      }
      assert ScanChar(st, c) == Ok(Scan(result, moveSteps));
      i := i + 1;
    }
    ghost var st := Scan(result, moveSteps);
    assert input[..i] == input;
    if moveSteps > 0 {
      result := result + [Move(moveSteps)];
    }
    assert result == Flush(st);
    r := Ok(result);
  }

  /** The scan of one more character of the line. */
  lemma ScanPrefix(s: string, i: nat)
    requires i < |s|
    ensures ScanAll(s[..i + 1]) == match ScanAll(s[..i]) case Ok(st) => ScanChar(st, s[i]) case Panic(m) => Panic(m)
  {
    ScanAppend(s[..i], s[i]);
    assert s[..i + 1] == s[..i] + [s[i]];
  }

  predicate StepChar(c: char) { IsDigit(c) || c == 'L' || c == 'R' }

  /** make_steps panics exactly when the line holds a character other than a digit, L or R. */
  lemma {:induction false} ParseStepsOk(s: string)
    ensures ScanAll(s).Ok? <==> forall i :: 0 <= i < |s| ==> StepChar(s[i])
    ensures ParseSteps(s).Ok? <==> forall i :: 0 <= i < |s| ==> StepChar(s[i])
    decreases |s|
  {
    if s != [] {
      var init := s[..|s| - 1];
      ParseStepsOk(init);
      assert forall i :: 0 <= i < |init| ==> init[i] == s[i];
    }
  }

  predicate NoZeroMove(steps: seq<Step>)
  {
    forall k :: 0 <= k < |steps| && steps[k].Move? ==> steps[k].n > 0
  }

  /** make_steps never emits Move(0). */
  lemma {:induction false} ScanNoZeroMove(s: string)
    ensures ScanAll(s).Ok? ==> NoZeroMove(ScanAll(s).value.done) && NoZeroMove(Flush(ScanAll(s).value))
    ensures ParseSteps(s).Ok? ==> NoZeroMove(ParseSteps(s).value)
    decreases |s|
  {
    if s != [] {
      ScanNoZeroMove(s[..|s| - 1]);
    }
  }

  /** How a step is written in the move list. */
  function Piece(s: Step): string
  {
    match s
    case Move(n) => DigitsOf(n)
    case Left => "L"
    case Right => "R"
  }

  /** Writes a move list back as text. */
  function Render(steps: seq<Step>): string
    decreases |steps|
  {
    if steps == [] then [] else Render(steps[..|steps| - 1]) + Piece(steps[|steps| - 1])
  }

  /** The move lists the puzzle writes: no Move(0), and no two Moves in a row. */
  predicate Canonical(steps: seq<Step>)
  {
    NoZeroMove(steps) && forall k :: 0 <= k < |steps| - 1 ==> !(steps[k].Move? && steps[k + 1].Move?)
  }

  lemma RenderSnoc(pre: seq<Step>, x: Step)
    ensures Render(pre + [x]) == Render(pre) + Piece(x)
  {
    assert (pre + [x])[..|pre|] == pre;
  }

  lemma {:induction false} RenderAppend(a: seq<Step>, b: seq<Step>)
    ensures Render(a + b) == Render(a) + Render(b)
    decreases |b|
  {
    if b == [] {
      assert a + b == a;
    } else {
      var b', x := b[..|b| - 1], b[|b| - 1];
      assert b == b' + [x];
      assert a + b == (a + b') + [x];
      calc {
        Render(a + b);
        { RenderSnoc(a + b', x); }
        Render(a + b') + Piece(x);
        { RenderAppend(a, b'); }
        Render(a) + Render(b') + Piece(x);
        { RenderSnoc(b', x); }
        Render(a) + Render(b);
      }
    }
  }

  /** The scan state make_steps holds at the end of Render(steps). */
  function Expected(steps: seq<Step>): Scan
  {
    if steps != [] && steps[|steps| - 1].Move? then Scan(steps[..|steps| - 1], steps[|steps| - 1].n)
    else Scan(steps, 0)
  }

  lemma {:induction false} ScanDigits(s: string, done: seq<Step>, n: nat)
    requires ScanAll(s) == Ok(Scan(done, 0))
    ensures ScanAll(s + DigitsOf(n)) == Ok(Scan(done, n))
    decreases n
  {
    if n < 10 {
      ScanAppend(s, ('0' as int + n) as char);
    } else {
      ScanDigits(s, done, n / 10);
      var c := ('0' as int + n % 10) as char;
      ScanAppend(s + DigitsOf(n / 10), c);
      assert s + DigitsOf(n) == (s + DigitsOf(n / 10)) + [c];
    }
  }

  lemma CanonicalPrefix(steps: seq<Step>)
    requires Canonical(steps) && steps != []
    ensures Canonical(steps[..|steps| - 1])
  {
    var pre := steps[..|steps| - 1];
    forall k | 0 <= k < |pre| - 1 ensures !(pre[k].Move? && pre[k + 1].Move?) {
      assert pre[k] == steps[k] && pre[k + 1] == steps[k + 1];
    }
    forall k | 0 <= k < |pre| && pre[k].Move? ensures pre[k].n > 0 {
      assert pre[k] == steps[k];
    }
  }

  lemma FlushExpected(steps: seq<Step>)
    requires NoZeroMove(steps)
    ensures Flush(Expected(steps)) == steps
  {
    if steps != [] && steps[|steps| - 1].Move? {
      assert steps[|steps| - 1].n > 0;
      assert steps == steps[..|steps| - 1] + [steps[|steps| - 1]];
    }
  }

  /** A turn written after a scanned list flushes the pending move and records the turn. */
  lemma ScanTurn(pre: seq<Step>, t: Step)
    requires NoZeroMove(pre) && !t.Move? && ScanAll(Render(pre)) == Ok(Expected(pre))
    ensures ScanAll(Render(pre + [t])) == Ok(Expected(pre + [t]))
  {
    RenderSnoc(pre, t);
    FlushExpected(pre);
    ScanAppend(Render(pre), if t.Left? then 'L' else 'R');
  }

  /** A move written after a list ending in a turn becomes the pending move. */
  lemma ScanMove(pre: seq<Step>, n: nat)
    requires n > 0 && (pre != [] ==> !pre[|pre| - 1].Move?) && ScanAll(Render(pre)) == Ok(Expected(pre))
    ensures ScanAll(Render(pre + [Move(n)])) == Ok(Expected(pre + [Move(n)]))
  {
    RenderSnoc(pre, Move(n));
    assert Expected(pre) == Scan(pre, 0);
    ScanDigits(Render(pre), pre, n);
    assert (pre + [Move(n)])[..|pre|] == pre;
  }

  lemma {:induction false} RenderScan(steps: seq<Step>)
    requires Canonical(steps)
    ensures ScanAll(Render(steps)) == Ok(Expected(steps))
    decreases |steps|
  {
    if steps != [] {
      var pre, last := steps[..|steps| - 1], steps[|steps| - 1];
      assert steps == pre + [last];
      CanonicalPrefix(steps);
      RenderScan(pre);
      if last.Move? {
        assert |steps| >= 2 ==> !steps[|steps| - 2].Move?;
        ScanMove(pre, last.n);
      } else {
        ScanTurn(pre, last);
      }
    }
  }

  /** Parsing a written move list gives it back: make_steps inverts Render on canonical lists. */
  lemma StepsRoundTrip(steps: seq<Step>)
    requires Canonical(steps)
    ensures ParseSteps(Render(steps)) == Ok(steps)
  {
    RenderScan(steps);
    FlushExpected(steps);
  }

  // Render of the sample move list, four steps at a time.
  lemma SampleRender1()
    ensures Render([Move(10), Right, Move(5), Left]) == "10R5L"
  {
    assert Render([Move(10)]) == "10" by {
      RenderSnoc([], Move(10));
      assert [] + [Move(10)] == [Move(10)];
      assert DigitsOf(10) == "10" by { assert DigitsOf(1) == "1"; }
    }
    assert Render([Move(10), Right]) == "10R" by {
      RenderSnoc([Move(10)], Right);
      assert [Move(10)] + [Right] == [Move(10), Right];
    }
    assert Render([Move(10), Right, Move(5)]) == "10R5" by {
      RenderSnoc([Move(10), Right], Move(5));
      assert [Move(10), Right] + [Move(5)] == [Move(10), Right, Move(5)];
    }
    assert Render([Move(10), Right, Move(5), Left]) == "10R5L" by {
      RenderSnoc([Move(10), Right, Move(5)], Left);
      assert [Move(10), Right, Move(5)] + [Left] == [Move(10), Right, Move(5), Left];
    }
  }

  lemma SampleRender2()
    ensures Render([Move(5), Right, Move(10), Left]) == "5R10L"
  {
    assert Render([Move(5)]) == "5" by {
      RenderSnoc([], Move(5));
      assert [] + [Move(5)] == [Move(5)];
    }
    assert Render([Move(5), Right]) == "5R" by {
      RenderSnoc([Move(5)], Right);
      assert [Move(5)] + [Right] == [Move(5), Right];
    }
    assert Render([Move(5), Right, Move(10)]) == "5R10" by {
      RenderSnoc([Move(5), Right], Move(10));
      assert [Move(5), Right] + [Move(10)] == [Move(5), Right, Move(10)];
      assert DigitsOf(10) == "10" by { assert DigitsOf(1) == "1"; }
    }
    assert Render([Move(5), Right, Move(10), Left]) == "5R10L" by {
      RenderSnoc([Move(5), Right, Move(10)], Left);
      assert [Move(5), Right, Move(10)] + [Left] == [Move(5), Right, Move(10), Left];
    }
  }

  lemma SampleRender3()
    ensures Render([Move(4), Right, Move(5), Left]) == "4R5L"
  {
    assert Render([Move(4)]) == "4" by {
      RenderSnoc([], Move(4));
      assert [] + [Move(4)] == [Move(4)];
    }
    assert Render([Move(4), Right]) == "4R" by {
      RenderSnoc([Move(4)], Right);
      assert [Move(4)] + [Right] == [Move(4), Right];
    }
    assert Render([Move(4), Right, Move(5)]) == "4R5" by {
      RenderSnoc([Move(4), Right], Move(5));
      assert [Move(4), Right] + [Move(5)] == [Move(4), Right, Move(5)];
    }
    assert Render([Move(4), Right, Move(5), Left]) == "4R5L" by {
      RenderSnoc([Move(4), Right, Move(5)], Left);
      assert [Move(4), Right, Move(5)] + [Left] == [Move(4), Right, Move(5), Left];
    }
  }

  lemma SampleRender4()
    ensures Render([Move(5)]) == "5"
  {
    RenderSnoc([], Move(5));
    assert [] + [Move(5)] == [Move(5)];
  }

  const SampleSteps: seq<Step> :=
    [Move(10), Right, Move(5), Left, Move(5), Right, Move(10), Left, Move(4), Right, Move(5), Left, Move(5)]

  lemma SampleRender()
    ensures Render(SampleSteps) == "10R5L5R10L4R5L5"
  {
    var a, b, c, d := [Move(10), Right, Move(5), Left], [Move(5), Right, Move(10), Left], [Move(4), Right, Move(5), Left], [Move(5)];
    calc {
      Render(SampleSteps);
      { assert SampleSteps == a + b + c + d; }
      Render(a + b + c + d);
      { RenderAppend(a + b + c, d); }
      Render(a + b + c) + Render(d);
      { RenderAppend(a + b, c); }
      Render(a + b) + Render(c) + Render(d);
      { RenderAppend(a, b); }
      Render(a) + Render(b) + Render(c) + Render(d);
      { SampleRender1(); SampleRender2(); SampleRender3(); SampleRender4(); }
      "10R5L" + "5R10L" + "4R5L" + "5";
    }
  }

  lemma SampleCanonical()
    ensures Canonical(SampleSteps)
  {
    forall k | 0 <= k < |SampleSteps| - 1
      ensures !(SampleSteps[k].Move? && SampleSteps[k + 1].Move?)
    {
      assert SampleSteps[k].Move? <==> k % 2 == 0;
      assert SampleSteps[k + 1].Move? <==> (k + 1) % 2 == 0;
    }
  }

  /** The sample move list "10R5L5R10L4R5L5" has 13 steps, from Move(10), Right to Left, Move(5). */
  lemma SampleStepsParse()
    ensures ParseSteps("10R5L5R10L4R5L5") == Ok(SampleSteps)
    ensures |SampleSteps| == 13 && SampleSteps[11] == Left
  {
    SampleRender();
    SampleCanonical();
    StepsRoundTrip(SampleSteps);
  }
}
