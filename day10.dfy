/**
 * Day 10: a CPU with one register x, a trace of its value cycle by cycle, the signal strength
 * sampled every 40 cycles from cycle 20, and a 40 × 6 screen lit where a 3-pixel sprite centred on
 * x covers the pixel being drawn.
 */
module Day10 {
  import opened Wrappers
  import opened Text
  import opened Arith

  datatype Instr = Noop | Addx(v: int)

  const AddxNotFound := "Expecting addx"
  const NumberNotFound := "Expecting number"
  const NoneUnwrapped := "called `Option::unwrap()` on a `None` value"

  /**
   * One line of the program: exactly "noop", or a line whose first word is "addx" and whose second
   * word is an `i32`.
   */
  function ParseInstr(line: string): (r: Result<Instr>)
    ensures r == Ok(Noop) <==> line == "noop"
    ensures r.Ok? && r.value.Addx? ==>
              |SplitWhitespace(line)| >= 2 && SplitWhitespace(line)[0] == "addx"
              && ParseI32(SplitWhitespace(line)[1]) == Some(r.value.v)
    ensures r.Panic? ==>
              (line != "noop" &&
               (|SplitWhitespace(line)| == 0 || SplitWhitespace(line)[0] != "addx" ||
                |SplitWhitespace(line)| < 2 || ParseI32(SplitWhitespace(line)[1]).None?))
  {
    if line == "noop" then Ok(Noop)
    else
      var words := SplitWhitespace(line);
      if |words| == 0 then Panic(NoneUnwrapped)
      else if words[0] != "addx" then Panic(AddxNotFound)
      else if |words| < 2 then Panic(NoneUnwrapped)
      else
        match ParseI32(words[1])
        case None => Panic(NumberNotFound)
        case Some(v) => Ok(Addx(v))
  }

  /** The program read line by line; the first line that does not parse decides the panic. */
  function ParseProgram(lines: seq<string>): (r: Result<seq<Instr>>)
    ensures r.Ok? ==> |r.value| == |lines|
    decreases |lines|
  {
    if lines == [] then Ok([])
    else
      var prog := ParseProgram(lines[..|lines| - 1]);
      var ins := ParseInstr(lines[|lines| - 1]);
      if prog.Panic? then Panic(prog.msg)
      else if ins.Panic? then Panic(ins.msg)
      else Ok(prog.value + [ins.value])
  }

  /** A program that panics on a prefix of its lines panics with the same message. */
  lemma {:induction false} ParsePrefixPanic(lines: seq<string>, i: nat)
    requires i <= |lines| && ParseProgram(lines[..i]).Panic?
    ensures ParseProgram(lines) == ParseProgram(lines[..i])
    decreases |lines| - i
  {
    if i < |lines| {
      assert lines[..i + 1][..i] == lines[..i];
      ParsePrefixPanic(lines, i + 1);
    } else {
      assert lines[..i] == lines;
    }
  }

  // ------------------------------------------------------------------
  // the register trace
  // ------------------------------------------------------------------

  /** The register values pushed while running prog from register value x. */
  function Cycles(prog: seq<Instr>, x: int): seq<int>
    decreases |prog|
  {
    if prog == [] then []
    else
      if prog[0].Noop? then [x] + Cycles(prog[1..], x)
      else [x, x + prog[0].v] + Cycles(prog[1..], x + prog[0].v)
  }

  /** The register value after prog. */
  function Final(prog: seq<Instr>, x: int): int
    decreases |prog|
  {
    if prog == [] then x
    else
      Final(prog[1..], if prog[0].Noop? then x else x + prog[0].v)
  }

  /** The cycles prog takes: one per `noop`, two per `addx`. */
  function Ticks(prog: seq<Instr>): nat
    decreases |prog|
  {
    if prog == [] then 0 else (if prog[0].Noop? then 1 else 2) + Ticks(prog[1..])
  }

  lemma {:induction false} CyclesLength(prog: seq<Instr>, x: int)
    ensures |Cycles(prog, x)| == Ticks(prog)
    decreases |prog|
  {
    if prog != [] {
      CyclesLength(prog[1..], if prog[0].Noop? then x else x + prog[0].v);
    }
  }

  /** Running two programs one after the other. */
  lemma {:induction false} CyclesAppend(p: seq<Instr>, q: seq<Instr>, x: int)
    ensures Cycles(p + q, x) == Cycles(p, x) + Cycles(q, Final(p, x))
    ensures Final(p + q, x) == Final(q, Final(p, x))
    decreases |p|
  {
    if p != [] {
      assert (p + q)[1..] == p[1..] + q;
      CyclesAppend(p[1..], q, if p[0].Noop? then x else x + p[0].v);
    } else {
      assert p + q == q;
    }
  }

  /**
   * An independent clock: the register after k cycles, where an `addx` takes effect only at the end
   * of its second cycle.
   */
  function After(prog: seq<Instr>, x: int, k: nat): int
    decreases |prog|
  {
    if k == 0 || prog == [] then x
    else
      if prog[0].Noop? then After(prog[1..], x, k - 1)
      else if k == 1 then x
      else After(prog[1..], x + prog[0].v, k - 2)
  }

  /**
   * The trace lists the register after every cycle: entry k of `[x] + Cycles(prog, x)` is the value
   * after k cycles, i.e. the value during cycle k + 1, and the last entry is the final value.
   */
  lemma {:induction false} CyclesClock(prog: seq<Instr>, x: int, k: nat)
    requires k <= Ticks(prog)
    ensures |[x] + Cycles(prog, x)| == Ticks(prog) + 1
    ensures ([x] + Cycles(prog, x))[k] == After(prog, x, k)
    ensures ([x] + Cycles(prog, x))[Ticks(prog)] == Final(prog, x)
    decreases |prog|
  {
    CyclesLength(prog, x);
    if prog != [] {
      var x' := if prog[0].Noop? then x else x + prog[0].v;
      var step := if prog[0].Noop? then 1 else 2;
      CyclesClock(prog[1..], x', if k >= step then k - step else 0);
    }
  }

  /**
   * One line of `generator`'s loop: a `noop` pushes x; an `addx` pushes x, then (once its operand
   * is read) x + v, which becomes the new x.
   */
  method RunLine(line: string, x: int, trace: seq<int>) returns (r: Result<Instr>, x': int, trace': seq<int>)
    ensures r == ParseInstr(line)
    ensures r.Ok? ==> x' == Final([r.value], x) && trace' == trace + Cycles([r.value], x)
  {
    x', trace' := x, trace;
    if line == "noop" {
      trace' := trace' + [x'];
      return Ok(Noop), x', trace';
    }
    var words := SplitWhitespace(line);
    if |words| == 0 {
      return Panic(NoneUnwrapped), x', trace';
    }
    if words[0] != "addx" {
      return Panic(AddxNotFound), x', trace';
    }
    trace' := trace' + [x'];
    if |words| < 2 {
      return Panic(NoneUnwrapped), x', trace';
    }
    var n := ParseI32(words[1]);
    if n.None? {
      return Panic(NumberNotFound), x', trace';
    }
    x' := x' + n.value;
    trace' := trace' + [x'];
    assert [Addx(n.value)][1..] == [];
    return Ok(Addx(n.value)), x', trace';
  }

  /** `generator`: the register trace, starting from x = 1. */
  method Generator(input: string) returns (r: Result<seq<int>>)
    ensures ParseProgram(Lines(input)).Panic? ==> r == Panic(ParseProgram(Lines(input)).msg)
    ensures ParseProgram(Lines(input)).Ok? ==> r == Ok([1] + Cycles(ParseProgram(Lines(input)).value, 1))
  {
    var lines := Lines(input);
    var x := 1;
    var result := [x];
    ghost var done: seq<Instr> := [];
    for i := 0 to |lines|
      invariant ParseProgram(lines[..i]) == Ok(done)
      invariant result == [1] + Cycles(done, 1) && x == Final(done, 1)
    {
      ParseStep(lines, i, done);
      var ins, x', result' := RunLine(lines[i], x, result);
      if ins.Panic? {
        ParsePrefixPanic(lines, i + 1);
        return Panic(ins.msg);
      }
      TraceKeeps(done, ins.value, x, result, x', result');
      done := done + [ins.value];
      x, result := x', result';
    }
    assert lines[..|lines|] == lines;
    return Ok(result);
  }

  /** One more line run on the trace of the lines before it gives the trace of them all. */
  lemma TraceKeeps(done: seq<Instr>, ins: Instr, x: int, trace: seq<int>, x': int, trace': seq<int>)
    requires trace == [1] + Cycles(done, 1) && x == Final(done, 1)
    requires x' == Final([ins], x) && trace' == trace + Cycles([ins], x)
    ensures trace' == [1] + Cycles(done + [ins], 1) && x' == Final(done + [ins], 1)
  {
    CyclesAppend(done, [ins], 1);
    assert trace' == [1] + (Cycles(done, 1) + Cycles([ins], x));
  }

  /** Line i parsed after the lines before it. */
  lemma ParseStep(lines: seq<string>, i: nat, done: seq<Instr>)
    requires i < |lines| && ParseProgram(lines[..i]) == Ok(done)
    ensures ParseInstr(lines[i]).Panic? ==> ParseProgram(lines[..i + 1]) == Panic(ParseInstr(lines[i]).msg)
    ensures ParseInstr(lines[i]).Ok? ==> ParseProgram(lines[..i + 1]) == Ok(done + [ParseInstr(lines[i]).value])
  {
    assert lines[..i + 1][..i] == lines[..i];
  }

  /** A program that writes back to itself: `addx` operands in `i32` range. */
  predicate Printable(prog: seq<Instr>)
  {
    forall i :: 0 <= i < |prog| ==> prog[i].Addx? ==> I32Min <= prog[i].v <= I32Max
  }

  function Show(ins: Instr): string
  {
    match ins
    case Noop => "noop"
    case Addx(v) => "addx " + IntText(v)
  }

  lemma ParseShow(ins: Instr)
    requires ins.Addx? ==> I32Min <= ins.v <= I32Max
    ensures ParseInstr(Show(ins)) == Ok(ins) && FreeOf(Show(ins), {'\n'})
  {
    if ins.Addx? {
      var num := IntText(ins.v);
      IntTextFree(ins.v, Whitespace);
      IntTextFree(ins.v, {'\n'});
      assert Show(ins) == "addx" + [' '] + num;
      SkipWord("addx", ' ', num, Whitespace);
      ParseIntText(ins.v, I32Min, I32Max);
      LastWord(num, Whitespace);
      assert SplitWhitespace(Show(ins)) == ["addx", num];
    }
  }

  function ShowAll(prog: seq<Instr>): (r: seq<string>)
    ensures |r| == |prog| && forall i :: 0 <= i < |prog| ==> r[i] == Show(prog[i])
  {
    seq(|prog|, i requires 0 <= i < |prog| => Show(prog[i]))
  }

  lemma {:induction false} ParseShown(prog: seq<Instr>)
    requires Printable(prog)
    ensures ParseProgram(ShowAll(prog)) == Ok(prog)
    decreases |prog|
  {
    if prog != [] {
      var init, last := prog[..|prog| - 1], prog[|prog| - 1];
      var lines := ShowAll(prog);
      assert Printable(init);
      ParseShown(init);
      ParseShow(last);
      assert lines[..|lines| - 1] == ShowAll(init);
      assert lines[|lines| - 1] == Show(last);
      assert init + [last] == prog;
    }
  }

  /** `generator` reads back every program written one instruction per line. */
  lemma GeneratorRoundTrip(prog: seq<Instr>)
    requires Printable(prog)
    ensures ParseProgram(Lines(Unlines(ShowAll(prog)))) == Ok(prog)
  {
    forall i | 0 <= i < |prog| ensures FreeOf(ShowAll(prog)[i], {'\n'}) {
      ParseShow(prog[i]);
    }
    LinesUnlines(ShowAll(prog));
    ParseShown(prog);
  }

  /** The short sample program: six values, starting at 1 and ending at −1. */
  lemma SampleTrace()
    ensures [1] + Cycles([Noop, Addx(3), Addx(-5)], 1) == [1, 1, 1, 4, 4, -1]
  {
  }

  // ------------------------------------------------------------------
  // part1: signal strength
  // ------------------------------------------------------------------

  /** The sum of cycle × x during that cycle over the first k of cycles 20, 60, 100, ... */
  function Strength(cycles: seq<int>, k: nat): int
    requires |cycles| >= 40 * k - 20
    decreases k
  {
    if k == 0 then 0 else Strength(cycles, k - 1) + (40 * k - 20) * cycles[40 * k - 21]
  }

  /**
   * `part1`: the signal strength over cycles 20, 60, ..., 220, as text; a trace shorter than 220
   * values is indexed out of bounds.
   */
  method Part1(cycles: seq<int>) returns (r: Result<string>)
    ensures r.Panic? <==> |cycles| < 220
    ensures r.Ok? ==> r == Ok(IntText(Strength(cycles, 6)))
  {
    var sig := 0;
    for c := 0 to 6
      invariant |cycles| >= 40 * c - 20 && sig == Strength(cycles, c)
    {
      var cycle := 20 + c * 40;
      if cycle - 1 >= |cycles| {
        return Panic("index out of bounds");
      }
      sig := sig + cycle * cycles[cycle - 1];
    }
    return Ok(IntText(sig));
  }

  /** Over a program's own trace, the strength samples the register during each sampled cycle. */
  lemma StrengthOfProgram(prog: seq<Instr>, k: nat)
    requires 40 * k - 20 <= Ticks(prog)
    ensures |[1] + Cycles(prog, 1)| >= 40 * k - 20
    ensures k >= 1 ==> Strength([1] + Cycles(prog, 1), k)
                       == Strength([1] + Cycles(prog, 1), k - 1) + (40 * k - 20) * After(prog, 1, 40 * k - 21)
  {
    CyclesLength(prog, 1);
    if k >= 1 {
      CyclesClock(prog, 1, 40 * k - 21);
    }
  }

  // ------------------------------------------------------------------
  // part2: the screen
  // ------------------------------------------------------------------

  /** A pixel is lit when the sprite, three pixels wide and centred on x, covers it. */
  function Pixel(x: int, pixel: int): char
  {
    if Abs(x - pixel) < 2 then '#' else '.'
  }

  /** The first k pixels of row `line`, drawn during cycles 40·line + 1 .. 40·line + k. */
  function Pixels(cycles: seq<int>, line: nat, k: nat): (r: string)
    requires |cycles| >= 40 * line + k
    ensures |r| == k && forall p :: 0 <= p < k ==> r[p] == Pixel(cycles[40 * line + p], p)
  {
    seq(k, p requires 0 <= p < k => Pixel(cycles[40 * line + p], p))
  }

  function Row(cycles: seq<int>, line: nat): (r: string)
    requires |cycles| >= 40 * line + 40
  {
    Pixels(cycles, line, 40)
  }

  /** The first n rows of the screen, each preceded by a line break. */
  function Screen(cycles: seq<int>, n: nat): (r: string)
    requires |cycles| >= 40 * n
    ensures |r| == 41 * n
    decreases n
  {
    if n == 0 then "" else Screen(cycles, n - 1) + "\n" + Row(cycles, n - 1)
  }

  /** Character 41·line + 1 + p of the screen is the pixel p of row `line`; 41·line is a break. */
  lemma {:induction false} ScreenAt(cycles: seq<int>, n: nat, line: nat, p: nat)
    requires |cycles| >= 40 * n && line < n && p < 40
    ensures Screen(cycles, n)[41 * line] == '\n'
    ensures Screen(cycles, n)[41 * line + 1 + p] == Pixel(cycles[40 * line + p], p)
    decreases n
  {
    if line < n - 1 {
      ScreenAt(cycles, n - 1, line, p);
    }
  }

  /** The screen is the empty string followed by the rows, joined by line breaks. */
  lemma {:induction false} ScreenRows(cycles: seq<int>, n: nat)
    requires |cycles| >= 40 * n
    ensures Screen(cycles, n) == Join([""] + seq(n, l requires 0 <= l < n => Row(cycles, l)), '\n')
    decreases n
  {
    if n > 0 {
      ScreenRows(cycles, n - 1);
      JoinSnoc([""] + seq(n - 1, l requires 0 <= l < n - 1 => Row(cycles, l)), Row(cycles, n - 1), '\n');
      assert [""] + seq(n, l requires 0 <= l < n => Row(cycles, l))
          == [""] + seq(n - 1, l requires 0 <= l < n - 1 => Row(cycles, l)) + [Row(cycles, n - 1)];
    }
  }

  /** `part2`: six rows of 40 pixels; a trace shorter than 240 values is indexed out of bounds. */
  method Part2(cycles: seq<int>) returns (r: Result<string>)
    ensures r.Panic? <==> |cycles| < 240
    ensures r.Ok? ==> r == Ok(Screen(cycles, 6))
  {
    var result := "";
    for line := 0 to 6
      invariant |cycles| >= 40 * line && result == Screen(cycles, line)
    {
      result := result + "\n";
      for pixel := 0 to 40
        invariant |cycles| >= 40 * line + pixel
        invariant result == Screen(cycles, line) + "\n" + Pixels(cycles, line, pixel)
      {
        var c := line * 40 + pixel;
        if c >= |cycles| {
          return Panic("index out of bounds");
        }
        var x := cycles[c];
        if Abs(x - pixel) < 2 {
          result := result + "#";
        } else {
          result := result + ".";
        }
      }
    }
    return Ok(result);
  }
}
