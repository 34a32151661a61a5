/**
 * Day 21 (Monkey Math): each monkey either yells a number or combines the numbers of two other
 * monkeys with + - * /. The job table becomes an expression tree; part 1 evaluates it, part 2
 * walks the path from the root down to the human's leaf and inverts one operator per level to
 * find the number that makes the root's two sides equal.
 */
module Day21 {
  import opened Wrappers
  import opened Arith
  import Text

  /** The name of the human's leaf. */
  const HumanCode: string := "humn"

  const I64Min: int := -0x8000_0000_0000_0000
  const I64Max: int := 0x7fff_ffff_ffff_ffff

  // ------------------------------------------------------------------
  // Operators
  // ------------------------------------------------------------------

  datatype Operator = Add | Sub | Mul | Div

  /** Operator::from: the four operator symbols; any other word panics. */
  function OperatorFrom(s: string): Result<Operator>
  {
    if s == "+" then Ok(Add)
    else if s == "-" then Ok(Sub)
    else if s == "*" then Ok(Mul)
    else if s == "/" then Ok(Div)
    else Panic("Unexpected operation " + s)
  }

  /** The symbol an operator is written with in the job table. */
  function Symbol(o: Operator): string
  {
    match o
    case Add => "+"
    case Sub => "-"
    case Mul => "*"
    case Div => "/"
  }

  /** Operator::from accepts exactly the four symbols and reads each back as its own operator. */
  lemma OperatorSymbols(s: string, o: Operator)
    ensures OperatorFrom(Symbol(o)) == Ok(o)
    ensures OperatorFrom(s).Ok? <==> s == "+" || s == "-" || s == "*" || s == "/"
    ensures OperatorFrom(s).Ok? ==> Symbol(OperatorFrom(s).value) == s
  {
  }

  /** Operator::evaluate on i64: Rust's `/` rounds toward zero and panics on a zero divisor. */
  function Apply(o: Operator, left: int, right: int): Result<int>
  {
    match o
    case Add => Ok(left + right)
    case Sub => Ok(left - right)
    case Mul => Ok(left * right)
    case Div => if right == 0 then Panic("attempt to divide by zero") else Ok(TruncDiv(left, right))
  }

  /** Operator::evaluate_left: the left operand that, with `right`, should give `goal`. */
  function ApplyLeft(o: Operator, goal: int, right: int): Result<int>
  {
    match o
    case Add => Ok(goal - right)
    case Sub => Ok(goal + right)
    case Mul => if right == 0 then Panic("attempt to divide by zero") else Ok(TruncDiv(goal, right))
    case Div => Ok(goal * right)
  }

  /** Operator::evaluate_right: the right operand that, with `left`, should give `goal`. */
  function ApplyRight(o: Operator, goal: int, left: int): Result<int>
  {
    match o
    case Add => Ok(goal - left)
    case Sub => Ok(left - goal)
    case Mul => if left == 0 then Panic("attempt to divide by zero") else Ok(TruncDiv(goal, left))
    case Div => if goal == 0 then Panic("attempt to divide by zero") else Ok(TruncDiv(left, goal))
  }

  /**
    * evaluate_left is a right inverse of evaluate: the left operand it finds gives back the
    * expected value, always for + - and /, and for * when the right operand divides it.
    */
  lemma LeftInverse(o: Operator, goal: int, right: int)
    requires o == Mul ==> right != 0 && goal % right == 0
    requires o == Div ==> right != 0
    ensures ApplyLeft(o, goal, right).Ok?
    ensures Apply(o, ApplyLeft(o, goal, right).value, right) == Ok(goal)
  {
    if o == Mul {
      var q := goal / right;
      assert goal == q * right;
      TruncDivExact(q, right);
    } else if o == Div {
      TruncDivExact(goal, right);
    }
  }

  /**
    * evaluate_right is a right inverse of evaluate: the right operand it finds gives back the
    * expected value, always for + and -, and for * and / when the division it makes is exact.
    */
  lemma RightInverse(o: Operator, goal: int, left: int)
    requires o == Mul ==> left != 0 && goal % left == 0
    requires o == Div ==> goal != 0 && left != 0 && left % goal == 0
    ensures ApplyRight(o, goal, left).Ok?
    ensures Apply(o, left, ApplyRight(o, goal, left).value) == Ok(goal)
  {
    if o == Mul {
      var q := goal / left;
      assert goal == q * left;
      TruncDivExact(q, left);
      assert left * q == q * left;
    } else if o == Div {
      var k := left / goal;
      assert left == k * goal;
      TruncDivExact(k, goal);
      assert k != 0;
      assert left == goal * k;
      TruncDivExact(goal, k);
    }
  }

  /**
    * evaluate_left recovers the left operand from a result: always for + and -, for * when the
    * right operand is not zero, and for / when the division was exact.
    */
  lemma LeftRecovers(o: Operator, x: int, right: int)
    requires Apply(o, x, right).Ok?
    requires o == Mul ==> right != 0
    requires o == Div ==> x % right == 0
    ensures ApplyLeft(o, Apply(o, x, right).value, right) == Ok(x)
  {
    if o == Mul {
      TruncDivExact(x, right);
    } else if o == Div {
      var q := x / right;
      assert x == q * right;
      TruncDivExact(q, right);
    }
  }

  /**
    * evaluate_right recovers the right operand from a result: always for + and -, for * when the
    * left operand is not zero, and for / when the division was exact and its dividend not zero.
    */
  lemma RightRecovers(o: Operator, left: int, x: int)
    requires Apply(o, left, x).Ok?
    requires o == Mul ==> left != 0
    requires o == Div ==> left != 0 && left % x == 0
    ensures ApplyRight(o, Apply(o, left, x).value, left) == Ok(x)
  {
    if o == Mul {
      assert left * x == x * left;
      TruncDivExact(x, left);
    } else if o == Div {
      DivRecovers(left, x);
    }
  }

  /** An exact quotient of a non-zero dividend divides the dividend back into the divisor. */
  lemma DivRecovers(left: int, x: int)
    requires x != 0 && left != 0 && left % x == 0
    ensures TruncDiv(left, x) != 0 && TruncDiv(left, TruncDiv(left, x)) == x
  {
    var k := left / x;
    assert left == k * x;
    TruncDivExact(k, x);
    assert TruncDiv(left, x) == k;
    assert k != 0;
    assert left == x * k;
    TruncDivExact(x, k);
  }

  // ------------------------------------------------------------------
  // The expression tree
  // ------------------------------------------------------------------

  /** Node: an operator over two subtrees, or a number flagged when it is the human's. */
  datatype Node = Op(o: Operator, l: Node, r: Node) | Num(human: bool, n: int)

  /** Node::evaluate: the tree folded bottom-up, the left operand first. */
  function Evaluate(t: Node): Result<int>
  {
    match t
    case Num(_, n) => Ok(n)
    case Op(o, l, r) =>
      var a := Evaluate(l);
      if a.Panic? then a
      else
        var b := Evaluate(r);
        if b.Panic? then b else Apply(o, a.value, b.value)
  }

  /** part1: the number the root monkey yells. */
  function Part1(root: Node): Result<int>
  {
    Evaluate(root)
  }

  /** Some leaf below t is the human's. */
  predicate HasHuman(t: Node)
  {
    match t
    case Num(h, _) => h
    case Op(_, l, r) => HasHuman(l) || HasHuman(r)
  }

  /**
    * The directions path_to_human pushes below t: one per level from the human's leaf up to t,
    * '<' for a left child and '>' for a right one, the left subtree searched first; nothing when
    * no leaf below t is the human's.
    */
  function HumanPath(t: Node): seq<char>
  {
    match t
    case Num(_, _) => []
    case Op(_, l, r) =>
      if HasHuman(l) then HumanPath(l) + ['<']
      else if HasHuman(r) then HumanPath(r) + ['>']
      else []
  }

  /** The subtree a path leads to, its last direction taken first (the order the path is popped). */
  function At(t: Node, path: seq<char>): Option<Node>
    decreases |path|
  {
    if path == [] then Some(t)
    else if t.Op? && path[|path| - 1] == '<' then At(t.l, path[..|path| - 1])
    else if t.Op? && path[|path| - 1] == '>' then At(t.r, path[..|path| - 1])
    else None
  }

  /** The human's path leads to the human's leaf; without a human below, the path is empty. */
  lemma {:induction false} HumanPathLeads(t: Node)
    ensures HasHuman(t) ==> At(t, HumanPath(t)).Some? && At(t, HumanPath(t)).value.Num? && At(t, HumanPath(t)).value.human
    ensures !HasHuman(t) ==> HumanPath(t) == []
  {
    match t
    case Num(_, _) =>
    case Op(_, l, r) =>
      HumanPathLeads(l);
      HumanPathLeads(r);
      if HasHuman(l) {
        assert (HumanPath(l) + ['<'])[..|HumanPath(l)|] == HumanPath(l);
      } else if HasHuman(r) {
        assert (HumanPath(r) + ['>'])[..|HumanPath(r)|] == HumanPath(r);
      }
  }

  /** Conversely, a path to a human's leaf proves there is one: HasHuman holds exactly when such a path exists. */
  lemma {:induction false} HumanAtPath(t: Node, path: seq<char>)
    requires At(t, path).Some? && At(t, path).value.Num? && At(t, path).value.human
    ensures HasHuman(t)
    decreases |path|
  {
    if path != [] {
      var rest := path[..|path| - 1];
      if path[|path| - 1] == '<' {
        HumanAtPath(t.l, rest);
      } else {
        HumanAtPath(t.r, rest);
      }
    }
  }

  /**
    * Node::path_to_human: append the human's path below t to `path` and say whether there is one.
    * A subtree without the human appends nothing.
    */
  method PathToHuman(t: Node, path: seq<char>) returns (found: bool, out: seq<char>)
    ensures found == HasHuman(t)
    ensures out == path + HumanPath(t)
    decreases t
  {
    match t
    case Num(h, _) =>
      found, out := h, path;
    case Op(_, l, r) =>
      found, out := PathToHuman(l, path);
      if found {
        out := out + ['<'];
        return;
      }
      found, out := PathToHuman(r, out);
      if found {
        out := out + ['>'];
      }
  }

  /** The tree with the subtree a path leads to replaced by the human's leaf yelling h. */
  function Replace(t: Node, path: seq<char>, h: int): Node
    decreases |path|
  {
    if path == [] then Num(true, h)
    else if t.Op? && path[|path| - 1] == '<' then Op(t.o, Replace(t.l, path[..|path| - 1], h), t.r)
    else if t.Op? && path[|path| - 1] == '>' then Op(t.o, t.l, Replace(t.r, path[..|path| - 1], h))
    else t
  }

  /**
    * Node::compute_human_value: pop the path one level at a time, evaluate the sibling subtree,
    * and invert the operator to get the value the child on the path must have. An empty path
    * answers `goal`; a direction that does not meet an operator panics.
    */
  function Solve(t: Node, path: seq<char>, goal: int): Result<int>
    decreases |path|
  {
    if path == [] then Ok(goal)
    else
      var rest := path[..|path| - 1];
      if t.Op? && path[|path| - 1] == '<' then
        var b := Evaluate(t.r);
        if b.Panic? then b
        else
          var e := ApplyLeft(t.o, goal, b.value);
          if e.Panic? then e else Solve(t.l, rest, e.value)
      else if t.Op? && path[|path| - 1] == '>' then
        var a := Evaluate(t.l);
        if a.Panic? then a
        else
          var e := ApplyRight(t.o, goal, a.value);
          if e.Panic? then e else Solve(t.r, rest, e.value)
      else Panic("Unexpected path")
  }

  /**
    * With the human yelling h, every level on the path evaluates and its inversion loses nothing:
    * no * by a zero sibling, no / that rounds, no / whose result is zero.
    */
  predicate Exact(t: Node, path: seq<char>, h: int)
    decreases |path|
  {
    if path == [] then true
    else
      var rest := path[..|path| - 1];
      if t.Op? && path[|path| - 1] == '<' then
        var x, y := Evaluate(Replace(t.l, rest, h)), Evaluate(t.r);
        Exact(t.l, rest, h) && x.Ok? && y.Ok? &&
        (t.o == Mul ==> y.value != 0) && (t.o == Div ==> y.value != 0 && x.value % y.value == 0)
      else if t.Op? && path[|path| - 1] == '>' then
        var x, y := Evaluate(t.l), Evaluate(Replace(t.r, rest, h));
        Exact(t.r, rest, h) && x.Ok? && y.Ok? &&
        (t.o == Mul ==> x.value != 0) && (t.o == Div ==> x.value != 0 && y.value != 0 && x.value % y.value == 0)
      else false
  }

  /**
    * compute_human_value inverts evaluation: if the human yelling h makes t evaluate to e, and
    * no inversion on the way loses information, then solving for e along the path gives h back.
    */
  lemma {:induction false} SolveRecovers(t: Node, path: seq<char>, h: int)
    requires Exact(t, path, h)
    ensures Evaluate(Replace(t, path, h)).Ok?
    ensures Solve(t, path, Evaluate(Replace(t, path, h)).value) == Ok(h)
    decreases |path|
  {
    if path != [] {
      var rest := path[..|path| - 1];
      if path[|path| - 1] == '<' {
        var x, y := Evaluate(Replace(t.l, rest, h)).value, Evaluate(t.r).value;
        SolveRecovers(t.l, rest, h);
        LeftRecovers(t.o, x, y);
      } else {
        var x, y := Evaluate(t.l).value, Evaluate(Replace(t.r, rest, h)).value;
        SolveRecovers(t.r, rest, h);
        RightRecovers(t.o, x, y);
      }
    }
  }

  /** The popping recursion of compute_human_value; on success it has emptied the path. */
  method ComputeHumanValue(t: Node, path: seq<char>, goal: int) returns (r: Result<int>, rest: seq<char>)
    ensures r == Solve(t, path, goal)
    ensures r.Ok? ==> rest == []
    decreases |path|
  {
    if path == [] {
      return Ok(goal), path;
    }
    var d := path[|path| - 1];
    rest := path[..|path| - 1];
    if t.Op? && d == '<' {
      var b := Evaluate(t.r);
      if b.Panic? {
        return b, rest;
      }
      var e := ApplyLeft(t.o, goal, b.value);
      if e.Panic? {
        return e, rest;
      }
      r, rest := ComputeHumanValue(t.l, rest, e.value);
    } else if t.Op? && d == '>' {
      var a := Evaluate(t.l);
      if a.Panic? {
        return a, rest;
      }
      var e := ApplyRight(t.o, goal, a.value);
      if e.Panic? {
        return e, rest;
      }
      r, rest := ComputeHumanValue(t.r, rest, e.value);
    } else {
      r := Panic("Unexpected path");
    }
  }

  /**
    * part2: pop the root's direction, evaluate the root's other side, and solve the human's side
    * for that value. No human in the tree (or the root itself the human) leaves the path empty,
    * and popping it panics.
    */
  function HumanValue(root: Node): Result<int>
  {
    var path := HumanPath(root);
    if path == [] then Panic("called `Option::unwrap()` on a `None` value")
    else
      var rest := path[..|path| - 1];
      if root.Op? && path[|path| - 1] == '<' then
        var b := Evaluate(root.r);
        if b.Panic? then b else Solve(root.l, rest, b.value)
      else if root.Op? && path[|path| - 1] == '>' then
        var a := Evaluate(root.l);
        if a.Panic? then a else Solve(root.r, rest, a.value)
      else Panic("Unexpected path")
  }

  method Part2(root: Node) returns (r: Result<int>)
    ensures r == HumanValue(root)
  {
    var found, path := PathToHuman(root, []);
    assert path == HumanPath(root);
    if path == [] {
      return Panic("called `Option::unwrap()` on a `None` value");
    }
    var d := path[|path| - 1];
    path := path[..|path| - 1];
    if root.Op? && d == '<' {
      var b := Evaluate(root.r);
      if b.Panic? {
        return b;
      }
      r, path := ComputeHumanValue(root.l, path, b.value);
    } else if root.Op? && d == '>' {
      var a := Evaluate(root.l);
      if a.Panic? {
        return a;
      }
      r, path := ComputeHumanValue(root.r, path, a.value);
    } else {
      r := Panic("Unexpected path");
    }
  }

  /**
    * The human yelling h makes the root's two sides equal, and no inversion on the human's side
    * loses information.
    */
  predicate Balances(root: Node, h: int)
  {
    root.Op? && HasHuman(root) &&
    var path := HumanPath(root);
    path != [] &&
    var rest := path[..|path| - 1];
    if path[|path| - 1] == '<' then
      Exact(root.l, rest, h) && Evaluate(root.r).Ok? && Evaluate(Replace(root.l, rest, h)) == Evaluate(root.r)
    else
      Exact(root.r, rest, h) && Evaluate(root.l).Ok? && Evaluate(Replace(root.r, rest, h)) == Evaluate(root.l)
  }

  /** part2 finds the number that balances the root, whenever one does without a lossy inversion. */
  lemma Part2Solves(root: Node, h: int)
    requires Balances(root, h)
    ensures HumanValue(root) == Ok(h)
  {
    var path := HumanPath(root);
    var rest := path[..|path| - 1];
    if HasHuman(root.l) {
      assert rest == HumanPath(root.l);
      SolveRecovers(root.l, rest, h);
    } else {
      assert rest == HumanPath(root.r);
      SolveRecovers(root.r, rest, h);
    }
  }

  /** Hence at most one number balances the root without a lossy inversion. */
  lemma BalanceUnique(root: Node, h1: int, h2: int)
    requires Balances(root, h1) && Balances(root, h2)
    ensures h1 == h2
  {
    Part2Solves(root, h1);
    Part2Solves(root, h2);
  }

  // ------------------------------------------------------------------
  // Building the tree from the job table
  // ------------------------------------------------------------------

  /** One more name on the way down leaves fewer unvisited names. */
  lemma FewerUnseen(keys: set<string>, seen: set<string>, name: string)
    requires name in keys && name !in seen
    ensures |keys - (seen + {name})| < |keys - seen|
  {
    assert keys - (seen + {name}) == (keys - seen) - {name};
  }

  /**
    * make_node: the tree below `name`. A missing name panics in the map lookup; one word is a
    * number (flagged when the name is the human's), three words an operation. `seen` holds the
    * names on the way down from the root: meeting one again means the job table is cyclic, and
    * the Rust recursion then runs until the stack overflows.
    */
  function MakeNode(name: string, jobs: map<string, seq<string>>, seen: set<string>): Result<Node>
    decreases |jobs.Keys - seen|
  {
    if name !in jobs then Panic("no entry found for key")
    else if name in seen then Panic("stack overflow")
    else
      var words := jobs[name];
      if |words| == 1 then
        var n := Text.ParseSigned(words[0], I64Min, I64Max);
        if n.None? then Panic("called `Result::unwrap()` on an `Err` value") else Ok(Num(name == HumanCode, n.value))
      else if |words| == 3 then
        var o := OperatorFrom(words[1]);
        if o.Panic? then Panic(o.msg)
        else
          FewerUnseen(jobs.Keys, seen, name);
          var l := MakeNode(words[0], jobs, seen + {name});
          if l.Panic? then l
          else
            var r := MakeNode(words[2], jobs, seen + {name});
            if r.Panic? then r else Ok(Op(o.value, l.value, r.value))
      else Panic("Unexpected tokens")
  }

  /** Every leaf flagged as the human's comes from the one-word job of the monkey named "humn". */
  lemma {:induction false} HumanFromHumn(name: string, jobs: map<string, seq<string>>, seen: set<string>)
    requires MakeNode(name, jobs, seen).Ok? && HasHuman(MakeNode(name, jobs, seen).value)
    ensures HumanCode in jobs && |jobs[HumanCode]| == 1
    decreases |jobs.Keys - seen|
  {
    var words := jobs[name];
    if |words| == 3 {
      FewerUnseen(jobs.Keys, seen, name);
      if HasHuman(MakeNode(words[0], jobs, seen + {name}).value) {
        HumanFromHumn(words[0], jobs, seen + {name});
      } else {
        HumanFromHumn(words[2], jobs, seen + {name});
      }
    }
  }

  /**
    * The job table generator fills: each line "name: job" maps the name to the job's words, a
    * later line replacing an earlier one for the same name; a line without ": " panics.
    */
  function Jobs(lines: seq<string>): Result<map<string, seq<string>>>
    decreases |lines|
  {
    if lines == [] then Ok(map[])
    else
      var prev := Jobs(lines[..|lines| - 1]);
      if prev.Panic? then prev
      else
        var parts := Text.SplitStr(lines[|lines| - 1], ": ");
        if |parts| < 2 then Panic("called `Option::unwrap()` on a `None` value")
        else Ok(prev.value[parts[0] := Text.SplitWhitespace(parts[1])])
  }

  /** generator: the tree below "root" of the job table the input's lines describe. */
  function Parse(input: string): Result<Node>
  {
    var jobs := Jobs(Text.Lines(input));
    if jobs.Panic? then Panic(jobs.msg) else MakeNode("root", jobs.value, {})
  }

  /** generator: insert each line's job into the table, then build the tree from "root". */
  method Generator(input: string) returns (r: Result<Node>)
    ensures r == Parse(input)
  {
    var lines := Text.Lines(input);
    var jobs: map<string, seq<string>> := map[];
    var i := 0;
    while i < |lines|
      invariant 0 <= i <= |lines|
      invariant Jobs(lines[..i]) == Ok(jobs)
    {
      var parts := Text.SplitStr(lines[i], ": ");
      assert lines[..i + 1][..i] == lines[..i];
      if |parts| < 2 {
        JobsPanicStays(lines, i + 1);
        return Panic("called `Option::unwrap()` on a `None` value");
      }
      jobs := jobs[parts[0] := Text.SplitWhitespace(parts[1])];
      i := i + 1;
    }
    assert lines[..i] == lines;
    r := MakeNode("root", jobs, {});
  }

  /** A line that panics makes the whole table panic, whatever lines follow it. */
  lemma {:induction false} JobsPanicStays(lines: seq<string>, k: nat)
    requires k <= |lines| && Jobs(lines[..k]).Panic?
    ensures Jobs(lines) == Jobs(lines[..k])
    decreases |lines| - k
  {
    if k < |lines| {
      assert lines[..k + 1][..k] == lines[..k];
      JobsPanicStays(lines, k + 1);
    } else {
      assert lines[..k] == lines;
    }
  }

  /** The last line naming a monkey decides its job. */
  lemma {:induction false} JobsLastWins(lines: seq<string>, name: string, i: nat)
    requires Jobs(lines).Ok? && i < |lines|
    requires Text.SplitStr(lines[i], ": ")[0] == name
    requires forall j :: i < j < |lines| ==> Text.SplitStr(lines[j], ": ")[0] != name
    ensures name in Jobs(lines).value
    ensures |Text.SplitStr(lines[i], ": ")| >= 2
    ensures Jobs(lines).value[name] == Text.SplitWhitespace(Text.SplitStr(lines[i], ": ")[1])
    decreases |lines|
  {
    var init := lines[..|lines| - 1];
    assert Jobs(init).Ok?;
    if i < |lines| - 1 {
      forall j | i < j < |init|
        ensures Text.SplitStr(init[j], ": ")[0] != name
      {
        assert init[j] == lines[j];
      }
      assert init[i] == lines[i];
      JobsLastWins(init, name, i);
    }
  }

  // ------------------------------------------------------------------
  // The sample
  // ------------------------------------------------------------------

  /** The tree generator builds from the puzzle's sample jobs. */
  function SampleRoot(): Node
  {
    Op(Add,
      Op(Div,
        Op(Add, Num(false, 4), Op(Mul, Num(false, 2), Op(Sub, Num(true, 5), Num(false, 3)))),
        Num(false, 4)),
      Op(Mul, Op(Sub, Num(false, 32), Num(false, 2)), Num(false, 5)))
  }

  /** The sample's root yells 152. */
  lemma SamplePart1()
    ensures Part1(SampleRoot()) == Ok(152)
  {
  }

  /** The sample's human path, leaf first, is < > > < <. */
  lemma SamplePath()
    ensures HumanPath(SampleRoot()) == ['<', '>', '>', '<', '<']
  {
  }

  /** With the human yelling 301, the sample root's left side evaluates to 150 and loses nothing on the way down. */
  lemma SampleLeftSide()
    ensures Exact(SampleRoot().l, ['<', '>', '>', '<'], 301)
    ensures Evaluate(Replace(SampleRoot().l, ['<', '>', '>', '<'], 301)) == Ok(150)
  {
    var ptdq := Op(Sub, Num(true, 5), Num(false, 3));
    var lgvd := Op(Mul, Num(false, 2), ptdq);
    var cczh := Op(Add, Num(false, 4), lgvd);
    var p1, p2, p3, p4: seq<char> := ['<'], ['<', '>'], ['<', '>', '>'], ['<', '>', '>', '<'];
    assert p2[..1] == p1 && p3[..2] == p2 && p4[..3] == p3;
    assert Exact(ptdq, p1, 301) && Evaluate(Replace(ptdq, p1, 301)) == Ok(298);
    assert Exact(lgvd, p2, 301) && Evaluate(Replace(lgvd, p2, 301)) == Ok(596);
    assert Exact(cczh, p3, 301) && Evaluate(Replace(cczh, p3, 301)) == Ok(600);
  }

  /** The human must yell 301 in the sample: it balances the root, so part2 finds it. */
  lemma SamplePart2()
    ensures Balances(SampleRoot(), 301)
    ensures HumanValue(SampleRoot()) == Ok(301)
  {
    SamplePath();
    SampleLeftSide();
    var path: seq<char> := ['<', '>', '>', '<', '<'];
    assert path[..4] == ['<', '>', '>', '<'];
    assert Evaluate(SampleRoot().r) == Ok(150);
    Part2Solves(SampleRoot(), 301);
  }
}
