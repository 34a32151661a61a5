/**
 * Day 19 (Not Enough Minerals): a blueprint prices four kinds of robot in ore, clay and obsidian.
 * A simulation starts with one ore robot; every minute each robot gathers one unit of its
 * resource, and a robot ordered at the start of a minute is ready at its end. `simulate` searches
 * the robot orders breadth first, pruning orders that cannot pay off, and reports the most geodes
 * opened by `until_time`. Part 1 sums id times the 24-minute answer; part 2 multiplies the
 * 32-minute answers of the first three blueprints.
 *
 * Counters are unbounded here; `SimBounded` proves that below 32 minutes none of them comes near
 * the u32 range of the source.
 */
module Day19 {
  import opened Wrappers
  import opened Text

  const U32: nat := 0x1_0000_0000

  datatype Robot = OreBot | ClayBot | ObsidianBot | GeodeBot

  /** What one robot costs. */
  datatype BotCost = BotCost(robot: Robot, ore: nat, clay: nat, obsidian: nat)

  datatype Blueprint = Blueprint(id: nat, botCosts: seq<BotCost>, maxOreCost: nat, maxClayCost: nat, maxObsidianCost: nat)

  /** The clock, the robots and the resources of one simulation. */
  datatype Simulation = Simulation(
    time: nat,
    oreBots: nat, ore: nat,
    clayBots: nat, clay: nat,
    obsidianBots: nat, obsidian: nat,
    geodeBots: nat, geode: nat)

  // ------------------------------------------------------------------
  // Simulation::new / gather / add_bot
  // ------------------------------------------------------------------

  /** `Simulation::new`: minute 0, one ore robot, nothing else. */
  function NewSimulation(): (s: Simulation)
    ensures s.time == 0 && s.oreBots == 1 && s.clayBots == 0 && s.obsidianBots == 0 && s.geodeBots == 0
    ensures s.ore == 0 && s.clay == 0 && s.obsidian == 0 && s.geode == 0
  {
    Simulation(0, 1, 0, 0, 0, 0, 0, 0, 0)
  }

  /** `gather`: one minute passes and every robot adds one unit of its resource. */
  function Gather(s: Simulation): (r: Simulation)
    ensures r.time == s.time + 1
    ensures r.oreBots == s.oreBots && r.clayBots == s.clayBots && r.obsidianBots == s.obsidianBots && r.geodeBots == s.geodeBots
    ensures r.ore == s.ore + s.oreBots && r.clay == s.clay + s.clayBots
    ensures r.obsidian == s.obsidian + s.obsidianBots && r.geode == s.geode + s.geodeBots
  {
    s.(time := s.time + 1, ore := s.ore + s.oreBots, clay := s.clay + s.clayBots,
       obsidian := s.obsidian + s.obsidianBots, geode := s.geode + s.geodeBots)
  }

  /** The number of robots of one kind. */
  function Bots(s: Simulation, bot: Robot): nat
  {
    match bot
    case OreBot => s.oreBots
    case ClayBot => s.clayBots
    case ObsidianBot => s.obsidianBots
    case GeodeBot => s.geodeBots
  }

  /** `add_bot`: one more robot of the given kind. */
  function AddBot(s: Simulation, bot: Robot): (r: Simulation)
    ensures Bots(r, bot) == Bots(s, bot) + 1
  {
    match bot
    case OreBot => s.(oreBots := s.oreBots + 1)
    case ClayBot => s.(clayBots := s.clayBots + 1)
    case ObsidianBot => s.(obsidianBots := s.obsidianBots + 1)
    case GeodeBot => s.(geodeBots := s.geodeBots + 1)
  }

  /** add_bot touches nothing but the matching robot counter: clock, resources and the other robots stay. */
  lemma AddBotOnly(s: Simulation, bot: Robot, other: Robot)
    requires other != bot
    ensures Bots(AddBot(s, bot), other) == Bots(s, other)
    ensures AddBot(s, bot).time == s.time && AddBot(s, bot).ore == s.ore && AddBot(s, bot).clay == s.clay
    ensures AddBot(s, bot).obsidian == s.obsidian && AddBot(s, bot).geode == s.geode
  {
  }

  /** k minutes of gathering, in closed form. */
  function GatherN(s: Simulation, k: nat): (r: Simulation)
    ensures r.time == s.time + k
    ensures r.oreBots == s.oreBots && r.clayBots == s.clayBots && r.obsidianBots == s.obsidianBots && r.geodeBots == s.geodeBots
    ensures r.ore == s.ore + k * s.oreBots && r.clay == s.clay + k * s.clayBots
    ensures r.obsidian == s.obsidian + k * s.obsidianBots && r.geode == s.geode + k * s.geodeBots
  {
    s.(time := s.time + k, ore := s.ore + k * s.oreBots, clay := s.clay + k * s.clayBots,
       obsidian := s.obsidian + k * s.obsidianBots, geode := s.geode + k * s.geodeBots)
  }

  /** gather repeated k times is the closed form GatherN. */
  lemma {:induction false} GatherRepeated(s: Simulation, k: nat)
    ensures GatherN(Gather(s), k) == GatherN(s, k + 1)
    ensures Gather(GatherN(s, k)) == GatherN(s, k + 1)
  {
    assert (k + 1) * s.oreBots == k * s.oreBots + s.oreBots;
    assert (k + 1) * s.clayBots == k * s.clayBots + s.clayBots;
    assert (k + 1) * s.obsidianBots == k * s.obsidianBots + s.obsidianBots;
    assert (k + 1) * s.geodeBots == k * s.geodeBots + s.geodeBots;
  }

  // ------------------------------------------------------------------
  // make_robot
  // ------------------------------------------------------------------

  /** A resource the robot needs has no robot producing it: waiting will never pay for it. */
  predicate Lacks(s: Simulation, cost: BotCost)
  {
    (cost.obsidian > 0 && s.obsidianBots < 1) || (cost.clay > 0 && s.clayBots < 1) || (cost.ore > 0 && s.oreBots < 1)
  }

  predicate Affordable(s: Simulation, cost: BotCost)
  {
    s.obsidian >= cost.obsidian && s.clay >= cost.clay && s.ore >= cost.ore
  }

  /** Paying for a robot: each resource less its price. */
  function Pay(s: Simulation, cost: BotCost): (r: Simulation)
    requires Affordable(s, cost)
    ensures r.time == s.time && r.ore + cost.ore == s.ore && r.clay + cost.clay == s.clay && r.obsidian + cost.obsidian == s.obsidian
  {
    s.(ore := s.ore - cost.ore, clay := s.clay - cost.clay, obsidian := s.obsidian - cost.obsidian)
  }

  /** The state once the robot is ordered: wait while it is unaffordable, then pay, gather and add it; stop at until. */
  function Build(s: Simulation, cost: BotCost, until: nat): Simulation
    decreases until - s.time
  {
    if s.time >= until then s
    else if !Affordable(s, cost) then Build(Gather(s), cost, until)
    else AddBot(Gather(Pay(s, cost)), cost.robot)
  }

  /**
   * `make_robot`: None when a needed resource has no robot; otherwise the simulation after waiting
   * until the robot is affordable, paying, gathering and adding it, never past until_time.
   */
  method MakeRobot(sim: Simulation, cost: BotCost, until: nat) returns (r: Option<Simulation>)
    ensures r.None? <==> Lacks(sim, cost)
    ensures r.Some? ==> r.value == Build(sim, cost, until)
  {
    if Lacks(sim, cost) {
      return None;
    }
    var s := sim;
    while s.time < until
      invariant Build(s, cost, until) == Build(sim, cost, until)
      decreases until - s.time
    {
      if !Affordable(s, cost) {
        s := Gather(s);
      } else {
        s := Pay(s, cost);
        s := Gather(s);
        s := AddBot(s, cost.robot);
        return Some(s);
      }
    }
    return Some(s);
  }

  /** An order never runs the clock past until_time, and when there is time left at least one minute passes. */
  lemma {:induction false} BuildTime(s: Simulation, cost: BotCost, until: nat)
    requires s.time <= until
    ensures s.time <= Build(s, cost, until).time <= until
    ensures s.time < until ==> s.time < Build(s, cost, until).time
    decreases until - s.time
  {
    if s.time < until && !Affordable(s, cost) {
      BuildTime(Gather(s), cost, until);
    }
  }

  /**
   * The robot is built after exactly k minutes of waiting when k is the first wait after which it is
   * affordable and that still leaves a minute: the resources pay its price and the robot is added.
   */
  lemma {:induction false} BuildAfterWaiting(s: Simulation, cost: BotCost, until: nat, k: nat)
    requires s.time + k < until && Affordable(GatherN(s, k), cost)
    requires forall j :: 0 <= j < k ==> !Affordable(GatherN(s, j), cost)
    ensures Build(s, cost, until) == AddBot(Gather(Pay(GatherN(s, k), cost)), cost.robot)
    decreases k
  {
    assert GatherN(s, 0) == s;
    if k > 0 {
      assert !Affordable(s, cost);
      forall j | 0 <= j < k - 1 ensures !Affordable(GatherN(Gather(s), j), cost) {
        GatherRepeated(s, j);
      }
      GatherRepeated(s, k - 1);
      BuildAfterWaiting(Gather(s), cost, until, k - 1);
    }
  }

  /** When the robot never becomes affordable in time, the order only gathers until until_time. */
  lemma {:induction false} BuildNever(s: Simulation, cost: BotCost, until: nat)
    requires s.time <= until
    requires forall j :: 0 <= j && s.time + j < until ==> !Affordable(GatherN(s, j), cost)
    ensures Build(s, cost, until) == GatherN(s, until - s.time)
    decreases until - s.time
  {
    assert GatherN(s, 0) == s;
    if s.time < until {
      forall j | 0 <= j && Gather(s).time + j < until ensures !Affordable(GatherN(Gather(s), j), cost) {
        GatherRepeated(s, j);
      }
      GatherRepeated(s, until - s.time - 1);
      BuildNever(Gather(s), cost, until);
    }
  }

  // ------------------------------------------------------------------
  // Bounds: a robot a minute at most
  // ------------------------------------------------------------------

  /** t(t+1): the most units of a resource t minutes can gather with one robot more each minute. */
  function Stock(t: nat): nat { t * (t + 1) }

  /** t(t-1): twice the most geodes t minutes can open, the first geode robot being built in minute 1. */
  function GeodeCap(t: nat): nat { if t == 0 then 0 else t * (t - 1) }

  lemma CapStep(t: nat)
    ensures Stock(t + 1) == Stock(t) + 2 * (t + 1)
    ensures GeodeCap(t + 1) == GeodeCap(t) + 2 * t
  {
  }

  lemma {:induction false} CapMono(t: nat, u: nat)
    requires t <= u
    ensures Stock(t) <= Stock(u) && GeodeCap(t) <= GeodeCap(u)
    decreases u - t
  {
    if t < u {
      CapStep(t);
      CapMono(t + 1, u);
    }
  }

  /**
   * At most one robot is built per minute, so after t minutes there are at most t + 1 ore robots and
   * t of each other kind, at most t(t+1) units of each resource, and at most t(t-1)/2 geodes.
   */
  predicate SimBounded(s: Simulation)
  {
    && s.oreBots <= s.time + 1 && s.clayBots <= s.time && s.obsidianBots <= s.time && s.geodeBots <= s.time
    && s.ore <= Stock(s.time) && s.clay <= Stock(s.time) && s.obsidian <= Stock(s.time)
    && 2 * s.geode <= GeodeCap(s.time)
  }

  lemma NewBounded()
    ensures SimBounded(NewSimulation())
  {
  }

  lemma GatherBounded(s: Simulation)
    requires SimBounded(s)
    ensures SimBounded(Gather(s))
  {
    CapStep(s.time);
  }

  /** Paying and gathering, then adding a robot, keeps the bounds. */
  lemma BuiltBounded(s: Simulation, cost: BotCost)
    requires SimBounded(s) && Affordable(s, cost)
    ensures SimBounded(AddBot(Gather(Pay(s, cost)), cost.robot))
  {
    var p := Pay(s, cost);
    assert SimBounded(p);
    GatherBounded(p);
  }

  /** An order keeps the bounds. */
  lemma {:induction false} BuildBounded(s: Simulation, cost: BotCost, until: nat)
    requires SimBounded(s)
    ensures SimBounded(Build(s, cost, until))
    decreases until - s.time
  {
    if s.time < until {
      if !Affordable(s, cost) {
        GatherBounded(s);
        BuildBounded(Gather(s), cost, until);
      } else {
        BuiltBounded(s, cost);
      }
    }
  }

  /** Below 33 minutes every counter fits in a u32 with room to spare. */
  lemma SimFitsU32(s: Simulation)
    requires SimBounded(s) && s.time <= 32
    ensures s.ore < U32 && s.clay < U32 && s.obsidian < U32 && s.geode < U32
    ensures s.oreBots < U32 && s.clayBots < U32 && s.obsidianBots < U32 && s.geodeBots < U32
  {
    CapMono(s.time, 32);
  }

  // ------------------------------------------------------------------
  // Blueprint::new / from
  // ------------------------------------------------------------------

  function MaxOre(costs: seq<BotCost>): (m: nat)
    requires |costs| > 0
    ensures (forall k :: 0 <= k < |costs| ==> costs[k].ore <= m) && exists k :: 0 <= k < |costs| && costs[k].ore == m
  {
    if |costs| == 1 then costs[0].ore
    else
      var m := MaxOre(costs[1..]);
      assert forall k :: 1 <= k < |costs| ==> costs[k] == costs[1..][k - 1];
      if costs[0].ore >= m then costs[0].ore else m
  }

  function MaxClay(costs: seq<BotCost>): (m: nat)
    requires |costs| > 0
    ensures (forall k :: 0 <= k < |costs| ==> costs[k].clay <= m) && exists k :: 0 <= k < |costs| && costs[k].clay == m
  {
    if |costs| == 1 then costs[0].clay
    else
      var m := MaxClay(costs[1..]);
      assert forall k :: 1 <= k < |costs| ==> costs[k] == costs[1..][k - 1];
      if costs[0].clay >= m then costs[0].clay else m
  }

  function MaxObsidian(costs: seq<BotCost>): (m: nat)
    requires |costs| > 0
    ensures (forall k :: 0 <= k < |costs| ==> costs[k].obsidian <= m) && exists k :: 0 <= k < |costs| && costs[k].obsidian == m
  {
    if |costs| == 1 then costs[0].obsidian
    else
      var m := MaxObsidian(costs[1..]);
      assert forall k :: 1 <= k < |costs| ==> costs[k] == costs[1..][k - 1];
      if costs[0].obsidian >= m then costs[0].obsidian else m
  }

  /** `Blueprint::new`: the costs and, per resource, the largest price; an empty list panics on `max().unwrap()`. */
  function NewBlueprint(id: nat, costs: seq<BotCost>): (r: Result<Blueprint>)
    ensures r.Ok? <==> |costs| > 0
    ensures r.Ok? ==> r.value.id == id && r.value.botCosts == costs
    ensures r.Ok? ==> forall k :: 0 <= k < |costs| ==>
      costs[k].ore <= r.value.maxOreCost && costs[k].clay <= r.value.maxClayCost && costs[k].obsidian <= r.value.maxObsidianCost
    ensures r.Ok? ==> exists k :: 0 <= k < |costs| && costs[k].ore == r.value.maxOreCost
    ensures r.Ok? ==> exists k :: 0 <= k < |costs| && costs[k].clay == r.value.maxClayCost
    ensures r.Ok? ==> exists k :: 0 <= k < |costs| && costs[k].obsidian == r.value.maxObsidianCost
  {
    if |costs| == 0 then Panic("called `Option::unwrap()` on a `None` value")
    else Ok(Blueprint(id, costs, MaxOre(costs), MaxClay(costs), MaxObsidian(costs)))
  }

  /** `trim_end_matches(c)`: every trailing c removed. */
  function TrimEnd(s: string, c: char): (r: string)
    ensures |r| <= |s| && r == s[..|r|]
    ensures (r == [] || r[|r| - 1] != c) && forall k :: |r| <= k < |s| ==> s[k] == c
  {
    if |s| > 0 && s[|s| - 1] == c then TrimEnd(s[..|s| - 1], c) else s
  }

  /** `splits[k].parse::<u32>().unwrap()`: a missing word or a bad number panics. */
  function Field(words: seq<string>, k: nat): (r: Result<nat>)
    ensures r.Ok? <==> k < |words| && ParseUnsigned(words[k], U32 - 1).Some?
    ensures r.Ok? ==> r.value == ParseUnsigned(words[k], U32 - 1).value
  {
    if k >= |words| then Panic("index out of bounds")
    else match ParseUnsigned(words[k], U32 - 1)
      case None => Panic("called `Result::unwrap()` on an `Err` value")
      case Some(v) => Ok(v)
  }

  /**
   * `Blueprint::from`: the id is word 1 without its trailing ':'; the prices are words 6, 12, 18 and
   * 21, 27 and 30; the list is reversed so the geode robot comes first.
   */
  function FromLine(line: string): Result<Blueprint>
  {
    var w := SplitWhitespace(line);
    if |w| <= 1 then Panic("index out of bounds")
    else
      var idText := ParseUnsigned(TrimEnd(w[1], ':'), U32 - 1);
      if idText.None? then Panic("called `Result::unwrap()` on an `Err` value")
      else
        var a, b, c, d, e, f := Field(w, 6), Field(w, 12), Field(w, 18), Field(w, 21), Field(w, 27), Field(w, 30);
        if a.Panic? then Panic(a.msg)
        else if b.Panic? then Panic(b.msg)
        else if c.Panic? then Panic(c.msg)
        else if d.Panic? then Panic(d.msg)
        else if e.Panic? then Panic(e.msg)
        else if f.Panic? then Panic(f.msg)
        else
          var costs := [BotCost(OreBot, a.value, 0, 0), BotCost(ClayBot, b.value, 0, 0),
                        BotCost(ObsidianBot, c.value, d.value, 0), BotCost(GeodeBot, e.value, 0, f.value)];
          NewBlueprint(idText.value, Reverse(costs))
  }

  /** A line parses exactly when it has the 31 words and the seven numbers are u32; the costs come geode robot first. */
  lemma FromLineShape(line: string)
    ensures var w := SplitWhitespace(line);
      FromLine(line).Ok? <==>
        (&& |w| > 30 && ParseUnsigned(TrimEnd(w[1], ':'), U32 - 1).Some?
         && Field(w, 6).Ok? && Field(w, 12).Ok? && Field(w, 18).Ok?
         && Field(w, 21).Ok? && Field(w, 27).Ok? && Field(w, 30).Ok?)
    ensures var w := SplitWhitespace(line);
      FromLine(line).Ok? ==>
        var b := FromLine(line).value;
        && b.id == ParseUnsigned(TrimEnd(w[1], ':'), U32 - 1).value
        && b.botCosts == [BotCost(GeodeBot, Field(w, 27).value, 0, Field(w, 30).value),
                          BotCost(ObsidianBot, Field(w, 18).value, Field(w, 21).value, 0),
                          BotCost(ClayBot, Field(w, 12).value, 0, 0),
                          BotCost(OreBot, Field(w, 6).value, 0, 0)]
  {
    var w := SplitWhitespace(line);
    if |w| > 30 && ParseUnsigned(TrimEnd(w[1], ':'), U32 - 1).Some? {
      var a, b, c, d, e, f := Field(w, 6), Field(w, 12), Field(w, 18), Field(w, 21), Field(w, 27), Field(w, 30);
      if a.Ok? && b.Ok? && c.Ok? && d.Ok? && e.Ok? && f.Ok? {
        ReverseFour(BotCost(OreBot, a.value, 0, 0), BotCost(ClayBot, b.value, 0, 0),
                    BotCost(ObsidianBot, c.value, d.value, 0), BotCost(GeodeBot, e.value, 0, f.value));
      }
    }
  }

  lemma ReverseFour<T>(a: T, b: T, c: T, d: T)
    ensures Reverse([a, b, c, d]) == [d, c, b, a]
  {
    assert [a, b, c, d][1..] == [b, c, d];
    assert [b, c, d][1..] == [c, d];
    assert [c, d][1..] == [d];
    assert [d][1..] == [];
  }

  function Reverse<T>(s: seq<T>): (r: seq<T>)
    ensures |r| == |s| && forall k :: 0 <= k < |s| ==> r[k] == s[|s| - 1 - k]
  {
    if s == [] then [] else Reverse(s[1..]) + [s[0]]
  }

  /** `generator`: one blueprint per line; the first bad line panics. */
  function Generator(input: string): (r: Result<seq<Blueprint>>)
    ensures r.Ok? ==> |r.value| == |Lines(input)| && forall k :: 0 <= k < |r.value| ==> FromLine(Lines(input)[k]) == Ok(r.value[k])
    ensures r.Panic? ==> exists k :: 0 <= k < |Lines(input)| && FromLine(Lines(input)[k]).Panic?
  {
    FromLines(Lines(input))
  }

  function FromLines(lines: seq<string>): (r: Result<seq<Blueprint>>)
    ensures r.Ok? ==> |r.value| == |lines| && forall k :: 0 <= k < |r.value| ==> FromLine(lines[k]) == Ok(r.value[k])
    ensures r.Panic? ==> exists k :: 0 <= k < |lines| && FromLine(lines[k]).Panic?
  {
    if lines == [] then Ok([])
    else
      var first := FromLine(lines[0]);
      if first.Panic? then Panic(first.msg)
      else
        var rest := FromLines(lines[1..]);
        if rest.Panic? then
          assert forall k :: 1 <= k < |lines| ==> lines[k] == lines[1..][k - 1];
          Panic(rest.msg)
        else Ok([first.value] + rest.value)
  }

  // ------------------------------------------------------------------
  // simulate
  // ------------------------------------------------------------------

  /**
   * The orders `simulate` skips: more ore (clay, obsidian) robots than any robot costs in ore
   * (clay, obsidian), or a stock that already covers the shortfall every remaining minute.
   */
  predicate Pruned(bp: Blueprint, s: Simulation, cost: BotCost, until: nat)
    requires s.time < until
  {
    match cost.robot
    case OreBot => s.oreBots >= bp.maxOreCost || s.ore / (until - s.time) >= bp.maxOreCost - s.oreBots
    case ClayBot => s.clayBots >= bp.maxClayCost || s.clay / (until - s.time) >= bp.maxClayCost - s.clayBots
    case ObsidianBot => s.obsidianBots >= bp.maxObsidianCost || s.obsidian / (until - s.time) >= bp.maxObsidianCost - s.obsidianBots
    case GeodeBot => false
  }

  /** s is curr after ordering one of the blueprint's robots that is not pruned, later than curr and bounded. */
  predicate Chosen(bp: Blueprint, curr: Simulation, until: nat, s: Simulation)
    requires curr.time < until
  {
    && curr.time < s.time <= until && SimBounded(s)
    && exists j :: 0 <= j < |bp.botCosts| && !Pruned(bp, curr, bp.botCosts[j], until)
         && !Lacks(curr, bp.botCosts[j]) && s == Build(curr, bp.botCosts[j], until)
  }

  /**
   * The orders `simulate` tries from curr, from the j-th robot of the blueprint on: each robot that
   * is neither pruned nor lacking a producer gives the state after ordering it, in the blueprint's
   * order, and a geode robot ready within the minute is the last one tried.
   */
  function Tried(bp: Blueprint, curr: Simulation, until: nat, j: nat): seq<Simulation>
    requires curr.time < until && j <= |bp.botCosts|
    decreases |bp.botCosts| - j
  {
    if j == |bp.botCosts| then []
    else
      var cost := bp.botCosts[j];
      if Pruned(bp, curr, cost, until) || Lacks(curr, cost) then Tried(bp, curr, until, j + 1)
      else
        var s := Build(curr, cost, until);
        if cost.robot == GeodeBot && curr.time + 1 == s.time then [s]
        else [s] + Tried(bp, curr, until, j + 1)
  }

  /**
   * The inner loop of `simulate`: the orders tried from curr, in the blueprint's order, skipping
   * pruned ones; a geode robot ready within the minute is the last order tried.
   */
  method Choices(bp: Blueprint, curr: Simulation, until: nat) returns (next: seq<Simulation>)
    requires curr.time < until && SimBounded(curr)
    ensures next == Tried(bp, curr, until, 0)
    ensures |next| <= |bp.botCosts|
    ensures forall k :: 0 <= k < |next| ==> Chosen(bp, curr, until, next[k])
  {
    next := [];
    for j := 0 to |bp.botCosts|
      invariant |next| <= j
      invariant next + Tried(bp, curr, until, j) == Tried(bp, curr, until, 0)
      invariant forall k :: 0 <= k < |next| ==> Chosen(bp, curr, until, next[k])
    {
      var cost := bp.botCosts[j];
      if Pruned(bp, curr, cost, until) {
        continue;
      }
      var s := MakeRobot(curr, cost, until);
      if s.Some? {
        BuildTime(curr, cost, until);
        BuildBounded(curr, cost, until);
        assert Chosen(bp, curr, until, s.value);
        if cost.robot == GeodeBot && curr.time + 1 == s.value.time {
          next := next + [s.value];
          break;
        } else {
          next := next + [s.value];
        }
      }
    }
  }

  function Pow(b: nat, e: nat): (r: nat)
    ensures b >= 1 ==> r >= 1
  {
    if e == 0 then 1 else b * Pow(b, e - 1)
  }

  lemma {:induction false} PowMono(b: nat, d: nat, e: nat)
    requires b >= 1 && d <= e
    ensures Pow(b, d) <= Pow(b, e)
    decreases e
  {
    if d < e {
      PowMono(b, d, e - 1);
      assert Pow(b, e) == b * Pow(b, e - 1);
      MulLe(1, b, Pow(b, e - 1));
    }
  }

  /** The work left in the queue: each state of time t counts b^(until - t). */
  function Weight(q: seq<Simulation>, b: nat, until: nat): nat
  {
    if q == [] then 0
    else Pow(b, if q[0].time <= until then until - q[0].time else 0) + Weight(q[1..], b, until)
  }

  lemma {:induction false} WeightAppend(p: seq<Simulation>, q: seq<Simulation>, b: nat, until: nat)
    ensures Weight(p + q, b, until) == Weight(p, b, until) + Weight(q, b, until)
    decreases |p|
  {
    if p == [] {
      assert p + q == q;
    } else {
      assert (p + q)[0] == p[0] && (p + q)[1..] == p[1..] + q;
      WeightAppend(p[1..], q, b, until);
    }
  }

  /** States all later than minute t weigh at most b^(until - t - 1) each. */
  lemma {:induction false} WeightLater(q: seq<Simulation>, b: nat, until: nat, t: nat)
    requires b >= 1 && t < until
    requires forall k :: 0 <= k < |q| ==> t < q[k].time <= until
    ensures Weight(q, b, until) <= |q| * Pow(b, until - t - 1)
    decreases |q|
  {
    if q != [] {
      var p := Pow(b, until - t - 1);
      PowMono(b, until - q[0].time, until - t - 1);
      assert forall k :: 0 <= k < |q| - 1 ==> q[1..][k] == q[k + 1];
      WeightLater(q[1..], b, until, t);
      assert (|q| - 1) * p + p == |q| * p;
    }
  }

  /** Replacing a state of time t by at most b - 1 later states shrinks the queue's weight. */
  lemma ChoicesShrink(curr: Simulation, rest: seq<Simulation>, next: seq<Simulation>, b: nat, until: nat)
    requires b >= 1 && curr.time < until && |next| < b
    requires forall k :: 0 <= k < |next| ==> curr.time < next[k].time <= until
    ensures Weight(rest + next, b, until) < Weight([curr] + rest, b, until)
  {
    WeightAppend(rest, next, b, until);
    WeightLater(next, b, until, curr.time);
    var p := Pow(b, until - curr.time - 1);
    assert Pow(b, until - curr.time) == b * p;
    FewerThanB(|next|, b, p, Weight(next, b, until));
    var c := [curr] + rest;
    assert c[0] == curr && c[1..] == rest;
    assert Weight(c, b, until) == Pow(b, until - curr.time) + Weight(rest, b, until);
  }

  /** Fewer than b items, each weighing at most p, weigh less than b * p. */
  lemma FewerThanB(n: nat, b: nat, p: nat, w: nat)
    requires n < b && w <= n * p && p >= 1
    ensures w < b * p
  {
    MulLe(n, b - 1, p);
    assert (b - 1) * p + p == b * p;
  }

  lemma MulBoth(a: nat, a': nat, c: nat, c': nat)
    requires a <= a' && c <= c'
    ensures a * c <= a' * c'
  {
    MulLe(a, a', c);
    assert a' * c <= a' * c';
  }

  lemma MulLe(a: nat, c: nat, p: nat)
    requires a <= c
    ensures a * p <= c * p
  {
  }

  /** s is one of the orders `simulate` tries from curr, which still has time left. */
  ghost predicate Step(bp: Blueprint, until: nat, curr: Simulation, s: Simulation)
  {
    curr.time < until && s in Tried(bp, curr, until, 0)
  }

  /** A run of orders `simulate` follows: each state one of the orders tried from the state before it. */
  ghost predicate Walk(bp: Blueprint, until: nat, path: seq<Simulation>)
  {
    && path != []
    && forall k :: 0 <= k < |path| - 1 ==> Step(bp, until, path[k], path[k + 1])
  }

  /** A run of orders `simulate` explores: a walk from the start. */
  ghost predicate Plan(bp: Blueprint, until: nat, path: seq<Simulation>)
  {
    Walk(bp, until, path) && path[0] == NewSimulation()
  }

  /** Some run of explored orders ends with g geodes opened. */
  ghost predicate Achieves(bp: Blueprint, until: nat, g: nat)
  {
    exists s :: Explored(bp, until, s) && s.geode == g
  }

  lemma PlanSnoc(bp: Blueprint, until: nat, path: seq<Simulation>, s: Simulation)
    requires Plan(bp, until, path) && path[|path| - 1].time < until && s in Tried(bp, path[|path| - 1], until, 0)
    ensures Plan(bp, until, path + [s])
  {
    var q := path + [s];
    forall k | 0 <= k < |q| - 1
      ensures Step(bp, until, q[k], q[k + 1])
    {
      if k < |path| - 1 {
        assert q[k] == path[k] && q[k + 1] == path[k + 1];
      } else {
        assert q[k] == path[|path| - 1] && q[k + 1] == s;
      }
    }
  }

  /** Some run of explored orders ends in s. */
  ghost predicate Explored(bp: Blueprint, until: nat, s: Simulation)
  {
    exists path: seq<Simulation> :: Plan(bp, until, path) && path[|path| - 1] == s
  }

  /** A queued state: within bounds, and the end of a run of orders. */
  ghost predicate Slot(bp: Blueprint, until: nat, s: Simulation)
  {
    s.time <= until && SimBounded(s) && Explored(bp, until, s)
  }

  /** The states waiting in the queue. */
  ghost predicate Frontier(bp: Blueprint, until: nat, queue: seq<Simulation>)
  {
    forall k :: 0 <= k < |queue| ==> Slot(bp, until, queue[k])
  }

  lemma FrontierStart(bp: Blueprint, until: nat)
    ensures Frontier(bp, until, [NewSimulation()])
  {
    NewBounded();
    var path := [NewSimulation()];
    assert Plan(bp, until, path) && path[|path| - 1] == NewSimulation();
  }

  lemma FrontierPop(bp: Blueprint, until: nat, queue: seq<Simulation>)
    requires Frontier(bp, until, queue) && queue != []
    ensures Frontier(bp, until, queue[1..]) && Slot(bp, until, queue[0])
  {
    var q := queue[1..];
    forall k | 0 <= k < |q|
      ensures Slot(bp, until, q[k])
    {
      assert q[k] == queue[k + 1];
    }
  }

  /** A state chosen from the end of a run extends that run. */
  lemma ExploredNext(bp: Blueprint, until: nat, curr: Simulation, s: Simulation)
    requires Explored(bp, until, curr) && curr.time < until && s in Tried(bp, curr, until, 0) && Chosen(bp, curr, until, s)
    ensures Slot(bp, until, s)
  {
    var path :| Plan(bp, until, path) && path[|path| - 1] == curr;
    PlanSnoc(bp, until, path, s);
    var longer := path + [s];
    assert Plan(bp, until, longer) && longer[|longer| - 1] == s;
  }

  /** Queuing the orders chosen from a reached state. */
  lemma FrontierPush(bp: Blueprint, until: nat, queue: seq<Simulation>, curr: Simulation, next: seq<Simulation>)
    requires Frontier(bp, until, queue) && Explored(bp, until, curr) && curr.time < until
    requires next == Tried(bp, curr, until, 0) && forall k :: 0 <= k < |next| ==> Chosen(bp, curr, until, next[k])
    ensures Frontier(bp, until, queue + next)
  {
    var q := queue + next;
    forall k | 0 <= k < |q|
      ensures Slot(bp, until, q[k])
    {
      if k < |queue| {
        assert q[k] == queue[k];
      } else {
        assert q[k] == next[k - |queue|];
        ExploredNext(bp, until, curr, next[k - |queue|]);
      }
    }
  }

  /** s lies on a walk from one of the queued states. */
  ghost predicate Pending(bp: Blueprint, until: nat, queue: seq<Simulation>, s: Simulation)
  {
    exists path: seq<Simulation> :: Walk(bp, until, path) && path[0] in queue && path[|path| - 1] == s
  }

  /** Every explored state opens at most m geodes, or the search has yet to reach it from the queue. */
  ghost predicate Covered(bp: Blueprint, until: nat, queue: seq<Simulation>, m: nat)
  {
    forall s :: Explored(bp, until, s) ==> s.geode <= m || Pending(bp, until, queue, s)
  }

  lemma CoveredStart(bp: Blueprint, until: nat, m: nat)
    ensures Covered(bp, until, [NewSimulation()], m)
  {
    forall s | Explored(bp, until, s)
      ensures Pending(bp, until, [NewSimulation()], s)
    {
      var path :| Plan(bp, until, path) && path[|path| - 1] == s;
    }
  }

  /**
   * Popping curr, whose geodes are counted in m', and queuing the orders tried from it: every state
   * ahead of curr is either curr itself or ahead of one of those orders.
   */
  lemma CoveredStep(bp: Blueprint, until: nat, curr: Simulation, rest: seq<Simulation>, next: seq<Simulation>, m: nat, m': nat)
    requires Covered(bp, until, [curr] + rest, m) && m <= m' && curr.geode <= m' && curr.time <= until
    requires curr.time == until ==> next == []
    requires curr.time < until ==> next == Tried(bp, curr, until, 0)
    ensures Covered(bp, until, rest + next, m')
  {
    forall s | Explored(bp, until, s) && m' < s.geode
      ensures Pending(bp, until, rest + next, s)
    {
      var path: seq<Simulation> :| Walk(bp, until, path) && path[0] in [curr] + rest && path[|path| - 1] == s;
      if path[0] in rest {
        assert path[0] in rest + next;
      } else {
        assert path[0] == curr && |path| > 1;
        var tail: seq<Simulation> := path[1..];
        forall k | 0 <= k < |tail| - 1
          ensures Step(bp, until, tail[k], tail[k + 1])
        {
          assert tail[k] == path[k + 1] && tail[k + 1] == path[k + 2];
        }
        assert Walk(bp, until, tail) && tail[0] in rest + next && tail[|tail| - 1] == s;
      }
    }
  }

  lemma CoveredDone(bp: Blueprint, until: nat, m: nat)
    requires Covered(bp, until, [], m)
    ensures forall s :: Explored(bp, until, s) ==> s.geode <= m
  {
  }

  /**
   * `simulate`: the most geodes any explored state holds, so a run of explored orders opens that
   * many. The search ends because every order moves the clock on, and the answer is within the
   * one-robot-a-minute bound: 2g <= T(T - 1).
   */
  method Simulate(bp: Blueprint, until: nat) returns (maxGeodes: nat, ghost path: seq<Simulation>)
    ensures Plan(bp, until, path) && path[|path| - 1].geode == maxGeodes
    ensures forall s :: Explored(bp, until, s) ==> s.geode <= maxGeodes
    ensures 2 * maxGeodes <= GeodeCap(until)
  {
    maxGeodes := 0;
    var queue := [NewSimulation()];
    path := [NewSimulation()];
    FrontierStart(bp, until);
    CoveredStart(bp, until, 0);
    ghost var b := |bp.botCosts| + 1;
    while queue != []
      invariant Searching(bp, until, queue, maxGeodes, path)
      decreases Weight(queue, b, until)
    {
      queue, maxGeodes, path := Visit(bp, until, queue, maxGeodes, path, b);
    }
    CoveredDone(bp, until, maxGeodes);
  }

  /**
   * Between passes of `simulate`'s loop: the queued states are explored and bounded, the answer so
   * far is reached by the plan `path` and within the bound, and every explored state is counted in
   * it or still ahead of the queue.
   */
  ghost predicate Searching(bp: Blueprint, until: nat, queue: seq<Simulation>, maxGeodes: nat, path: seq<Simulation>)
  {
    && Frontier(bp, until, queue) && Covered(bp, until, queue, maxGeodes)
    && Plan(bp, until, path) && path[|path| - 1].geode == maxGeodes
    && 2 * maxGeodes <= GeodeCap(until)
  }

  /**
   * One pass of `simulate`'s loop: the front state is popped and counted, and unless its time is up
   * the orders tried from it are queued; the work left shrinks.
   */
  method Visit(bp: Blueprint, until: nat, queue: seq<Simulation>, maxGeodes: nat, ghost path: seq<Simulation>, ghost b: nat)
    returns (queue': seq<Simulation>, maxGeodes': nat, ghost path': seq<Simulation>)
    requires queue != [] && Searching(bp, until, queue, maxGeodes, path) && b == |bp.botCosts| + 1
    ensures Searching(bp, until, queue', maxGeodes', path')
    ensures maxGeodes <= maxGeodes' && Weight(queue', b, until) < Weight(queue, b, until)
  {
    FrontierPop(bp, until, queue);
    var curr := queue[0];
    var rest := queue[1..];
    assert queue == [curr] + rest;
    CapMono(curr.time, until);
    maxGeodes', path' := maxGeodes, path;
    if curr.geode > maxGeodes {
      maxGeodes' := curr.geode;
      path' :| Plan(bp, until, path') && path'[|path'| - 1] == curr;
    }
    if curr.time == until {
      CoveredStep(bp, until, curr, rest, [], maxGeodes, maxGeodes');
      assert rest + [] == rest;
      WeightAppend([curr], rest, b, until);
      return rest, maxGeodes', path';
    }
    var next := Choices(bp, curr, until);
    ChoicesShrink(curr, rest, next, b, until);
    FrontierPush(bp, until, rest, curr, next);
    CoveredStep(bp, until, curr, rest, next, maxGeodes, maxGeodes');
    queue' := rest + next;
  }

  // ------------------------------------------------------------------
  // part1 / part2
  // ------------------------------------------------------------------

  /** One step of part1's fold in u32: `a + id * geodes`, where an overflow panics. */
  function QualityStep(acc: Result<nat>, id: nat, g: nat): (r: Result<nat>)
    ensures r.Ok? <==> acc.Ok? && id * g < U32 && acc.value + id * g < U32
    ensures r.Ok? ==> r.value == acc.value + id * g
  {
    if acc.Panic? then acc
    else if id * g >= U32 then Panic("attempt to multiply with overflow")
    else if acc.value + id * g >= U32 then Panic("attempt to add with overflow")
    else Ok(acc.value + id * g)
  }

  /** part1's fold over the blueprints and their answers. */
  function QualitySum(bps: seq<Blueprint>, geodes: seq<nat>): (r: Result<nat>)
    requires |geodes| == |bps|
    ensures r.Ok? ==> r.value < U32
    decreases |bps|
  {
    if bps == [] then Ok(0)
    else
      var n := |bps| - 1;
      QualityStep(QualitySum(bps[..n], geodes[..n]), bps[n].id, geodes[n])
  }

  /** The quality levels added up, without a width. */
  function Quality(bps: seq<Blueprint>, geodes: seq<nat>): nat
    requires |geodes| == |bps|
    decreases |bps|
  {
    if bps == [] then 0
    else Quality(bps[..|bps| - 1], geodes[..|bps| - 1]) + bps[|bps| - 1].id * geodes[|bps| - 1]
  }

  /** When the u32 fold succeeds, it is the plain sum of the quality levels. */
  lemma {:induction false} QualitySumValue(bps: seq<Blueprint>, geodes: seq<nat>)
    requires |geodes| == |bps|
    ensures QualitySum(bps, geodes).Ok? ==> QualitySum(bps, geodes).value == Quality(bps, geodes)
    decreases |bps|
  {
    if bps != [] {
      var n := |bps| - 1;
      QualitySumValue(bps[..n], geodes[..n]);
    }
  }

  /** g geodes are opened by some run of explored orders, and by none more. */
  ghost predicate Most(bp: Blueprint, until: nat, g: nat)
  {
    Achieves(bp, until, g) && forall s :: Explored(bp, until, s) ==> s.geode <= g
  }

  /** The most geodes a blueprint opens in the given minutes, as `simulate` returns it. */
  method Geodes(bp: Blueprint, until: nat) returns (g: nat)
    ensures 2 * g <= GeodeCap(until) && Most(bp, until, g)
  {
    ghost var path;
    g, path := Simulate(bp, until);
  }

  /** Each answer so far is the most its blueprint opens and is at most cap. */
  ghost predicate Answers(bps: seq<Blueprint>, until: nat, cap: nat, geodes: seq<nat>)
    decreases |geodes|
  {
    && |geodes| <= |bps|
    && (geodes != [] ==>
      var n := |geodes| - 1;
      Answers(bps, until, cap, geodes[..n]) && geodes[n] <= cap && Most(bps[n], until, geodes[n]))
  }

  lemma AnswersSnoc(bps: seq<Blueprint>, until: nat, cap: nat, geodes: seq<nat>, g: nat)
    requires Answers(bps, until, cap, geodes) && |geodes| < |bps|
    requires g <= cap && Most(bps[|geodes|], until, g)
    ensures Answers(bps, until, cap, geodes + [g])
  {
    assert (geodes + [g])[..|geodes|] == geodes;
  }

  /** The answers, one by one. */
  lemma AnswersEach(bps: seq<Blueprint>, until: nat, cap: nat, geodes: seq<nat>)
    requires Answers(bps, until, cap, geodes)
    ensures forall k :: 0 <= k < |geodes| ==> geodes[k] <= cap && Most(bps[k], until, geodes[k])
  {
    forall k | 0 <= k < |geodes|
      ensures geodes[k] <= cap && Most(bps[k], until, geodes[k])
    {
      AnswerAt(bps, until, cap, geodes, k);
    }
  }

  lemma {:induction false} AnswerAt(bps: seq<Blueprint>, until: nat, cap: nat, geodes: seq<nat>, k: nat)
    requires Answers(bps, until, cap, geodes) && k < |geodes|
    ensures geodes[k] <= cap && Most(bps[k], until, geodes[k])
    decreases |geodes|
  {
    var n := |geodes| - 1;
    if k < n {
      AnswerAt(bps, until, cap, geodes[..n], k);
      assert geodes[..n][k] == geodes[k];
    }
  }

  /** part1: the 24-minute answer of each blueprint times its id, summed in u32. */
  method Part1(bps: seq<Blueprint>) returns (r: Result<nat>, ghost geodes: seq<nat>)
    ensures |geodes| == |bps| && forall k :: 0 <= k < |bps| ==> geodes[k] <= 276 && Most(bps[k], 24, geodes[k])
    ensures r == QualitySum(bps, geodes)
  {
    var acc: Result<nat> := Ok(0);
    geodes := [];
    for i: nat := 0 to |bps|
      invariant |geodes| == i && Answers(bps, 24, 276, geodes)
      invariant acc == QualitySum(bps[..i], geodes)
    {
      var g := Geodes(bps[i], 24);
      assert GeodeCap(24) == 552;
      QualitySumSnoc(bps, geodes, i, g);
      AnswersSnoc(bps, 24, 276, geodes, g);
      geodes := geodes + [g];
      acc := QualityStep(acc, bps[i].id, g);
    }
    assert bps[..|bps|] == bps;
    AnswersEach(bps, 24, 276, geodes);
    r := acc;
  }

  lemma QualitySumSnoc(bps: seq<Blueprint>, geodes: seq<nat>, i: nat, g: nat)
    requires i < |bps| && |geodes| == i
    ensures QualitySum(bps[..i + 1], geodes + [g]) == QualityStep(QualitySum(bps[..i], geodes), bps[i].id, g)
  {
    assert bps[..i + 1][..i] == bps[..i] && (geodes + [g])[..i] == geodes;
  }

  /** part2: the product of the 32-minute answers of the first three blueprints; it always fits in a u32. */
  method Part2(bps: seq<Blueprint>) returns (r: nat, ghost geodes: seq<nat>)
    ensures |geodes| == if |bps| < 3 then |bps| else 3
    ensures forall k :: 0 <= k < |geodes| ==> geodes[k] <= 496 && Most(bps[k], 32, geodes[k])
    ensures r == Product(geodes) && r < U32
  {
    var n := if |bps| < 3 then |bps| else 3;
    r := 1;
    geodes := [];
    for i: nat := 0 to n
      invariant |geodes| == i && Answers(bps, 32, 496, geodes)
      invariant r == Product(geodes)
    {
      var g := Geodes(bps[i], 32);
      assert GeodeCap(32) == 992;
      ProductSnoc(geodes, g);
      AnswersSnoc(bps, 32, 496, geodes, g);
      geodes := geodes + [g];
      r := r * g;
    }
    AnswersEach(bps, 32, 496, geodes);
    ProductBound(geodes);
    PowMono(496, n, 3);
    assert Pow(496, 3) == 122023936;
  }

  /** A product of factors of at most 496 is at most 496 to the number of factors. */
  lemma {:induction false} ProductBound(s: seq<nat>)
    requires forall k :: 0 <= k < |s| ==> s[k] <= 496
    ensures Product(s) <= Pow(496, |s|)
    decreases |s|
  {
    if s != [] {
      var t := s[..|s| - 1];
      assert forall k :: 0 <= k < |t| ==> t[k] == s[k];
      ProductBound(t);
      MulBoth(Product(t), Pow(496, |t|), s[|s| - 1], 496);
    }
  }

  function Product(s: seq<nat>): nat
  {
    if s == [] then 1 else Product(s[..|s| - 1]) * s[|s| - 1]
  }

  lemma ProductSnoc(s: seq<nat>, x: nat)
    ensures Product(s + [x]) == Product(s) * x
  {
    assert (s + [x])[..|s|] == s;
  }
}
