/**
 * Day 13: packets are nested lists of unsigned integers. They are parsed from bracketed text,
 * printed back, compared with a recursive order (an integer meeting a list is compared as a
 * one-element list), and used to count the pairs already in order and to place two divider packets
 * among the sorted packets.
 */
module Day13 {
  import opened Wrappers
  import opened Text
  import Arith

  datatype Packet = Int(n: nat) | List(items: seq<Packet>)

  datatype Ordering = Less | Equal | Greater

  function Reverse(o: Ordering): Ordering
  {
    match o
    case Less => Greater
    case Equal => Equal
    case Greater => Less
  }

  function CmpNat(a: nat, b: nat): (r: Ordering)
    ensures r == Less <==> a < b
    ensures r == Equal <==> a == b
  {
    if a < b then Less else if a == b then Equal else Greater
  }

  // ------------------------------------------------------------------
  // the order
  // ------------------------------------------------------------------

  /** The first result in `cs` that is not Equal, or else the comparison of the two lengths. */
  function FirstDifference(cs: seq<Ordering>, m: nat, n: nat): Ordering
  {
    if cs == [] then CmpNat(m, n)
    else if cs[0] != Equal then cs[0]
    else FirstDifference(cs[1..], m, n)
  }

  function Min(a: nat, b: nat): nat { if a < b then a else b }

  /**
   * `Ord::cmp`: two integers by value, two lists element by element and then by length, and an
   * integer against a list by comparing it with the list's first element and then the list's length
   * with 1 (and symmetrically).
   */
  function Cmp(a: Packet, b: Packet): Ordering
    decreases a, b
  {
    match a
    case Int(x) =>
      (match b
       case Int(y) => CmpNat(x, y)
       case List(o) =>
         FirstDifference(seq(Min(|o|, 1), i requires 0 <= i < Min(|o|, 1) => Cmp(a, o[i])), 1, |o|))
    case List(s) =>
      (match b
       case Int(_) =>
         FirstDifference(seq(Min(|s|, 1), i requires 0 <= i < Min(|s|, 1) => Cmp(s[i], b)), |s|, 1)
       case List(o) =>
         FirstDifference(seq(Min(|s|, |o|), i requires 0 <= i < Min(|s|, |o|) => Cmp(s[i], o[i])), |s|, |o|))
  }

  /** Lexicographic comparison of two sequences of packets under `Cmp`. */
  function Lex(s: seq<Packet>, o: seq<Packet>): Ordering
  {
    if s == [] || o == [] then CmpNat(|s|, |o|)
    else if Cmp(s[0], o[0]) != Equal then Cmp(s[0], o[0])
    else Lex(s[1..], o[1..])
  }

  /** The elements a packet offers to a comparison: an integer stands for a one-element list. */
  function Elements(p: Packet): seq<Packet>
  {
    if p.Int? then [p] else p.items
  }

  lemma {:induction false} FirstDifferenceLex(cs: seq<Ordering>, m: nat, n: nat, s: seq<Packet>, o: seq<Packet>)
    requires |cs| == Min(|s|, |o|) && CmpNat(m, n) == CmpNat(|s|, |o|)
    requires forall i :: 0 <= i < |cs| ==> cs[i] == Cmp(s[i], o[i])
    ensures FirstDifference(cs, m, n) == Lex(s, o)
    decreases |cs|
  {
    if cs != [] {
      FirstDifferenceLex(cs[1..], m, n, s[1..], o[1..]);
    }
  }

  /** Every comparison is the lexicographic comparison of the two packets' elements. */
  lemma CmpElements(a: Packet, b: Packet)
    ensures Cmp(a, b) == Lex(Elements(a), Elements(b))
  {
    var s, o := Elements(a), Elements(b);
    if a.Int? && b.Int? {
      assert Lex(s, o) == if Cmp(a, b) != Equal then Cmp(a, b) else Lex([], []);
    } else {
      match a
      case Int(_) =>
        var cs := seq(Min(|o|, 1), i requires 0 <= i < Min(|o|, 1) => Cmp(a, o[i]));
        FirstDifferenceLex(cs, 1, |o|, s, o);
      case List(_) =>
        match b
        case Int(_) =>
          var cs := seq(Min(|s|, 1), i requires 0 <= i < Min(|s|, 1) => Cmp(s[i], b));
          FirstDifferenceLex(cs, |s|, 1, s, o);
        case List(_) =>
          var cs := seq(Min(|s|, |o|), i requires 0 <= i < Min(|s|, |o|) => Cmp(s[i], o[i]));
          FirstDifferenceLex(cs, |s|, |o|, s, o);
    }
  }

  /** An integer compared with a list is the one-element list holding it compared with that list. */
  lemma MixedAsList(x: nat, o: seq<Packet>)
    ensures Cmp(Int(x), List(o)) == Cmp(List([Int(x)]), List(o))
    ensures Cmp(List(o), Int(x)) == Cmp(List(o), List([Int(x)]))
  {
    CmpElements(Int(x), List(o));
    CmpElements(List([Int(x)]), List(o));
    CmpElements(List(o), Int(x));
    CmpElements(List(o), List([Int(x)]));
  }

  lemma {:induction false} CmpReflexive(a: Packet)
    ensures Cmp(a, a) == Equal
    decreases a
  {
    if a.List? {
      forall i | 0 <= i < |a.items| ensures Cmp(a.items[i], a.items[i]) == Equal {
        CmpReflexive(a.items[i]);
      }
      LexReflexive(a.items);
      CmpElements(a, a);
    }
  }

  lemma {:induction false} LexReflexive(s: seq<Packet>)
    requires forall i :: 0 <= i < |s| ==> Cmp(s[i], s[i]) == Equal
    ensures Lex(s, s) == Equal
    decreases |s|
  {
    if s != [] {
      LexReflexive(s[1..]);
    }
  }

  /** Swapping the two packets reverses the result. */
  lemma {:induction false} CmpAntisymmetric(a: Packet, b: Packet)
    ensures Cmp(b, a) == Reverse(Cmp(a, b))
    decreases a, b
  {
    if !(a.Int? && b.Int?) {
      var s, o := Elements(a), Elements(b);
      forall i | 0 <= i < |s| && i < |o| ensures Cmp(o[i], s[i]) == Reverse(Cmp(s[i], o[i])) {
        CmpAntisymmetric(s[i], o[i]);
      }
      LexAntisymmetric(s, o);
      CmpElements(a, b);
      CmpElements(b, a);
    }
  }

  lemma {:induction false} LexAntisymmetric(s: seq<Packet>, o: seq<Packet>)
    requires forall i :: 0 <= i < |s| && i < |o| ==> Cmp(o[i], s[i]) == Reverse(Cmp(s[i], o[i]))
    ensures Lex(o, s) == Reverse(Lex(s, o))
    decreases |s|
  {
    if s != [] && o != [] {
      LexAntisymmetric(s[1..], o[1..]);
    }
  }

  /**
   * Transitivity in the form a sort needs: a ≤ b and b ≤ c give a ≤ c, strictly unless both steps
   * are Equal, and two Equal steps give Equal.
   */
  predicate Transitive(a: Packet, b: Packet, c: Packet)
  {
    (Cmp(a, b) != Greater && Cmp(b, c) != Greater ==>
       Cmp(a, c) != Greater && (Cmp(a, c) == Equal ==> Cmp(a, b) == Equal && Cmp(b, c) == Equal))
    && (Cmp(a, b) == Equal && Cmp(b, c) == Equal ==> Cmp(a, c) == Equal)
  }

  lemma {:induction false} CmpTransitive(a: Packet, b: Packet, c: Packet)
    ensures Transitive(a, b, c)
    decreases a, b, c
  {
    if !(a.Int? && b.Int? && c.Int?) {
      var s, o, t := Elements(a), Elements(b), Elements(c);
      forall i | 0 <= i < |s| && i < |o| && i < |t| ensures Transitive(s[i], o[i], t[i]) {
        CmpTransitive(s[i], o[i], t[i]);
      }
      LexTransitive(s, o, t);
      CmpElements(a, b);
      CmpElements(b, c);
      CmpElements(a, c);
    }
  }

  lemma {:induction false} LexTransitive(s: seq<Packet>, o: seq<Packet>, t: seq<Packet>)
    requires forall i :: 0 <= i < |s| && i < |o| && i < |t| ==> Transitive(s[i], o[i], t[i])
    ensures (Lex(s, o) != Greater && Lex(o, t) != Greater ==>
               Lex(s, t) != Greater && (Lex(s, t) == Equal ==> Lex(s, o) == Equal && Lex(o, t) == Equal))
    ensures Lex(s, o) == Equal && Lex(o, t) == Equal ==> Lex(s, t) == Equal
    decreases |s|
  {
    if s != [] && o != [] && t != [] {
      assert Transitive(s[0], o[0], t[0]);
      LexTransitive(s[1..], o[1..], t[1..]);
    }
  }

  // ------------------------------------------------------------------
  // parsing
  // ------------------------------------------------------------------

  const U32Max: nat := 0xFFFF_FFFF
  const UnexpectedStart := "Unexpected start to a list"
  const UnexpectedChar := "Unexpected character in a list"
  const AfterEnd := "Unexpected character after end of packet"
  const NotAList := "Expecting a list"
  const MulOverflow := "attempt to multiply with overflow"
  const AddOverflow := "attempt to add with overflow"

  /** The characters a packet is written with. */
  predicate PacketChar(c: char)
  {
    c == '[' || c == ']' || c == ',' || IsDigit(c)
  }

  /** A packet read from position j on, and the position just after it. */
  datatype Parsed = Parsed(p: Packet, next: nat)

  /**
   * `make_int` with n read so far: the digits from j on, accumulated in a `u32` whose overflow
   * panics.
   */
  function ParseInt(s: string, j: nat, n: nat): (r: Result<Parsed>)
    requires j <= |s|
    ensures r.Ok? ==> r.value.p.Int? && j <= r.value.next <= |s|
    ensures r.Ok? ==> (forall k :: j <= k < r.value.next ==> IsDigit(s[k]))
                      && (r.value.next == |s| || !IsDigit(s[r.value.next]))
    decreases |s| - j
  {
    if j < |s| && IsDigit(s[j]) then
      if n * 10 > U32Max then Panic(MulOverflow)
      else if n * 10 + DigitValue(s[j]) > U32Max then Panic(AddOverflow)
      else ParseInt(s, j + 1, n * 10 + DigitValue(s[j]))
    else Ok(Parsed(Int(n), j))
  }

  /** `make_list`: a '[' at i, then the items up to the matching ']'. */
  function ParseList(s: string, i: nat): (r: Result<Parsed>)
    requires i <= |s|
    ensures r.Ok? ==> r.value.p.List? && i < r.value.next <= |s|
    ensures r.Ok? ==> forall k :: i <= k < r.value.next ==> PacketChar(s[k])
    decreases |s| - i, 1
  {
    if i < |s| && s[i] == '[' then ParseItems(s, i + 1, []) else Panic(UnexpectedStart)
  }

  /**
   * The loop of `make_list` at position j with the items read so far: a ',' is skipped, a ']' ends
   * the list, a '[' or a digit starts an item, and anything else (or the end of the text) panics.
   */
  function ParseItems(s: string, j: nat, buffer: seq<Packet>): (r: Result<Parsed>)
    requires j <= |s|
    ensures r.Ok? ==> r.value.p.List? && j < r.value.next <= |s|
    ensures r.Ok? ==> forall k :: j <= k < r.value.next ==> PacketChar(s[k])
    decreases |s| - j, 2
  {
    if j == |s| then Panic(UnexpectedChar)
    else if s[j] == ',' then ParseItems(s, j + 1, buffer)
    else if s[j] == ']' then Ok(Parsed(List(buffer), j + 1))
    else if s[j] == '[' then
      match ParseList(s, j)
      case Panic(msg) => Panic(msg)
      case Ok(q) => ParseItems(s, q.next, buffer + [q.p])
    else if IsDigit(s[j]) then
      match ParseInt(s, j, 0)
      case Panic(msg) => Panic(msg)
      case Ok(q) => ParseItems(s, q.next, buffer + [q.p])
    else Panic(UnexpectedChar)
  }

  /** `PacketItem::from`: one list, and nothing after it. */
  function From(s: string): (r: Result<Packet>)
    ensures r.Ok? ==> r.value.List? && forall k :: 0 <= k < |s| ==> PacketChar(s[k])
  {
    match ParseList(s, 0)
    case Panic(msg) => Panic(msg)
    case Ok(q) => if q.next < |s| then Panic(AfterEnd) else Ok(q.p)
  }

  /** `make_packet`: a packet whose top level is a list. Its check never fires, since `from` only returns lists. */
  function MakePacket(s: string): (r: Result<Packet>)
    ensures r == From(s)
  {
    match From(s)
    case Panic(msg) => Panic(msg)
    case Ok(p) => if p.List? then Ok(p) else Panic(NotAList)
  }

  /** `make_int` as the source writes it: a loop over the peeked digits. */
  method MakeInt(s: string, j: nat) returns (r: Result<Parsed>)
    requires j <= |s|
    ensures r == ParseInt(s, j, 0)
  {
    var n: nat := 0;
    var k := j;
    while k < |s| && IsDigit(s[k])
      invariant j <= k <= |s| && ParseInt(s, k, n) == ParseInt(s, j, 0)
      decreases |s| - k
    {
      if n * 10 > U32Max {
        return Panic(MulOverflow);
      }
      n := n * 10;
      if n + DigitValue(s[k]) > U32Max {
        return Panic(AddOverflow);
      }
      n := n + DigitValue(s[k]);
      k := k + 1;
    }
    return Ok(Parsed(Int(n), k));
  }

  /** `make_list` as the source writes it: a loop that pushes items into a buffer, recursing on '['. */
  method MakeList(s: string, i: nat) returns (r: Result<Parsed>)
    requires i <= |s|
    ensures r == ParseList(s, i)
    decreases |s| - i
  {
    if i == |s| || s[i] != '[' {
      return Panic(UnexpectedStart);
    }
    var buffer: seq<Packet> := [];
    var j := i + 1;
    while true
      invariant i < j <= |s| && ParseItems(s, j, buffer) == ParseList(s, i)
      decreases |s| - j
    {
      if j == |s| {
        return Panic(UnexpectedChar);
      }
      var c := s[j];
      if c == ',' {
        j := j + 1;
      } else if c == ']' {
        return Ok(Parsed(List(buffer), j + 1));
      } else if c == '[' {
        var q := MakeList(s, j);
        if q.Panic? {
          return Panic(q.msg);
        }
        buffer, j := buffer + [q.value.p], q.value.next;
      } else if IsDigit(c) {
        var q := MakeInt(s, j);
        if q.Panic? {
          return Panic(q.msg);
        }
        buffer, j := buffer + [q.value.p], q.value.next;
      } else {
        return Panic(UnexpectedChar);
      }
    }
  }

  /** `PacketItem::from` as the source writes it. */
  method FromText(s: string) returns (r: Result<Packet>)
    ensures r == From(s)
  {
    var q := MakeList(s, 0);
    if q.Panic? {
      return Panic(q.msg);
    }
    if q.value.next < |s| {
      return Panic(AfterEnd);
    }
    return Ok(q.value.p);
  }

  // ------------------------------------------------------------------
  // printing
  // ------------------------------------------------------------------

  /** `make_output`: integers in decimal, lists in brackets with their items joined by ','. */
  function Show(p: Packet): string
    decreases p
  {
    match p
    case Int(v) => DigitsOf(v)
    case List(l) => "[" + Join(seq(|l|, i requires 0 <= i < |l| => Show(l[i])), ',') + "]"
  }

  /** `make_output` as the source writes it: push each item and a ',', then pop the last ','. */
  method MakeOutput(p: Packet, output: string) returns (out: string)
    ensures out == output + Show(p)
    decreases p, 1
  {
    match p
    case Int(v) =>
      out := output + DigitsOf(v);
    case List(l) =>
      out := output + "[";
      if l != [] {
        out := MakeItems(p, out);
      } else {
        assert Join(ShowAll(l), ',') == [];
      }
      out := out + "]";
  }

  /** The loop of `make_output` over the items of a non-empty list: each item and a ',', then the last ',' popped. */
  method MakeItems(p: Packet, output: string) returns (out: string)
    requires p.List? && p.items != []
    ensures out == output + Join(ShowAll(p.items), ',')
    decreases p, 0
  {
    var l := p.items;
    ghost var shows := ShowAll(l);
    out := output;
    for k := 0 to |l|
      invariant k == 0 ==> out == output
      invariant k > 0 ==> out == output + Join(shows[..k], ',') + ","
    {
      var before := out;
      out := MakeOutput(l[k], out);
      out := out + ",";
      Pushed(shows, k, output, before, out);
    }
    out := out[..|out| - 1];
    assert shows[..|l|] == shows;
  }

  /** Pushing item k and a ',' extends the joined items by one. */
  lemma Pushed(shows: seq<string>, k: nat, output: string, before: string, out: string)
    requires k < |shows|
    requires k == 0 ==> before == output
    requires k > 0 ==> before == output + Join(shows[..k], ',') + ","
    requires out == before + shows[k] + ","
    ensures out == output + Join(shows[..k + 1], ',') + ","
  {
    if k > 0 {
      JoinSnoc(shows[..k], shows[k], ',');
      assert shows[..k + 1] == shows[..k] + [shows[k]];
    } else {
      assert Join(shows[..1], ',') == shows[0];
    }
  }

  // ------------------------------------------------------------------
  // printing then parsing
  // ------------------------------------------------------------------

  /** Every integer in the packet fits a `u32`. */
  predicate Fits(p: Packet)
  {
    match p
    case Int(v) => v <= U32Max
    case List(l) => forall i :: 0 <= i < |l| ==> Fits(l[i])
  }

  /** The text x appears in s at position j. */
  predicate StartsAt(s: string, j: nat, x: string)
  {
    j + |x| <= |s| && s[j..j + |x|] == x
  }

  lemma StartsAtConcat(s: string, j: nat, x: string, y: string)
    requires StartsAt(s, j, x + y)
    ensures StartsAt(s, j, x) && StartsAt(s, j + |x|, y)
  {
    assert s[j..j + |x|] == (x + y)[..|x|];
    assert s[j + |x|..j + |x| + |y|] == (x + y)[|x|..];
  }

  /** Reading k digits from j gives their value, so long as it fits. */
  lemma {:induction false} ParseIntPrefix(s: string, j: nat, k: nat)
    requires j + k <= |s| && AllDigits(s[j..j + k]) && Value(s[j..j + k]) <= U32Max
    ensures ParseInt(s, j, 0) == ParseInt(s, j + k, Value(s[j..j + k]))
    decreases k
  {
    if k == 0 {
      assert s[j..j] == [];
    } else {
      var d := s[j..j + k];
      var e := s[j..j + k - 1];
      var m := j + k - 1;
      assert d[..k - 1] == e && d[k - 1] == s[m];
      assert AllDigits(e) && IsDigit(s[m]);
      assert Value(d) == Value(e) * 10 + DigitValue(s[m]);
      ParseIntPrefix(s, j, k - 1);
      ParseIntStep(s, m, Value(e));
    }
  }

  /** One more digit, while the value still fits, is read into the accumulator. */
  lemma ParseIntStep(s: string, m: nat, n: nat)
    requires m < |s| && IsDigit(s[m]) && n * 10 + DigitValue(s[m]) <= U32Max
    ensures ParseInt(s, m, n) == ParseInt(s, m + 1, n * 10 + DigitValue(s[m]))
  {
  }

  lemma IntRoundTrip(s: string, j: nat, v: nat)
    requires v <= U32Max && StartsAt(s, j, DigitsOf(v))
    requires j + |DigitsOf(v)| == |s| || !IsDigit(s[j + |DigitsOf(v)|])
    ensures ParseInt(s, j, 0) == Ok(Parsed(Int(v), j + |DigitsOf(v)|))
  {
    ValueOfDigits(v);
    ParseIntPrefix(s, j, |DigitsOf(v)|);
  }

  function Width(p: Packet): nat
  {
    if p.List? then |p.items| else 0
  }

  function ShowAll(l: seq<Packet>): (r: seq<string>)
    ensures |r| == |l| && forall i :: 0 <= i < |l| ==> r[i] == Show(l[i])
  {
    seq(|l|, i requires 0 <= i < |l| => Show(l[i]))
  }

  /** A printed list reads back as itself, from wherever it appears. */
  lemma {:induction false} ListRoundTrip(p: Packet, s: string, i: nat)
    requires p.List? && Fits(p) && StartsAt(s, i, Show(p))
    ensures ParseList(s, i) == Ok(Parsed(p, i + |Show(p)|))
    decreases p, |p.items| + 2
  {
    var body := Join(ShowAll(p.items), ',');
    Opens(p, s, i);
    ListAt(s, i);
    if p.items == [] {
      assert s[i + 1] == "]"[0];
      ItemsAtClose(s, i + 1, []);
    } else {
      BodyRoundTrip(p, s, i + 1);
    }
  }

  /** A printed list is a '[' followed by its joined items and a ']'. */
  lemma Opens(p: Packet, s: string, i: nat)
    requires p.List? && StartsAt(s, i, Show(p))
    ensures s[i] == '[' && StartsAt(s, i + 1, Join(ShowAll(p.items), ',') + "]")
    ensures |Show(p)| == |Join(ShowAll(p.items), ',')| + 2
  {
    var body := Join(ShowAll(p.items), ',');
    assert Show(p) == "[" + (body + "]");
    StartsAtConcat(s, i, "[", body + "]");
  }

  /** `make_list` at a '[' runs its loop from the next position with an empty buffer. */
  lemma ListAt(s: string, i: nat)
    requires i < |s| && s[i] == '['
    ensures ParseList(s, i) == ParseItems(s, i + 1, [])
  {
  }

  /** The printed items of a non-empty list, closed by ']', read back as the list. */
  lemma {:induction false} BodyRoundTrip(p: Packet, s: string, j: nat)
    requires p.List? && Fits(p) && p.items != [] && StartsAt(s, j, Join(ShowAll(p.items), ',') + "]")
    ensures ParseItems(s, j, []) == Ok(Parsed(p, j + |Join(ShowAll(p.items), ',')| + 1))
    decreases p, |p.items| + 1
  {
    var l := p.items;
    var parts := ShowAll(l);
    Layout(parts, s, j);
    assert l[0..] == l;
    ItemsRoundTrip(p, 0, s, j, []);
    assert [] + l[0..] == l && List(l) == p;
  }

  /** The texts laid one after another from j on, each followed by ',' except the last, which is followed by ']'. */
  predicate LaidOut(s: string, j: nat, parts: seq<string>)
    decreases |parts|
  {
    parts != [] && StartsAt(s, j, parts[0]) && j + |parts[0]| < |s|
    && (if |parts| == 1 then s[j + |parts[0]|] == ']'
        else s[j + |parts[0]|] == ',' && LaidOut(s, j + |parts[0]| + 1, parts[1..]))
  }

  /** The position just after the closing ']' of laid-out texts. */
  function LaidEnd(s: string, j: nat, parts: seq<string>): nat
    requires LaidOut(s, j, parts)
    decreases |parts|
  {
    if |parts| == 1 then j + |parts[0]| + 1 else LaidEnd(s, j + |parts[0]| + 1, parts[1..])
  }

  /** Texts joined with ',' and closed with ']' are laid out one by one. */
  lemma {:induction false} Layout(parts: seq<string>, s: string, j: nat)
    requires parts != [] && StartsAt(s, j, Join(parts, ',') + "]")
    ensures LaidOut(s, j, parts) && LaidEnd(s, j, parts) == j + |Join(parts, ',')| + 1
    decreases |parts|, 1
  {
    if |parts| == 1 {
      var x := parts[0];
      assert Join(parts, ',') == x;
      StartsAtConcat(s, j, x, "]");
      LaidOne(s, j, parts);
    } else {
      LayoutMore(parts, s, j);
    }
  }

  /** Layout of two or more texts: the first, a ',', and the rest laid out in turn. */
  lemma {:induction false} LayoutMore(parts: seq<string>, s: string, j: nat)
    requires |parts| > 1 && StartsAt(s, j, Join(parts, ',') + "]")
    ensures LaidOut(s, j, parts) && LaidEnd(s, j, parts) == j + |Join(parts, ',')| + 1
    decreases |parts|, 0
  {
    var x := parts[0];
    var rest := Join(parts[1..], ',');
    assert Join(parts, ',') == x + [','] + rest;
    StartsAtSplit(s, j, x, rest);
    Layout(parts[1..], s, j + |x| + 1);
    LaidMore(s, j, parts);
  }

  /** An item, a ',' and the rest of the items with the closing ']', read apart. */
  lemma StartsAtSplit(s: string, j: nat, x: string, rest: string)
    requires StartsAt(s, j, x + [','] + rest + "]")
    ensures StartsAt(s, j, x) && StartsAt(s, j + |x|, [',']) && StartsAt(s, j + |x| + 1, rest + "]")
  {
    assert x + [','] + rest + "]" == x + ([','] + (rest + "]"));
    StartsAtConcat(s, j, x, [','] + (rest + "]"));
    StartsAtConcat(s, j + |x|, [','], rest + "]");
  }

  /** A single text followed by ']' is laid out. */
  lemma LaidOne(s: string, j: nat, parts: seq<string>)
    requires |parts| == 1 && StartsAt(s, j, parts[0]) && StartsAt(s, j + |parts[0]|, "]")
    ensures LaidOut(s, j, parts) && LaidEnd(s, j, parts) == j + |parts[0]| + 1
  {
    assert s[j + |parts[0]|] == "]"[0];
  }

  /** A text followed by ',' and the rest laid out is laid out. */
  lemma LaidMore(s: string, j: nat, parts: seq<string>)
    requires |parts| > 1 && StartsAt(s, j, parts[0]) && StartsAt(s, j + |parts[0]|, [','])
    requires LaidOut(s, j + |parts[0]| + 1, parts[1..])
    ensures LaidOut(s, j, parts) && LaidEnd(s, j, parts) == LaidEnd(s, j + |parts[0]| + 1, parts[1..])
  {
    assert s[j + |parts[0]|] == [','][0];
  }

  /** The printed items of p from k on, laid out, read back as those items appended to the buffer. */
  lemma {:induction false} ItemsRoundTrip(p: Packet, k: nat, s: string, j: nat, buffer: seq<Packet>)
    requires p.List? && Fits(p) && k < |p.items| && LaidOut(s, j, ShowAll(p.items[k..]))
    ensures ParseItems(s, j, buffer) == Ok(Parsed(List(buffer + p.items[k..]), LaidEnd(s, j, ShowAll(p.items[k..]))))
    decreases p, |p.items| - k
  {
    var l := p.items;
    var t := l[k..];
    var x := l[k];
    assert t[0] == x;
    var pos := j + |Show(x)|;
    LaidHead(s, j, ShowAll(t));
    ItemStep(p, x, s, j, buffer);
    if k + 1 == |l| {
      assert t == [x];
      ItemsAtClose(s, pos, buffer + [x]);
    } else {
      var rest := l[k + 1..];
      assert t[1..] == rest;
      ShowAllTail(t);
      ItemsAtComma(s, pos, buffer + [x]);
      ItemsRoundTrip(p, k + 1, s, pos + 1, buffer + [x]);
      BufferShift(buffer, x, rest, t);
    }
  }

  lemma BufferShift(buffer: seq<Packet>, x: Packet, rest: seq<Packet>, t: seq<Packet>)
    requires t != [] && t[0] == x && t[1..] == rest
    ensures buffer + [x] + rest == buffer + t
  {
    assert t == [x] + rest;
  }

  lemma ShowAllTail(t: seq<Packet>)
    requires t != []
    ensures ShowAll(t)[1..] == ShowAll(t[1..])
  {
  }

  /** What laying out the first text says about s, and where the rest is laid out. */
  lemma LaidHead(s: string, j: nat, parts: seq<string>)
    requires LaidOut(s, j, parts)
    ensures StartsAt(s, j, parts[0]) && j + |parts[0]| < |s|
    ensures |parts| == 1 ==> s[j + |parts[0]|] == ']' && LaidEnd(s, j, parts) == j + |parts[0]| + 1
    ensures |parts| > 1 ==> s[j + |parts[0]|] == ',' && LaidOut(s, j + |parts[0]| + 1, parts[1..])
                            && LaidEnd(s, j, parts) == LaidEnd(s, j + |parts[0]| + 1, parts[1..])
  {
  }

  /** The loop of `make_list` skips a ','. */
  lemma ItemsAtComma(s: string, j: nat, buffer: seq<Packet>)
    requires j < |s| && s[j] == ','
    ensures ParseItems(s, j, buffer) == ParseItems(s, j + 1, buffer)
  {
  }

  /** The loop of `make_list` ends at a ']' with the buffer as the list. */
  lemma ItemsAtClose(s: string, j: nat, buffer: seq<Packet>)
    requires j < |s| && s[j] == ']'
    ensures ParseItems(s, j, buffer) == Ok(Parsed(List(buffer), j + 1))
  {
  }

  /** One printed item x of p, followed by ',' or ']', is read and pushed onto the buffer. */
  lemma {:induction false} ItemStep(p: Packet, x: Packet, s: string, j: nat, buffer: seq<Packet>)
    requires p.List? && x in p.items && Fits(x) && StartsAt(s, j, Show(x))
    requires j + |Show(x)| < |s| && (s[j + |Show(x)|] == ',' || s[j + |Show(x)|] == ']')
    ensures ParseItems(s, j, buffer) == ParseItems(s, j + |Show(x)|, buffer + [x])
    decreases p, 0
  {
    var e := j + |Show(x)|;
    match x
    case Int(v) =>
      ValueOfDigits(v);
      assert s[j] == DigitsOf(v)[0];
      IntRoundTrip(s, j, v);
      ItemsAtInt(s, j, buffer, x, e);
    case List(l) =>
      assert s[j] == Show(x)[0] == '[';
      ListRoundTrip(x, s, j);
      ItemsAtList(s, j, buffer, x, e);
  }

  /** The loop of `make_list` meeting a digit reads the integer and pushes it. */
  lemma ItemsAtInt(s: string, j: nat, buffer: seq<Packet>, x: Packet, e: nat)
    requires j < |s| && IsDigit(s[j]) && ParseInt(s, j, 0) == Ok(Parsed(x, e))
    ensures ParseItems(s, j, buffer) == ParseItems(s, e, buffer + [x])
  {
    assert s[j] != ',' && s[j] != ']' && s[j] != '[';
  }

  /** The loop of `make_list` meeting a '[' reads the nested list and pushes it. */
  lemma ItemsAtList(s: string, j: nat, buffer: seq<Packet>, x: Packet, e: nat)
    requires j < |s| && s[j] == '[' && ParseList(s, j) == Ok(Parsed(x, e))
    ensures ParseItems(s, j, buffer) == ParseItems(s, e, buffer + [x])
  {
  }

  /** `to_string(make_packet(s)) == s` read the other way: a printed list packet parses back to itself. */
  lemma ShowFrom(p: Packet)
    requires p.List? && Fits(p)
    ensures From(Show(p)) == Ok(p)
  {
    ListRoundTrip(p, Show(p), 0);
  }

  /** `generator`: every non-empty line made into a packet; the first line that fails panics. */
  function Generator(lines: seq<string>): (r: Result<seq<Packet>>)
    ensures r.Ok? ==> forall k :: 0 <= k < |r.value| ==> r.value[k].List?
  {
    if lines == [] then Ok([])
    else if lines[0] == [] then Generator(lines[1..])
    else match MakePacket(lines[0])
      case Panic(msg) => Panic(msg)
      case Ok(p) =>
        match Generator(lines[1..])
        case Panic(msg) => Panic(msg)
        case Ok(ps) => Ok([p] + ps)
  }

  /** The packets are those of the non-empty lines, in order, when every one of them parses. */
  lemma {:induction false} GeneratorLines(lines: seq<string>)
    ensures Generator(lines).Ok? <==> forall k :: 0 <= k < |NonEmpty(lines)| ==> From(NonEmpty(lines)[k]).Ok?
    ensures Generator(lines).Ok? ==>
              |Generator(lines).value| == |NonEmpty(lines)|
              && forall k :: 0 <= k < |NonEmpty(lines)| ==> From(NonEmpty(lines)[k]) == Ok(Generator(lines).value[k])
    decreases |lines|
  {
    if lines != [] {
      GeneratorLines(lines[1..]);
      if lines[0] != [] {
        var ne := NonEmpty(lines);
        assert ne == [lines[0]] + NonEmpty(lines[1..]);
        assert forall k :: 1 <= k < |ne| ==> ne[k] == NonEmpty(lines[1..])[k - 1];
        assert ne[0] == lines[0];
        if From(lines[0]).Ok? && Generator(lines[1..]).Ok? {
          var ps := Generator(lines).value;
          assert ps == [From(lines[0]).value] + Generator(lines[1..]).value;
          assert forall k :: 1 <= k < |ps| ==> ps[k] == Generator(lines[1..]).value[k - 1];
        } else if From(lines[0]).Ok? {
          assert Generator(lines).Panic?;
          var k :| 0 <= k < |NonEmpty(lines[1..])| && From(NonEmpty(lines[1..])[k]).Panic?;
          assert ne[k + 1] == NonEmpty(lines[1..])[k];
          assert From(ne[k + 1]).Panic?;
          assert !(forall i :: 0 <= i < |NonEmpty(lines)| ==> From(NonEmpty(lines)[i]).Ok?);
          assert !Generator(lines).Ok?;
        } else {
          assert MakePacket(lines[0]).Panic?;
          assert From(ne[0]).Panic?;
        }
      } else {
        assert NonEmpty(lines) == NonEmpty(lines[1..]);
        assert Generator(lines) == Generator(lines[1..]);
      }
    }
  }

  function GeneratorText(input: string): Result<seq<Packet>>
  {
    Generator(Lines(input))
  }

  // ---------------------------------------------------------------------------------------------
  // Part 1: the pairs already in order.

  /** The last packet of chunk k of `chunks(2)`: its second, or its only one at an odd end. */
  function ChunkLast(ps: seq<Packet>, k: nat): nat
    requires 2 * k < |ps|
  {
    if 2 * k + 1 < |ps| then 2 * k + 1 else 2 * k
  }

  /** What chunk k adds to part 1: its one-based index when its first packet is less than its last. */
  function ChunkScore(ps: seq<Packet>, k: nat): nat
    requires 2 * k < |ps|
  {
    if Cmp(ps[2 * k], ps[ChunkLast(ps, k)]) == Less then k + 1 else 0
  }

  /** The scores of the first c chunks. */
  function ScoreUpTo(ps: seq<Packet>, c: nat): nat
    requires 2 * c <= |ps| + 1
  {
    if c == 0 then 0 else ScoreUpTo(ps, c - 1) + ChunkScore(ps, c - 1)
  }

  function Part1(ps: seq<Packet>): nat
  {
    ScoreUpTo(ps, (|ps| + 1) / 2)
  }

  /** The packets with the two members of every full pair exchanged. */
  function SwapPairs(ps: seq<Packet>): (r: seq<Packet>)
    ensures |r| == |ps|
  {
    seq(|ps|, i requires 0 <= i < |ps| =>
      if i % 2 == 1 then ps[i - 1] else if i + 1 < |ps| then ps[i + 1] else ps[i])
  }

  /** No full pair holds two packets that compare equal. */
  predicate PairsDecided(ps: seq<Packet>)
  {
    forall k :: 0 <= k < |ps| && 2 * k + 1 < |ps| ==> Cmp(ps[2 * k], ps[2 * k + 1]) != Equal
  }

  /** 1 + 2 + ... + n. */
  function Triangle(n: nat): nat
  {
    if n == 0 then 0 else Triangle(n - 1) + n
  }

  lemma ScoreUpToStep(ps: seq<Packet>, c: nat, k: nat)
    requires c == k + 1 && 2 * c <= |ps| + 1
    ensures ScoreUpTo(ps, c) == ScoreUpTo(ps, k) + ChunkScore(ps, k)
  {
  }

  lemma TriangleStep(c: nat, h: nat)
    requires c == h + 1
    ensures Triangle(c) == Triangle(h) + c
  {
  }

  /** Every decided pair is in order either as given or swapped, so the two answers share out 1 + ... + c. */
  lemma {:induction false} ScoreSwapped(ps: seq<Packet>, c: nat)
    requires PairsDecided(ps) && 2 * c <= |ps| + 1
    ensures ScoreUpTo(ps, c) + ScoreUpTo(SwapPairs(ps), c) == Triangle(c) - (if 2 * c == |ps| + 1 then c else 0)
    decreases c
  {
    if c > 0 {
      var k := c - 1;
      var qs := SwapPairs(ps);
      ScoreSwapped(ps, k);
      ScoreUpToStep(ps, c, k);
      ScoreUpToStep(qs, c, k);
      TriangleStep(c, k);
      if 2 * k + 1 < |ps| {
        PairScores(ps, k);
      } else {
        LoneScores(ps, k);
      }
    }
  }

  /** A full decided pair scores k + 1 exactly once between the packets and their swap. */
  lemma PairScores(ps: seq<Packet>, k: nat)
    requires PairsDecided(ps) && 2 * k + 1 < |ps|
    ensures ChunkScore(ps, k) + ChunkScore(SwapPairs(ps), k) == k + 1
  {
    var qs := SwapPairs(ps);
    var a, b := ps[2 * k], ps[2 * k + 1];
    assert qs[2 * k] == b && qs[2 * k + 1] == a;
    assert ChunkLast(ps, k) == 2 * k + 1 && ChunkLast(qs, k) == 2 * k + 1;
    assert Cmp(a, b) != Equal;
    CmpAntisymmetric(a, b);
  }

  /** A last chunk holding one packet compares it with itself and scores nothing. */
  lemma LoneScores(ps: seq<Packet>, k: nat)
    requires 2 * k + 1 == |ps|
    ensures ChunkScore(ps, k) + ChunkScore(SwapPairs(ps), k) == 0
  {
    var qs := SwapPairs(ps);
    assert ChunkLast(ps, k) == 2 * k && ChunkLast(qs, k) == 2 * k;
    CmpReflexive(ps[2 * k]);
    CmpReflexive(qs[2 * k]);
  }

  /** Part 1 of the packets and of their swapped pairs add up to 1 + 2 + ... + (number of full pairs). */
  lemma Part1Swapped(ps: seq<Packet>)
    requires PairsDecided(ps)
    ensures Part1(ps) + Part1(SwapPairs(ps)) == Triangle(|ps| / 2)
  {
    var n := |ps|;
    var h := n / 2;
    var c := (n + 1) / 2;
    var qs := SwapPairs(ps);
    assert Part1(ps) == ScoreUpTo(ps, c);
    assert Part1(qs) == ScoreUpTo(qs, c);
    ScoreSwapped(ps, c);
    var t := ScoreUpTo(ps, c) + ScoreUpTo(qs, c);
    if n % 2 == 1 {
      assert n == 2 * h + 1 && c == h + 1 && 2 * c == |ps| + 1;
      assert t == Triangle(c) - c;
      TriangleStep(c, h);
    } else {
      assert n == 2 * h && c == h && 2 * c != |ps| + 1;
    }
  }

  // ---------------------------------------------------------------------------------------------
  // Part 2: the divider packets among the sorted packets.

  /** The packets i and j of q, i before j, are in order. */
  predicate Sorted(q: seq<Packet>)
  {
    forall i, j :: 0 <= i < j < |q| ==> Cmp(q[i], q[j]) != Greater
  }

  /** How many packets of s compare as o to x. */
  function Count(s: seq<Packet>, x: Packet, o: Ordering): (r: nat)
    ensures r <= |s|
  {
    if s == [] then 0 else Count(s[..|s| - 1], x, o) + (if Cmp(s[|s| - 1], x) == o then 1 else 0)
  }

  lemma {:induction false} CountConcat(a: seq<Packet>, b: seq<Packet>, x: Packet, o: Ordering)
    ensures Count(a + b, x, o) == Count(a, x, o) + Count(b, x, o)
    decreases |b|
  {
    if b != [] {
      var b' := b[..|b| - 1];
      assert (a + b)[..|a + b| - 1] == a + b';
      CountConcat(a, b', x, o);
    } else {
      assert a + b == a;
    }
  }

  /** Taking packet j out of b takes its share out of the count. */
  lemma CountRemove(b: seq<Packet>, j: nat, x: Packet, o: Ordering)
    requires j < |b|
    ensures Count(b, x, o) == Count(b[..j] + b[j + 1..], x, o) + (if Cmp(b[j], x) == o then 1 else 0)
  {
    assert b == b[..j] + ([b[j]] + b[j + 1..]);
    CountConcat(b[..j], [b[j]] + b[j + 1..], x, o);
    CountConcat([b[j]], b[j + 1..], x, o);
    CountConcat(b[..j], b[j + 1..], x, o);
    assert [b[j]][..0] == [];
  }

  lemma RemoveSame<T>(a: seq<T>, b: seq<T>, j: nat)
    requires a != [] && multiset(a) == multiset(b) && j < |b| && b[j] == a[|a| - 1]
    ensures multiset(a[..|a| - 1]) == multiset(b[..j] + b[j + 1..])
  {
    var last := a[|a| - 1];
    var ra, rb := a[..|a| - 1], b[..j] + b[j + 1..];
    assert a == ra + [last];
    assert b == b[..j] + [last] + b[j + 1..];
    var ma, mb := multiset(ra), multiset(rb);
    assert ma + multiset{last} == mb + multiset{last};
    forall x: T ensures ma[x] == mb[x] {
      assert (ma + multiset{last})[x] == (mb + multiset{last})[x];
    }
    assert ma == mb;
  }

  /** The counts depend only on the multiset of packets. */
  lemma {:induction false} CountPermutation(a: seq<Packet>, b: seq<Packet>, x: Packet, o: Ordering)
    requires multiset(a) == multiset(b)
    ensures Count(a, x, o) == Count(b, x, o)
    decreases |a|
  {
    if a != [] {
      var last := a[|a| - 1];
      assert last in multiset(b);
      var j :| 0 <= j < |b| && b[j] == last;
      RemoveSame(a, b, j);
      CountPermutation(a[..|a| - 1], b[..j] + b[j + 1..], x, o);
      CountRemove(b, j, x, o);
    } else {
      assert |multiset(b)| == 0;
    }
  }

  lemma {:induction false} CountNone(s: seq<Packet>, x: Packet, o: Ordering)
    requires forall i :: 0 <= i < |s| ==> Cmp(s[i], x) != o
    ensures Count(s, x, o) == 0
    decreases |s|
  {
    if s != [] {
      CountNone(s[..|s| - 1], x, o);
    }
  }

  lemma {:induction false} CountSome(s: seq<Packet>, x: Packet, o: Ordering, i: nat)
    requires i < |s| && Cmp(s[i], x) == o
    ensures Count(s, x, o) >= 1
    decreases |s|
  {
    if i < |s| - 1 {
      CountSome(s[..|s| - 1], x, o, i);
    }
  }

  /** Packets none greater than x are each less or equal. */
  lemma {:induction false} CountAtMost(s: seq<Packet>, x: Packet)
    requires forall i :: 0 <= i < |s| ==> Cmp(s[i], x) != Greater
    ensures Count(s, x, Less) + Count(s, x, Equal) == |s|
    decreases |s|
  {
    if s != [] {
      CountAtMost(s[..|s| - 1], x);
    }
  }

  /**
   * In any sorted rearrangement of `all`, a position holding a packet equal to x lies past every
   * packet less than x and within the run of packets equal to x.
   */
  predicate InTieRange(all: seq<Packet>, x: Packet, k: nat)
  {
    Count(all, x, Less) <= k < Count(all, x, Less) + Count(all, x, Equal)
  }

  lemma Placement(all: seq<Packet>, q: seq<Packet>, x: Packet, k: nat)
    requires multiset(q) == multiset(all) && Sorted(q) && k < |q| && Cmp(q[k], x) == Equal
    ensures InTieRange(all, x, k)
  {
    forall i | 0 <= i < k ensures Cmp(q[i], x) != Greater {
      CmpTransitive(q[i], q[k], x);
    }
    CmpAntisymmetric(q[k], x);
    forall i | k <= i < |q| ensures Cmp(q[i], x) != Less {
      if i > k {
        CmpTransitive(x, q[k], q[i]);
        CmpAntisymmetric(x, q[i]);
      }
    }
    var lo, hi := q[..k], q[k..];
    assert q == lo + hi;
    CountConcat(lo, hi, x, Less);
    CountConcat(lo, hi, x, Equal);
    CountAtMost(lo, x);
    CountNone(hi, x, Less);
    CountSome(hi, x, Equal, 0);
    CountPermutation(q, all, x, Less);
    CountPermutation(q, all, x, Equal);
  }

  /** With exactly one packet equal to x, its place is the number of packets less than x. */
  lemma PlacementUntied(all: seq<Packet>, q: seq<Packet>, x: Packet, k: nat)
    requires multiset(q) == multiset(all) && Sorted(q) && k < |q| && Cmp(q[k], x) == Equal
    requires Count(all, x, Equal) == 1
    ensures k == Count(all, x, Less)
  {
    Placement(all, q, x, k);
  }

  /** Placing x between the packets not greater than it and the packets not less than it keeps the order. */
  lemma InsertSorted(q: seq<Packet>, x: Packet, p: nat)
    requires Sorted(q) && p <= |q|
    requires forall i :: 0 <= i < p ==> Cmp(q[i], x) != Greater
    requires forall j :: p <= j < |q| ==> Cmp(x, q[j]) != Greater
    ensures Sorted(q[..p] + [x] + q[p..])
  {
    var r := q[..p] + [x] + q[p..];
    forall i, j | 0 <= i < j < |r| ensures Cmp(r[i], r[j]) != Greater {
      if i < p && j > p {
        assert r[i] == q[i] && r[j] == q[j - 1];
      } else if j < p {
        assert r[i] == q[i] && r[j] == q[j];
      } else if i > p {
        assert r[i] == q[i - 1] && r[j] == q[j - 1];
      }
    }
  }

  /** Insert x into sorted q after every packet not greater than it. */
  method Insert(q: seq<Packet>, x: Packet) returns (r: seq<Packet>)
    requires Sorted(q)
    ensures Sorted(r) && multiset(r) == multiset(q) + multiset{x}
  {
    var p := 0;
    while p < |q| && Cmp(q[p], x) != Greater
      invariant 0 <= p <= |q|
      invariant forall i :: 0 <= i < p ==> Cmp(q[i], x) != Greater
    {
      p := p + 1;
    }
    if p < |q| {
      CmpAntisymmetric(q[p], x);
      forall j | p <= j < |q| ensures Cmp(x, q[j]) != Greater {
        if j > p {
          CmpTransitive(x, q[p], q[j]);
        }
      }
    }
    InsertSorted(q, x, p);
    r := q[..p] + [x] + q[p..];
    assert q == q[..p] + q[p..];
  }

  /** `sort`, by insertion: a sorted rearrangement of the packets. */
  method Sort(a: seq<Packet>) returns (q: seq<Packet>)
    ensures Sorted(q) && multiset(q) == multiset(a)
  {
    q := [];
    for i := 0 to |a|
      invariant Sorted(q) && multiset(q) == multiset(a[..i])
    {
      q := Insert(q, a[i]);
      assert a[..i + 1] == a[..i] + [a[i]];
    }
    assert a[..|a|] == a;
  }

  /** `binary_search`: the index of some packet equal to x, or none equals x. */
  datatype Search = Found(index: nat) | Missing(at: nat)

  method BinarySearch(q: seq<Packet>, x: Packet) returns (r: Search)
    requires Sorted(q)
    ensures r.Found? ==> r.index < |q| && Cmp(q[r.index], x) == Equal
    ensures r.Missing? ==> forall i :: 0 <= i < |q| ==> Cmp(q[i], x) != Equal
  {
    var lo, hi := 0, |q|;
    while lo < hi
      invariant 0 <= lo <= hi <= |q|
      invariant forall i :: 0 <= i < lo ==> Cmp(q[i], x) == Less
      invariant forall i :: hi <= i < |q| ==> Cmp(q[i], x) == Greater
      decreases hi - lo
    {
      var mid := (lo + hi) / 2;
      var c := Cmp(q[mid], x);
      if c == Less {
        forall i | lo <= i < mid ensures Cmp(q[i], x) == Less {
          CmpTransitive(q[i], q[mid], x);
        }
        lo := mid + 1;
      } else if c == Greater {
        CmpAntisymmetric(q[mid], x);
        forall i | mid < i < hi ensures Cmp(q[i], x) == Greater {
          CmpTransitive(x, q[mid], q[i]);
          CmpAntisymmetric(x, q[i]);
        }
        hi := mid;
      } else {
        return Found(mid);
      }
    }
    return Missing(lo);
  }

  const Divider2 := List([List([Int(2)])])
  const Divider6 := List([List([Int(6)])])

  function WithDividers(packets: seq<Packet>): seq<Packet>
  {
    packets + [Divider2, Divider6]
  }

  /** Part 2 when no other packet ties with a divider: one plus the number of packets below each. */
  function Part2Spec(packets: seq<Packet>): nat
  {
    var all := WithDividers(packets);
    (Count(all, Divider2, Less) + 1) * (Count(all, Divider6, Less) + 1)
  }

  /** The dividers are the packets `[[2]]` and `[[6]]`, and they are in order. */
  lemma Dividers()
    ensures MakePacket("[[2]]") == Ok(Divider2) && MakePacket("[[6]]") == Ok(Divider6)
    ensures Cmp(Divider2, Divider6) == Less
  {
    assert Show(Divider2) == "[[2]]";
    assert Show(Divider6) == "[[6]]";
    ShowFrom(Divider2);
    ShowFrom(Divider6);
  }

  /** A divider is in the sorted packets, so searching for it cannot miss. */
  lemma Present(all: seq<Packet>, q: seq<Packet>, i: nat, r: Search)
    requires multiset(q) == multiset(all) && i < |all|
    requires r.Missing? ==> forall k :: 0 <= k < |q| ==> Cmp(q[k], all[i]) != Equal
    ensures r.Found?
  {
    assert all[i] in multiset(q);
    var k :| 0 <= k < |q| && q[k] == all[i];
    CmpReflexive(q[k]);
  }

  method Part2(packets: seq<Packet>) returns (r: nat)
    ensures exists i2: nat, i6: nat :: InTieRange(WithDividers(packets), Divider2, i2)
                             && InTieRange(WithDividers(packets), Divider6, i6) && r == (i2 + 1) * (i6 + 1)
    ensures Count(WithDividers(packets), Divider2, Equal) == 1 && Count(WithDividers(packets), Divider6, Equal) == 1
            ==> r == Part2Spec(packets)
  {
    var all := packets + [Divider2, Divider6];
    var sorted := Sort(all);
    var s := BinarySearch(sorted, Divider2);
    var e := BinarySearch(sorted, Divider6);
    Located(packets, sorted, s, Divider2, |packets|);
    Located(packets, sorted, e, Divider6, |packets| + 1);
    var i2: nat, i6: nat := s.index, e.index;
    Arith.MulNonneg(i2 + 1, i6 + 1);
    r := (i2 + 1) * (i6 + 1);
    Untied(packets, i2, i6, r);
  }

  /** A search of the sorted packets for the divider at position i finds it, within its tie range. */
  lemma Located(packets: seq<Packet>, sorted: seq<Packet>, r: Search, x: Packet, i: nat)
    requires i < |WithDividers(packets)| && WithDividers(packets)[i] == x
    requires multiset(sorted) == multiset(WithDividers(packets)) && Sorted(sorted)
    requires r.Found? ==> r.index < |sorted| && Cmp(sorted[r.index], x) == Equal
    requires r.Missing? ==> forall k :: 0 <= k < |sorted| ==> Cmp(sorted[k], x) != Equal
    ensures r.Found? && InTieRange(WithDividers(packets), x, r.index)
  {
    var all := WithDividers(packets);
    Present(all, sorted, i, r);
    Placement(all, sorted, x, r.index);
  }

  /** Places in the tie ranges of the dividers are their counts of smaller packets when nothing else ties with them. */
  lemma Untied(packets: seq<Packet>, i2: nat, i6: nat, r: nat)
    requires InTieRange(WithDividers(packets), Divider2, i2) && InTieRange(WithDividers(packets), Divider6, i6)
    requires r == (i2 + 1) * (i6 + 1)
    ensures Count(WithDividers(packets), Divider2, Equal) == 1 && Count(WithDividers(packets), Divider6, Equal) == 1
            ==> r == Part2Spec(packets)
  {
    var all := WithDividers(packets);
    if Count(all, Divider2, Equal) == 1 && Count(all, Divider6, Equal) == 1 {
      assert i2 == Count(all, Divider2, Less) && i6 == Count(all, Divider6, Less);
    }
  }

  /** The three comparisons `test_part1` makes, on the packets their texts denote. */
  lemma SampleComparisons()
    ensures Cmp(List([Int(1), Int(1), Int(3), Int(1), Int(1)]), List([Int(1), Int(1), Int(5), Int(1), Int(1)])) == Less
    ensures Cmp(List([List([Int(1)]), List([Int(2), Int(3), Int(4)])]), List([List([Int(1)]), Int(4)])) == Less
    ensures Cmp(List([Int(9)]), List([List([Int(8), Int(7), Int(6)])])) == Greater
  {
    var a, b := [Int(1), Int(1), Int(3), Int(1), Int(1)], [Int(1), Int(1), Int(5), Int(1), Int(1)];
    CmpElements(List(a), List(b));
    assert a[1..][1..] == [Int(3), Int(1), Int(1)] && b[1..][1..] == [Int(5), Int(1), Int(1)];
    assert Lex(a, b) == Lex(a[1..][1..], b[1..][1..]) == Less;

    var l1, l234 := List([Int(1)]), List([Int(2), Int(3), Int(4)]);
    CmpReflexive(l1);
    CmpElements(l234, Int(4));
    assert Lex([Int(2), Int(3), Int(4)], [Int(4)]) == Less;
    CmpElements(List([l1, l234]), List([l1, Int(4)]));
    assert Lex([l1, l234], [l1, Int(4)]) == Lex([l234], [Int(4)]);

    var l876 := List([Int(8), Int(7), Int(6)]);
    CmpElements(Int(9), l876);
    assert Lex([Int(9)], [Int(8), Int(7), Int(6)]) == Greater;
    CmpElements(List([Int(9)]), List([l876]));
  }

  /** `test_generator`'s first packet: "[1,2]" is the list of 1 and 2. */
  lemma SampleParse()
    ensures MakePacket("[1,2]") == Ok(List([Int(1), Int(2)]))
  {
    var p := List([Int(1), Int(2)]);
    assert DigitsOf(1) == "1" && DigitsOf(2) == "2";
    assert ShowAll(p.items) == ["1", "2"];
    assert Join(["1", "2"], ',') == "1,2";
    assert Show(p) == "[1,2]";
    ShowFrom(p);
  }
}
