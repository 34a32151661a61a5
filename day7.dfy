/**
 * Day 7, no space left on device: a shell transcript (`$ cd`, `$ ls` and their listings) is turned
 * into a list of absolute paths, directories without a size and files with one; the size of every
 * directory is then the sum of the files below it. Part 1 sums the directory sizes under 100000,
 * part 2 finds the smallest directory whose deletion frees enough space.
 *
 * Directory keys in the size table end with '/' ("/", "/a/", "/a/e/"); entry names do not ("/a/e/i").
 */
module Day7 {
  import opened Wrappers
  import opened Text

  const U64Max: nat := 0xffff_ffff_ffff_ffff

  /** A listed path: a directory (`None`) or a file with its size. */
  datatype Entry = Entry(name: string, size: Option<nat>)

  predicate StartsWith(s: string, prefix: string) { |prefix| <= |s| && s[..|prefix|] == prefix }

  // ------------------------------------------------------------------
  // parse / mk_name
  // ------------------------------------------------------------------

  /** `mk_name`: the working-directory components joined with '/', then '/', then the name. */
  function MkName(parent: seq<string>, name: string): string
  {
    Join(parent, '/') + "/" + name
  }

  /** The stack after `$ cd /` and descents: empty, or with the root's empty component at the bottom. */
  predicate Rooted(pwd: seq<string>) { pwd == [] || pwd[0] == "" }

  lemma {:induction false} JoinRooted(pwd: seq<string>)
    requires pwd != [] && pwd[0] == ""
    ensures Join(pwd, '/') == [] || Join(pwd, '/')[0] == '/'
  {
    if |pwd| > 1 {
      assert Join(pwd, '/') == pwd[0] + ['/'] + Join(pwd[1..], '/');
    }
  }

  /** Under a rooted stack every name is absolute. */
  lemma MkNameRooted(pwd: seq<string>, name: string)
    requires Rooted(pwd)
    ensures MkName(pwd, name)[0] == '/'
  {
    if pwd != [] { JoinRooted(pwd); }
  }

  /** `mk_name(["", "a", "e"], "i")` is "/a/e/i". */
  lemma MkNameSample()
    ensures MkName(["", "a", "e"], "i") == "/a/e/i"
  {
    assert Join(["e"], '/') == "e";
    assert Join(["a", "e"], '/') == "a/e" by { assert ["a", "e"][1..] == ["e"]; }
    assert Join(["", "a", "e"], '/') == "/a/e" by { assert ["", "a", "e"][1..] == ["a", "e"]; }
  }

  /** The working directory and the entries one transcript line produces. */
  datatype Step = Step(pwd: seq<string>, out: seq<Entry>)

  /**
   * One line of `parse`: "$ cd .." pops (nothing on an empty stack), "$ cd /…" pushes the root and
   * lists "/", "$ cd x" pushes x, "dir x" lists a directory, "$ ls" does nothing, and any other line
   * is "size name" (a missing field fails `unwrap`, a bad size fails `expect`).
   */
  function ParseLine(pwd: seq<string>, line: string): (r: Result<Step>)
    ensures r.Ok? ==> |r.value.out| <= 1
  {
    if line == "$ cd .." then Ok(Step(if pwd == [] then [] else pwd[..|pwd| - 1], []))
    else if StartsWith(line, "$ cd /") then Ok(Step(pwd + [""], [Entry("/", None)]))
    else if StartsWith(line, "$ cd ") then Ok(Step(pwd + [line[5..]], []))
    else if StartsWith(line, "dir ") then Ok(Step(pwd, [Entry(MkName(pwd, line[4..]), None)]))
    else if line == "$ ls" then Ok(Step(pwd, []))
    else
      var parts := SplitWhitespace(line);
      if |parts| == 0 then Panic("called `Option::unwrap()` on a `None` value")
      else match ParseUnsigned(parts[0], U64Max)
        case None => Panic("Expecting a number")
        case Some(size) =>
          if |parts| < 2 then Panic("called `Option::unwrap()` on a `None` value")
          else Ok(Step(pwd, [Entry(MkName(pwd, parts[1]), Some(size))]))
  }

  /** A `$ cd x` line that descends into a relative directory x. */
  predicate IsCdInto(line: string) { line != "$ cd .." && !StartsWith(line, "$ cd /") && StartsWith(line, "$ cd ") }

  /**
   * A rooted stack stays rooted, and every listed name is absolute, unless a relative `cd` is
   * taken from an empty stack.
   */
  lemma ParseLineRooted(pwd: seq<string>, line: string)
    requires Rooted(pwd) && !(pwd == [] && IsCdInto(line))
    ensures ParseLine(pwd, line).Ok? ==> Rooted(ParseLine(pwd, line).value.pwd)
    ensures ParseLine(pwd, line).Ok? ==>
              forall e :: e in ParseLine(pwd, line).value.out ==> |e.name| >= 1 && e.name[0] == '/'
  {
    var r := ParseLine(pwd, line);
    if r.Ok? {
      forall e | e in r.value.out ensures |e.name| >= 1 && e.name[0] == '/' {
        if e.name != "/" {
          MkNameRooted(pwd, if StartsWith(line, "dir ") then line[4..] else SplitWhitespace(line)[1]);
        }
      }
    }
  }

  /** The entries `parse` lists for the remaining lines, from working directory pwd. */
  function ParseFrom(pwd: seq<string>, lines: seq<string>): Result<seq<Entry>>
    decreases |lines|
  {
    if lines == [] then Ok([])
    else
      var step := ParseLine(pwd, lines[0]);
      if step.Panic? then Panic(step.msg)
      else
        var rest := ParseFrom(step.value.pwd, lines[1..]);
        if rest.Panic? then rest else Ok(step.value.out + rest.value)
  }

  function Prepend(out: seq<Entry>, r: Result<seq<Entry>>): Result<seq<Entry>>
  {
    if r.Panic? then r else Ok(out + r.value)
  }

  /** `parse`: the transcript's listed paths in order, starting from an empty working directory. */
  method Parse(input: string) returns (r: Result<seq<Entry>>)
    ensures r == ParseFrom([], Lines(input))
  {
    var lines := Lines(input);
    var pwd: seq<string> := [];
    var out: seq<Entry> := [];
    assert lines[0..] == lines;
    assert ParseFrom([], lines).Ok? ==> [] + ParseFrom([], lines).value == ParseFrom([], lines).value;
    for i := 0 to |lines|
      invariant ParseFrom([], lines) == Prepend(out, ParseFrom(pwd, lines[i..]))
    {
      assert lines[i..][1..] == lines[i + 1..];
      var step := ParseLine(pwd, lines[i]);
      if step.Panic? {
        return Panic(step.msg);
      }
      var rest := ParseFrom(step.value.pwd, lines[i + 1..]);
      assert rest.Ok? ==> out + (step.value.out + rest.value) == (out + step.value.out) + rest.value;
      pwd, out := step.value.pwd, out + step.value.out;
    }
    assert lines[|lines|..] == [];
    assert out + [] == out;
    return Ok(out);
  }

  /** Texts that differ at position i: neither equal nor one a prefix of the other. */
  lemma Differs(s: string, t: string, i: nat)
    requires i < |s| && i < |t| && s[i] != t[i]
    ensures s != t && !StartsWith(s, t)
  {
  }

  /** "$ cd /…" (anything may follow the slash) pushes the root component and lists "/". */
  lemma ParseCdRoot(pwd: seq<string>, rest: string)
    ensures ParseLine(pwd, "$ cd /" + rest) == Ok(Step(pwd + [""], [Entry("/", None)]))
  {
    var line := "$ cd /" + rest;
    Differs(line, "$ cd ..", 5);
    assert line[..6] == "$ cd /";
  }

  /** "$ cd x" for a relative x other than ".." pushes x. */
  lemma ParseCdInto(pwd: seq<string>, x: string)
    requires x != ".." && (x == [] || x[0] != '/')
    ensures ParseLine(pwd, "$ cd " + x) == Ok(Step(pwd + [x], []))
  {
    var line := "$ cd " + x;
    assert line[..5] == "$ cd " && line[5..] == x;
    if x != [] { Differs(line, "$ cd /", 5); }
  }

  /** "dir x" lists the directory x under the working directory. */
  lemma ParseDir(pwd: seq<string>, x: string)
    ensures ParseLine(pwd, "dir " + x) == Ok(Step(pwd, [Entry(MkName(pwd, x), None)]))
  {
    var line := "dir " + x;
    Differs(line, "$ cd ..", 0);
    Differs(line, "$ cd /", 0);
    Differs(line, "$ cd ", 0);
    assert line[..4] == "dir " && line[4..] == x;
  }

  /** "size name" lists the file with that size under the working directory. */
  lemma ParseFile(pwd: seq<string>, size: nat, name: string)
    requires size <= U64Max && name != [] && FreeOf(name, Whitespace)
    ensures ParseLine(pwd, DigitsOf(size) + " " + name) == Ok(Step(pwd, [Entry(MkName(pwd, name), Some(size))]))
  {
    var digits := DigitsOf(size);
    var line := digits + " " + name;
    ValueOfDigits(size);
    FileLineWords(digits, name);
    assert IsDigit(line[0]) by { assert line[0] == digits[0]; }
    Differs(line, "$ cd ..", 0);
    Differs(line, "$ cd /", 0);
    Differs(line, "$ cd ", 0);
    Differs(line, "dir ", 0);
    Differs(line, "$ ls", 0);
    ParseUnsignedDigits(size, U64Max);
  }

  lemma FileLineWords(digits: string, name: string)
    requires digits != [] && AllDigits(digits) && name != [] && FreeOf(name, Whitespace)
    ensures SplitWhitespace(digits + " " + name) == [digits, name]
  {
    assert FreeOf(digits, Whitespace) by {
      forall j | 0 <= j < |digits| ensures digits[j] !in Whitespace { assert IsDigit(digits[j]); }
    }
    assert digits + " " + name == digits + [' '] + name;
    SkipWord(digits, ' ', name, Whitespace);
    LastWord(name, Whitespace);
  }

  // ------------------------------------------------------------------
  // compute_sizes
  // ------------------------------------------------------------------

  /** `str::rfind`: the position of the last c in s. */
  function RFind(s: string, c: char): (r: Option<nat>)
    ensures r.Some? ==> r.value < |s| && s[r.value] == c && forall j :: r.value < j < |s| ==> s[j] != c
    ensures r.None? ==> forall j :: 0 <= j < |s| ==> s[j] != c
    decreases |s|
  {
    if s == [] then None
    else if s[|s| - 1] == c then Some(|s| - 1)
    else RFind(s[..|s| - 1], c)
  }

  function Get(m: map<string, nat>, k: string): nat { if k in m then m[k] else 0 }

  /** The `entry(..).and_modify(+= size).or_insert(size)` update. */
  function Bump(m: map<string, nat>, k: string, size: nat): map<string, nat>
  {
    m[k := Get(m, k) + size]
  }

  /**
   * The inner loop of `compute_sizes` for one file: the prefix of `curr` up to its last '/' gets the
   * size, and the loop continues on what precedes that '/'; a non-empty rest without '/' panics.
   */
  function AddAlong(m: map<string, nat>, curr: string, size: nat): Result<map<string, nat>>
    decreases |curr|
  {
    if curr == [] then Ok(m)
    else match RFind(curr, '/')
      case None => Panic("Unexpected")
      case Some(p) => AddAlong(Bump(m, curr[..p + 1], size), curr[..p], size)
  }

  /** `compute_sizes` from a table m: directory entries are skipped, files are added along their path. */
  function AddAll(m: map<string, nat>, entries: seq<Entry>): Result<map<string, nat>>
    decreases |entries|
  {
    if entries == [] then Ok(m)
    else if entries[0].size.None? then AddAll(m, entries[1..])
    else
      var next := AddAlong(m, entries[0].name, entries[0].size.value);
      if next.Panic? then next else AddAll(next.value, entries[1..])
  }

  method ComputeSizes(input: seq<Entry>) returns (r: Result<map<string, nat>>)
    ensures r == AddAll(map[], input)
  {
    var sizes: map<string, nat> := map[];
    for i := 0 to |input|
      invariant AddAll(map[], input) == AddAll(sizes, input[i..])
    {
      assert input[i..][1..] == input[i + 1..];
      var entry := input[i];
      if entry.size.None? {
        continue;
      }
      var size := entry.size.value;
      var curr := entry.name;
      ghost var start := sizes;
      while curr != []
        invariant AddAlong(sizes, curr, size) == AddAlong(start, entry.name, size)
        decreases |curr|
      {
        match RFind(curr, '/')
        case Some(p) =>
          sizes := Bump(sizes, curr[..p + 1], size);
          curr := curr[..p];
        case None =>
          return Panic("Unexpected");
      }
    }
    assert input[|input|..] == [];
    return Ok(sizes);
  }

  /** k is a directory key of the path: a prefix of it that ends with '/'. */
  predicate IsDirKey(k: string, path: string) { |k| >= 1 && k[|k| - 1] == '/' && StartsWith(path, k) }

  /** The keys of a path split at its last '/': that prefix itself, or a key of what precedes it. */
  lemma DirKeySplit(k: string, curr: string, p: nat)
    requires p < |curr| && curr[p] == '/' && forall j :: p < j < |curr| ==> curr[j] != '/'
    ensures IsDirKey(k, curr) <==> k == curr[..p + 1] || IsDirKey(k, curr[..p])
    ensures !IsDirKey(curr[..p + 1], curr[..p])
  {
    if IsDirKey(k, curr) && k != curr[..p + 1] {
      assert k[|k| - 1] == curr[|k| - 1];
      assert |k| - 1 < p;
      assert curr[..p][..|k|] == k;
    }
    if IsDirKey(k, curr[..p]) {
      assert curr[..|k|] == curr[..p][..|k|];
    }
  }

  /**
   * For one file, `compute_sizes` adds its size to every directory key of its path, and to nothing
   * else; it panics exactly when the path is not absolute.
   */
  lemma {:induction false} AddAlongMeans(m: map<string, nat>, curr: string, size: nat)
    ensures AddAlong(m, curr, size).Ok? <==> curr == [] || curr[0] == '/'
    ensures AddAlong(m, curr, size).Ok? ==>
              forall k :: Get(AddAlong(m, curr, size).value, k) == Get(m, k) + (if IsDirKey(k, curr) then size else 0)
                       && (k in AddAlong(m, curr, size).value <==> k in m || IsDirKey(k, curr))
    decreases |curr|
  {
    if curr != [] {
      match RFind(curr, '/')
      case None =>
      case Some(p) =>
        var m1 := Bump(m, curr[..p + 1], size);
        AddAlongMeans(m1, curr[..p], size);
        assert p > 0 ==> curr[..p][0] == curr[0];
        var r := AddAlong(m1, curr[..p], size);
        if r.Ok? {
          forall k ensures Get(r.value, k) == Get(m, k) + (if IsDirKey(k, curr) then size else 0)
                        && (k in r.value <==> k in m || IsDirKey(k, curr))
          {
            DirKeySplit(k, curr, p);
            DirKeySplit(curr[..p + 1], curr, p);
          }
        }
    }
  }

  /** The sum of the sizes of the files (in order) that have k as a directory key. */
  function Total(entries: seq<Entry>, k: string): nat
    decreases |entries|
  {
    if entries == [] then 0
    else
      var e := entries[0];
      (if e.size.Some? && IsDirKey(k, e.name) then e.size.value else 0) + Total(entries[1..], k)
  }

  /** Every file is listed with an absolute path (or an empty one). */
  predicate FilesAbsolute(entries: seq<Entry>)
  {
    forall i :: 0 <= i < |entries| && entries[i].size.Some? ==> entries[i].name == [] || entries[i].name[0] == '/'
  }

  /**
   * `compute_sizes` succeeds iff every file path is absolute, and then the size of each directory
   * key is the sum of the files below it; the keys are exactly the directory keys of file paths.
   */
  lemma {:induction false} AddAllMeans(m: map<string, nat>, entries: seq<Entry>)
    ensures AddAll(m, entries).Ok? <==> FilesAbsolute(entries)
    ensures AddAll(m, entries).Ok? ==>
              forall k :: Get(AddAll(m, entries).value, k) == Get(m, k) + Total(entries, k)
                       && (k in AddAll(m, entries).value <==>
                             k in m || exists i :: 0 <= i < |entries| && entries[i].size.Some? && IsDirKey(k, entries[i].name))
    decreases |entries|
  {
    if entries != [] {
      var e := entries[0];
      assert FilesAbsolute(entries) <==> (e.size.Some? ==> e.name == [] || e.name[0] == '/') && FilesAbsolute(entries[1..]) by {
        if (e.size.Some? ==> e.name == [] || e.name[0] == '/') && FilesAbsolute(entries[1..]) {
          forall i | 0 <= i < |entries| && entries[i].size.Some? ensures entries[i].name == [] || entries[i].name[0] == '/' {
            if i > 0 { assert entries[i] == entries[1..][i - 1]; }
          }
        }
      }
      var m1 := if e.size.None? || AddAlong(m, e.name, e.size.value).Panic? then m else AddAlong(m, e.name, e.size.value).value;
      if e.size.Some? { AddAlongMeans(m, e.name, e.size.value); }
      if e.size.None? || AddAlong(m, e.name, e.size.value).Ok? {
        AddAllMeans(m1, entries[1..]);
        var r := AddAll(m1, entries[1..]);
        if r.Ok? {
          forall k ensures k in r.value <==>
                             k in m || exists i :: 0 <= i < |entries| && entries[i].size.Some? && IsDirKey(k, entries[i].name)
          {
            if exists i :: 0 <= i < |entries| && entries[i].size.Some? && IsDirKey(k, entries[i].name) {
              var i :| 0 <= i < |entries| && entries[i].size.Some? && IsDirKey(k, entries[i].name);
              if i > 0 { assert entries[1..][i - 1] == entries[i]; }
            }
            if exists i :: 0 <= i < |entries[1..]| && entries[1..][i].size.Some? && IsDirKey(k, entries[1..][i].name) {
              var i :| 0 <= i < |entries[1..]| && entries[1..][i].size.Some? && IsDirKey(k, entries[1..][i].name);
              assert entries[i + 1] == entries[1..][i];
            }
          }
        }
      }
    }
  }

  function FileSum(entries: seq<Entry>): nat
    decreases |entries|
  {
    if entries == [] then 0
    else (if entries[0].size.Some? then entries[0].size.value else 0) + FileSum(entries[1..])
  }

  lemma {:induction false} RootTotal(entries: seq<Entry>)
    requires forall i :: 0 <= i < |entries| && entries[i].size.Some? ==> |entries[i].name| >= 1 && entries[i].name[0] == '/'
    ensures Total(entries, "/") == FileSum(entries)
    decreases |entries|
  {
    if entries != [] {
      RootTotal(entries[1..]);
      if entries[0].size.Some? {
        assert entries[0].name[..1] == "/";
      }
    }
  }

  /** When every file path is absolute, the root key holds the total size of all files. */
  lemma RootHoldsEverything(entries: seq<Entry>)
    requires forall i :: 0 <= i < |entries| && entries[i].size.Some? ==> |entries[i].name| >= 1 && entries[i].name[0] == '/'
    ensures AddAll(map[], entries).Ok?
    ensures Get(AddAll(map[], entries).value, "/") == FileSum(entries)
  {
    AddAllMeans(map[], entries);
    RootTotal(entries);
  }

  // ------------------------------------------------------------------
  // part1 / part2
  // ------------------------------------------------------------------

  function Small(size: nat): nat { if size < 100000 then size else 0 }

  /** The sum of the sizes under 100000 over the given keys of the table. */
  ghost function SmallSum(sizes: map<string, nat>, keys: set<string>): nat
    requires keys <= sizes.Keys
    decreases keys
  {
    if keys == {} then 0
    else
      var k :| k in keys;
      Small(sizes[k]) + SmallSum(sizes, keys - {k})
  }

  /** The sum does not depend on the order in which the keys are visited. */
  lemma {:induction false} SmallSumRemove(sizes: map<string, nat>, keys: set<string>, k: string)
    requires keys <= sizes.Keys && k in keys
    ensures SmallSum(sizes, keys) == Small(sizes[k]) + SmallSum(sizes, keys - {k})
    decreases keys
  {
    var j :| j in keys && SmallSum(sizes, keys) == Small(sizes[j]) + SmallSum(sizes, keys - {j});
    if j != k {
      SmallSumRemove(sizes, keys - {j}, k);
      SmallSumRemove(sizes, keys - {k}, j);
      assert keys - {j} - {k} == keys - {k} - {j};
    }
  }

  /** `part1`: the sum of all directory sizes below 100000, visiting the table in any order. */
  method Part1(sizes: map<string, nat>) returns (s: nat)
    ensures s == SmallSum(sizes, sizes.Keys)
  {
    s := 0;
    var keys := sizes.Keys;
    while keys != {}
      invariant keys <= sizes.Keys
      invariant s + SmallSum(sizes, keys) == SmallSum(sizes, sizes.Keys)
      decreases keys
    {
      var k :| k in keys;
      SmallSumRemove(sizes, keys, k);
      if sizes[k] < 100000 {
        s := s + sizes[k];
      }
      keys := keys - {k};
    }
  }

  /**
   * The answer of part 2 when `need` bytes are missing: 0 when nothing is missing, otherwise the
   * smallest size strictly above `need`, or `u64::MAX` when no size is.
   */
  predicate IsPart2(sizes: map<string, nat>, need: int, found: nat)
  {
    (need <= 0 ==> found == 0)
    && (need > 0 && (forall k :: k in sizes ==> sizes[k] <= need) ==> found == U64Max)
    && (need > 0 && (exists k :: k in sizes && sizes[k] > need) ==>
          (exists k :: k in sizes && sizes[k] > need && found == sizes[k])
          && (forall k :: k in sizes && sizes[k] > need ==> found <= sizes[k]))
  }

  /**
   * `part2`: with 70000000 in all and 30000000 needed, 0 when enough is free already, otherwise the
   * smallest size strictly above what is missing (`u64::MAX` if there is none). A table without "/"
   * panics on the index, and a root over 70000000 on the `u64` subtraction.
   */
  method Part2(sizes: map<string, nat>) returns (r: Result<nat>)
    requires forall k :: k in sizes ==> sizes[k] <= U64Max
    ensures r.Panic? <==> "/" !in sizes || sizes["/"] > 70000000
    ensures r.Ok? ==> "/" in sizes && sizes["/"] <= 70000000 && IsPart2(sizes, sizes["/"] as int - 40000000, r.value)
  {
    if "/" !in sizes || sizes["/"] > 70000000 {
      return Panic("index or subtraction out of range");
    }
    var freeSpace := 70000000 - sizes["/"];
    if freeSpace >= 30000000 {
      return Ok(0);
    }
    var needSpace := 30000000 - freeSpace;
    var found := U64Max;
    var keys := sizes.Keys;
    ghost var seen: set<string> := {};
    while keys != {}
      invariant keys <= sizes.Keys && seen == sizes.Keys - keys
      invariant (forall k :: k in seen ==> sizes[k] <= needSpace) ==> found == U64Max
      invariant (exists k :: k in seen && sizes[k] > needSpace) ==> exists k :: k in seen && sizes[k] > needSpace && found == sizes[k]
      invariant forall k :: k in seen && sizes[k] > needSpace ==> found <= sizes[k]
      decreases keys
    {
      var k :| k in keys;
      if sizes[k] > needSpace && sizes[k] < found {
        found := sizes[k];
      }
      keys := keys - {k};
      seen := seen + {k};
    }
    return Ok(found);
  }

  // ------------------------------------------------------------------
  // The puzzle's example
  // ------------------------------------------------------------------

  /** The table the example transcript produces. */
  function SampleSizes(): map<string, nat>
  {
    map["/" := 48381165, "/a/" := 94853, "/a/e/" := 584, "/d/" := 24933642]
  }

  lemma SamplePart1()
    ensures SmallSum(SampleSizes(), SampleSizes().Keys) == 95437
  {
    var m := SampleSizes();
    var ks := m.Keys;
    assert ks == {"/", "/a/", "/a/e/", "/d/"};
    SmallSumRemove(m, ks, "/");
    SmallSumRemove(m, ks - {"/"}, "/a/");
    SmallSumRemove(m, ks - {"/"} - {"/a/"}, "/a/e/");
    SmallSumRemove(m, ks - {"/"} - {"/a/"} - {"/a/e/"}, "/d/");
    assert ks - {"/"} - {"/a/"} - {"/a/e/"} - {"/d/"} == {};
  }

  /** With "/" at 48381165, 8381165 bytes are missing; the smallest size above that is "/d/"'s. */
  lemma SamplePart2()
    ensures IsPart2(SampleSizes(), SampleSizes()["/"] - 40000000, 24933642)
  {
    var m := SampleSizes();
    assert m.Keys == {"/", "/a/", "/a/e/", "/d/"};
    assert m["/d/"] > 8381165;
  }
}
