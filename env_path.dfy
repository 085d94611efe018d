/**
 * The tool's view of the environment: the directories of `PATH`, the
 * search for a program along them, the tool names the compiler's location
 * suggests (a cross-compiling triple, a versioned suffix), and the
 * splitting of command-line text into arguments.
 *
 * The environment variable, the file system and the file-status queries
 * are parameters: `env` is what `getenv("PATH")` returns, `isRegular` and
 * `exists` answer for a path the way `fs::status`/`fs::exists` would.
 */
module EnvPath {
  import opened Wrappers
  import opened Strings
  import opened Utils
  import opened Paths
  import opened Generator

  /** The separator between `PATH` entries (the POSIX one). */
  const PathSep: char := ':'

  // ---------------------------------------------------------- getPATH

  /** The pieces that are not empty, in order. */
  function NonEmpty(parts: seq<string>): seq<string>
    decreases |parts|
  {
    if |parts| == 0 then []
    else
      var n := |parts| - 1;
      NonEmpty(parts[..n]) + (if |parts[n]| > 0 then [parts[n]] else [])
  }

  /** Filtering keeps the non-empty pieces and only those. */
  lemma {:induction false} NonEmptyMeaning(parts: seq<string>)
    ensures |NonEmpty(parts)| <= |parts|
    ensures forall i :: 0 <= i < |NonEmpty(parts)| ==> |NonEmpty(parts)[i]| > 0
    ensures forall x :: x in NonEmpty(parts) <==> x in parts && |x| > 0
    decreases |parts|
  {
    if |parts| > 0 {
      var n := |parts| - 1;
      var init, last := parts[..n], if |parts[n]| > 0 then [parts[n]] else [];
      NonEmptyMeaning(init);
      assert NonEmpty(parts) == NonEmpty(init) + last;
      NonEmptyMembers(parts, init, last);
    }
  }

  lemma NonEmptyMembers(parts: seq<string>, init: seq<string>, last: seq<string>)
    requires |parts| > 0 && init == parts[..|parts| - 1]
    requires last == if |parts[|parts| - 1]| > 0 then [parts[|parts| - 1]] else []
    requires forall x :: x in NonEmpty(init) <==> x in init && |x| > 0
    ensures forall x :: x in NonEmpty(init) + last <==> x in parts && |x| > 0
  {
    assert parts == init + [parts[|parts| - 1]];
  }

  /** The directories `getPATH` collects: the non-empty pieces that a separator closes. */
  function ClosedDirs(path: string): seq<string>
  {
    var pieces := Split(PathSep, path);
    NonEmpty(pieces[..|pieces| - 1])
  }

  /** Every non-empty piece between separators, the last one included. */
  function PathDirs(path: string): seq<string>
  {
    NonEmpty(Split(PathSep, path))
  }

  /** What `getPATH` returns for the variable as found (or not) in the environment. */
  function EnvDirsAsWritten(env: Option<string>): seq<string>
  {
    if env.None? || |env.value| == 0 then [] else ClosedDirs(env.value)
  }

  /** The directories `PATH` names: every non-empty entry. */
  function EnvDirs(env: Option<string>): seq<string>
  {
    if env.None? || |env.value| == 0 then [] else PathDirs(env.value)
  }

  /**
   * The directories are exactly the non-empty entries: each is one of the
   * pieces between separators, none is empty or holds a separator.
   */
  lemma PathDirsMeaning(path: string, d: string)
    ensures forall i :: 0 <= i < |PathDirs(path)| ==> |PathDirs(path)[i]| > 0 && PathSep !in PathDirs(path)[i]
    ensures d in PathDirs(path) <==> d in Split(PathSep, path) && |d| > 0
  {
    var pieces := Split(PathSep, path);
    NonEmptyMeaning(pieces);
    forall i | 0 <= i < |PathDirs(path)|
      ensures PathSep !in PathDirs(path)[i]
    {
      var x := PathDirs(path)[i];
      assert x in pieces;
      var k :| 0 <= k < |pieces| && pieces[k] == x;
    }
  }

  /** `getPATH` keeps all but the text after the last separator. */
  lemma ClosedDirsDropTail(path: string)
    ensures var pieces := Split(PathSep, path);
      var tail := pieces[|pieces| - 1];
      PathDirs(path) == ClosedDirs(path) + (if |tail| > 0 then [tail] else [])
  {
    var pieces := Split(PathSep, path);
    assert pieces[..|pieces| - 1] == pieces[..|pieces| - 1];
  }

  /** With `PATH=a:b`, `getPATH` returns only `a`; the entries are `a` and `b`. */
  lemma PathTailDropped()
    ensures EnvDirsAsWritten(Some("a:b")) == ["a"]
    ensures EnvDirs(Some("a:b")) == ["a", "b"]
  {
    SplitOfAB();
    NonEmptyOfAB();
    var p := Split(PathSep, "a:b");
    assert p[..|p| - 1] == ["a"];
    assert ClosedDirs("a:b") == ["a"];
    assert PathDirs("a:b") == ["a", "b"];
  }

  lemma NonEmptyOfAB()
    ensures NonEmpty(["a"]) == ["a"] && NonEmpty(["a", "b"]) == ["a", "b"]
  {
    var p := ["a", "b"];
    assert p[..1] == ["a"] && p[..1][..0] == [];
    assert NonEmpty([]) == [];
  }

  lemma SplitOfAB()
    ensures Split(PathSep, "a:b") == ["a", "b"]
  {
    var s := "a:b";
    assert s[..2] == "a:" && s[..2][..1] == "a" && s[..1][..0] == "";
    assert Split(PathSep, "") == [""];
    assert Split(PathSep, "a") == ["a"];
    assert Split(PathSep, "a:") == ["a", ""];
  }

  /** `getPATH`'s loop: each separator closes the piece since the previous one. */
  method CollectClosed(paths: string) returns (result: seq<string>, prev: nat)
    ensures result == ClosedDirs(paths)
    ensures prev <= |paths| && paths[prev..] == Split(PathSep, paths)[|Split(PathSep, paths)| - 1]
  {
    result := [];
    prev := 0;
    assert paths[..0] == "";
    for current := 0 to |paths|
      invariant prev <= current
      invariant ClosedSoFar(paths, current, result, prev)
    {
      result, prev := CollectNext(paths, current, result, prev);
    }
    assert paths[..|paths|] == paths;
  }

  /** The loop's state after the first `current` characters. */
  predicate ClosedSoFar(paths: string, current: nat, result: seq<string>, prev: nat)
    requires current <= |paths|
  {
    var pieces := Split(PathSep, paths[..current]);
    prev <= current && result == NonEmpty(pieces[..|pieces| - 1]) && pieces[|pieces| - 1] == paths[prev..current]
  }

  /** One character of `getPATH`'s loop: a separator closes the current piece and keeps it when not empty. */
  method CollectNext(paths: string, current: nat, result: seq<string>, prev: nat) returns (result': seq<string>, prev': nat)
    requires current < |paths| && ClosedSoFar(paths, current, result, prev)
    ensures ClosedSoFar(paths, current + 1, result', prev')
  {
    if paths[current] != PathSep {
      ExtendPiece(paths, current, result, prev);
      return result, prev;
    }
    var curr := paths[prev..current];
    ClosePiece(paths, current, result, prev);
    result' := result;
    prev' := current + 1;
    if |curr| > 0 {
      result' := result + [curr];
    }
  }

  /** Splitting one character more: a separator opens an empty piece, anything else grows the last piece. */
  lemma SplitSnoc(t: string, c: char)
    ensures var pieces := Split(PathSep, t);
      var n := |pieces| - 1;
      Split(PathSep, t + [c]) == if c == PathSep then pieces + [""] else pieces[..n] + [pieces[n] + [c]]
  {
    assert (t + [c])[..|t|] == t;
  }

  /** Any character but the separator joins the piece being read. */
  lemma ExtendPiece(paths: string, current: nat, result: seq<string>, prev: nat)
    requires current < |paths| && ClosedSoFar(paths, current, result, prev) && paths[current] != PathSep
    ensures ClosedSoFar(paths, current + 1, result, prev)
  {
    var pieces := Split(PathSep, paths[..current]);
    var n := |pieces| - 1;
    assert paths[..current + 1] == paths[..current] + [paths[current]];
    SplitSnoc(paths[..current], paths[current]);
    var grown := pieces[..n] + [pieces[n] + [paths[current]]];
    assert grown[..|grown| - 1] == pieces[..n];
    assert paths[prev..current + 1] == paths[prev..current] + [paths[current]];
  }

  /** The separator closes the piece since `prev`, which joins the result unless empty. */
  lemma ClosePiece(paths: string, current: nat, result: seq<string>, prev: nat)
    requires current < |paths| && ClosedSoFar(paths, current, result, prev) && paths[current] == PathSep
    ensures var curr := paths[prev..current];
      ClosedSoFar(paths, current + 1, if |curr| > 0 then result + [curr] else result, current + 1)
  {
    var pieces := Split(PathSep, paths[..current]);
    var n := |pieces| - 1;
    assert paths[..current + 1] == paths[..current] + [paths[current]];
    SplitSnoc(paths[..current], paths[current]);
    assert (pieces + [""])[..|pieces|] == pieces;
    assert pieces[..n] + [pieces[n]] == pieces;
    assert NonEmpty(pieces) == NonEmpty(pieces[..n]) + (if |pieces[n]| > 0 then [pieces[n]] else []);
    assert paths[current + 1..current + 1] == "";
  }

  /** `getPATH`: nothing without a `PATH`; otherwise the separator-closed entries. */
  method GetPathAsWritten(env: Option<string>) returns (result: seq<string>)
    ensures result == EnvDirsAsWritten(env)
  {
    if env.None? || |env.value| == 0 {
      return [];
    }
    var prev;
    result, prev := CollectClosed(env.value);
  }

  /** `getPATH` keeping the entry after the last separator too. */
  method GetPath(env: Option<string>) returns (result: seq<string>)
    ensures result == EnvDirs(env)
  {
    if env.None? || |env.value| == 0 {
      return [];
    }
    var paths := env.value;
    var prev;
    result, prev := CollectClosed(paths);
    ClosedDirsDropTail(paths);
    if prev < |paths| {
      result := result + [paths[prev..]];
    }
  }

  // ---------------------------------------------------------- fullpath

  /** The first directory holding a regular file named `prog`, joined with it. */
  function FirstRegular(dirs: seq<string>, prog: string, isRegular: string -> bool): Option<string>
    decreases |dirs|
  {
    if |dirs| == 0 then None
    else if isRegular(Join(dirs[0], prog)) then Some(Join(dirs[0], prog))
    else FirstRegular(dirs[1..], prog, isRegular)
  }

  /** `fullpath`: a name with a separator as is; otherwise the first hit along `PATH`, or the name itself. */
  function FullPath(prog: string, env: Option<string>, isRegular: string -> bool): string
  {
    if '/' in prog then prog
    else
      match FirstRegular(EnvDirs(env), prog, isRegular)
      case Some(candidate) => candidate
      case None => prog
  }

  /** The search finds the first directory, in `PATH` order, where the program is a regular file. */
  lemma {:induction false} FirstRegularMeaning(dirs: seq<string>, prog: string, isRegular: string -> bool)
    ensures FirstRegular(dirs, prog, isRegular).None? <==> forall i :: 0 <= i < |dirs| ==> !isRegular(Join(dirs[i], prog))
    ensures FirstRegular(dirs, prog, isRegular).Some? ==>
      exists i :: 0 <= i < |dirs| && FirstRegular(dirs, prog, isRegular).value == Join(dirs[i], prog)
        && isRegular(Join(dirs[i], prog))
        && forall j :: 0 <= j < i ==> !isRegular(Join(dirs[j], prog))
    decreases |dirs|
  {
    if |dirs| > 0 && !isRegular(Join(dirs[0], prog)) {
      FirstRegularMeaning(dirs[1..], prog, isRegular);
      var r := FirstRegular(dirs[1..], prog, isRegular);
      if r.Some? {
        var i :| 0 <= i < |dirs[1..]| && r.value == Join(dirs[1..][i], prog)
          && isRegular(Join(dirs[1..][i], prog))
          && forall j :: 0 <= j < i ==> !isRegular(Join(dirs[1..][j], prog));
        assert forall j :: 0 <= j < i + 1 ==> !isRegular(Join(dirs[j], prog)) by {
          forall j | 0 <= j < i + 1
            ensures !isRegular(Join(dirs[j], prog))
          {
            if j > 0 {
              assert dirs[j] == dirs[1..][j - 1];
            }
          }
        }
      } else {
        forall i | 0 <= i < |dirs|
          ensures !isRegular(Join(dirs[i], prog))
        {
          if i > 0 {
            assert dirs[i] == dirs[1..][i - 1];
          }
        }
      }
    }
  }

  /** `fullpath`'s loop over the `PATH` directories. */
  method FullPathSearch(prog: string, env: Option<string>, isRegular: string -> bool) returns (r: string)
    ensures r == FullPath(prog, env, isRegular)
  {
    if '/' in prog {
      return prog;
    }
    var path := GetPath(env);
    for k := 0 to |path|
      invariant FirstRegular(path, prog, isRegular) == FirstRegular(path[k..], prog, isRegular)
    {
      var candidate := Join(path[k], prog);
      assert path[k..][1..] == path[k + 1..];
      if isRegular(candidate) {
        return candidate;
      }
    }
    return prog;
  }

  // ---------------------------------------------------------- paths::which

  /** `env::tool`: the compiler itself, or a tool found by name. */
  datatype Tool = Tool(isCxx: bool, name: string)

  /** `env::paths`: the compiler, its directory, and the triple and suffix its name carries. */
  datatype ToolPaths = ToolPaths(cxx: string, root: string, triple: string, suffix: string, isGcc: bool)

  /**
   * The places `which` looks for a tool, in order: the triple with "-gcc"
   * (GCC only), the triple alone, then the bare name, each first with the
   * version suffix and then without it.
   */
  function Candidates(p: ToolPaths, name: string): seq<string>
  {
    var withTriple :=
      if |p.triple| == 0 then []
      else
        (if p.isGcc then
          (if |p.suffix| > 0 then [Join(p.root, p.triple + "-gcc" + "-" + name + p.suffix)] else [])
          + [Join(p.root, p.triple + "-gcc" + "-" + name)]
         else [])
        + (if |p.suffix| > 0 then [Join(p.root, p.triple + "-" + name + p.suffix)] else [])
        + [Join(p.root, p.triple + "-" + name)];
    withTriple + (if |p.suffix| > 0 then [Join(p.root, name + p.suffix)] else []) + [Join(p.root, name)]
  }

  /** The first candidate that exists. */
  function FirstExisting(cs: seq<string>, exists_: string -> bool): Option<string>
    decreases |cs|
  {
    if |cs| == 0 then None else if exists_(cs[0]) then Some(cs[0]) else FirstExisting(cs[1..], exists_)
  }

  /** Where `which` finds a tool: the compiler itself, the first existing candidate, or the `PATH` search. */
  function WhichOf(p: ToolPaths, tool: Tool, exists_: string -> bool, env: Option<string>, isRegular: string -> bool): string
  {
    if tool.isCxx then p.cxx
    else
      match FirstExisting(Candidates(p, tool.name), exists_)
      case Some(c) => c
      case None => FullPath(tool.name, env, isRegular)
  }

  /**
   * Every candidate sits in the tool's directory; the bare name comes last
   * and the versioned name just before it when there is a suffix.
   */
  lemma CandidatesMeaning(p: ToolPaths, name: string)
    ensures var cs := Candidates(p, name);
      |cs| > 0 && cs[|cs| - 1] == Join(p.root, name)
      && (|p.suffix| > 0 ==> |cs| > 1 && cs[|cs| - 2] == Join(p.root, name + p.suffix))
      && (|p.triple| == 0 ==> |cs| == if |p.suffix| > 0 then 2 else 1)
      && (|p.triple| > 0 && p.isGcc && |p.suffix| > 0 ==> cs[0] == Join(p.root, p.triple + "-gcc-" + name + p.suffix))
      && (|p.triple| > 0 && !p.isGcc && |p.suffix| == 0 ==> cs[0] == Join(p.root, p.triple + "-" + name))
  {
    assert p.triple + "-gcc" + "-" + name + p.suffix == p.triple + "-gcc-" + name + p.suffix;
  }

  /** `paths::which`: the first of the candidates that exists, else the `PATH` search. */
  method Which(p: ToolPaths, tool: Tool, exists_: string -> bool, env: Option<string>, isRegular: string -> bool) returns (r: string)
    ensures r == WhichOf(p, tool, exists_, env, isRegular)
  {
    if tool.isCxx {
      return p.cxx;
    }
    var cs := Candidates(p, tool.name);
    for k := 0 to |cs|
      invariant FirstExisting(cs, exists_) == FirstExisting(cs[k..], exists_)
    {
      assert cs[k..][1..] == cs[k + 1..];
      if exists_(cs[k]) {
        return cs[k];
      }
    }
    r := FullPathSearch(tool.name, env, isRegular);
  }

  // ---------------------------------------------------------- break_triple

  /** `break_triple`'s answer: whether the name fits, the directory, the triple, the version suffix. */
  datatype Triple = Triple(valid: bool, root: string, triple: string, suffix: string)

  const NoTriple := Triple(false, "", "", "")

  /** `mk_suffix`: "-" and the major version. */
  function MajorSuffix(major: nat): string
  {
    "-" + NatToString(major)
  }

  /**
   * The dash walk of `break_triple`: up to three dashes, each looked for at
   * least two characters past the previous one; the count and the last
   * dash found.
   */
  function DashWalk(s: string, pos: Option<nat>, dashes: nat, last: Option<nat>): (r: (nat, Option<nat>))
    requires dashes <= 3
    requires pos.Some? ==> pos.value < |s| && s[pos.value] == '-' && pos.value >= 2 * dashes
    requires dashes > 0 ==> last.Some? && last.value < |s| && s[last.value] == '-' && last.value >= 2 * (dashes - 1)
    ensures r.0 <= 3
    ensures r.0 > 0 ==> r.1.Some? && r.1.value < |s| && s[r.1.value] == '-' && r.1.value >= 2 * (r.0 - 1)
    decreases 3 - dashes
  {
    if pos.None? || dashes >= 3 then (dashes, last)
    else DashWalk(s, Find(s, '-', pos.value + 2), dashes + 1, pos)
  }

  /** The answer of `break_triple` for the program at `candidate` looking for `tool` of version `major`. */
  function TripleOf(candidate: string, tool: string, major: nat): Triple
  {
    var root := ParentPath(candidate);
    var name := FileName(candidate);
    var vtool := tool + MajorSuffix(major);
    if name == tool then Triple(true, root, "", "")
    else if name == vtool then Triple(true, root, "", MajorSuffix(major))
    else
      var walk := DashWalk(name, Find(name, '-', 0), 0, None);
      if walk.0 == 3 then
        var lastDash := walk.1.value;
        var toolSuffix := name[lastDash + 1..];
        if toolSuffix == tool then Triple(true, root, name[..lastDash], "")
        else if toolSuffix == vtool then Triple(true, root, name[..lastDash], MajorSuffix(major))
        else NoTriple
      else NoTriple
  }

  /**
   * A name fits when it is the tool, optionally versioned, after an
   * optional triple and a dash: the suffix is empty or the version, the
   * triple is empty or at least five characters ending before a dash, and
   * the directory is the candidate's. Anything else does not fit.
   */
  lemma TripleMeaning(candidate: string, tool: string, major: nat)
    ensures var t := TripleOf(candidate, tool, major);
      var name := FileName(candidate);
      (t.valid ==>
        t.root == ParentPath(candidate)
        && (t.suffix == "" || t.suffix == MajorSuffix(major))
        && (|t.triple| == 0 ==> name == tool + t.suffix)
        && (|t.triple| > 0 ==> |t.triple| >= 4 && name == t.triple + "-" + tool + t.suffix))
      && (!t.valid ==> t == NoTriple && name != tool && name != tool + MajorSuffix(major))
      && (name == tool ==> t == Triple(true, ParentPath(candidate), "", ""))
  {
    TripleValid(candidate, tool, major);
    var name := FileName(candidate);
    if name == tool {
      assert TripleOf(candidate, tool, major) == Triple(true, ParentPath(candidate), "", "");
    }
  }

  lemma TripleValid(candidate: string, tool: string, major: nat)
    ensures var t := TripleOf(candidate, tool, major);
      var name := FileName(candidate);
      t.valid ==>
        t.root == ParentPath(candidate)
        && (t.suffix == "" || t.suffix == MajorSuffix(major))
        && (|t.triple| == 0 ==> name == tool + t.suffix)
        && (|t.triple| > 0 ==> |t.triple| >= 4 && name == t.triple + "-" + tool + t.suffix)
  {
    var name := FileName(candidate);
    var root := ParentPath(candidate);
    var t := TripleOf(candidate, tool, major);
    if name == tool {
      assert t == Triple(true, root, "", "");
      assert tool + "" == tool;
    } else if name == tool + MajorSuffix(major) {
      assert t == Triple(true, root, "", MajorSuffix(major));
    } else {
      TripleWalkValid(candidate, tool, major);
    }
  }

  /** The case of a name that is neither the tool nor its versioned name: only a three-dash walk can make it fit. */
  lemma TripleWalkValid(candidate: string, tool: string, major: nat)
    requires FileName(candidate) != tool && FileName(candidate) != tool + MajorSuffix(major)
    ensures var t := TripleOf(candidate, tool, major);
      var name := FileName(candidate);
      t.valid ==>
        t.root == ParentPath(candidate)
        && t.suffix in {"", MajorSuffix(major)}
        && |t.triple| >= 4 && name == t.triple + "-" + tool + t.suffix
  {
    var name := FileName(candidate);
    var root := ParentPath(candidate);
    var vtool := tool + MajorSuffix(major);
    var t := TripleOf(candidate, tool, major);
    var walk := DashWalk(name, Find(name, '-', 0), 0, None);
    if walk.0 == 3 {
      var lastDash := walk.1.value;
      var triple := name[..lastDash];
      if name[lastDash + 1..] == tool {
        assert t == Triple(true, root, triple, "");
        TripleSplit(name, lastDash, tool, "");
        assert name[lastDash + 1..] == tool + "";
      } else if name[lastDash + 1..] == vtool {
        assert t == Triple(true, root, triple, MajorSuffix(major));
        TripleSplit(name, lastDash, tool, MajorSuffix(major));
      } else {
        assert t == NoTriple;
      }
    } else {
      assert t == NoTriple;
    }
  }

  /** Cutting a name at a dash past its fourth character gives a triple that reads back. */
  lemma TripleSplit(name: string, lastDash: nat, tool: string, suffix: string)
    requires 4 <= lastDash < |name| && name[lastDash] == '-'
    ensures |name[..lastDash]| >= 4
    ensures name[lastDash + 1..] == tool + suffix ==> name == name[..lastDash] + "-" + tool + suffix
  {
    assert name == name[..lastDash] + "-" + name[lastDash + 1..];
  }

  /**
   * A name made of three dash-free words and the tool, optionally
   * versioned, after the dashes breaks into those three words as the
   * triple, with the version as the suffix when the tool is versioned.
   */
  lemma TripleFound(candidate: string, x: string, y: string, z: string, t: string, tool: string, major: nat)
    requires |x| > 0 && |y| > 0 && |z| > 0 && '-' !in x && '-' !in y && '-' !in z
    requires t == tool || t == tool + MajorSuffix(major)
    requires FileName(candidate) == x + "-" + y + "-" + z + "-" + t
    requires FileName(candidate) != tool && FileName(candidate) != tool + MajorSuffix(major)
    ensures TripleOf(candidate, tool, major)
      == Triple(true, ParentPath(candidate), x + "-" + y + "-" + z, if t == tool then "" else MajorSuffix(major))
  {
    var name := FileName(candidate);
    var p1 := |x|;
    var p2 := p1 + 1 + |y|;
    var p3 := p2 + 1 + |z|;
    WordsAt(name, x, y, z, t);
    ThreeDashes(name, p1, p2, p3);
    assert name != tool && name != tool + MajorSuffix(major);
  }

  /** Where the words and the dashes between them sit in the name. */
  lemma WordsAt(name: string, x: string, y: string, z: string, t: string)
    requires |x| > 0 && |y| > 0 && |z| > 0 && '-' !in x && '-' !in y && '-' !in z
    requires name == x + "-" + y + "-" + z + "-" + t
    ensures var p1 := |x|; var p2 := p1 + 1 + |y|; var p3 := p2 + 1 + |z|;
      p3 < |name| && name[p1] == '-' && name[p2] == '-' && name[p3] == '-'
      && (forall i :: 0 <= i < p1 || p1 < i < p2 || p2 < i < p3 ==> name[i] != '-')
      && name[..p3] == x + "-" + y + "-" + z && name[p3 + 1..] == t
  {
    var p1 := |x|;
    var p2 := p1 + 1 + |y|;
    var p3 := p2 + 1 + |z|;
    assert name[..p1] == x && name[p1 + 1..p2] == y && name[p2 + 1..p3] == z;
    assert name[..p3] == x + "-" + y + "-" + z;
  }

  /** Three dashes at least two apart with no dash between them are the walk's three. */
  lemma ThreeDashes(name: string, p1: nat, p2: nat, p3: nat)
    requires p1 + 2 <= p2 && p2 + 2 <= p3 < |name|
    requires name[p1] == '-' && name[p2] == '-' && name[p3] == '-'
    requires forall i :: 0 <= i < p1 || p1 < i < p2 || p2 < i < p3 ==> name[i] != '-'
    ensures DashWalk(name, Find(name, '-', 0), 0, None) == (3, Some(p3))
  {
    FindNext(name, 0, p1);
    FindNext(name, p1 + 2, p2);
    FindNext(name, p2 + 2, p3);
    var w := DashWalk(name, Some(p3), 2, Some(p2));
    WalkStep(name, p3, 2, Some(p2));
    assert w == (3, Some(p3));
    WalkStep(name, p2, 1, Some(p1));
    WalkStep(name, p1, 0, None);
  }

  /** One step of the walk: the dash at `p` is counted and the search goes on past it. */
  lemma WalkStep(s: string, p: nat, dashes: nat, last: Option<nat>)
    requires dashes < 3 && p < |s| && s[p] == '-' && p >= 2 * dashes
    requires dashes > 0 ==> last.Some? && last.value < |s| && s[last.value] == '-' && last.value >= 2 * (dashes - 1)
    ensures DashWalk(s, Some(p), dashes, last) == DashWalk(s, Find(s, '-', p + 2), dashes + 1, Some(p))
  {
  }

  /** A dash with none before it since `from` is what the search finds. */
  lemma FindNext(s: string, from: nat, p: nat)
    requires from <= p < |s| && s[p] == '-' && forall i :: from <= i < p ==> s[i] != '-'
    ensures Find(s, '-', from) == Some(p)
  {
  }

  /** `break_triple`'s loop: count up to three dashes, remembering the last. */
  method WalkDashes(name: string) returns (dashes: nat, lastDash: Option<nat>)
    ensures (dashes, lastDash) == DashWalk(name, Find(name, '-', 0), 0, None)
  {
    var pos := Find(name, '-', 0);
    dashes := 0;
    lastDash := None;
    while pos.Some? && dashes < 3
      invariant dashes <= 3
      invariant pos.Some? ==> pos.value < |name| && name[pos.value] == '-' && pos.value >= 2 * dashes
      invariant dashes > 0 ==> lastDash.Some? && lastDash.value < |name| && name[lastDash.value] == '-' && lastDash.value >= 2 * (dashes - 1)
      invariant DashWalk(name, Find(name, '-', 0), 0, None) == DashWalk(name, pos, dashes, lastDash)
      decreases 3 - dashes
    {
      dashes := dashes + 1;
      lastDash := pos;
      pos := Find(name, '-', pos.value + 2);
    }
  }

  /** `paths::parser::break_triple` */
  method BreakTriple(candidate: string, tool: string, major: nat) returns (t: Triple)
    ensures t == TripleOf(candidate, tool, major)
  {
    var root := ParentPath(candidate);
    var name := FileName(candidate);
    var majorStr := MajorSuffix(major);
    var vtool := tool + majorStr;
    if name == tool {
      return Triple(true, root, "", "");
    }
    if name == vtool {
      return Triple(true, root, "", majorStr);
    }
    var dashes, lastDash := WalkDashes(name);
    if dashes == 3 {
      var triple := name[..lastDash.value];
      var toolSuffix := name[lastDash.value + 1..];
      if toolSuffix == tool {
        return Triple(true, root, triple, "");
      }
      if toolSuffix == vtool {
        return Triple(true, root, triple, majorStr);
      }
    }
    return NoTriple;
  }
}
