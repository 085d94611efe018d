/**
 * The compiler-independent half of a toolchain: recognising MSVC by the
 * executable's name, reading the compiler's identity out of preprocessed
 * text, numbering project setups, building a project's link target, and
 * choosing the rules a build needs.
 */
module Compiler {
  import opened Wrappers
  import opened Strings
  import opened Utils
  import opened Types
  import opened Paths
  import opened SortedSets
  import opened Generator
  import opened Build

  // ---------------------------------------------------------- category

  /** `compiler_info::category` */
  datatype Category = GccLike | Vc

  /** `get_compiler_category_by_name`: only an executable named `cl.exe` or `cl` is MSVC. */
  function CategoryByName(exec: string): Category
  {
    var f := FileName(exec);
    if f == "cl.exe" || f == "cl" then Vc else GccLike
  }

  /** The directory does not matter, only the file name, and it must match exactly. */
  lemma CategoryIgnoresDirectory(d: string, f: string)
    requires IsDirName(d) && |f| > 0 && '/' !in f
    ensures CategoryByName(Join(d, f)) == CategoryByName(f)
    ensures CategoryByName(Join(d, f)) == Vc <==> f == "cl.exe" || f == "cl"
  {
    JoinSplits(d, f);
    PartsWellFormed(f);
  }

  // ---------------------------------------------------------- cleanup

  /** A line cut at its first '#' and stripped. */
  function CleanLine(line: string): (r: string)
    ensures forall c :: c in r ==> c in line && c != '#'
    ensures Strip(r) == r
  {
    var parts := Split('#', line);
    FirstPieceIsPrefix('#', parts);
    StripChars(parts[0]);
    StripIdempotent(parts[0]);
    Strip(parts[0])
  }

  /** Every line cleaned. */
  function CleanAll(lines: seq<string>): (r: seq<string>)
    ensures |r| == |lines| && forall i :: 0 <= i < |r| ==> r[i] == CleanLine(lines[i])
  {
    seq(|lines|, i requires 0 <= i < |lines| => CleanLine(lines[i]))
  }

  /** The `remove_if` of empty lines: the non-empty ones, in order. */
  function NonEmpty(lines: seq<string>): (r: seq<string>)
    ensures forall k :: 0 <= k < |r| ==> |r[k]| > 0 && r[k] in lines
  {
    if |lines| == 0 then []
    else
      var last := lines[|lines| - 1];
      NonEmpty(lines[..|lines| - 1]) + (if |last| == 0 then [] else [last])
  }

  /** Each line followed by a newline. */
  function Terminated(lines: seq<string>): string
  {
    if |lines| == 0 then "" else Terminated(lines[..|lines| - 1]) + lines[|lines| - 1] + "\n"
  }

  /** What `cleanup` answers for the output of the preprocessor, which is missing when it failed. */
  function CleanupOf(text: Option<string>): string
  {
    match text
    case None => ""
    case Some(t) => Strip(Terminated(NonEmpty(CleanAll(Split('\n', t)))))
  }

  /**
   * The cleaned text holds no '#' and no outer white space; when anything is
   * left, its lines are exactly the non-empty cleaned lines of the input.
   */
  lemma CleanupMeaning(text: Option<string>)
    ensures text.None? ==> CleanupOf(text) == ""
    ensures '#' !in CleanupOf(text) && Strip(CleanupOf(text)) == CleanupOf(text)
    ensures text.Some? ==>
      var lines := NonEmpty(CleanAll(Split('\n', text.value)));
      (|lines| == 0 ==> CleanupOf(text) == "")
      && (|lines| > 0 ==> Split('\n', CleanupOf(text)) == lines)
      && forall k :: 0 <= k < |lines| ==> |lines[k]| > 0 && Strip(lines[k]) == lines[k] && '#' !in lines[k] && '\n' !in lines[k]
  {
    if text.Some? {
      var lines := NonEmpty(CleanAll(Split('\n', text.value)));
      CleanLinesWellFormed(text.value);
      if |lines| > 0 {
        TerminatedLinesStrip(lines);
      }
      StripIdempotent(Terminated(lines));
    }
  }

  /** The lines left are non-empty, stripped, and hold neither '#' nor a newline. */
  lemma CleanLinesWellFormed(t: string)
    ensures var lines := NonEmpty(CleanAll(Split('\n', t)));
      forall k :: 0 <= k < |lines| ==> |lines[k]| > 0 && Strip(lines[k]) == lines[k] && '#' !in lines[k] && '\n' !in lines[k]
  {
    var pieces := Split('\n', t);
    var lines := NonEmpty(CleanAll(pieces));
    forall k | 0 <= k < |lines|
      ensures Strip(lines[k]) == lines[k] && '#' !in lines[k] && '\n' !in lines[k]
    {
      var i :| 0 <= i < |pieces| && lines[k] == CleanLine(pieces[i]);
      assert '\n' !in pieces[i];
    }
  }

  /** Non-empty stripped lines, each followed by a newline, strip back to their join. */
  lemma TerminatedLinesStrip(lines: seq<string>)
    requires |lines| > 0
    requires forall k :: 0 <= k < |lines| ==> |lines[k]| > 0 && Strip(lines[k]) == lines[k] && '#' !in lines[k] && '\n' !in lines[k]
    ensures Strip(Terminated(lines)) == JoinWith('\n', lines)
    ensures Split('\n', JoinWith('\n', lines)) == lines && '#' !in JoinWith('\n', lines)
  {
    TerminatedIsJoin(lines);
    var j := JoinWith('\n', lines);
    JoinEnds(lines);
    StripIdempotent(lines[|lines| - 1]);
    StripIdempotent(lines[0]);
    var t := j + "\n";
    assert t[..|t| - 1] == j;
    assert RStrip(t) == RStrip(j);
    RStripNoop(j);
    LStripNoop(j);
    JoinChars('\n', lines);
    SplitUnique('\n', j, lines);
  }

  /** `cleanup`: drop comments, trim and drop empty lines, then trim the whole. */
  method Cleanup(text: Option<string>) returns (r: string)
    ensures r == CleanupOf(text)
  {
    if text.None? {
      return "";
    }
    var lines := SplitS('\n', text.value);
    lines := CleanEach(lines);
    var kept := RemoveEmpty(lines);
    var result := TerminateEach(kept);
    r := StripSv(result);
  }

  /** The loop replacing each line by its cleaned self. */
  method CleanEach(pieces: seq<string>) returns (lines: seq<string>)
    ensures lines == CleanAll(pieces)
  {
    lines := pieces;
    for i := 0 to |lines|
      invariant |lines| == |pieces|
      invariant forall k :: 0 <= k < i ==> lines[k] == CleanLine(pieces[k])
      invariant forall k :: i <= k < |lines| ==> lines[k] == pieces[k]
    {
      var parts := SplitS('#', lines[i]);
      var stripped := StripSv(parts[0]);
      lines := lines[i := stripped];
    }
  }

  /** The loop appending each line and a newline. */
  method TerminateEach(kept: seq<string>) returns (result: string)
    ensures result == Terminated(kept)
  {
    result := "";
    for i := 0 to |kept|
      invariant result == Terminated(kept[..i])
    {
      assert kept[..i + 1][..i] == kept[..i];
      result := result + kept[i] + "\n";
    }
    assert kept[..|kept|] == kept;
  }

  method RemoveEmpty(lines: seq<string>) returns (kept: seq<string>)
    ensures kept == NonEmpty(lines)
  {
    kept := [];
    for i := 0 to |lines|
      invariant kept == NonEmpty(lines[..i])
    {
      assert lines[..i + 1][..i] == lines[..i];
      if |lines[i]| > 0 {
        kept := kept + [lines[i]];
      }
    }
    assert lines[..|lines|] == lines;
  }

  lemma {:induction false} FirstPieceIsPrefix(sep: char, parts: seq<string>)
    requires |parts| >= 1
    ensures parts[0] <= JoinWith(sep, parts)
    decreases |parts|
  {
    if |parts| > 1 {
      var init := parts[..|parts| - 1];
      FirstPieceIsPrefix(sep, init);
      assert JoinWith(sep, parts) == JoinWith(sep, init) + ([sep] + parts[|parts| - 1]);
    }
  }

  lemma StripChars(s: string)
    ensures forall c :: c in Strip(s) ==> c in s
  {
    RStripMeaning(s);
    LStripMeaning(RStrip(s));
  }

  lemma {:induction false} TerminatedIsJoin(lines: seq<string>)
    requires |lines| > 0
    ensures Terminated(lines) == JoinWith('\n', lines) + "\n"
    decreases |lines|
  {
    if |lines| > 1 {
      TerminatedIsJoin(lines[..|lines| - 1]);
    }
  }

  /** A join of non-empty parts starts like the first part and ends like the last. */
  lemma {:induction false} JoinEnds(parts: seq<string>)
    requires |parts| > 0 && forall k :: 0 <= k < |parts| ==> |parts[k]| > 0
    ensures var j := JoinWith('\n', parts);
      |j| > 0 && j[0] == parts[0][0] && j[|j| - 1] == parts[|parts| - 1][|parts[|parts| - 1]| - 1]
  {
    FirstPieceIsPrefix('\n', parts);
  }

  lemma {:induction false} JoinChars(sep: char, parts: seq<string>)
    ensures forall c :: c in JoinWith(sep, parts) ==> c == sep || exists k :: 0 <= k < |parts| && c in parts[k]
    decreases |parts|
  {
    if |parts| > 1 {
      var init := parts[..|parts| - 1];
      JoinChars(sep, init);
      forall c | c in JoinWith(sep, parts)
        ensures c == sep || exists k :: 0 <= k < |parts| && c in parts[k]
      {
        if c in JoinWith(sep, init) && c != sep {
          var k :| 0 <= k < |init| && c in init[k];
          assert parts[k] == init[k];
        }
      }
    }
  }

  // ---------------------------------------------------------- compiler_type

  /** `id` is the first run of non-space characters of `text`, `version` what follows it, left-stripped. */
  predicate IsFirstWord(text: string, id: string, version: string)
  {
    |id| <= |text| && id == text[..|id|]
    && (forall i :: 0 <= i < |id| ==> !IsSpace(id[i]))
    && (|id| < |text| ==> IsSpace(text[|id|]))
    && version == LStrip(text[|id|..])
  }

  /**
   * `compiler_type`: the cleaned output of preprocessing the identification
   * file, split into the compiler's id and its version; both are empty when
   * the file could not be written.
   */
  method CompilerType(identWritten: bool, preprocessed: Option<string>) returns (id: string, version: string)
    ensures !identWritten ==> id == "" && version == ""
    ensures identWritten ==> IsFirstWord(CleanupOf(preprocessed), id, version)
  {
    if !identWritten {
      return "", "";
    }
    var text := Cleanup(preprocessed);
    id, version := FirstWord(text);
  }

  /** The scan for the first white space of `compiler_type`. */
  method FirstWord(text: string) returns (id: string, version: string)
    ensures IsFirstWord(text, id, version)
  {
    var newStop := |text|;
    var newStart := 0;
    while newStart < newStop && !IsSpace(text[newStart])
      invariant newStart <= newStop == |text|
      invariant forall i :: 0 <= i < newStart ==> !IsSpace(text[i])
    {
      newStart := newStart + 1;
    }
    id := text[..newStart];
    version := LStripSv(text[newStart..]);
  }

  /** The split is unique: two answers for one text are the same answer. */
  lemma FirstWordUnique(text: string, a: string, b: string, c: string, d: string)
    requires IsFirstWord(text, a, b) && IsFirstWord(text, c, d)
    ensures a == c && b == d
  {
    if |a| < |c| {
      assert false;
    }
    if |c| < |a| {
      assert false;
    }
  }

  /** "id", some white space, then the version: the split gives the two back. */
  lemma FirstWordOfJoin(id: string, gap: string, version: string)
    requires forall i :: 0 <= i < |id| ==> !IsSpace(id[i])
    requires |gap| > 0 && forall i :: 0 <= i < |gap| ==> IsSpace(gap[i])
    requires |version| == 0 || !IsSpace(version[0])
    ensures IsFirstWord(id + gap + version, id, version)
  {
    var text := id + gap + version;
    assert text[..|id|] == id;
    assert text[|id|..] == gap + version;
    LStripGap(gap, version);
  }

  lemma {:induction false} LStripGap(gap: string, rest: string)
    requires forall i :: 0 <= i < |gap| ==> IsSpace(gap[i])
    requires |rest| == 0 || !IsSpace(rest[0])
    ensures LStrip(gap + rest) == rest
    decreases |gap|
  {
    if |gap| > 0 {
      assert (gap + rest)[1..] == gap[1..] + rest;
      LStripGap(gap[1..], rest);
    } else {
      assert gap + rest == rest;
      LStripNoop(rest);
    }
  }

  // ---------------------------------------------------------- register_projects

  /** The setup of each project, in project order: its name, "<name>.dir" and its directory. */
  function SetupsOf(projects: seq<(Project, ProjectInfo)>): (r: seq<ProjectSetup>)
    ensures |r| == |projects|
    ensures forall k :: 0 <= k < |r| ==>
      (r[k].name == projects[k].0.name && r[k].objdir == projects[k].0.name + ".dir" && r[k].subdir == projects[k].1.subdir)
  {
    seq(|projects|, k requires 0 <= k < |projects| => ProjectSetup(projects[k].0.name, projects[k].0.name + ".dir", projects[k].1.subdir))
  }

  /** Every project name has an id, the index of the last project so named. */
  predicate IdsOf(projects: seq<(Project, ProjectInfo)>, ids: map<string, nat>)
  {
    (forall n :: n in ids ==>
      (ids[n] < |projects| && projects[ids[n]].0.name == n && forall j :: ids[n] < j < |projects| ==> projects[j].0.name != n))
    && (forall k :: 0 <= k < |projects| ==> projects[k].0.name in ids)
  }

  /** The ids `register_projects` hands out: each name maps to the index of the last project so named. */
  function SetupIds(projects: seq<(Project, ProjectInfo)>): (ids: map<string, nat>)
    ensures IdsOf(projects, ids)
    decreases |projects|
  {
    if |projects| == 0 then map[]
    else
      var init := projects[..|projects| - 1];
      var last := projects[|projects| - 1];
      IdsOfSnoc(init, last, SetupIds(init));
      assert init + [last] == projects;
      SetupIds(init)[last.0.name := |init|]
  }

  /** Registering one more project keeps the ids right. */
  lemma IdsOfSnoc(init: seq<(Project, ProjectInfo)>, last: (Project, ProjectInfo), ids: map<string, nat>)
    requires IdsOf(init, ids)
    ensures IdsOf(init + [last], ids[last.0.name := |init|])
  {
    var ps := init + [last];
    var ids' := ids[last.0.name := |init|];
    forall n | n in ids'
      ensures ids'[n] < |ps| && ps[ids'[n]].0.name == n && forall j :: ids'[n] < j < |ps| ==> ps[j].0.name != n
    {
      if n != last.0.name {
        assert ps[ids[n]] == init[ids[n]];
        forall j | ids'[n] < j < |ps|
          ensures ps[j].0.name != n
        {
          if j < |init| {
            assert ps[j] == init[j];
          }
        }
      }
    }
    forall k | 0 <= k < |ps|
      ensures ps[k].0.name in ids'
    {
      if k < |init| {
        assert ps[k] == init[k];
      }
    }
  }

  /** One more project adds its setup at the end. */
  lemma SetupsSnoc(projects: seq<(Project, ProjectInfo)>, k: nat)
    requires k < |projects|
    ensures SetupsOf(projects[..k + 1]) == SetupsOf(projects[..k]) + [ProjectSetup(projects[k].0.name, projects[k].0.name + ".dir", projects[k].1.subdir)]
  {
    var a, b := SetupsOf(projects[..k + 1]), SetupsOf(projects[..k]) + [ProjectSetup(projects[k].0.name, projects[k].0.name + ".dir", projects[k].1.subdir)];
    forall i | 0 <= i <= k
      ensures a[i] == b[i]
    {
      assert projects[..k + 1][i] == projects[i];
    }
  }

  /** One more project maps its name to the next setup id. */
  lemma SetupIdsSnoc(projects: seq<(Project, ProjectInfo)>, k: nat)
    requires k < |projects|
    ensures SetupIds(projects[..k + 1]) == SetupIds(projects[..k])[projects[k].0.name := k]
  {
    var ps := projects[..k + 1];
    assert ps[..k] == projects[..k] && ps[k] == projects[k];
  }

  /** `register_projects`: one setup per project, and the map from names to setup ids. */
  method RegisterProjects(build: BuildInfo, gen: BuildGenerator) returns (ids: map<string, nat>)
    modifies gen
    ensures gen.setups == SetupsOf(build.projects)
    ensures gen.rules == old(gen.rules) && gen.targets == old(gen.targets)
    ensures ids == SetupIds(build.projects)
  {
    var setups;
    setups, ids := SetupLoop(build.projects);
    gen.SetSetups(setups);
  }

  /** The loop of `register_projects`, over the projects in order. */
  method SetupLoop(projects: seq<(Project, ProjectInfo)>) returns (setups: seq<ProjectSetup>, ids: map<string, nat>)
    ensures setups == SetupsOf(projects)
    ensures ids == SetupIds(projects)
  {
    ids := map[];
    setups := [];
    for k := 0 to |projects|
      invariant setups == SetupsOf(projects[..k])
      invariant ids == SetupIds(projects[..k])
    {
      var id := |setups|;
      var name := projects[k].0.name;
      var setup := ProjectSetup(name, name + ".dir", projects[k].1.subdir);
      SetupsSnoc(projects, k);
      SetupIdsSnoc(projects, k);
      setups := setups + [setup];
      ids := ids[name := id];
    }
    assert projects[..|projects|] == projects;
  }

  /** `get_setup_id`: the id of the named setup, or `SIZE_MAX`. */
  function GetSetupId(name: string, ids: map<string, nat>): nat
  {
    if name in ids then ids[name] else SizeMax
  }

  /** A registered name finds its own setup; a name no project has gets `SIZE_MAX`. */
  lemma SetupIdFindsSetup(projects: seq<(Project, ProjectInfo)>, ids: map<string, nat>, name: string)
    requires IdsOf(projects, ids)
    ensures (exists k :: 0 <= k < |projects| && projects[k].0.name == name) ==>
      GetSetupId(name, ids) < |projects| && SetupsOf(projects)[GetSetupId(name, ids)].name == name
      && SetupsOf(projects)[GetSetupId(name, ids)].objdir == name + ".dir"
    ensures (forall k :: 0 <= k < |projects| ==> projects[k].0.name != name) ==> GetSetupId(name, ids) == SizeMax
  {
    if name in ids {
      assert projects[ids[name]].0.name == name;
    }
  }

  // ---------------------------------------------------------- create_project_target

  /** The links of a project of the build, none for a project the build does not know. */
  function LinksOf(projects: seq<(Project, ProjectInfo)>, p: Project): (r: seq<Project>)
    ensures forall x :: x in r ==> exists k :: 0 <= k < |projects| && x in projects[k].1.links
  {
    match Lookup(projects, p)
    case None => []
    case Some(info) =>
      assert exists k :: 0 <= k < |projects| && projects[k] == (p, info);
      info.links
  }

  /** Every link of every project lies in `u`. */
  predicate LinksWithin(projects: seq<(Project, ProjectInfo)>, u: set<Project>)
  {
    forall k, x :: 0 <= k < |projects| && x in projects[k].1.links ==> x in u
  }

  /** The projects a walk can meet: the starting links and every link of the build. */
  function LinkUniverse(projects: seq<(Project, ProjectInfo)>, start: seq<Project>): (u: set<Project>)
    ensures LinksWithin(projects, u) && forall x :: x in start ==> x in u
  {
    (set x | x in start) + (set k, x | 0 <= k < |projects| && x in projects[k].1.links :: x)
  }

  lemma ShrinkUniverse(u: set<Project>, seen: set<Project>, next: Project)
    requires next in u && next !in seen
    ensures |u - (seen + {next})| < |u - seen|
  {
    assert (u - (seen + {next})) + {next} == u - seen;
  }

  /**
   * The link walk with a revisit skipped (`continue`): the projects in the
   * order the walk first meets them. `u` only bounds the walk.
   */
  function WalkFixed(projects: seq<(Project, ProjectInfo)>, u: set<Project>, stack: seq<Project>, seen: set<Project>): seq<Project>
    requires LinksWithin(projects, u) && forall x :: x in stack ==> x in u
    decreases |u - seen|, |stack|
  {
    if |stack| == 0 then []
    else
      var next := stack[0];
      if next in seen then WalkFixed(projects, u, stack[1..], seen)
      else
        ShrinkUniverse(u, seen, next);
        [next] + WalkFixed(projects, u, stack[1..] + LinksOf(projects, next), seen + {next})
  }

  /** The link walk as written: the first revisit ends the walk (`break`). */
  function WalkAsWritten(projects: seq<(Project, ProjectInfo)>, u: set<Project>, stack: seq<Project>, seen: set<Project>): seq<Project>
    requires LinksWithin(projects, u) && forall x :: x in stack ==> x in u
    decreases |u - seen|
  {
    if |stack| == 0 then []
    else
      var next := stack[0];
      if next in seen then []
      else
        ShrinkUniverse(u, seen, next);
        [next] + WalkAsWritten(projects, u, stack[1..] + LinksOf(projects, next), seen + {next})
  }

  /**
   * The walk visits each project once, never one already seen, meets every
   * project on the stack, and meets every link of every project it meets:
   * with `seen` the project itself, the result is the transitive closure of
   * its links.
   */
  lemma WalkFixedCloses(projects: seq<(Project, ProjectInfo)>, u: set<Project>, stack: seq<Project>, seen: set<Project>)
    requires LinksWithin(projects, u) && forall x :: x in stack ==> x in u
    ensures var r := WalkFixed(projects, u, stack, seen);
      (forall i, j :: 0 <= i < j < |r| ==> r[i] != r[j])
      && (forall x :: x in r ==> x !in seen)
      && (forall x :: x in stack ==> x in r || x in seen)
      && (forall x, y :: x in r && y in LinksOf(projects, x) ==> y in r || y in seen)
  {
    WalkFixedOnce(projects, u, stack, seen);
    WalkFixedCovers(projects, u, stack, seen);
  }

  /** The walk meets each project at most once, and none already seen. */
  lemma {:induction false} WalkFixedOnce(projects: seq<(Project, ProjectInfo)>, u: set<Project>, stack: seq<Project>, seen: set<Project>)
    requires LinksWithin(projects, u) && forall x :: x in stack ==> x in u
    ensures var r := WalkFixed(projects, u, stack, seen);
      (forall i, j :: 0 <= i < j < |r| ==> r[i] != r[j]) && (forall x :: x in r ==> x !in seen)
    decreases |u - seen|, |stack|
  {
    if |stack| > 0 {
      var next := stack[0];
      if next in seen {
        WalkFixedOnce(projects, u, stack[1..], seen);
      } else {
        ShrinkUniverse(u, seen, next);
        var rest := stack[1..] + LinksOf(projects, next);
        WalkFixedOnce(projects, u, rest, seen + {next});
        var tail := WalkFixed(projects, u, rest, seen + {next});
        var r := [next] + tail;
        assert WalkFixed(projects, u, stack, seen) == r;
        forall i, j | 0 <= i < j < |r|
          ensures r[i] != r[j]
        {
          if i == 0 {
            assert r[j] in tail;
          } else {
            assert r[i] == tail[i - 1] && r[j] == tail[j - 1];
          }
        }
        assert forall x :: x in r ==> x == next || x in tail;
      }
    }
  }

  /** The walk meets every project on the stack and every link of every project it meets, unless already seen. */
  lemma {:induction false} WalkFixedCovers(projects: seq<(Project, ProjectInfo)>, u: set<Project>, stack: seq<Project>, seen: set<Project>)
    requires LinksWithin(projects, u) && forall x :: x in stack ==> x in u
    ensures var r := WalkFixed(projects, u, stack, seen);
      (forall x :: x in stack ==> x in r || x in seen)
      && (forall x, y :: x in r && y in LinksOf(projects, x) ==> y in r || y in seen)
    decreases |u - seen|, |stack|
  {
    if |stack| > 0 {
      var next := stack[0];
      if next in seen {
        WalkFixedCovers(projects, u, stack[1..], seen);
        assert forall x :: x in stack ==> x == next || x in stack[1..];
      } else {
        ShrinkUniverse(u, seen, next);
        var rest := stack[1..] + LinksOf(projects, next);
        WalkFixedCovers(projects, u, rest, seen + {next});
        var tail := WalkFixed(projects, u, rest, seen + {next});
        assert WalkFixed(projects, u, stack, seen) == [next] + tail;
        assert forall x :: x in [next] + tail <==> x == next || x in tail;
        assert forall x :: x in stack ==> x == next || x in rest;
      }
    }
  }

  /** The `i`-th project met was on the stack or is a link of a project met before it. */
  ghost predicate Justified(projects: seq<(Project, ProjectInfo)>, stack: seq<Project>, r: seq<Project>, i: nat)
    requires i < |r|
  {
    r[i] in stack || exists j :: 0 <= j < i && r[i] in LinksOf(projects, r[j])
  }

  /** Every project met is justified. */
  ghost predicate AllJustified(projects: seq<(Project, ProjectInfo)>, stack: seq<Project>, r: seq<Project>)
  {
    forall i :: 0 <= i < |r| ==> Justified(projects, stack, r, i)
  }

  /** Every project the walk meets was on the stack or is a link of a project met before it. */
  lemma {:induction false} WalkFixedSound(projects: seq<(Project, ProjectInfo)>, u: set<Project>, stack: seq<Project>, seen: set<Project>)
    requires LinksWithin(projects, u) && forall x :: x in stack ==> x in u
    ensures AllJustified(projects, stack, WalkFixed(projects, u, stack, seen))
    decreases |u - seen|, |stack|
  {
    if |stack| > 0 {
      var next := stack[0];
      var r := WalkFixed(projects, u, stack, seen);
      if next in seen {
        WalkFixedSound(projects, u, stack[1..], seen);
        assert r == WalkFixed(projects, u, stack[1..], seen);
        forall i | 0 <= i < |r|
          ensures Justified(projects, stack, r, i)
        {
          assert Justified(projects, stack[1..], r, i);
          if r[i] in stack[1..] {
            assert r[i] in stack;
          }
        }
      } else {
        ShrinkUniverse(u, seen, next);
        var rest := stack[1..] + LinksOf(projects, next);
        var seen' := seen + {next};
        WalkFixedSound(projects, u, rest, seen');
        var tail := WalkFixed(projects, u, rest, seen');
        assert r == [next] + tail;
        assert AllJustified(projects, rest, tail);
        forall i | 0 <= i < |r|
          ensures Justified(projects, stack, r, i)
        {
          if i == 0 {
            assert r[0] == stack[0];
          } else {
            assert r[i] == tail[i - 1];
            assert Justified(projects, rest, tail, i - 1);
            if tail[i - 1] !in rest {
              var j :| 0 <= j < i - 1 && tail[i - 1] in LinksOf(projects, tail[j]);
              assert r[j + 1] == tail[j];
              assert r[i] in LinksOf(projects, r[j + 1]);
            } else if r[i] in LinksOf(projects, next) {
              assert r[0] == next;
              assert r[i] in LinksOf(projects, r[0]);
            } else {
              assert r[i] in stack[1..];
              assert r[i] in stack;
            }
          }
        }
      }
    }
  }

  /** The walk as written agrees with the complete walk up to where it stops. */
  lemma {:induction false} WalkAsWrittenIsPrefix(projects: seq<(Project, ProjectInfo)>, u: set<Project>, stack: seq<Project>, seen: set<Project>)
    requires LinksWithin(projects, u) && forall x :: x in stack ==> x in u
    ensures WalkAsWritten(projects, u, stack, seen) <= WalkFixed(projects, u, stack, seen)
    decreases |u - seen|
  {
    if |stack| > 0 && stack[0] !in seen {
      ShrinkUniverse(u, seen, stack[0]);
      WalkAsWrittenIsPrefix(projects, u, stack[1..] + LinksOf(projects, stack[0]), seen + {stack[0]});
    }
  }

  /** The build of the example: `b` links `c`, `c` links `e`, and `e` is not a project of the build. */
  function DiamondBuild(): seq<(Project, ProjectInfo)>
  {
    [(Project("b", SharedLib), ProjectInfo("", [], [], [], [Project("c", SharedLib)])),
     (Project("c", SharedLib), ProjectInfo("", [], [], [], [Project("e", SharedLib)]))]
  }

  lemma DiamondLinks()
    ensures LinksOf(DiamondBuild(), Project("b", SharedLib)) == [Project("c", SharedLib)]
    ensures LinksOf(DiamondBuild(), Project("c", SharedLib)) == [Project("e", SharedLib)]
    ensures LinksOf(DiamondBuild(), Project("e", SharedLib)) == []
    ensures LinksWithin(DiamondBuild(), {Project("b", SharedLib), Project("c", SharedLib), Project("e", SharedLib)})
  {
    var projects := DiamondBuild();
    assert Lookup(projects[1..], Project("c", SharedLib)) == Some(projects[1].1);
    assert Lookup(projects[1..][1..], Project("e", SharedLib)) == None;
  }

  /**
   * An executable `a` linking `b` and `c`, where `b` links `c` and `c` links
   * `e`: the walk as written meets `c` a second time before `e` and stops,
   * so `e` is never linked; the complete walk links it.
   */
  lemma DiamondLosesLink()
    ensures var u := {Project("b", SharedLib), Project("c", SharedLib), Project("e", SharedLib)};
      var start := [Project("b", SharedLib), Project("c", SharedLib)];
      LinksWithin(DiamondBuild(), u)
      && WalkAsWritten(DiamondBuild(), u, start, {Project("a", Executable)}) == start
      && WalkFixed(DiamondBuild(), u, start, {Project("a", Executable)}) == start + [Project("e", SharedLib)]
  {
    DiamondLinks();
    DiamondAsWritten();
    DiamondFixed();
  }

  /** The walk as written over the diamond stops at the second `c`. */
  lemma DiamondAsWritten()
    ensures var u := {Project("b", SharedLib), Project("c", SharedLib), Project("e", SharedLib)};
      LinksWithin(DiamondBuild(), u)
      && WalkAsWritten(DiamondBuild(), u, [Project("b", SharedLib), Project("c", SharedLib)], {Project("a", Executable)})
         == [Project("b", SharedLib), Project("c", SharedLib)]
  {
    var a, b, c, e := Project("a", Executable), Project("b", SharedLib), Project("c", SharedLib), Project("e", SharedLib);
    var projects := DiamondBuild();
    var u := {b, c, e};
    DiamondLinks();
    assert [c] + [c] == [c, c] && [c] + [e] == [c, e];
    assert WalkAsWritten(projects, u, [c, c], {a, b}) == [c] by {
      assert WalkAsWritten(projects, u, [c, e], {a, b, c}) == [];
    }
    assert [b, c][1..] + [c] == [c, c] && {a} + {b} == {a, b};
  }

  /** The complete walk over the diamond links `e` after `b` and `c`. */
  lemma DiamondFixed()
    ensures var u := {Project("b", SharedLib), Project("c", SharedLib), Project("e", SharedLib)};
      LinksWithin(DiamondBuild(), u)
      && WalkFixed(DiamondBuild(), u, [Project("b", SharedLib), Project("c", SharedLib)], {Project("a", Executable)})
         == [Project("b", SharedLib), Project("c", SharedLib), Project("e", SharedLib)]
  {
    var a, b, c, e := Project("a", Executable), Project("b", SharedLib), Project("c", SharedLib), Project("e", SharedLib);
    var projects := DiamondBuild();
    var u := {b, c, e};
    DiamondLinks();
    assert WalkFixed(projects, u, [c, c], {a, b}) == [c, e] by {
      assert [c] + [e] == [c, e] && [] + [e] == [e];
      assert {a, b} + {c} == {a, b, c} && {a, b, c} + {e} == {a, b, c, e};
      assert [c, c][1..] + [e] == [c, e] && [c, e][1..] == [e] && [e][1..] + [] == [];
      assert WalkFixed(projects, u, [], {a, b, c, e}) == [];
      assert WalkFixed(projects, u, [e], {a, b, c}) == [e] + WalkFixed(projects, u, [], {a, b, c, e});
      assert WalkFixed(projects, u, [c, e], {a, b, c}) == WalkFixed(projects, u, [e], {a, b, c});
      assert WalkFixed(projects, u, [c, c], {a, b}) == [c] + WalkFixed(projects, u, [c, e], {a, b, c});
    }
    assert [b, c][1..] + [c] == [c, c] && {a} + {b} == {a, b};
    assert WalkFixed(projects, u, [b, c], {a}) == [b] + WalkFixed(projects, u, [c, c], {a, b});
    assert [b] + [c, e] == [b, c, e];
  }

  /** `create_project_target`'s rule for each kind of project. */
  function LinkRule(kind: ProjectKind): RuleType
  {
    match kind
    case Executable => LinkExecutable
    case StaticLib => Archive
    case SharedLib => LinkSo
    case ModuleLib => LinkMod
  }

  /** One object file "<source>.o" of the project's setup per source. */
  function ObjectInputs(setupId: nat, sources: seq<string>): (r: seq<Artifact>)
    ensures |r| == |sources|
  {
    seq(|sources|, i requires 0 <= i < |sources| => File(FileRef(setupId, sources[i] + ".o", OutputFile, "")))
  }

  /** One linked file per project, of the setup registered under its name. */
  function LinkedInputs(ids: map<string, nat>, linked: seq<Project>): (r: seq<Artifact>)
    ensures |r| == |linked|
  {
    seq(|linked|, i requires 0 <= i < |linked| => File(FileRef(GetSetupId(linked[i].name, ids), Filename(linked[i]), LinkedFile, "")))
  }

  /**
   * The target `create_project_target` builds, with a revisit skipped
   * instead of ending the walk.
   */
  function ProjectTarget(build: BuildInfo, prj: Project, info: ProjectInfo, ids: map<string, nat>): Target
  {
    var setupId := GetSetupId(prj.name, ids);
    var linked := if prj.kind == StaticLib then [] else WalkFixed(build.projects, LinkUniverse(build.projects, info.links), info.links, {prj});
    Target(Builtin(LinkRule(prj.kind)), File(FileRef(setupId, Filename(prj), LinkedFile, "")),
           FileList(ObjectInputs(setupId, info.sources) + LinkedInputs(ids, linked), [], []), NoFiles, "")
  }

  /**
   * The project's output is built by the rule of its kind from one object
   * per source, in order; a static library links nothing else, any other
   * project links every project its links reach, each once, never itself.
   */
  lemma ProjectTargetMeaning(build: BuildInfo, prj: Project, info: ProjectInfo, ids: map<string, nat>)
    ensures var t := ProjectTarget(build, prj, info, ids);
      t.rule == Builtin(LinkRule(prj.kind))
      && t.mainOutput.File? && t.mainOutput.file.path == Filename(prj) && t.mainOutput.file.kind == LinkedFile
      && |t.inputs.expl| >= |info.sources|
      && (forall i :: 0 <= i < |info.sources| ==> t.inputs.expl[i].File? && t.inputs.expl[i].file.path == info.sources[i] + ".o")
      && (prj.kind == StaticLib ==> |t.inputs.expl| == |info.sources|)
    ensures prj.kind != StaticLib ==>
      var linked := WalkFixed(build.projects, LinkUniverse(build.projects, info.links), info.links, {prj});
      (forall x :: x in info.links && x != prj ==> x in linked)
      && (forall x, y :: x in linked && y in LinksOf(build.projects, x) && y != prj ==> y in linked)
      && prj !in linked
      && (forall i, j :: 0 <= i < j < |linked| ==> linked[i] != linked[j])
  {
    var setupId := GetSetupId(prj.name, ids);
    var u := LinkUniverse(build.projects, info.links);
    var linked := if prj.kind == StaticLib then [] else WalkFixed(build.projects, u, info.links, {prj});
    var objects := ObjectInputs(setupId, info.sources);
    var expl := ProjectTarget(build, prj, info, ids).inputs.expl;
    assert expl == objects + LinkedInputs(ids, linked);
    forall i | 0 <= i < |info.sources|
      ensures expl[i].File? && expl[i].file.path == info.sources[i] + ".o"
    {
      assert expl[i] == objects[i];
    }
    if prj.kind != StaticLib {
      WalkFixedCloses(build.projects, u, info.links, {prj});
    }
  }

  /** `create_project_target`, with a revisit skipped instead of ending the walk. */
  method CreateProjectTarget(build: BuildInfo, prj: Project, info: ProjectInfo, ids: map<string, nat>) returns (t: Target)
    ensures t == ProjectTarget(build, prj, info, ids)
  {
    var setupId := GetSetupId(prj.name, ids);
    var expl: seq<Artifact> := [];
    for i := 0 to |info.sources|
      invariant expl == ObjectInputs(setupId, info.sources[..i])
    {
      expl := expl + [File(FileRef(setupId, info.sources[i] + ".o", OutputFile, ""))];
    }
    assert info.sources[..|info.sources|] == info.sources;
    if prj.kind != StaticLib {
      var linked := LinkWalk(build.projects, prj, info.links);
      var refs := LinkRefs(ids, linked);
      expl := expl + refs;
    } else {
      assert LinkedInputs(ids, []) == [];
    }
    t := Target(Builtin(LinkRule(prj.kind)), File(FileRef(setupId, Filename(prj), LinkedFile, "")), FileList(expl, [], []), NoFiles, "");
  }

  /** The loop over the link walk's projects. */
  method LinkRefs(ids: map<string, nat>, linked: seq<Project>) returns (refs: seq<Artifact>)
    ensures refs == LinkedInputs(ids, linked)
  {
    refs := [];
    for i := 0 to |linked|
      invariant refs == LinkedInputs(ids, linked[..i])
    {
      refs := refs + [File(FileRef(GetSetupId(linked[i].name, ids), Filename(linked[i]), LinkedFile, ""))];
    }
    assert linked[..|linked|] == linked;
  }

  /** The deque-and-seen-set walk over the links, skipping a project met before. */
  method LinkWalk(projects: seq<(Project, ProjectInfo)>, prj: Project, links: seq<Project>) returns (linked: seq<Project>)
    ensures linked == WalkFixed(projects, LinkUniverse(projects, links), links, {prj})
  {
    ghost var u := LinkUniverse(projects, links);
    var stack := links;
    var seen := {prj};
    linked := [];
    while |stack| > 0
      invariant forall x :: x in stack ==> x in u
      invariant linked + WalkFixed(projects, u, stack, seen) == WalkFixed(projects, u, links, {prj})
      decreases |u - seen|, |stack|
    {
      stack, seen, linked := WalkNext(projects, u, stack, seen, linked);
    }
  }

  /** One turn of the walk: pop the front, skip it if seen, otherwise link it and queue its links. */
  method WalkNext(projects: seq<(Project, ProjectInfo)>, ghost u: set<Project>, stack: seq<Project>, seen: set<Project>, linked: seq<Project>)
    returns (stack': seq<Project>, seen': set<Project>, linked': seq<Project>)
    requires LinksWithin(projects, u) && |stack| > 0 && forall x :: x in stack ==> x in u
    ensures forall x :: x in stack' ==> x in u
    ensures linked' + WalkFixed(projects, u, stack', seen') == linked + WalkFixed(projects, u, stack, seen)
    ensures |u - seen'| < |u - seen| || (seen' == seen && |stack'| < |stack|)
  {
    var next := stack[0];
    stack' := stack[1..];
    seen' := seen;
    linked' := linked;
    if next in seen {
      return;
    }
    ShrinkUniverse(u, seen, next);
    seen' := seen + {next};
    linked' := linked + [next];
    var found := Lookup(projects, next);
    if found.None? {
      assert LinksOf(projects, next) == [];
      assert stack' + [] == stack';
      return;
    }
    stack' := stack' + found.value.links;
  }

  // ---------------------------------------------------------- shared by the compilers' mapout

  /** A source file of a project setup, as an input. */
  function InputRef(setupId: nat, filename: string): Artifact
  {
    File(FileRef(setupId, filename, InputFile, ""))
  }

  /** The rule-less target each source gets first: the source file itself. */
  function SourceTarget(setupId: nat, filename: string): Target
  {
    Target(Unnamed, InputRef(setupId, filename), NoFiles, NoFiles, "")
  }

  /** The object file "<source>.o" a source compiles to. */
  function ObjectRef(setupId: nat, filename: string): Artifact
  {
    File(FileRef(setupId, filename + ".o", OutputFile, ""))
  }

  // ---------------------------------------------------------- add_rules

  /** The rules among the first `n` of the enumeration that `has` selects, in enumeration order. */
  function RulesUpTo(n: nat, has: RuleType -> bool, commandsFor: RuleType -> seq<TemplatedString>): seq<Rule>
    requires n <= |AllRules|
  {
    if n == 0 then []
    else
      var r := AllRules[n - 1];
      RulesUpTo(n - 1, has, commandsFor) + (if has(r) then [Rule(Builtin(r), commandsFor(r), [])] else [])
  }

  /** Each rule listed is a built-in one `has` selects among the first `n`, with its commands and no message. */
  predicate SelectedEntries(rs: seq<Rule>, n: nat, has: RuleType -> bool, commandsFor: RuleType -> seq<TemplatedString>)
  {
    forall i :: 0 <= i < |rs| ==>
      rs[i].name.Builtin? && rs[i].name.rule.Ordinal() < n && has(rs[i].name.rule)
      && rs[i].commands == commandsFor(rs[i].name.rule) && rs[i].message == []
  }

  /** Built-in rules in strictly ascending enumeration order. */
  predicate OrdinalsAscend(rs: seq<Rule>)
  {
    forall i, j :: 0 <= i < j < |rs| ==>
      rs[i].name.Builtin? && rs[j].name.Builtin? && rs[i].name.rule.Ordinal() < rs[j].name.rule.Ordinal()
  }

  /** The list holds selected built-in rules only, in ascending order. */
  lemma {:induction false} RulesUpToEntries(n: nat, has: RuleType -> bool, commandsFor: RuleType -> seq<TemplatedString>)
    requires n <= |AllRules|
    ensures SelectedEntries(RulesUpTo(n, has, commandsFor), n, has, commandsFor)
    ensures OrdinalsAscend(RulesUpTo(n, has, commandsFor))
  {
    if n > 0 {
      RulesUpToEntries(n - 1, has, commandsFor);
      var r := AllRules[n - 1];
      AllRulesInOrder(r);
      assert r.Ordinal() == n - 1;
      var prev := RulesUpTo(n - 1, has, commandsFor);
      var rs := RulesUpTo(n, has, commandsFor);
      var last := if has(r) then [Rule(Builtin(r), commandsFor(r), [])] else [];
      assert rs == prev + last;
      forall i | 0 <= i < |rs|
        ensures rs[i].name.Builtin? && rs[i].name.rule.Ordinal() < n && has(rs[i].name.rule)
          && rs[i].commands == commandsFor(rs[i].name.rule) && rs[i].message == []
      {
        if i < |prev| {
          assert rs[i] == prev[i];
        } else {
          assert rs[i] == Rule(Builtin(r), commandsFor(r), []);
        }
      }
      forall i, j | 0 <= i < j < |rs|
        ensures rs[i].name.Builtin? && rs[j].name.Builtin? && rs[i].name.rule.Ordinal() < rs[j].name.rule.Ordinal()
      {
        assert rs[i] == prev[i];
        if j < |prev| {
          assert rs[j] == prev[j];
        } else {
          assert rs[j] == Rule(Builtin(r), commandsFor(r), []);
        }
      }
    }
  }

  /** No selected rule among the first `n` is missed. */
  lemma {:induction false} RulesUpToComplete(n: nat, has: RuleType -> bool, commandsFor: RuleType -> seq<TemplatedString>, r: RuleType)
    requires n <= |AllRules| && r.Ordinal() < n && has(r)
    ensures exists i :: 0 <= i < |RulesUpTo(n, has, commandsFor)| && RulesUpTo(n, has, commandsFor)[i].name == Builtin(r)
  {
    AllRulesInOrder(r);
    var q := AllRules[n - 1];
    var prev := RulesUpTo(n - 1, has, commandsFor);
    var rs := RulesUpTo(n, has, commandsFor);
    var last := if has(q) then [Rule(Builtin(q), commandsFor(q), [])] else [];
    assert rs == prev + last;
    if r.Ordinal() < n - 1 {
      RulesUpToComplete(n - 1, has, commandsFor, r);
      var i :| 0 <= i < |prev| && prev[i].name == Builtin(r);
      assert rs[i] == prev[i];
    } else {
      assert q == r;
      assert rs[|prev|] == Rule(Builtin(r), commandsFor(r), []);
    }
  }

  lemma {:induction false} RulesUpToLength(n: nat, has: RuleType -> bool, commandsFor: RuleType -> seq<TemplatedString>)
    requires n <= |AllRules|
    ensures |RulesUpTo(n, has, commandsFor)| <= n
  {
    if n > 0 {
      RulesUpToLength(n - 1, has, commandsFor);
    }
  }

  /** `rule_types::has` on the bits handed to `add_rules`. */
  function HasOf(bits: bv64): RuleType -> bool
  {
    r => HasBit(bits, r)
  }

  /** The rules `add_rules` hands the generator. */
  function NeededRules(bits: bv64, commandsFor: RuleType -> seq<TemplatedString>): seq<Rule>
  {
    RulesUpTo(|AllRules|, HasOf(bits), commandsFor)
  }

  /**
   * A rule is in the list exactly when its bit is set, with the compiler's
   * commands and no message; the list follows the enumeration's order.
   */
  lemma NeededRulesMeaning(bits: bv64, commandsFor: RuleType -> seq<TemplatedString>, r: RuleType)
    ensures (exists i :: 0 <= i < |NeededRules(bits, commandsFor)| && NeededRules(bits, commandsFor)[i].name == Builtin(r))
      <==> HasBit(bits, r)
    ensures |NeededRules(bits, commandsFor)| <= RuleCount
    ensures SelectedEntries(NeededRules(bits, commandsFor), RuleCount, HasOf(bits), commandsFor)
    ensures OrdinalsAscend(NeededRules(bits, commandsFor))
  {
    NeededRulesHas(bits, commandsFor, r);
    RulesUpToEntries(|AllRules|, HasOf(bits), commandsFor);
    RulesUpToLength(|AllRules|, HasOf(bits), commandsFor);
  }

  /** A rule is needed exactly when its bit is set. */
  lemma NeededRulesHas(bits: bv64, commandsFor: RuleType -> seq<TemplatedString>, r: RuleType)
    ensures (exists i :: 0 <= i < |NeededRules(bits, commandsFor)| && NeededRules(bits, commandsFor)[i].name == Builtin(r))
      <==> HasBit(bits, r)
  {
    var rs := NeededRules(bits, commandsFor);
    RulesUpToEntries(|AllRules|, HasOf(bits), commandsFor);
    AllRulesInOrder(r);
    if HasBit(bits, r) {
      RulesUpToComplete(|AllRules|, HasOf(bits), commandsFor, r);
    }
    if exists i :: 0 <= i < |rs| && rs[i].name == Builtin(r) {
      var i :| 0 <= i < |rs| && rs[i].name == Builtin(r);
      assert HasOf(bits)(rs[i].name.rule);
    }
  }

  /** `add_rules`: the rules whose bit is set, each with the compiler's commands, become the generator's rules. */
  method AddRules(bits: bv64, commandsFor: RuleType -> seq<TemplatedString>, gen: BuildGenerator)
    modifies gen
    ensures gen.rules == NeededRules(bits, commandsFor)
    ensures gen.setups == old(gen.setups) && gen.targets == old(gen.targets)
  {
    var results: seq<Rule> := [];
    for n := 0 to |AllRules|
      invariant results == RulesUpTo(n, HasOf(bits), commandsFor)
    {
      var r := AllRules[n];
      if HasBit(bits, r) {
        results := results + [Rule(Builtin(r), commandsFor(r), [])];
      }
    }
    gen.SetRules(results);
  }
}
