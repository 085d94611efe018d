/**
 * The GCC back end: where GCC keeps compiled module interfaces, how it
 * finds cross-compiling tools next to the compiler, the commands of its
 * rules, and the targets it maps a build onto.
 */
module Gcc {
  import opened Wrappers
  import opened Strings
  import opened Utils
  import opened Types
  import opened Paths
  import opened Generator
  import opened Build
  import opened Compiler

  // ---------------------------------------------------------- as_cmi

  /** `as_cmi`: "gcm.cache/", the module, '-' and the partition when there is one, ".gcm". */
  function AsCmi(name: ModName): (r: string)
    ensures r == "gcm.cache/" + ToBMI(name)[..|ToBMI(name)| - 4] + ".gcm"
  {
    var stem := if |name.part| == 0 then name.moduleName else name.moduleName + "-" + name.part;
    assert ToBMI(name) == stem + ".bmi" && ToBMI(name)[..|ToBMI(name)| - 4] == stem;
    "gcm.cache/" + stem + ".gcm"
  }

  /** Modules without '-' in their names get different interface files. */
  lemma AsCmiInjective(a: ModName, b: ModName)
    requires '-' !in a.moduleName && '-' !in b.moduleName && AsCmi(a) == AsCmi(b)
    ensures a == b
  {
    var x := ToBMI(a)[..|ToBMI(a)| - 4];
    var y := ToBMI(b)[..|ToBMI(b)| - 4];
    assert AsCmi(a)[10..|AsCmi(a)| - 4] == x;
    assert AsCmi(b)[10..|AsCmi(b)| - 4] == y;
    assert ToBMI(a) == x + ".bmi" && ToBMI(b) == y + ".bmi";
    ToBMIInjective(a, b);
  }

  // ---------------------------------------------------------- the major version

  /** The first GCC with modules. */
  const GccWithModules: nat := 11

  /**
   * The constructor's reading of "__GNUC__ __GNUC_MINOR__ ...": without a
   * space the modules-capable default, otherwise the word before the first
   * space as an `unsigned`, or 255 when it is not one.
   */
  function MajorOf(version: string): (major: nat)
    ensures major <= UintMax
  {
    match Find(version, ' ', 0)
    case None => GccWithModules
    case Some(pos) =>
      ParseWholeMeaning(version[..pos]);
      match ParseWhole(version[..pos])
      case Some(v) => v
      case None => 255
  }

  /** No space gives 11; otherwise the first word decides, and a word that is no `unsigned` gives 255. */
  lemma MajorOfMeaning(word: string, rest: string)
    requires ' ' !in word
    ensures MajorOf(word) == GccWithModules
    ensures MajorOf(word + " " + rest) ==
      if |word| > 0 && (forall i :: 0 <= i < |word| ==> IsDigit(word[i])) && DecimalValue(word) <= UintMax
      then DecimalValue(word) else 255
  {
    var v := word + " " + rest;
    assert v[|word|] == ' ' && v[..|word|] == word;
    assert Find(v, ' ', 0) == Some(|word|);
    ParseWholeMeaning(word);
  }

  /** The version the preprocessor prints for GCC 13.2.0 reads as 13. */
  lemma MajorOfExample()
    ensures MajorOf("13 2 0") == 13
    ensures MajorOf("13") == 11
    ensures MajorOf("x 2 0") == 255
  {
    MajorOfMeaning("13", "2 0");
    MajorOfMeaning("x", "2 0");
    assert DecimalValue("13") == 13 by {
      assert "13"[..1] == "1";
    }
  }

  // ---------------------------------------------------------- toolname

  /** `toolname`: with a prefix, prefix + tool + "-" + major; without one, the bare tool. */
  function Toolname(prefix: string, major: nat, tool: string): string
  {
    if |prefix| == 0 then tool else prefix + tool + "-" + NatToString(major)
  }

  /** A prefixed tool name splits back into the prefix, the tool and the major version. */
  lemma ToolnameMeaning(prefix: string, major: nat, tool: string)
    requires major <= UintMax
    ensures |prefix| == 0 ==> Toolname(prefix, major, tool) == tool
    ensures |prefix| > 0 ==>
      var r := Toolname(prefix, major, tool);
      var n := |prefix| + |tool|;
      |r| > n && r[..|prefix|] == prefix && r[|prefix|..n] == tool && r[n] == '-'
      && ParseWhole(r[n + 1..]) == Some(major)
  {
    if |prefix| > 0 {
      var r := Toolname(prefix, major, tool);
      var n := |prefix| + |tool|;
      assert r[n + 1..] == NatToString(major);
      ParseWholeRoundTrip(major);
    }
  }

  // ---------------------------------------------------------- find_prefix

  /** Where the search for the `k`-th '-' from `from` leaves off: just past it, or nothing when there are fewer. */
  function DashEnd(s: string, from: nat, k: nat): (r: Option<nat>)
    requires from <= |s|
    ensures r.Some? ==> from <= r.value <= |s| && (k > 0 ==> from < r.value && s[r.value - 1] == '-')
    decreases k
  {
    if k == 0 then Some(from)
    else
      match Find(s, '-', from)
      case None => None
      case Some(p) => DashEnd(s, p + 1, k - 1)
  }

  /** The search fails exactly when fewer than `k` dashes follow `from`; otherwise it stops just past the `k`-th. */
  lemma DashEndCounts(s: string, from: nat, k: nat)
    requires from <= |s|
    ensures DashEnd(s, from, k).None? <==> Count('-', s[from..]) < k
    ensures DashEnd(s, from, k).Some? ==> Count('-', s[from..DashEnd(s, from, k).value]) == k
  {
    DashEndFails(s, from, k);
    DashEndStops(s, from, k);
  }

  /** The search fails exactly when fewer than `k` dashes follow `from`. */
  lemma {:induction false} DashEndFails(s: string, from: nat, k: nat)
    requires from <= |s|
    ensures DashEnd(s, from, k).None? <==> Count('-', s[from..]) < k
    decreases k, 1
  {
    if k > 0 {
      var found := Find(s, '-', from);
      if found.None? {
        DashEndNext(s, from, k, found);
        CountWithoutDash(s, from);
      } else {
        DashEndFailsPast(s, from, k, found.value);
      }
    }
  }

  /** The induction step of `DashEndFails`: the search goes on past the first dash. */
  lemma {:induction false} DashEndFailsPast(s: string, from: nat, k: nat, p: nat)
    requires 0 < k && from <= |s| && Find(s, '-', from) == Some(p)
    ensures DashEnd(s, from, k).None? <==> Count('-', s[from..]) < k
    decreases k, 0
  {
    DashEndNext(s, from, k, Some(p));
    CountPastDash(s, from, p);
    DashEndFails(s, p + 1, k - 1);
    OneMoreDash(DashEnd(s, from, k).None?, DashEnd(s, p + 1, k - 1).None?,
      Count('-', s[from..]), Count('-', s[p + 1..]), k);
  }

  /** The counting step of the induction, as plain arithmetic. */
  lemma OneMoreDash(failed: bool, failedAfter: bool, count: nat, countAfter: nat, k: nat)
    requires 0 < k && failed == failedAfter && count == 1 + countAfter
    requires failedAfter <==> countAfter < k - 1
    ensures failed <==> count < k
  {
  }

  /** No dash from `from` on: none to count. */
  lemma CountWithoutDash(s: string, from: nat)
    requires from <= |s| && Find(s, '-', from).None?
    ensures Count('-', s[from..]) == 0
  {
    NoDashCounts(s, from, |s|);
    assert s[from..|s|] == s[from..];
  }

  /** The first dash from `from` on is one of the dashes counted there. */
  lemma CountPastDash(s: string, from: nat, p: nat)
    requires from <= |s| && Find(s, '-', from) == Some(p)
    ensures p < |s| && Count('-', s[from..]) == 1 + Count('-', s[p + 1..])
  {
    NoDashCounts(s, from, p);
    DashSplitsCount(s, from, p, |s|);
    assert s[from..|s|] == s[from..] && s[p + 1..|s|] == s[p + 1..];
  }

  /** A search that succeeds stops just past the `k`-th dash. */
  lemma {:induction false} DashEndStops(s: string, from: nat, k: nat)
    requires from <= |s|
    ensures DashEnd(s, from, k).Some? ==> Count('-', s[from..DashEnd(s, from, k).value]) == k
    decreases k
  {
    if k == 0 {
      assert s[from..from] == [];
    } else {
      var found := Find(s, '-', from);
      if found.Some? {
        var p := found.value;
        var rest := DashEnd(s, p + 1, k - 1);
        assert DashEnd(s, from, k) == rest;
        DashEndStops(s, p + 1, k - 1);
        if rest.Some? {
          NoDashCounts(s, from, p);
          DashSplitsCount(s, from, p, rest.value);
        }
      }
    }
  }

  /** No dash between `from` and `to` means none counted there. */
  lemma NoDashCounts(s: string, from: nat, to: nat)
    requires from <= to <= |s| && forall i :: from <= i < to ==> s[i] != '-'
    ensures Count('-', s[from..to]) == 0
  {
    CountAbsent('-', s[from..to]);
  }

  /** A dash at `p` adds one to the dashes on either side of it. */
  lemma DashSplitsCount(s: string, from: nat, p: nat, to: nat)
    requires from <= p < to <= |s| && s[p] == '-'
    ensures Count('-', s[from..to]) == Count('-', s[from..p]) + 1 + Count('-', s[p + 1..to])
  {
    assert s[from..to] == s[from..p] + ['-'] + s[p + 1..to];
    CountAroundDash(s[from..p], s[p + 1..to]);
  }

  /** A dash between two strings adds one to their dashes. */
  lemma CountAroundDash(a: string, b: string)
    ensures Count('-', a + ['-'] + b) == Count('-', a) + 1 + Count('-', b)
  {
    CountAppend('-', a + ['-'], b);
    CountAppend('-', a, ['-']);
    assert ['-'][..0] == [];
  }

  /** The prefix `find_prefix` derives from the compiler's path. */
  function PrefixOf(compiler: string): string
  {
    var fname := FileName(compiler);
    match DashEnd(fname, 0, 3)
    case None => ""
    case Some(prev) =>
      Join(ParentPath(compiler), fname[..prev]) + "gcc-"
  }

  /**
   * With fewer than three dashes in the file name there is no prefix;
   * otherwise it is the directory joined with the file name up to and
   * including its third dash, followed by "gcc-".
   */
  lemma PrefixMeaning(compiler: string)
    ensures var fname := FileName(compiler);
      (PrefixOf(compiler) == "" <==> Count('-', fname) < 3)
      && (Count('-', fname) >= 3 ==>
        exists n :: 0 < n <= |fname| && Count('-', fname[..n]) == 3 && fname[n - 1] == '-'
          && PrefixOf(compiler) == Join(ParentPath(compiler), fname[..n]) + "gcc-")
  {
    var fname := FileName(compiler);
    DashEndCounts(fname, 0, 3);
    assert fname[0..] == fname;
    if Count('-', fname) >= 3 {
      var n := DashEnd(fname, 0, 3).value;
      assert fname[0..n] == fname[..n];
      assert PrefixOf(compiler) == Join(ParentPath(compiler), fname[..n]) + "gcc-";
      assert |PrefixOf(compiler)| > 0;
    } else {
      assert DashEnd(fname, 0, 3).None?;
    }
  }

  /** `find_prefix`: look for three dashes in the compiler's file name. */
  method FindPrefix(compiler: string) returns (prefix: string)
    ensures prefix == PrefixOf(compiler)
  {
    var dirname := ParentPath(compiler);
    var fname := FileName(compiler);
    var prev := ThirdDash(fname);
    if prev.None? {
      return "";
    }
    prefix := Join(dirname, fname[..prev.value]) + "gcc-";
  }

  /** One search: no dash means no end; otherwise the search goes on past the dash. */
  lemma DashEndNext(s: string, from: nat, k: nat, pos: Option<nat>)
    requires 0 < k && from <= |s| && pos == Find(s, '-', from)
    ensures pos.None? ==> DashEnd(s, from, k) == None
    ensures pos.Some? ==> pos.value < |s| && DashEnd(s, from, k) == DashEnd(s, pos.value + 1, k - 1)
  {
  }

  /** `find_prefix`'s loop: three searches for '-', each starting past the last. */
  method ThirdDash(fname: string) returns (end: Option<nat>)
    ensures end == DashEnd(fname, 0, 3)
  {
    var prev: nat := 0;
    for i := 0 to 3
      invariant prev <= |fname|
      invariant DashEnd(fname, 0, 3) == DashEnd(fname, prev, 3 - i)
    {
      var pos := Find(fname, '-', prev);
      DashEndNext(fname, prev, 3 - i, pos);
      if pos.None? {
        return None;
      }
      prev := pos.value + 1;
    }
    end := Some(prev);
  }

  // ---------------------------------------------------------- commands_for

  /** `commands_for`: what the compiler, `ar` and `ranlib` run for each rule. */
  function Commands(exec: string, prefix: string, major: nat, r: RuleType): seq<TemplatedString>
  {
    match r
    case Compile =>
      [[Str(exec), Str(" "), VarArg(Defines), Str(" "), VarArg(CFlags), Str(" "), VarArg(CxxFlags),
        Str(" -fmodules-ts -c "), VarArg(Input), Str(" -o "), VarArg(Output)]]
    case LinkExecutable =>
      [[Str(exec), Str(" "), VarArg(Input), Str(" -o "), VarArg(Output)]]
    case LinkStatic =>
      [[Str("rm  -rf "), VarArg(Output)],
       [Str(Toolname(prefix, major, "ar")), Str(" qc "), VarArg(Output), Str(" "), VarArg(LinkFlags), Str(" "), VarArg(Input)],
       [Str(Toolname(prefix, major, "ranlib")), Str(" "), VarArg(Output)]]
    case _ => []
  }

  /**
   * Only compiling, linking executables and archiving have commands; every
   * command writes the output, and the compile and link commands run the
   * compiler on the input.
   */
  lemma CommandsMeaning(exec: string, prefix: string, major: nat, r: RuleType)
    ensures var cs := Commands(exec, prefix, major, r);
      (|cs| > 0 <==> r == Compile || r == LinkExecutable || r == Archive)
      && (forall i :: 0 <= i < |cs| ==> VarArg(Output) in cs[i])
      && ((r == Compile || r == LinkExecutable) ==> |cs| == 1 && cs[0][0] == Str(exec) && VarArg(Input) in cs[0])
      && (r == Archive ==> |cs| == 3 && VarArg(Input) in cs[1])
  {
  }

  // ---------------------------------------------------------- mapout

  /** An interface file as a module reference. */
  function CmiRef(m: ModName): Artifact
  {
    Mod(ModRef(m, AsCmi(m)))
  }

  function CmiRefs(ms: seq<ModName>): (r: seq<Artifact>)
    ensures |r| == |ms| && forall i :: 0 <= i < |ms| ==> r[i] == CmiRef(ms[i])
  {
    seq(|ms|, i requires 0 <= i < |ms| => CmiRef(ms[i]))
  }

  /**
   * The COMPILE target of one source: its object from the source, after
   * the interfaces of the modules it imports; an interface source also
   * yields its module's interface and labels the edge with the module.
   */
  function ObjectTarget(build: BuildInfo, setupId: nat, subdir: string, filename: string): Target
  {
    var srcfile := SourceKey(subdir, filename);
    var order := if srcfile in build.imports then CmiRefs(build.imports[srcfile]) else [];
    var impl := if srcfile in build.exports then [CmiRef(build.exports[srcfile])] else [];
    var edge := if srcfile in build.exports then ToString(build.exports[srcfile]) else "";
    Target(Builtin(Compile), ObjectRef(setupId, filename), FileList([InputRef(setupId, filename)], [], order), FileList([], impl, []), edge)
  }

  /** An interface source's object also yields the module's ".gcm" and names the module on the edge. */
  lemma ObjectTargetMeaning(build: BuildInfo, setupId: nat, subdir: string, filename: string)
    ensures var t := ObjectTarget(build, setupId, subdir, filename);
      var srcfile := SourceKey(subdir, filename);
      t.rule == Builtin(Compile)
      && t.mainOutput.file.path == filename + ".o"
      && t.inputs.expl == [InputRef(setupId, filename)]
      && (t.outputs.impl != [] <==> srcfile in build.exports)
      && (srcfile in build.exports ==>
        var m := build.exports[srcfile];
        t.outputs.impl[0].Path() == "gcm.cache/" + ToBMI(m)[..|ToBMI(m)| - 4] + ".gcm"
        && t.edge == ToString(m))
      && (srcfile in build.imports ==>
        (|t.inputs.order| == |build.imports[srcfile]|
         && forall i :: 0 <= i < |t.inputs.order| ==> t.inputs.order[i].Mod? && t.inputs.order[i].ref.mod == build.imports[srcfile][i]))
      && (srcfile !in build.imports ==> t.inputs.order == [])
  {
  }

  /** The two targets of each source, in source order. */
  function SourceTargets(build: BuildInfo, setupId: nat, subdir: string, sources: seq<string>): (r: seq<Target>)
    ensures |r| == 2 * |sources|
    decreases |sources|
  {
    if |sources| == 0 then []
    else
      var j := |sources| - 1;
      SourceTargets(build, setupId, subdir, sources[..j])
        + [SourceTarget(setupId, sources[j]), ObjectTarget(build, setupId, subdir, sources[j])]
  }

  /** Source `j` owns targets `2j` (the source) and `2j + 1` (its object). */
  lemma {:induction false} SourceTargetsLayout(build: BuildInfo, setupId: nat, subdir: string, sources: seq<string>)
    ensures var r := SourceTargets(build, setupId, subdir, sources);
      forall j :: 0 <= j < |sources| ==>
        r[2 * j] == SourceTarget(setupId, sources[j]) && r[2 * j + 1] == ObjectTarget(build, setupId, subdir, sources[j])
    decreases |sources|
  {
    if |sources| > 0 {
      var n := |sources| - 1;
      SourceTargetsLayout(build, setupId, subdir, sources[..n]);
      var prev := SourceTargets(build, setupId, subdir, sources[..n]);
      var tail := [SourceTarget(setupId, sources[n]), ObjectTarget(build, setupId, subdir, sources[n])];
      var r := SourceTargets(build, setupId, subdir, sources);
      assert r == prev + tail;
      forall j | 0 <= j < |sources|
        ensures r[2 * j] == SourceTarget(setupId, sources[j]) && r[2 * j + 1] == ObjectTarget(build, setupId, subdir, sources[j])
      {
        if j < n {
          var f := sources[..n][j];
          assert f == sources[j];
          assert prev[2 * j] == SourceTarget(setupId, f) && prev[2 * j + 1] == ObjectTarget(build, setupId, subdir, f);
          assert (prev + tail)[2 * j] == prev[2 * j] && (prev + tail)[2 * j + 1] == prev[2 * j + 1];
        } else {
          assert j == n;
          assert (prev + tail)[2 * j] == tail[0] && (prev + tail)[2 * j + 1] == tail[1];
        }
      }
    }
  }

  /** The targets of one project: those of its sources, then the project's own. */
  function ProjectTargets(build: BuildInfo, ids: map<string, nat>, prj: Project, info: ProjectInfo): seq<Target>
  {
    SourceTargets(build, GetSetupId(prj.name, ids), info.subdir, info.sources) + [ProjectTarget(build, prj, info, ids)]
  }

  /** The targets of the first `k` projects. */
  function TargetsUpTo(build: BuildInfo, ids: map<string, nat>, k: nat): seq<Target>
    requires k <= |build.projects|
  {
    if k == 0 then []
    else TargetsUpTo(build, ids, k - 1) + ProjectTargets(build, ids, build.projects[k - 1].0, build.projects[k - 1].1)
  }

  /** The rules one project adds: COMPILE when it has a source, and its link rule. */
  function ProjectBits(before: bv64, p: (Project, ProjectInfo)): bv64
  {
    SetIfThenSet(before, |p.1.sources| > 0, Compile, LinkRule(p.0.kind))
  }

  /** A project adds COMPILE when it has a source and its link rule, and clears nothing. */
  lemma ProjectBitsMeaning(before: bv64, p: (Project, ProjectInfo), r: RuleType)
    ensures HasBit(ProjectBits(before, p), r) <==>
      HasBit(before, r) || (r == Compile && |p.1.sources| > 0) || LinkRule(p.0.kind) == r
  {
    SetIfThenSetHas(before, |p.1.sources| > 0, Compile, LinkRule(p.0.kind), r);
  }

  /** The rules the first `k` projects need. */
  function BitsUpTo(projects: seq<(Project, ProjectInfo)>, k: nat): bv64
    requires k <= |projects|
  {
    if k == 0 then 0 else ProjectBits(BitsUpTo(projects, k - 1), projects[k - 1])
  }

  /** Some of the first `k` projects has a source to compile (for COMPILE) or links with `r`. */
  predicate NeedsRule(projects: seq<(Project, ProjectInfo)>, k: nat, r: RuleType)
    requires k <= |projects|
  {
    (r == Compile && exists j :: 0 <= j < k && |projects[j].1.sources| > 0)
    || (exists j :: 0 <= j < k && LinkRule(projects[j].0.kind) == r)
  }

  /** One more project adds what it needs. */
  lemma NeedsRuleStep(projects: seq<(Project, ProjectInfo)>, k: nat, r: RuleType)
    requires 0 < k <= |projects|
    ensures NeedsRule(projects, k, r) <==>
      NeedsRule(projects, k - 1, r)
      || (r == Compile && |projects[k - 1].1.sources| > 0)
      || LinkRule(projects[k - 1].0.kind) == r
  {
    if NeedsRule(projects, k, r) && !NeedsRule(projects, k - 1, r) {
      if r == Compile && exists j :: 0 <= j < k && |projects[j].1.sources| > 0 {
        var j :| 0 <= j < k && |projects[j].1.sources| > 0;
        assert j == k - 1;
      } else {
        var j :| 0 <= j < k && LinkRule(projects[j].0.kind) == r;
        assert j == k - 1;
      }
    }
  }

  /** A rule is needed exactly when some project has a source to compile or links with that rule. */
  lemma {:induction false} BitsUpToMeaning(projects: seq<(Project, ProjectInfo)>, k: nat, r: RuleType)
    requires k <= |projects|
    ensures HasBit(BitsUpTo(projects, k), r) <==> NeedsRule(projects, k, r)
  {
    if k == 0 {
      EmptyHasNothing(r);
    } else {
      BitsUpToMeaning(projects, k - 1, r);
      ProjectBitsMeaning(BitsUpTo(projects, k - 1), projects[k - 1], r);
      NeedsRuleStep(projects, k, r);
    }
  }

  /** GCC's compiler: its path, the cross-tool prefix found next to it, and its major version. */
  class GccCompiler {
    const compiler: string
    const prefix: string
    const major: nat

    /** `gcc::gcc`: the prefix comes from the path, the major version from the version macros. */
    constructor (exec: string, version: string)
      ensures compiler == exec && prefix == PrefixOf(exec) && major == MajorOf(version)
    {
      compiler := exec;
      var found := FindPrefix(exec);
      prefix := found;
      var m: nat;
      var pos := Find(version, ' ', 0);
      if pos.None? {
        m := GccWithModules;
      } else {
        var parsed := FromChars(version[..pos.value]);
        m := parsed.value;
        if parsed.ec != NoError || parsed.ptr != pos.value {
          m := 255;
        }
      }
      major := m;
    }

    /** `gcc::commands_for` */
    function CommandsFor(): RuleType -> seq<TemplatedString>
    {
      r => Commands(compiler, prefix, major, r)
    }

    /**
     * `gcc::mapout`: register the projects, give each source its input and
     * COMPILE targets and each project its link target, then hand the
     * generator the rules those targets need.
     */
    method Mapout(build: BuildInfo, gen: BuildGenerator)
      modifies gen
      ensures gen.setups == SetupsOf(build.projects)
      ensures gen.targets == TargetsUpTo(build, SetupIds(build.projects), |build.projects|)
      ensures gen.rules == NeededRules(BitsUpTo(build.projects, |build.projects|), CommandsFor())
    {
      var ids := RegisterProjects(build, gen);
      var targets, bits := MapProjects(build, ids);
      AddRules(bits, CommandsFor(), gen);
      gen.SetTargets(targets);
    }
  }

  /** `mapout`'s loop over the projects: their targets and the rules they need. */
  method MapProjects(build: BuildInfo, ids: map<string, nat>) returns (targets: seq<Target>, bits: bv64)
    ensures targets == TargetsUpTo(build, ids, |build.projects|)
    ensures bits == BitsUpTo(build.projects, |build.projects|)
  {
    targets := [];
    bits := 0;
    for k := 0 to |build.projects|
      invariant targets == TargetsUpTo(build, ids, k)
      invariant bits == BitsUpTo(build.projects, k)
    {
      targets, bits := MapProject(build, ids, k, targets, bits);
    }
  }

  /** One turn of `mapout`'s loop over the projects. */
  method MapProject(build: BuildInfo, ids: map<string, nat>, k: nat, targets: seq<Target>, bits: bv64)
    returns (targets': seq<Target>, bits': bv64)
    requires k < |build.projects|
    requires targets == TargetsUpTo(build, ids, k) && bits == BitsUpTo(build.projects, k)
    ensures targets' == TargetsUpTo(build, ids, k + 1) && bits' == BitsUpTo(build.projects, k + 1)
  {
    var prj := build.projects[k].0;
    var info := build.projects[k].1;
    var setupId := GetSetupId(prj.name, ids);
    var objects, compiled := MapSources(build, setupId, info.subdir, info.sources, bits);
    var library := CreateProjectTarget(build, prj, info, ids);
    bits' := AddLinkBit(build.projects, k, compiled, library);
    assert objects + [library] == ProjectTargets(build, ids, prj, info);
    targets' := targets + (objects + [library]);
  }

  /** The end of a turn: the project's link rule joins the rules needed. */
  method AddLinkBit(projects: seq<(Project, ProjectInfo)>, k: nat, compiled: bv64, library: Target) returns (bits': bv64)
    requires k < |projects| && library.rule == Builtin(LinkRule(projects[k].0.kind))
    requires compiled == SetIf(BitsUpTo(projects, k), |projects[k].1.sources| > 0, Compile)
    ensures bits' == BitsUpTo(projects, k + 1)
  {
    bits' := compiled | Bit(library.rule.rule);
  }

  /** The loop over one project's sources: two targets per source, and COMPILE for each. */
  method MapSources(build: BuildInfo, setupId: nat, subdir: string, sources: seq<string>, bits: bv64)
    returns (targets: seq<Target>, bits': bv64)
    ensures targets == SourceTargets(build, setupId, subdir, sources)
    ensures bits' == if |sources| > 0 then bits | Bit(Compile) else bits
  {
    targets := [];
    bits' := bits;
    for j := 0 to |sources|
      invariant targets == SourceTargets(build, setupId, subdir, sources[..j])
      invariant bits' == if j > 0 then bits | Bit(Compile) else bits
    {
      targets := targets + [SourceTarget(setupId, sources[j]), ObjectTarget(build, setupId, subdir, sources[j])];
      bits' := bits' | Bit(Compile);
      assert sources[..j + 1][..j] == sources[..j];
    }
    assert sources[..|sources|] == sources;
  }

  /**
   * The rules GCC hands the generator: COMPILE when some project has a
   * source, and the link rule of every project, each with GCC's commands.
   */
  lemma MapoutRules(build: BuildInfo, commandsFor: RuleType -> seq<TemplatedString>, r: RuleType)
    ensures var rs := NeededRules(BitsUpTo(build.projects, |build.projects|), commandsFor);
      (exists i :: 0 <= i < |rs| && rs[i].name == Builtin(r)) <==> NeedsRule(build.projects, |build.projects|, r)
  {
    var bits := BitsUpTo(build.projects, |build.projects|);
    var rs := NeededRules(bits, commandsFor);
    NeededRulesMeaning(bits, commandsFor, r);
    BitsUpToMeaning(build.projects, |build.projects|, r);
    assert (exists i :: 0 <= i < |rs| && rs[i].name == Builtin(r)) <==> HasBit(bits, r);
  }
}
