/**
 * The Clang back end: where Clang keeps prebuilt module interfaces, the
 * commands of its rules, and the targets it maps a build onto. Unlike GCC,
 * Clang emits each module interface in a rule of its own before the
 * objects that import it are compiled.
 */
module Clang {
  import opened Types
  import opened Paths
  import opened Generator
  import opened Build
  import opened Compiler

  // ---------------------------------------------------------- as_cmi

  /** `as_cmi`: "bmi/", the module, '.' and the partition when there is one, ".pcm". */
  function AsCmi(name: ModName): (r: string)
    ensures |r| >= 8 && r[..4] == "bmi/" && r[|r| - 4..] == ".pcm"
    ensures |name.part| == 0 ==> r[4..|r| - 4] == name.moduleName
    ensures |name.part| > 0 ==> r[4..|r| - 4] == name.moduleName + "." + name.part
  {
    var stem := if |name.part| == 0 then name.moduleName else name.moduleName + "." + name.part;
    "bmi/" + stem + ".pcm"
  }

  /** Modules without '.' in their names get different interface files. */
  lemma AsCmiInjective(a: ModName, b: ModName)
    requires '.' !in a.moduleName && '.' !in b.moduleName && AsCmi(a) == AsCmi(b)
    ensures a == b
  {
    var x := AsCmi(a)[4..|AsCmi(a)| - 4];
    if |a.part| > 0 && |b.part| > 0 {
      StemSplits(a.moduleName, a.part, b.moduleName, b.part);
    } else if |a.part| > 0 {
      assert false;
    } else if |b.part| > 0 {
      assert false;
    }
  }

  /** The first '.' of a stem ends the module name when the names hold none. */
  lemma StemSplits(m1: string, p1: string, m2: string, p2: string)
    requires '.' !in m1 && '.' !in m2 && m1 + "." + p1 == m2 + "." + p2
    ensures m1 == m2 && p1 == p2
  {
    var s := m1 + "." + p1;
    if |m1| < |m2| {
      DotInLonger(m1, p1, m2, p2);
    } else if |m2| < |m1| {
      DotInLonger(m2, p2, m1, p1);
    }
    assert m1 == s[..|m1|] == m2;
    assert p1 == s[|m1| + 1..] == p2;
  }

  /** When the shorter name ends, the longer one holds the '.' that follows it. */
  lemma DotInLonger(m1: string, p1: string, m2: string, p2: string)
    requires |m1| < |m2| && m1 + "." + p1 == m2 + "." + p2
    ensures m2[|m1|] == '.'
  {
    assert (m1 + "." + p1)[|m1|] == '.';
  }

  /**
   * `bit`: Clang's own copy of the rule bit, an `unsigned` shifted by the
   * rule's ordinal and widened into the 64-bit set; for every rule it is
   * the generator's bit.
   */
  lemma BitAgrees(r: RuleType)
    ensures ((1 as bv32) << r.Ordinal()) as bv64 == Bit(r)
  {
  }

  // ---------------------------------------------------------- commands_for

  /**
   * `commands_for`: what the compiler, `ar` and `ranlib` run for each rule;
   * `ar` and `ranlib` are the tools the PATH search found.
   */
  function Commands(exec: string, ar: string, ranlib: string, r: RuleType): seq<TemplatedString>
  {
    match r
    case EmitBmi =>
      [[Str(exec), Str(" "), VarArg(Input), Str(" "), VarArg(Defines), Str(" "), VarArg(CFlags), Str(" "), VarArg(CxxFlags),
        Str(" -o "), VarArg(Output),
        Str(" -fprebuilt-implicit-modules -fprebuilt-module-path=bmi -c -Xclang -emit-module-interface")]]
    case Compile =>
      [[Str(exec), Str(" "), VarArg(Input), Str(" "), VarArg(Defines), Str(" "), VarArg(CFlags), Str(" "), VarArg(CxxFlags),
        Str(" -o "), VarArg(Output), Str(" -fprebuilt-implicit-modules -fprebuilt-module-path=bmi -c")]]
    case LinkExecutable =>
      [[Str(exec), Str(" "), VarArg(LinkFlags), Str(" "), VarArg(Input), Str(" -o "), VarArg(Output)]]
    case LinkStatic =>
      [[Str("rm  -rf "), VarArg(Output)],
       [Str(ar), Str(" qc "), VarArg(Output), Str(" "), VarArg(LinkFlags), Str(" "), VarArg(Input)],
       [Str(ranlib), Str(" "), VarArg(Output)]]
    case _ => []
  }

  /**
   * Only emitting interfaces, compiling, linking executables and archiving
   * have commands; every command writes the output; the compiler runs on
   * the input in the first three, `ar` in the archive's second command.
   */
  lemma CommandsMeaning(exec: string, ar: string, ranlib: string, r: RuleType)
    ensures var cs := Commands(exec, ar, ranlib, r);
      (|cs| > 0 <==> r == EmitBmi || r == Compile || r == LinkExecutable || r == Archive)
      && (forall i :: 0 <= i < |cs| ==> VarArg(Output) in cs[i])
      && ((r == EmitBmi || r == Compile || r == LinkExecutable) ==>
        |cs| == 1 && cs[0][0] == Str(exec) && VarArg(Input) in cs[0])
      && (r == Archive ==> |cs| == 3 && cs[1][0] == Str(ar) && VarArg(Input) in cs[1] && cs[2][0] == Str(ranlib))
  {
    var cs := Commands(exec, ar, ranlib, r);
    match r
    case EmitBmi => assert cs[0][2] == VarArg(Input) && cs[0][10] == VarArg(Output);
    case Compile => assert cs[0][2] == VarArg(Input) && cs[0][10] == VarArg(Output);
    case LinkExecutable => assert cs[0][4] == VarArg(Input) && cs[0][6] == VarArg(Output);
    case LinkStatic =>
      assert cs[0][1] == VarArg(Output) && cs[1][2] == VarArg(Output) && cs[2][2] == VarArg(Output);
      assert cs[1][6] == VarArg(Input);
    case _ =>
  }

  // ---------------------------------------------------------- mapout

  /** An interface file as a module reference. */
  function CmiRef(m: ModName): Artifact
  {
    Mod(ModRef(m, AsCmi(m)))
  }

  function CmiRefs(ms: seq<ModName>): (r: seq<Artifact>)
    ensures |r| == |ms| && forall i :: 0 <= i < |ms| ==> r[i] == CmiRef(ms[i])
  {
    seq(|ms|, i requires 0 <= i < |ms| => CmiRef(ms[i]))
  }

  /** The source at `subdir/filename` exports a module. */
  predicate IsInterface(build: BuildInfo, subdir: string, filename: string)
  {
    SourceKey(subdir, filename) in build.exports
  }

  /**
   * The EMIT_BMI target of an interface source: the module's ".pcm" from
   * the source, after the interfaces of the modules the module requires.
   */
  function BmiTarget(build: BuildInfo, setupId: nat, m: ModName, filename: string): Target
  {
    var order := if m in build.modules then CmiRefs(build.modules[m].req) else [];
    Target(Builtin(EmitBmi), CmiRef(m), FileList([InputRef(setupId, filename)], [], order), NoFiles, "")
  }

  /** The COMPILE target of a source: its object from the source, after the interfaces it imports. */
  function ObjectTarget(build: BuildInfo, setupId: nat, subdir: string, filename: string): Target
  {
    var srcfile := SourceKey(subdir, filename);
    var order := if srcfile in build.imports then CmiRefs(build.imports[srcfile]) else [];
    Target(Builtin(Compile), ObjectRef(setupId, filename), FileList([InputRef(setupId, filename)], [], order), NoFiles, "")
  }

  /** The targets of one source: the source itself, its interface when it exports one, its object. */
  function UnitTargets(build: BuildInfo, setupId: nat, subdir: string, filename: string): seq<Target>
  {
    var srcfile := SourceKey(subdir, filename);
    var bmi := if srcfile in build.exports then [BmiTarget(build, setupId, build.exports[srcfile], filename)] else [];
    [SourceTarget(setupId, filename)] + bmi + [ObjectTarget(build, setupId, subdir, filename)]
  }

  /**
   * A source yields three targets when it is an interface and two
   * otherwise; the interface's target emits "bmi/<module>.pcm" from the
   * source after the interfaces of every module the module requires; the
   * object is "<source>.o", compiled from the source after the interfaces
   * of its imports, and declares no other output.
   */
  lemma UnitTargetsMeaning(build: BuildInfo, setupId: nat, subdir: string, filename: string)
    ensures var ts := UnitTargets(build, setupId, subdir, filename);
      var srcfile := SourceKey(subdir, filename);
      (|ts| == 3 <==> IsInterface(build, subdir, filename))
      && (|ts| == 2 <==> !IsInterface(build, subdir, filename))
      && ts[0].rule == Unnamed && ts[0].mainOutput == InputRef(setupId, filename)
      && (IsInterface(build, subdir, filename) ==>
        var m := build.exports[srcfile];
        ts[1].rule == Builtin(EmitBmi)
        && ts[1].mainOutput.Path() == AsCmi(m)
        && ts[1].inputs.expl == [InputRef(setupId, filename)]
        && (m in build.modules ==>
          |ts[1].inputs.order| == |build.modules[m].req|
          && forall i :: 0 <= i < |ts[1].inputs.order| ==> ts[1].inputs.order[i] == CmiRef(build.modules[m].req[i]))
        && (m !in build.modules ==> ts[1].inputs.order == []))
      && var obj := ts[|ts| - 1];
      obj.rule == Builtin(Compile)
      && obj.mainOutput.Path() == filename + ".o"
      && obj.inputs.expl == [InputRef(setupId, filename)]
      && obj.outputs == NoFiles
      && (srcfile in build.imports ==>
        |obj.inputs.order| == |build.imports[srcfile]|
        && forall i :: 0 <= i < |obj.inputs.order| ==> obj.inputs.order[i] == CmiRef(build.imports[srcfile][i]))
      && (srcfile !in build.imports ==> obj.inputs.order == [])
  {
  }

  /** The targets of each source in turn. */
  function SourceTargets(build: BuildInfo, setupId: nat, subdir: string, sources: seq<string>): seq<Target>
    decreases |sources|
  {
    if |sources| == 0 then []
    else
      var j := |sources| - 1;
      SourceTargets(build, setupId, subdir, sources[..j]) + UnitTargets(build, setupId, subdir, sources[j])
  }

  /** The targets of two runs of sources are those of the first run, then those of the second. */
  lemma {:induction false} SourceTargetsAppend(build: BuildInfo, setupId: nat, subdir: string, a: seq<string>, b: seq<string>)
    ensures SourceTargets(build, setupId, subdir, a + b)
      == SourceTargets(build, setupId, subdir, a) + SourceTargets(build, setupId, subdir, b)
    decreases |b|
  {
    if |b| == 0 {
      assert a + b == a;
      RunsAppend(SourceTargets(build, setupId, subdir, a), [], []);
    } else {
      var n := |b| - 1;
      assert a + b == (a + b[..n]) + [b[n]] && b == b[..n] + [b[n]];
      SourceTargetsSnoc(build, setupId, subdir, a + b[..n], b[n]);
      SourceTargetsSnoc(build, setupId, subdir, b[..n], b[n]);
      SourceTargetsAppend(build, setupId, subdir, a, b[..n]);
      RunsAppend(SourceTargets(build, setupId, subdir, a), SourceTargets(build, setupId, subdir, b[..n]),
                 UnitTargets(build, setupId, subdir, b[n]));
    }
  }

  /** Runs of targets concatenate in any grouping; an empty run adds nothing. */
  lemma RunsAppend(first: seq<Target>, rest: seq<Target>, last: seq<Target>)
    ensures (first + rest) + last == first + (rest + last)
    ensures first + [] == first
  {
  }

  /** One more source appends its targets. */
  lemma SourceTargetsSnoc(build: BuildInfo, setupId: nat, subdir: string, xs: seq<string>, x: string)
    ensures SourceTargets(build, setupId, subdir, xs + [x])
      == SourceTargets(build, setupId, subdir, xs) + UnitTargets(build, setupId, subdir, x)
  {
    assert (xs + [x])[..|xs|] == xs;
  }

  /** Each source's targets sit, in source order, between those of the sources before and after it. */
  lemma SourceTargetsLayout(build: BuildInfo, setupId: nat, subdir: string, sources: seq<string>, j: nat)
    requires j < |sources|
    ensures SourceTargets(build, setupId, subdir, sources)
      == SourceTargets(build, setupId, subdir, sources[..j])
        + UnitTargets(build, setupId, subdir, sources[j])
        + SourceTargets(build, setupId, subdir, sources[j + 1..])
  {
    assert sources == sources[..j] + [sources[j]] + sources[j + 1..];
    SourceTargetsAppend(build, setupId, subdir, sources[..j] + [sources[j]], sources[j + 1..]);
    SourceTargetsAppend(build, setupId, subdir, sources[..j], [sources[j]]);
    assert [sources[j]][..0] == [];
  }

  /** The rules set after one more source: EMIT_BMI for an interface, then COMPILE. */
  function UnitBits(build: BuildInfo, subdir: string, filename: string, bits: bv64): bv64
  {
    (if IsInterface(build, subdir, filename) then bits | Bit(EmitBmi) else bits) | Bit(Compile)
  }

  /** The rules set after a run of sources, starting from `bits`. */
  function SourceBits(build: BuildInfo, subdir: string, sources: seq<string>, bits: bv64): bv64
    decreases |sources|
  {
    if |sources| == 0 then bits
    else UnitBits(build, subdir, sources[|sources| - 1], SourceBits(build, subdir, sources[..|sources| - 1], bits))
  }

  /** Some source of the run exports a module. */
  predicate HasInterface(build: BuildInfo, subdir: string, sources: seq<string>)
  {
    exists i :: 0 <= i < |sources| && IsInterface(build, subdir, sources[i])
  }

  /**
   * Sources add COMPILE when there is one and EMIT_BMI when one is an
   * interface, and clear nothing.
   */
  lemma {:induction false} SourceBitsMeaning(build: BuildInfo, subdir: string, sources: seq<string>, bits: bv64, r: RuleType)
    ensures HasBit(SourceBits(build, subdir, sources, bits), r) <==>
      HasBit(bits, r) || (r == Compile && |sources| > 0) || (r == EmitBmi && HasInterface(build, subdir, sources))
    decreases |sources|
  {
    if |sources| > 0 {
      var n := |sources| - 1;
      var init := sources[..n];
      SourceBitsMeaning(build, subdir, init, bits, r);
      UnitBitsMeaning(build, subdir, sources[n], SourceBits(build, subdir, init, bits), r);
      assert HasInterface(build, subdir, sources) <==>
        HasInterface(build, subdir, init) || IsInterface(build, subdir, sources[n]) by {
        if HasInterface(build, subdir, sources) && !IsInterface(build, subdir, sources[n]) {
          var i :| 0 <= i < |sources| && IsInterface(build, subdir, sources[i]);
          assert i < n && init[i] == sources[i];
        }
        if HasInterface(build, subdir, init) {
          var i :| 0 <= i < n && IsInterface(build, subdir, init[i]);
          assert sources[i] == init[i];
        }
      }
    }
  }

  /** One more source adds COMPILE, and EMIT_BMI when it is an interface. */
  lemma UnitBitsMeaning(build: BuildInfo, subdir: string, filename: string, bits: bv64, r: RuleType)
    ensures HasBit(UnitBits(build, subdir, filename, bits), r) <==>
      HasBit(bits, r) || r == Compile || (r == EmitBmi && IsInterface(build, subdir, filename))
  {
    if IsInterface(build, subdir, filename) {
      assert UnitBits(build, subdir, filename, bits) == (bits | Bit(EmitBmi)) | Bit(Compile);
      EmitThenCompile(bits, r);
    } else {
      SetThenHas(bits, Compile, r);
    }
  }

  /** Setting EMIT_BMI and then COMPILE adds those two rules and clears none. */
  lemma EmitThenCompile(bits: bv64, r: RuleType)
    ensures HasBit((bits | Bit(EmitBmi)) | Bit(Compile), r) <==> HasBit(bits, r) || r == Compile || r == EmitBmi
  {
    var both := (bits | Bit(EmitBmi)) | Bit(Compile);
    SetThenHas(bits, EmitBmi, r);
    SetThenHas(bits | Bit(EmitBmi), Compile, r);
    // Each direction on its own: the solver is slow to close the equivalence in one step.
    assert HasBit(both, r) ==> HasBit(bits, r) || r == Compile || r == EmitBmi;
    assert HasBit(bits, r) || r == Compile || r == EmitBmi ==> HasBit(both, r);
  }

  /** The targets of one project: those of its sources, then the project's own. */
  function ProjectTargets(build: BuildInfo, ids: map<string, nat>, prj: Project, info: ProjectInfo): seq<Target>
  {
    SourceTargets(build, GetSetupId(prj.name, ids), info.subdir, info.sources) + [ProjectTarget(build, prj, info, ids)]
  }

  /** The targets of the first `k` projects. */
  function TargetsUpTo(build: BuildInfo, ids: map<string, nat>, k: nat): seq<Target>
    requires k <= |build.projects|
  {
    if k == 0 then []
    else TargetsUpTo(build, ids, k - 1) + ProjectTargets(build, ids, build.projects[k - 1].0, build.projects[k - 1].1)
  }

  /** The rules the first `k` projects need: those of their sources and each project's link rule. */
  function BitsUpTo(build: BuildInfo, k: nat): bv64
    requires k <= |build.projects|
  {
    if k == 0 then 0
    else
      var info := build.projects[k - 1].1;
      SourceBits(build, info.subdir, info.sources, BitsUpTo(build, k - 1)) | Bit(LinkRule(build.projects[k - 1].0.kind))
  }

  /**
   * Some of the first `k` projects has a source to compile (for COMPILE),
   * an interface source (for EMIT_BMI), or links with `r`.
   */
  predicate NeedsRule(build: BuildInfo, k: nat, r: RuleType)
    requires k <= |build.projects|
  {
    (r == Compile && exists j :: 0 <= j < k && |build.projects[j].1.sources| > 0)
    || (r == EmitBmi && exists j :: 0 <= j < k && HasInterface(build, build.projects[j].1.subdir, build.projects[j].1.sources))
    || (exists j :: 0 <= j < k && LinkRule(build.projects[j].0.kind) == r)
  }

  /** One more project adds what its sources and its link need and removes nothing. */
  lemma BitsUpToStep(build: BuildInfo, k: nat, r: RuleType)
    requires 0 < k <= |build.projects|
    ensures var info := build.projects[k - 1].1;
      HasBit(BitsUpTo(build, k), r) <==>
      HasBit(BitsUpTo(build, k - 1), r)
      || (r == Compile && |info.sources| > 0)
      || (r == EmitBmi && HasInterface(build, info.subdir, info.sources))
      || LinkRule(build.projects[k - 1].0.kind) == r
  {
    var info := build.projects[k - 1].1;
    var before := BitsUpTo(build, k - 1);
    var sb := SourceBits(build, info.subdir, info.sources, before);
    var link := LinkRule(build.projects[k - 1].0.kind);
    assert BitsUpTo(build, k) == sb | Bit(link);
    SourceBitsMeaning(build, info.subdir, info.sources, before, r);
    SetThenHas(sb, link, r);
  }

  /** One more project adds what it needs. */
  lemma NeedsRuleStep(build: BuildInfo, k: nat, r: RuleType)
    requires 0 < k <= |build.projects|
    ensures var info := build.projects[k - 1].1;
      NeedsRule(build, k, r) <==>
      NeedsRule(build, k - 1, r)
      || (r == Compile && |info.sources| > 0)
      || (r == EmitBmi && HasInterface(build, info.subdir, info.sources))
      || LinkRule(build.projects[k - 1].0.kind) == r
  {
    var ps := build.projects;
    if NeedsRule(build, k, r) && !NeedsRule(build, k - 1, r) {
      if r == Compile && exists j :: 0 <= j < k && |ps[j].1.sources| > 0 {
        var j :| 0 <= j < k && |ps[j].1.sources| > 0;
        assert j == k - 1;
      } else if r == EmitBmi && exists j :: 0 <= j < k && HasInterface(build, ps[j].1.subdir, ps[j].1.sources) {
        var j :| 0 <= j < k && HasInterface(build, ps[j].1.subdir, ps[j].1.sources);
        assert j == k - 1;
      } else {
        var j :| 0 <= j < k && LinkRule(ps[j].0.kind) == r;
        assert j == k - 1;
      }
    }
  }

  /** A rule is needed exactly when some project has a source, an interface, or a link that calls for it. */
  lemma {:induction false} BitsUpToMeaning(build: BuildInfo, k: nat, r: RuleType)
    requires k <= |build.projects|
    ensures HasBit(BitsUpTo(build, k), r) <==> NeedsRule(build, k, r)
  {
    if k == 0 {
      EmptyHasNothing(r);
    } else {
      BitsUpToMeaning(build, k - 1, r);
      BitsUpToStep(build, k, r);
      NeedsRuleStep(build, k, r);
    }
  }

  /** Clang's compiler: its path, and the `ar` and `ranlib` found on the PATH. */
  class ClangCompiler {
    const compiler: string
    const ar: string
    const ranlib: string

    /** `clang::clang`: only the path is kept; the tools come from the PATH search. */
    constructor (exec: string, arFound: string, ranlibFound: string)
      ensures compiler == exec && ar == arFound && ranlib == ranlibFound
    {
      compiler := exec;
      ar := arFound;
      ranlib := ranlibFound;
    }

    /** `clang::commands_for` */
    function CommandsFor(): RuleType -> seq<TemplatedString>
    {
      r => Commands(compiler, ar, ranlib, r)
    }

    /**
     * `clang::mapout`: register the projects, give each source its input,
     * interface and COMPILE targets and each project its link target, then
     * hand the generator the rules those targets need.
     */
    method Mapout(build: BuildInfo, gen: BuildGenerator)
      modifies gen
      ensures gen.setups == SetupsOf(build.projects)
      ensures gen.targets == TargetsUpTo(build, SetupIds(build.projects), |build.projects|)
      ensures gen.rules == NeededRules(BitsUpTo(build, |build.projects|), CommandsFor())
    {
      var ids := RegisterProjects(build, gen);
      var targets, bits := MapProjects(build, ids);
      AddRules(bits, CommandsFor(), gen);
      gen.SetTargets(targets);
    }
  }

  /** `mapout`'s loop over the projects: their targets and the rules they need. */
  method MapProjects(build: BuildInfo, ids: map<string, nat>) returns (targets: seq<Target>, bits: bv64)
    ensures targets == TargetsUpTo(build, ids, |build.projects|)
    ensures bits == BitsUpTo(build, |build.projects|)
  {
    targets := [];
    bits := 0;
    for k := 0 to |build.projects|
      invariant targets == TargetsUpTo(build, ids, k)
      invariant bits == BitsUpTo(build, k)
    {
      targets, bits := MapProject(build, ids, k, targets, bits);
    }
  }

  /** One turn of `mapout`'s loop over the projects. */
  method MapProject(build: BuildInfo, ids: map<string, nat>, k: nat, targets: seq<Target>, bits: bv64)
    returns (targets': seq<Target>, bits': bv64)
    requires k < |build.projects|
    requires targets == TargetsUpTo(build, ids, k) && bits == BitsUpTo(build, k)
    ensures targets' == TargetsUpTo(build, ids, k + 1) && bits' == BitsUpTo(build, k + 1)
  {
    var prj := build.projects[k].0;
    var info := build.projects[k].1;
    var setupId := GetSetupId(prj.name, ids);
    var objects, compiled := MapSources(build, setupId, info.subdir, info.sources, bits);
    var library := CreateProjectTarget(build, prj, info, ids);
    bits' := AddLinkBit(build, k, compiled, library);
    assert objects + [library] == ProjectTargets(build, ids, prj, info);
    targets' := targets + (objects + [library]);
  }

  /** The end of a turn: the project's link rule joins the rules needed. */
  method AddLinkBit(build: BuildInfo, k: nat, compiled: bv64, library: Target) returns (bits': bv64)
    requires k < |build.projects| && library.rule == Builtin(LinkRule(build.projects[k].0.kind))
    requires compiled == SourceBits(build, build.projects[k].1.subdir, build.projects[k].1.sources, BitsUpTo(build, k))
    ensures bits' == BitsUpTo(build, k + 1)
  {
    bits' := compiled | Bit(library.rule.rule);
  }

  /** The loop over one project's sources: their targets and the rules they need. */
  method MapSources(build: BuildInfo, setupId: nat, subdir: string, sources: seq<string>, bits: bv64)
    returns (targets: seq<Target>, bits': bv64)
    ensures targets == SourceTargets(build, setupId, subdir, sources)
    ensures bits' == SourceBits(build, subdir, sources, bits)
  {
    targets := [];
    bits' := bits;
    for j := 0 to |sources|
      invariant targets == SourceTargets(build, setupId, subdir, sources[..j])
      invariant bits' == SourceBits(build, subdir, sources[..j], bits)
    {
      var unit, unitBits := MapUnit(build, setupId, subdir, sources[j], bits');
      assert sources[..j + 1][..j] == sources[..j];
      targets := targets + unit;
      bits' := unitBits;
    }
    assert sources[..|sources|] == sources;
  }

  /** One source: its input target, its EMIT_BMI target when it is an interface, its COMPILE target. */
  method MapUnit(build: BuildInfo, setupId: nat, subdir: string, filename: string, bits: bv64)
    returns (targets: seq<Target>, bits': bv64)
    ensures targets == UnitTargets(build, setupId, subdir, filename)
    ensures bits' == UnitBits(build, subdir, filename, bits)
  {
    var srcfile := SourceKey(subdir, filename);
    targets := [SourceTarget(setupId, filename)];
    bits' := bits;
    if srcfile in build.exports {
      bits' := bits' | Bit(EmitBmi);
      targets := targets + [BmiTarget(build, setupId, build.exports[srcfile], filename)];
    }
    bits' := bits' | Bit(Compile);
    targets := targets + [ObjectTarget(build, setupId, subdir, filename)];
  }

  /**
   * The rules Clang hands the generator: COMPILE when some project has a
   * source, EMIT_BMI when some source is an interface, and the link rule of
   * every project, each with Clang's commands.
   */
  lemma MapoutRules(build: BuildInfo, commandsFor: RuleType -> seq<TemplatedString>, r: RuleType)
    ensures var rs := NeededRules(BitsUpTo(build, |build.projects|), commandsFor);
      (exists i :: 0 <= i < |rs| && rs[i].name == Builtin(r)) <==> NeedsRule(build, |build.projects|, r)
  {
    var bits := BitsUpTo(build, |build.projects|);
    var rs := NeededRules(bits, commandsFor);
    NeededRulesMeaning(bits, commandsFor, r);
    BitsUpToMeaning(build, |build.projects|, r);
    assert (exists i :: 0 <= i < |rs| && rs[i].name == Builtin(r)) <==> HasBit(bits, r);
  }
}
