/**
 * The Ninja back end: the text of `build.ninja` for the generator's rules,
 * project setups and targets.
 */
module Ninja {
  import opened Paths
  import opened Generator

  // ---------------------------------------------------------- names

  /** `varname`: how a placeholder is spelled in a Ninja rule. */
  function VarText(v: Var): string
  {
    match v
    case Input => "$in"
    case Output => "$out"
    case MainOutput => "$MAIN_OUTPUT"
    case LinkFlags => "$LINK_FLAGS"
    case LinkPath => "$LINK_PATH"
    case LinkLibrary => "$LINK_LIBRARY"
    case Defines => "$DEFINES"
    case CFlags => "$CFLAGS"
    case CxxFlags => "$CXXFLAGS"
  }

  /** Every placeholder becomes a Ninja variable reference of its own. */
  lemma VarTextMeaning(a: Var, b: Var)
    ensures |VarText(a)| > 1 && VarText(a)[0] == '$'
    ensures a != b ==> VarText(a) != VarText(b)
    ensures VarText(Input) == "$in" && VarText(Output) == "$out"
  {
  }

  /** One piece of a templated string as written; a named variable that was never resolved writes nothing. */
  function ArgText(a: Arg): string
  {
    match a
    case Str(text) => text
    case VarArg(v) => VarText(v)
    case Named(_) => ""
  }

  /** A templated string as written: its pieces one after another. */
  function TemplateText(t: TemplatedString): string
  {
    if |t| == 0 then "" else TemplateText(t[..|t| - 1]) + ArgText(t[|t| - 1])
  }

  /** `name2sv`: the Ninja name of a rule; empty for rules Ninja does not get. */
  function RuleLabel(name: RuleName): string
  {
    match name
    case Unnamed => ""
    case Custom(text) => text
    case Builtin(t) =>
      match t
      case Mkdir => ""
      case Compile => "cc"
      case EmitBmi => "bmi"
      case EmitInclude => ""
      case LinkStatic => "ar"
      case LinkSo => "link-so"
      case LinkMod => "link-macos-so"
      case LinkExecutable => "link-exe"
  }

  /**
   * A rule has no Ninja name exactly when it is unnamed, named by an empty
   * text, `MKDIR` (Ninja creates directories itself) or `EMIT_INCLUDE`
   * (absent from the switch); a custom name passes through.
   */
  lemma RuleLabelMeaning(name: RuleName)
    ensures RuleLabel(name) == "" <==>
      name.Unnamed? || name == Custom("") || name == Builtin(Mkdir) || name == Builtin(EmitInclude)
    ensures name.Custom? ==> RuleLabel(name) == name.name
    ensures RuleLabel(Builtin(Archive)) == "ar" && RuleLabel(Builtin(Compile)) == "cc"
  {
  }

  /** Built-in rules that Ninja gets have names of their own. */
  lemma BuiltinLabelsDistinct(a: RuleType, b: RuleType)
    requires RuleLabel(Builtin(a)) != "" && a != b
    ensures RuleLabel(Builtin(a)) != RuleLabel(Builtin(b))
  {
  }

  /** `ignorable`: only `MKDIR` targets are, their outputs being made by Ninja. */
  predicate Ignorable(name: RuleName)
  {
    name == Builtin(Mkdir)
  }

  // ---------------------------------------------------------- rules

  /** Pieces written with `sep` between neighbours. */
  function Joined(sep: string, parts: seq<string>): string
  {
    if |parts| == 0 then ""
    else if |parts| == 1 then parts[0]
    else Joined(sep, parts[..|parts| - 1]) + sep + parts[|parts| - 1]
  }

  function PartsLength(parts: seq<string>): nat
  {
    if |parts| == 0 then 0 else PartsLength(parts[..|parts| - 1]) + |parts[|parts| - 1]|
  }

  /** The joined text holds every piece and one separator between each two. */
  lemma {:induction false} JoinedLength(sep: string, parts: seq<string>)
    requires |parts| > 0
    ensures |Joined(sep, parts)| == PartsLength(parts) + (|parts| - 1) * |sep|
  {
    var n := |parts|;
    if n > 1 {
      JoinedLength(sep, parts[..n - 1]);
      assert (n - 1) * |sep| == (n - 2) * |sep| + |sep|;
    }
  }

  /** The commands of a rule, each as written. */
  function CommandTexts(cmds: seq<TemplatedString>): (r: seq<string>)
    ensures |r| == |cmds|
  {
    if |cmds| == 0 then [] else CommandTexts(cmds[..|cmds| - 1]) + [TemplateText(cmds[|cmds| - 1])]
  }

  /** The message of a rule: its own, or for a built-in rule without one, the default. */
  function Message(rule: Rule): TemplatedString
  {
    if |rule.message| == 0 && rule.name.Builtin? then DefaultMessage(rule.name.rule) else rule.message
  }

  /** The block a rule gets in `build.ninja`: nothing for a rule without a Ninja name. */
  function RuleBlock(rule: Rule): string
  {
    var ninjaName := RuleLabel(rule.name);
    if ninjaName == "" then ""
    else "rule " + ninjaName + "\n" + CommandLine(rule) + DescriptionLine(rule) + "\n"
  }

  /** The `command` line: the rule's commands joined by " && ". */
  function CommandLine(rule: Rule): string
  {
    "    command = " + Joined(" && ", CommandTexts(rule.commands)) + "\n"
  }

  /** The `description` line, when the rule has a message. */
  function DescriptionLine(rule: Rule): string
  {
    if |Message(rule)| == 0 then "" else "    description = " + TemplateText(Message(rule)) + "\n"
  }

  /**
   * A rule is written exactly when it has a Ninja name; a written built-in
   * rule always has a description line, its default message standing in
   * for a missing one.
   */
  lemma RuleBlockMeaning(rule: Rule)
    ensures RuleBlock(rule) == "" <==> RuleLabel(rule.name) == ""
    ensures RuleLabel(rule.name) != "" && rule.name.Builtin? ==> DescriptionLine(rule) != ""
    ensures rule.name.Builtin? && |rule.message| == 0 ==> Message(rule) == DefaultMessage(rule.name.rule)
  {
    if RuleLabel(rule.name) != "" {
      assert |RuleBlock(rule)| > 0;
    }
  }

  /** The templated string written piece by piece. */
  method WriteTemplate(t: TemplatedString) returns (text: string)
    ensures text == TemplateText(t)
  {
    text := "";
    for k := 0 to |t|
      invariant text == TemplateText(t[..k])
    {
      assert t[..k + 1][..k] == t[..k];
      text := text + ArgText(t[k]);
    }
    assert t[..|t|] == t;
  }

  /** The `command = ` loop: " && " before every command but the first. */
  method WriteCommands(cmds: seq<TemplatedString>) returns (text: string)
    ensures text == Joined(" && ", CommandTexts(cmds))
  {
    text := "";
    var first := true;
    for k := 0 to |cmds|
      invariant first <==> k == 0
      invariant text == Joined(" && ", CommandTexts(cmds[..k]))
    {
      assert cmds[..k + 1][..k] == cmds[..k];
      if first {
        first := false;
      } else {
        text := text + " && ";
      }
      var cmd := WriteTemplate(cmds[k]);
      text := text + cmd;
    }
    assert cmds[..|cmds|] == cmds;
  }

  /** One turn of the rule loop of `generate`. */
  method WriteRule(rule: Rule) returns (text: string)
    ensures text == RuleBlock(rule)
  {
    var ninjaName := RuleLabel(rule.name);
    if ninjaName == "" {
      return "";
    }
    var cmds := WriteCommands(rule.commands);
    var commandLine := "    command = " + cmds + "\n";
    var msg := rule.message;
    if |msg| == 0 && rule.name.Builtin? {
      msg := DefaultMessage(rule.name.rule);
    }
    var descriptionLine := "";
    if |msg| != 0 {
      var description := WriteTemplate(msg);
      descriptionLine := "    description = " + description + "\n";
    }
    text := "rule " + ninjaName + "\n" + commandLine + descriptionLine + "\n";
  }

  // ---------------------------------------------------------- files

  /** Every output a target declares. */
  function OutputsOf(t: Target): set<Artifact>
  {
    {t.mainOutput} + (set a | a in t.outputs.expl) + (set a | a in t.outputs.impl) + (set a | a in t.outputs.order)
  }

  /** The `ignored` set: the outputs of every ignorable target. */
  function Ignored(targets: seq<Target>): set<Artifact>
  {
    if |targets| == 0 then {}
    else Ignored(targets[..|targets| - 1]) + (if Ignorable(targets[|targets| - 1].rule) then OutputsOf(targets[|targets| - 1]) else {})
  }

  /** An artifact is ignored exactly when some `MKDIR` target outputs it. */
  lemma {:induction false} IgnoredMeaning(targets: seq<Target>, a: Artifact)
    ensures a in Ignored(targets) <==> exists i :: 0 <= i < |targets| && Ignorable(targets[i].rule) && a in OutputsOf(targets[i])
  {
    if |targets| > 0 {
      var init := targets[..|targets| - 1];
      IgnoredMeaning(init, a);
      if exists i :: 0 <= i < |targets| && Ignorable(targets[i].rule) && a in OutputsOf(targets[i]) {
        var i :| 0 <= i < |targets| && Ignorable(targets[i].rule) && a in OutputsOf(targets[i]);
        if i < |init| {
          assert init[i] == targets[i];
        }
      }
    }
  }

  /** The first target loop of `generate`. */
  method CollectIgnored(targets: seq<Target>) returns (ignored: set<Artifact>)
    ensures ignored == Ignored(targets)
  {
    ignored := {};
    for k := 0 to |targets|
      invariant ignored == Ignored(targets[..k])
    {
      assert targets[..k + 1][..k] == targets[..k];
      var t := targets[k];
      if Ignorable(t.rule) {
        ignored := ignored + {t.mainOutput};
        ignored := ignored + (set a | a in t.outputs.expl);
        ignored := ignored + (set a | a in t.outputs.impl);
        ignored := ignored + (set a | a in t.outputs.order);
      }
    }
    assert targets[..|targets|] == targets;
  }

  /** The inputs that are not ignored, in order. */
  function Surviving(xs: seq<Artifact>, ignored: set<Artifact>): seq<Artifact>
  {
    if |xs| == 0 then []
    else Surviving(xs[..|xs| - 1], ignored) + (if xs[|xs| - 1] in ignored then [] else [xs[|xs| - 1]])
  }

  /** An input survives exactly when it is listed and not ignored. */
  lemma {:induction false} SurvivingMeaning(xs: seq<Artifact>, ignored: set<Artifact>)
    ensures forall a :: a in Surviving(xs, ignored) <==> a in xs && a !in ignored
  {
    if |xs| > 0 {
      var init := xs[..|xs| - 1];
      SurvivingMeaning(init, ignored);
      assert xs == init + [xs[|xs| - 1]];
    }
  }

  /**
   * The outputs of `MKDIR` targets appear in no target's input lists as
   * written.
   */
  lemma MkdirOutputsNeverInputs(targets: seq<Target>, i: nat, j: nat, a: Artifact)
    requires i < |targets| && j < |targets|
    requires Ignorable(targets[i].rule) && a in OutputsOf(targets[i])
    ensures a !in Surviving(targets[j].inputs.expl, Ignored(targets))
    ensures a !in Surviving(targets[j].inputs.impl, Ignored(targets))
    ensures a !in Surviving(targets[j].inputs.order, Ignored(targets))
  {
    IgnoredMeaning(targets, a);
    SurvivingMeaning(targets[j].inputs.expl, Ignored(targets));
    SurvivingMeaning(targets[j].inputs.impl, Ignored(targets));
    SurvivingMeaning(targets[j].inputs.order, Ignored(targets));
  }

  /** The file of a reference may be named: its project setup exists. */
  predicate Known(a: Artifact, setups: seq<ProjectSetup>)
  {
    a.File? ==> a.file.prj < |setups|
  }

  predicate AllKnown(xs: seq<Artifact>, setups: seq<ProjectSetup>)
  {
    forall a :: a in xs ==> Known(a, setups)
  }

  /** `filename_from`: sources under the way back to the sources, objects under the object directory, linked files under the project. */
  function FileNameFrom(back: string, file: FileRef, setups: seq<ProjectSetup>): string
    requires file.prj < |setups|
  {
    var setup := setups[file.prj];
    match file.kind
    case InputFile => Join(Join(back, setup.subdir), file.path)
    case OutputFile => Join(Join(setup.subdir, setup.objdir), file.path)
    case LinkedFile => Join(setup.subdir, file.path)
    case _ => file.path
  }

  /** A relative piece without a separator at either end. */
  predicate Plain(s: string)
  {
    |s| > 0 && s[0] != '/' && s[|s| - 1] != '/'
  }

  /**
   * With plain pieces, a source is `back/subdir/path`, an object
   * `subdir/objdir/path` and a linked file `subdir/path`; header-module and
   * include references, and absolute paths of any kind, are kept as they are.
   */
  lemma FileNameFromMeaning(back: string, file: FileRef, setups: seq<ProjectSetup>)
    requires file.prj < |setups|
    ensures var s := setups[file.prj];
      Plain(back) && Plain(s.subdir) && Plain(file.path) ==>
        (file.kind == InputFile ==> FileNameFrom(back, file, setups) == back + "/" + s.subdir + "/" + file.path)
    ensures var s := setups[file.prj];
      Plain(s.subdir) && Plain(s.objdir) && Plain(file.path) ==>
        (file.kind == OutputFile ==> FileNameFrom(back, file, setups) == s.subdir + "/" + s.objdir + "/" + file.path)
    ensures var s := setups[file.prj];
      Plain(s.subdir) && Plain(file.path) ==>
        (file.kind == LinkedFile ==> FileNameFrom(back, file, setups) == s.subdir + "/" + file.path)
    ensures file.kind == HeaderModule || file.kind == IncludeFile ==> FileNameFrom(back, file, setups) == file.path
    ensures |file.path| > 0 && file.path[0] == '/' ==> FileNameFrom(back, file, setups) == file.path
  {
    var s := setups[file.prj];
    if Plain(back) && Plain(s.subdir) {
      var j := back + "/" + s.subdir;
      assert j[|j| - 1] == s.subdir[|s.subdir| - 1];
    }
    if Plain(s.subdir) && Plain(s.objdir) {
      var j := s.subdir + "/" + s.objdir;
      assert j[|j| - 1] == s.objdir[|s.objdir| - 1];
    }
  }

  /** `ninja::filename`: a file by `filename_from`, a module interface by its path. */
  function ArtifactName(back: string, a: Artifact, setups: seq<ProjectSetup>): string
    requires Known(a, setups)
  {
    match a
    case File(f) => FileNameFrom(back, f, setups)
    case Mod(m) => m.path
  }

  /** The names of the files, each after a space. */
  function Names(back: string, xs: seq<Artifact>, setups: seq<ProjectSetup>): string
    requires AllKnown(xs, setups)
  {
    if |xs| == 0 then ""
    else Names(back, xs[..|xs| - 1], setups) + " " + ArtifactName(back, xs[|xs| - 1], setups)
  }

  /** A list of inputs after its marker, or nothing at all when no input is left. */
  function Marked(mark: string, back: string, xs: seq<Artifact>, setups: seq<ProjectSetup>): string
    requires AllKnown(xs, setups)
  {
    if |xs| == 0 then "" else mark + Names(back, xs, setups)
  }

  /** The surviving inputs are known when all inputs are. */
  lemma SurvivingKnown(xs: seq<Artifact>, ignored: set<Artifact>, setups: seq<ProjectSetup>)
    requires AllKnown(xs, setups)
    ensures AllKnown(Surviving(xs, ignored), setups)
  {
    SurvivingMeaning(xs, ignored);
  }

  /** Every file of a target is known. */
  predicate TargetKnown(t: Target, setups: seq<ProjectSetup>)
  {
    && Known(t.mainOutput, setups)
    && AllKnown(t.outputs.expl, setups) && AllKnown(t.outputs.impl, setups) && AllKnown(t.outputs.order, setups)
    && AllKnown(t.inputs.expl, setups) && AllKnown(t.inputs.impl, setups) && AllKnown(t.inputs.order, setups)
  }

  /** The `build` line of a target: nothing for a target whose rule has no Ninja name. */
  function BuildLine(back: string, setups: seq<ProjectSetup>, ignored: set<Artifact>, t: Target): string
    requires TargetKnown(t, setups)
  {
    var ninjaName := RuleLabel(t.rule);
    if ninjaName == "" then ""
    else "build " + OutputsPart(back, setups, t) + ": " + ninjaName + InputsPart(back, setups, ignored, t) + "\n"
  }

  /** The outputs of a `build` line; " |" comes before implicit and order-only outputs when there are any. */
  function OutputsPart(back: string, setups: seq<ProjectSetup>, t: Target): string
    requires TargetKnown(t, setups)
  {
    ArtifactName(back, t.mainOutput, setups) + Names(back, t.outputs.expl, setups)
    + (if |t.outputs.impl| > 0 || |t.outputs.order| > 0 then " |" else "")
    + Names(back, t.outputs.impl, setups) + Names(back, t.outputs.order, setups)
  }

  /** The inputs of a `build` line, those made by ignorable targets left out. */
  function InputsPart(back: string, setups: seq<ProjectSetup>, ignored: set<Artifact>, t: Target): string
    requires TargetKnown(t, setups)
  {
    SurvivingKnown(t.inputs.expl, ignored, setups);
    SurvivingKnown(t.inputs.impl, ignored, setups);
    SurvivingKnown(t.inputs.order, ignored, setups);
    Names(back, Surviving(t.inputs.expl, ignored), setups)
    + Marked(" |", back, Surviving(t.inputs.impl, ignored), setups)
    + Marked(" ||", back, Surviving(t.inputs.order, ignored), setups)
  }

  /**
   * The implicit-input and order-only markers are written exactly when at
   * least one input of their list survives, and then come first.
   */
  lemma MarkerNeedsInput(mark: string, back: string, xs: seq<Artifact>, ignored: set<Artifact>, setups: seq<ProjectSetup>)
    requires AllKnown(xs, setups)
    ensures AllKnown(Surviving(xs, ignored), setups)
    ensures Marked(mark, back, Surviving(xs, ignored), setups) == "" <==> forall a :: a in xs ==> a in ignored
    ensures (exists a :: a in xs && a !in ignored) ==>
      Marked(mark, back, Surviving(xs, ignored), setups)[..|mark|] == mark
  {
    SurvivingKnown(xs, ignored, setups);
    SurvivingMeaning(xs, ignored);
    var s := Surviving(xs, ignored);
    if |s| > 0 {
      assert s[0] in s;
    }
  }

  /** A target is written exactly when its rule has a Ninja name; `MKDIR` and `EMIT_INCLUDE` targets never are. */
  lemma BuildLineMeaning(back: string, setups: seq<ProjectSetup>, ignored: set<Artifact>, t: Target)
    requires TargetKnown(t, setups)
    ensures BuildLine(back, setups, ignored, t) == "" <==> RuleLabel(t.rule) == ""
    ensures t.rule == Builtin(Mkdir) || t.rule == Builtin(EmitInclude) ==> BuildLine(back, setups, ignored, t) == ""
    ensures RuleLabel(t.rule) != "" ==> BuildLine(back, setups, ignored, t)[..6] == "build "
  {
    if RuleLabel(t.rule) != "" {
      var rest := OutputsPart(back, setups, t) + ": " + RuleLabel(t.rule) + InputsPart(back, setups, ignored, t) + "\n";
      assert BuildLine(back, setups, ignored, t) == "build " + rest;
    }
  }

  /** Keeping an input extends the survivors by it; skipping one leaves them as they were. */
  lemma SurvivingStep(xs: seq<Artifact>, k: nat, ignored: set<Artifact>)
    requires k < |xs|
    ensures xs[k] in ignored ==> Surviving(xs[..k + 1], ignored) == Surviving(xs[..k], ignored)
    ensures xs[k] !in ignored ==> Surviving(xs[..k + 1], ignored) == Surviving(xs[..k], ignored) + [xs[k]]
  {
    assert xs[..k + 1][..k] == xs[..k];
    assert Surviving(xs[..k], ignored) + [] == Surviving(xs[..k], ignored);
  }

  /** Naming one more file adds a space and its name. */
  lemma NamesSnoc(back: string, s: seq<Artifact>, x: Artifact, setups: seq<ProjectSetup>)
    requires AllKnown(s, setups) && Known(x, setups)
    ensures AllKnown(s + [x], setups)
    ensures Names(back, s + [x], setups) == Names(back, s, setups) + " " + ArtifactName(back, x, setups)
  {
    assert (s + [x])[..|s|] == s;
  }

  /** The explicit-input loop: every surviving input after a space. */
  method WriteInputs(back: string, xs: seq<Artifact>, setups: seq<ProjectSetup>, ignored: set<Artifact>)
    returns (text: string)
    requires AllKnown(xs, setups)
    ensures AllKnown(Surviving(xs, ignored), setups)
    ensures text == Names(back, Surviving(xs, ignored), setups)
  {
    text := "";
    for k := 0 to |xs|
      invariant AllKnown(Surviving(xs[..k], ignored), setups)
      invariant text == Names(back, Surviving(xs[..k], ignored), setups)
    {
      SurvivingStep(xs, k, ignored);
      if xs[k] in ignored {
        continue;
      }
      NamesSnoc(back, Surviving(xs[..k], ignored), xs[k], setups);
      text := text + " " + ArtifactName(back, xs[k], setups);
    }
    assert xs[..|xs|] == xs;
  }

  /** The implicit and order-only input loops: the marker before the first surviving input only. */
  method WriteMarked(mark: string, back: string, xs: seq<Artifact>, setups: seq<ProjectSetup>, ignored: set<Artifact>)
    returns (text: string)
    requires AllKnown(xs, setups)
    ensures AllKnown(Surviving(xs, ignored), setups)
    ensures text == Marked(mark, back, Surviving(xs, ignored), setups)
  {
    text := "";
    var first := true;
    for k := 0 to |xs|
      invariant AllKnown(Surviving(xs[..k], ignored), setups)
      invariant first <==> |Surviving(xs[..k], ignored)| == 0
      invariant text == Marked(mark, back, Surviving(xs[..k], ignored), setups)
    {
      SurvivingStep(xs, k, ignored);
      if xs[k] in ignored {
        continue;
      }
      NamesSnoc(back, Surviving(xs[..k], ignored), xs[k], setups);
      if first {
        first := false;
        text := text + mark;
      }
      text := text + " " + ArtifactName(back, xs[k], setups);
    }
    assert xs[..|xs|] == xs;
  }

  /** The output loops: every output after a space. */
  method WriteOutputs(back: string, xs: seq<Artifact>, setups: seq<ProjectSetup>) returns (text: string)
    requires AllKnown(xs, setups)
    ensures text == Names(back, xs, setups)
  {
    text := "";
    for k := 0 to |xs|
      invariant text == Names(back, xs[..k], setups)
    {
      assert xs[..k + 1][..k] == xs[..k];
      text := text + " " + ArtifactName(back, xs[k], setups);
    }
    assert xs[..|xs|] == xs;
  }

  /** One turn of the second target loop of `generate`. */
  method WriteBuild(back: string, setups: seq<ProjectSetup>, ignored: set<Artifact>, t: Target) returns (text: string)
    requires TargetKnown(t, setups)
    ensures text == BuildLine(back, setups, ignored, t)
  {
    var ninjaName := RuleLabel(t.rule);
    if ninjaName == "" {
      return "";
    }
    var outExpl := WriteOutputs(back, t.outputs.expl, setups);
    var bar := if |t.outputs.impl| > 0 || |t.outputs.order| > 0 then " |" else "";
    var outImpl := WriteOutputs(back, t.outputs.impl, setups);
    var outOrder := WriteOutputs(back, t.outputs.order, setups);
    var outputs := ArtifactName(back, t.mainOutput, setups) + outExpl + bar + outImpl + outOrder;
    var inExpl := WriteInputs(back, t.inputs.expl, setups, ignored);
    var inImpl := WriteMarked(" |", back, t.inputs.impl, setups, ignored);
    var inOrder := WriteMarked(" ||", back, t.inputs.order, setups, ignored);
    var inputs := inExpl + inImpl + inOrder;
    text := "build " + outputs + ": " + ninjaName + inputs + "\n";
  }

  // ---------------------------------------------------------- the file

  const Header: string := "CXXFLAGS = -std=c++20 -O0 -g\n\n"

  function RulesText(rules: seq<Rule>): string
  {
    if |rules| == 0 then "" else RulesText(rules[..|rules| - 1]) + RuleBlock(rules[|rules| - 1])
  }

  function BuildsText(back: string, setups: seq<ProjectSetup>, ignored: set<Artifact>, targets: seq<Target>): string
    requires forall t :: t in targets ==> TargetKnown(t, setups)
  {
    if |targets| == 0 then ""
    else BuildsText(back, setups, ignored, targets[..|targets| - 1]) + BuildLine(back, setups, ignored, targets[|targets| - 1])
  }

  /** The rule loop of `generate`. */
  method WriteRules(rules: seq<Rule>) returns (text: string)
    ensures text == RulesText(rules)
  {
    text := "";
    for k := 0 to |rules|
      invariant text == RulesText(rules[..k])
    {
      assert rules[..k + 1][..k] == rules[..k];
      var block := WriteRule(rules[k]);
      text := text + block;
    }
    assert rules[..|rules|] == rules;
  }

  /** The second target loop of `generate`. */
  method WriteBuilds(back: string, setups: seq<ProjectSetup>, ignored: set<Artifact>, targets: seq<Target>)
    returns (text: string)
    requires forall t :: t in targets ==> TargetKnown(t, setups)
    ensures text == BuildsText(back, setups, ignored, targets)
  {
    text := "";
    for k := 0 to |targets|
      invariant text == BuildsText(back, setups, ignored, targets[..k])
    {
      assert targets[..k + 1][..k] == targets[..k];
      var line := WriteBuild(back, setups, ignored, targets[k]);
      text := text + line;
    }
    assert targets[..|targets|] == targets;
  }

  /**
   * `ninja::generate`: the flags line, a block per rule Ninja gets, then a
   * `build` line per target Ninja gets, inputs made by `MKDIR` targets left out.
   */
  method Generate(g: BuildGenerator, back: string) returns (text: string)
    requires forall t :: t in g.targets ==> TargetKnown(t, g.setups)
    ensures text == Header + RulesText(g.rules) + BuildsText(back, g.setups, Ignored(g.targets), g.targets)
  {
    var body := WriteRules(g.rules);
    var ignored := CollectIgnored(g.targets);
    var builds := WriteBuilds(back, g.setups, ignored, g.targets);
    text := Header + body + builds;
  }
}
