/**
 * The compiler description reader: variable and rule names, the rule map,
 * and the parser's stack of element handlers.
 */
module XmlParser {
  import opened Wrappers
  import opened SortedSets
  import opened Generator
  import opened EnvPath
  import opened CommandSplit
  import opened XmlTypes
  import opened XmlHandlers

  // ---------------------------------------------------------- variables

  /** The spelling of each `var` in the `VAR` list. */
  function VarName(v: Var): string
  {
    match v
    case Input => "INPUT"
    case Output => "OUTPUT"
    case MainOutput => "MAIN_OUTPUT"
    case LinkFlags => "LINK_FLAGS"
    case LinkPath => "LINK_PATH"
    case LinkLibrary => "LINK_LIBRARY"
    case Defines => "DEFINES"
    case CFlags => "CFLAGS"
    case CxxFlags => "CXXFLAGS"
  }

  /** The `CASE` chain of `vars_from`: the variable spelled `name`, if any. */
  function VarFromName(name: string): (r: Option<Var>)
    ensures r.Some? ==> VarName(r.value) == name
    ensures r.None? ==> forall v :: VarName(v) != name
  {
    if name == "INPUT" then Some(Input)
    else if name == "OUTPUT" then Some(Output)
    else if name == "MAIN_OUTPUT" then Some(MainOutput)
    else if name == "LINK_FLAGS" then Some(LinkFlags)
    else if name == "LINK_PATH" then Some(LinkPath)
    else if name == "LINK_LIBRARY" then Some(LinkLibrary)
    else if name == "DEFINES" then Some(Defines)
    else if name == "CFLAGS" then Some(CFlags)
    else if name == "CXXFLAGS" then Some(CxxFlags)
    else None
  }

  /** Every variable is found by its own spelling. */
  lemma VarNamesRoundTrip(v: Var)
    ensures VarFromName(VarName(v)) == Some(v)
  {
    match v
    case Input =>
    case Output =>
    case MainOutput =>
    case LinkFlags =>
    case LinkPath =>
    case LinkLibrary =>
    case Defines =>
    case CFlags =>
    case CxxFlags =>
  }

  /** One argument of `vars_from`: a named variable spelling a `var` becomes that `var`. */
  function ConvertArg(a: Arg): Arg
  {
    if a.Named? then
      match VarFromName(a.name)
      case Some(v) => VarArg(v)
      case None => a
    else a
  }

  function ConvertArgs(args: TemplatedString): (r: TemplatedString)
    ensures |r| == |args| && forall i :: 0 <= i < |args| ==> r[i] == ConvertArg(args[i])
  {
    if |args| == 0 then [] else ConvertArgs(args[..|args| - 1]) + [ConvertArg(args[|args| - 1])]
  }

  /**
   * `vars_from` keeps the number and order of arguments: strings and `var`s
   * stay, a named variable spelling a `var` becomes it, any other stays named.
   */
  lemma ConvertArgsMeaning(args: TemplatedString)
    ensures |ConvertArgs(args)| == |args|
    ensures forall i :: 0 <= i < |args| ==>
      var r := ConvertArgs(args)[i];
      && (!args[i].Named? ==> r == args[i])
      && (args[i].Named? && VarFromName(args[i].name).None? ==> r == args[i])
      && (forall v :: args[i] == Named(VarName(v)) ==> r == VarArg(v))
  {
    forall i, v | 0 <= i < |args| && args[i] == Named(VarName(v))
      ensures ConvertArgs(args)[i] == VarArg(v)
    {
      VarNamesRoundTrip(v);
    }
  }

  /** `vars_from` of a command: the tool kept, the arguments converted. */
  method VarsFrom(cmd: Command) returns (result: Command)
    ensures result == Command(cmd.tool, ConvertArgs(cmd.args))
  {
    var args: TemplatedString := [];
    for k := 0 to |cmd.args|
      invariant args == ConvertArgs(cmd.args[..k])
    {
      assert cmd.args[..k + 1][..k] == cmd.args[..k];
      var arg := cmd.args[k];
      if arg.Str? || arg.VarArg? {
        args := args + [arg];
      } else {
        var v := VarFromName(arg.name);
        if v.Some? {
          args := args + [VarArg(v.value)];
        } else {
          args := args + [arg];
        }
      }
    }
    assert cmd.args[..|cmd.args|] == cmd.args;
    result := Command(cmd.tool, args);
  }

  function ConvertCommands(cmds: seq<Command>): (r: seq<Command>)
    ensures |r| == |cmds| && forall i :: 0 <= i < |cmds| ==> r[i] == Command(cmds[i].tool, ConvertArgs(cmds[i].args))
  {
    if |cmds| == 0 then [] else ConvertCommands(cmds[..|cmds| - 1]) + [Command(cmds[|cmds| - 1].tool, ConvertArgs(cmds[|cmds| - 1].args))]
  }

  /** `vars_from` of a rule's commands, one by one. */
  method VarsFromAll(cmds: seq<Command>) returns (result: seq<Command>)
    ensures result == ConvertCommands(cmds)
  {
    result := [];
    for k := 0 to |cmds|
      invariant result == ConvertCommands(cmds[..k])
    {
      assert cmds[..k + 1][..k] == cmds[..k];
      var c := VarsFrom(cmds[k]);
      result := result + [c];
    }
    assert cmds[..|cmds|] == cmds;
  }

  // ---------------------------------------------------------- rules

  /** The spelling of each rule in the `RULE` list; `ARCHIVE` is not in it. */
  function RuleSpelling(r: RuleType): string
  {
    match r
    case Mkdir => "MKDIR"
    case Compile => "COMPILE"
    case EmitBmi => "EMIT_BMI"
    case EmitInclude => "EMIT_INCLUDE"
    case LinkStatic => "LINK_STATIC"
    case LinkSo => "LINK_SO"
    case LinkMod => "LINK_MOD"
    case LinkExecutable => "LINK_EXECUTABLE"
  }

  /** `rule_from`: the rule spelled `name`, or nothing. */
  function RuleFrom(name: string): (r: Option<RuleType>)
    ensures r.Some? ==> RuleSpelling(r.value) == name
    ensures r.None? ==> forall t :: RuleSpelling(t) != name
  {
    if name == "MKDIR" then Some(Mkdir)
    else if name == "COMPILE" then Some(Compile)
    else if name == "EMIT_BMI" then Some(EmitBmi)
    else if name == "EMIT_INCLUDE" then Some(EmitInclude)
    else if name == "LINK_STATIC" then Some(LinkStatic)
    else if name == "LINK_SO" then Some(LinkSo)
    else if name == "LINK_MOD" then Some(LinkMod)
    else if name == "LINK_EXECUTABLE" then Some(LinkExecutable)
    else None
  }

  /** Every rule is found by its own spelling, and by no other; the alias "ARCHIVE" is unknown. */
  lemma RuleFromMeaning(t: RuleType, name: string)
    ensures RuleFrom(name) == Some(t) <==> name == RuleSpelling(t)
    ensures RuleFrom("ARCHIVE") == None
  {
    match t
    case Mkdir =>
    case Compile =>
    case EmitBmi =>
    case EmitInclude =>
    case LinkStatic =>
    case LinkSo =>
    case LinkMod =>
    case LinkExecutable =>
  }

  /** `std::map<rule_type, ...>` orders its keys by value. */
  const RuleOrder: (RuleType, RuleType) -> bool := (a: RuleType, b: RuleType) => a.Ordinal() < b.Ordinal()

  lemma RuleOrderIsStrict()
    ensures IsStrictTotalOrder(RuleOrder)
  {
    forall a: RuleType, b: RuleType
      ensures a == b || RuleOrder(a, b) || RuleOrder(b, a)
    {
      AllRulesInOrder(a);
      AllRulesInOrder(b);
    }
  }

  /** `PutMeaning` for the rule map. */
  lemma PutRule(res: seq<(RuleType, seq<Command>)>, t: RuleType, v: seq<Command>)
    requires KeysAscending(res, RuleOrder)
    ensures KeysAscending(Put(res, t, v, RuleOrder), RuleOrder)
    ensures Lookup(Put(res, t, v, RuleOrder), t) == Some(v)
    ensures forall q :: q != t ==> Lookup(Put(res, t, v, RuleOrder), q) == Lookup(res, q)
  {
    RuleOrderIsStrict();
    PutMeaning(res, t, v, RuleOrder);
  }

  /** The first loop of `rules_from`: every named rule converted, or nothing once a name is unknown. */
  function Converted(rules: seq<(string, seq<Command>)>): Option<seq<(RuleType, seq<Command>)>>
  {
    if |rules| == 0 then Some([])
    else match Converted(rules[..|rules| - 1])
      case None => None
      case Some(res) =>
        match RuleFrom(rules[|rules| - 1].0)
        case None => None
        case Some(t) => Some(Put(res, t, ConvertCommands(rules[|rules| - 1].1), RuleOrder))
  }

  /** The second loop of `rules_from`: an empty entry for each listed rule that has none. */
  function Filled(res: seq<(RuleType, seq<Command>)>, ids: seq<RuleType>): seq<(RuleType, seq<Command>)>
  {
    if |ids| == 0 then res
    else
      var before := Filled(res, ids[..|ids| - 1]);
      if Lookup(before, ids[|ids| - 1]).None? then Put(before, ids[|ids| - 1], [], RuleOrder) else before
  }

  /** `rules_from` */
  function RulesOf(rules: seq<(string, seq<Command>)>): Option<seq<(RuleType, seq<Command>)>>
  {
    match Converted(rules)
    case None => None
    case Some(res) => Some(Filled(res, AllRules))
  }

  /** The conversion fails exactly when some rule name is unknown. */
  lemma {:induction false} ConvertedFails(rules: seq<(string, seq<Command>)>)
    ensures Converted(rules).None? <==> exists i :: 0 <= i < |rules| && RuleFrom(rules[i].0).None?
  {
    if |rules| > 0 {
      var init := rules[..|rules| - 1];
      ConvertedFails(init);
      if exists i :: 0 <= i < |init| && RuleFrom(init[i].0).None? {
        var i :| 0 <= i < |init| && RuleFrom(init[i].0).None?;
        assert rules[i] == init[i];
      } else if RuleFrom(rules[|rules| - 1].0).Some? {
        forall i | 0 <= i < |rules|
          ensures RuleFrom(rules[i].0).Some?
        {
          if i < |init| {
            assert rules[i] == init[i];
          }
        }
      }
    }
  }

  /** A successful conversion files each known rule's converted commands under it, and nothing under any other rule. */
  lemma {:induction false} ConvertedEntries(rules: seq<(string, seq<Command>)>)
    requires KeysAscending(rules, StringOrder) && Converted(rules).Some?
    ensures KeysAscending(Converted(rules).value, RuleOrder)
    ensures forall i, t :: 0 <= i < |rules| && RuleFrom(rules[i].0) == Some(t) ==>
      Lookup(Converted(rules).value, t) == Some(ConvertCommands(rules[i].1))
    ensures forall t :: (forall i :: 0 <= i < |rules| ==> RuleFrom(rules[i].0) != Some(t)) ==>
      Lookup(Converted(rules).value, t).None?
  {
    if |rules| > 0 {
      var init := rules[..|rules| - 1];
      var last := rules[|rules| - 1];
      assert KeysAscending(init, StringOrder) by {
        forall i, j | 0 <= i < j < |init|
          ensures StringOrder(init[i].0, init[j].0)
        {
          assert init[i] == rules[i] && init[j] == rules[j];
        }
      }
      ConvertedEntries(init);
      var res := Converted(init).value;
      var t := RuleFrom(last.0).value;
      PutRule(res, t, ConvertCommands(last.1));
      forall i, u | 0 <= i < |init| && RuleFrom(init[i].0) == Some(u)
        ensures u != t
      {
        assert StringOrder(rules[i].0, rules[|rules| - 1].0);
        StringOrderIsStrict();
      }
      var r := Put(res, t, ConvertCommands(last.1), RuleOrder);
      assert Converted(rules) == Some(r);
      forall i, u | 0 <= i < |rules| && RuleFrom(rules[i].0) == Some(u)
        ensures Lookup(r, u) == Some(ConvertCommands(rules[i].1))
      {
        if i < |init| {
          assert rules[i] == init[i];
          assert u != t;
          assert Lookup(r, u) == Lookup(res, u);
        } else {
          assert i == |rules| - 1;
        }
      }
      forall u | forall i :: 0 <= i < |rules| ==> RuleFrom(rules[i].0) != Some(u)
        ensures Lookup(Converted(rules).value, u).None?
      {
        forall i | 0 <= i < |init|
          ensures RuleFrom(init[i].0) != Some(u)
        {
          assert rules[i] == init[i];
        }
        assert RuleFrom(rules[|rules| - 1].0) != Some(u);
      }
    }
  }

  /** Filling adds an empty entry for each listed rule that had none, and keeps every other entry. */
  lemma {:induction false} FilledMeaning(res: seq<(RuleType, seq<Command>)>, ids: seq<RuleType>)
    requires KeysAscending(res, RuleOrder)
    ensures KeysAscending(Filled(res, ids), RuleOrder)
    ensures forall t ::
      Lookup(Filled(res, ids), t) == (if Lookup(res, t).Some? then Lookup(res, t) else if t in ids then Some([]) else None)
  {
    if |ids| > 0 {
      var init := ids[..|ids| - 1];
      var id := ids[|ids| - 1];
      FilledMeaning(res, init);
      var before := Filled(res, init);
      if Lookup(before, id).None? {
        PutRule(before, id, []);
      }
      assert forall t :: t in ids <==> t in init || t == id;
    }
  }

  /**
   * `rules_from` fails exactly on an unknown rule name; otherwise every rule
   * has an entry: the converted commands of its element, or none.
   */
  lemma RulesOfMeaning(rules: seq<(string, seq<Command>)>, t: RuleType)
    requires KeysAscending(rules, StringOrder)
    ensures RulesOf(rules).None? <==> exists i :: 0 <= i < |rules| && RuleFrom(rules[i].0).None?
    ensures RulesOf(rules).Some? ==>
      && KeysAscending(RulesOf(rules).value, RuleOrder)
      && Lookup(RulesOf(rules).value, t) ==
         (if exists i :: 0 <= i < |rules| && rules[i].0 == RuleSpelling(t)
          then Some(ConvertCommands(rules[RuleIndex(rules, t)].1))
          else Some([]))
  {
    ConvertedFails(rules);
    if Converted(rules).Some? {
      ConvertedEntries(rules);
      FilledMeaning(Converted(rules).value, AllRules);
      AllRulesInOrder(t);
      if exists i :: 0 <= i < |rules| && rules[i].0 == RuleSpelling(t) {
        var i := RuleIndex(rules, t);
        RuleFromMeaning(t, rules[i].0);
      } else {
        forall i | 0 <= i < |rules|
          ensures RuleFrom(rules[i].0) != Some(t)
        {
          RuleFromMeaning(t, rules[i].0);
        }
      }
    }
  }

  /** Where the element of a rule is, when there is one. */
  function RuleIndex(rules: seq<(string, seq<Command>)>, t: RuleType): (i: nat)
    requires exists i :: 0 <= i < |rules| && rules[i].0 == RuleSpelling(t)
    ensures i < |rules| && rules[i].0 == RuleSpelling(t)
  {
    if rules[|rules| - 1].0 == RuleSpelling(t) then |rules| - 1 else RuleIndex(rules[..|rules| - 1], t)
  }

  /** `rules_from`, with its two loops. */
  method RulesFrom(rules: seq<(string, seq<Command>)>) returns (result: Option<seq<(RuleType, seq<Command>)>>)
    ensures result == RulesOf(rules)
  {
    var res: seq<(RuleType, seq<Command>)> := [];
    for k := 0 to |rules|
      invariant Converted(rules[..k]) == Some(res)
    {
      assert rules[..k + 1][..k] == rules[..k];
      var t := RuleFrom(rules[k].0);
      if t.None? {
        ConvertedStaysNone(rules, k + 1);
        assert rules[..|rules|] == rules;
        return None;
      }
      var converted := VarsFromAll(rules[k].1);
      res := Put(res, t.value, converted, RuleOrder);
    }
    assert rules[..|rules|] == rules;
    var filled := res;
    for k := 0 to |AllRules|
      invariant filled == Filled(res, AllRules[..k])
    {
      assert AllRules[..k + 1][..k] == AllRules[..k];
      var rule := AllRules[k];
      if Lookup(filled, rule).None? {
        filled := Put(filled, rule, [], RuleOrder);
      }
    }
    assert AllRules[..|AllRules|] == AllRules;
    result := Some(filled);
  }

  /** Once an unknown name is met, the conversion has failed whatever follows. */
  lemma {:induction false} ConvertedStaysNone(rules: seq<(string, seq<Command>)>, k: nat)
    requires k <= |rules| && Converted(rules[..k]).None?
    ensures Converted(rules).None?
    decreases |rules| - k
  {
    if k < |rules| {
      assert rules[..k + 1][..k] == rules[..k];
      ConvertedStaysNone(rules, k + 1);
    } else {
      assert rules[..k] == rules;
    }
  }

  // ---------------------------------------------------------- the parser

  /** The handlers on the parser's stack; a child handler holds the handler it writes to. */
  datatype Handler =
    | DocumentH
    | CompilerH
    | IdentH
    | BmiCacheH
    | RulesH
    | IncludeDirsH(cmd: CommandHandlerBase)
    | RuleH(rule: RuleHandler)
    | CommandH(cmd: CommandHandlerBase, parent: RuleHandler)
    | VarH(target: CommandHandlerBase)
    | CxxH(target: CommandHandlerBase)
    | ToolH(target: CommandHandlerBase)

  /** The objects a handler may write to. */
  function Objects(h: Handler): set<object>
  {
    match h
    case IncludeDirsH(c) => {c}
    case RuleH(r) => {r}
    case CommandH(c, r) => {c, r}
    case VarH(c) => {c}
    case CxxH(c) => {c}
    case ToolH(c) => {c}
    case _ => {}
  }

  /** What a handler is, apart from the objects it writes to. */
  datatype Kind = DocumentK | CompilerK | IdentK | BmiCacheK | RulesK | IncludeDirsK | RuleK | CommandK | VarK | CxxK | ToolK

  function KindOf(h: Handler): Kind
  {
    match h
    case DocumentH => DocumentK
    case CompilerH => CompilerK
    case IdentH => IdentK
    case BmiCacheH => BmiCacheK
    case RulesH => RulesK
    case IncludeDirsH(_) => IncludeDirsK
    case RuleH(_) => RuleK
    case CommandH(_, _) => CommandK
    case VarH(_) => VarK
    case CxxH(_) => CxxK
    case ToolH(_) => ToolK
  }

  function KindOfSome(h: Option<Handler>): Option<Kind>
  {
    match h
    case Some(v) => Some(KindOf(v))
    case None => None
  }

  /** The handlers that read a command: `include_dirs_handler` and `command_handler`. */
  predicate ReadsCommand(h: Handler)
  {
    h.IncludeDirsH? || h.CommandH?
  }

  /** Whether the command a handler reads already has its tool; false for every other handler. */
  function ToolKnown(h: Handler): bool
    reads Objects(h)
  {
    ReadsCommand(h) && h.cmd.hasTool
  }

  /**
   * The kind of handler `onChild` creates for the child element `name` of a
   * handler of kind `top`; `toolKnown` says whether a command handler's tool
   * is known. This is the shape of a compiler description: each element is
   * accepted under exactly one parent, and the leaves accept nothing.
   */
  function ChildKind(top: Kind, toolKnown: bool, name: string): (r: Option<Kind>)
    ensures r == Some(CompilerK) <==> top == DocumentK && name == "compiler"
    ensures r == Some(IdentK) <==> top == CompilerK && name == "ident"
    ensures r == Some(BmiCacheK) <==> top == CompilerK && name == "bmi-cache"
    ensures r == Some(IncludeDirsK) <==> top == CompilerK && name == "include-dirs"
    ensures r == Some(RulesK) <==> top == CompilerK && name == "rules"
    ensures r == Some(RuleK) <==> top == RulesK && name == "rule"
    ensures r == Some(CommandK) <==> top == RuleK && name == "command"
    ensures r == Some(VarK) <==> (top == IncludeDirsK || top == CommandK) && toolKnown && name == "var"
    ensures r == Some(CxxK) <==> (top == IncludeDirsK || top == CommandK) && !toolKnown && name == "cxx"
    ensures r == Some(ToolK) <==> (top == IncludeDirsK || top == CommandK) && !toolKnown && name == "tool"
    ensures r != Some(DocumentK)
  {
    match top
    case DocumentK => if DocumentChild(name).Some? then Some(CompilerK) else None
    case CompilerK =>
      (match CompilerChild(name)
       case Some(IdentElement) => Some(IdentK)
       case Some(BmiCacheElement) => Some(BmiCacheK)
       case Some(IncludeDirsElement) => Some(IncludeDirsK)
       case Some(RulesElement) => Some(RulesK)
       case _ => None)
    case RulesK => if RulesChild(name).Some? then Some(RuleK) else None
    case RuleK => if RuleChild(name).Some? then Some(CommandK) else None
    case IncludeDirsK => CommandChildKind(toolKnown, name)
    case CommandK => CommandChildKind(toolKnown, name)
    case _ => None
  }

  /** `command_handler_base::onChild`: only `var` once the tool is known, only `cxx` and `tool` before. */
  function CommandChildKind(toolKnown: bool, name: string): Option<Kind>
  {
    if toolKnown then (if name == "var" then Some(VarK) else None)
    else if name == "cxx" then Some(CxxK)
    else if name == "tool" then Some(ToolK)
    else None
  }

  /**
   * `onChild` of the handler on top of the stack: a handler of the kind
   * `ChildKind` names, writing to the top's command or rule, or to a fresh
   * one; a command handler pushes its pending text first.
   */
  method Child(top: Handler, name: string) returns (next: Option<Handler>)
    modifies Objects(top)
    ensures KindOfSome(next) == ChildKind(KindOf(top), old(ToolKnown(top)), name)
    ensures next.Some? ==> forall o :: o in Objects(next.value) ==> fresh(o) || o in Objects(top)
    ensures next.Some? && (next.value.IncludeDirsH? || next.value.CommandH?) ==>
      fresh(next.value.cmd) && next.value.cmd.current == NoCommand && next.value.cmd.text == "" && !next.value.cmd.hasTool
    ensures next.Some? && next.value.RuleH? ==> fresh(next.value.rule) && next.value.rule.ruleName == "" && next.value.rule.commands == []
    ensures next.Some? && next.value.CommandH? ==> top.RuleH? && next.value.parent == top.rule
    ensures next.Some? && (next.value.VarH? || next.value.CxxH? || next.value.ToolH?) ==> ReadsCommand(top) && next.value.target == top.cmd
    ensures ReadsCommand(top) && old(top.cmd.hasTool) ==>
      top.cmd.current == Command(old(top.cmd.current.tool), old(top.cmd.current.args) + [Str(ProcessedText(old(top.cmd.text)))])
      && top.cmd.text == "" && top.cmd.hasTool
    ensures ReadsCommand(top) && !old(top.cmd.hasTool) ==> unchanged(top.cmd)
    ensures !ReadsCommand(top) ==> unchanged(Objects(top))
  {
    if ReadsCommand(top) {
      next := CommandChildOf(top.cmd, name);
    } else {
      next := StructureChild(top, name);
    }
  }

  /** `onChild` of the handlers that do not read a command: each accepts its one kind of child, or nothing. */
  method StructureChild(top: Handler, name: string) returns (next: Option<Handler>)
    requires !ReadsCommand(top)
    ensures KindOfSome(next) == ChildKind(KindOf(top), false, name)
    ensures next.Some? ==> forall o :: o in Objects(next.value) ==> fresh(o) || o in Objects(top)
    ensures next.Some? && next.value.IncludeDirsH? ==>
      fresh(next.value.cmd) && next.value.cmd.current == NoCommand && next.value.cmd.text == "" && !next.value.cmd.hasTool
    ensures next.Some? && next.value.CommandH? ==>
      fresh(next.value.cmd) && next.value.cmd.current == NoCommand && next.value.cmd.text == "" && !next.value.cmd.hasTool
      && top.RuleH? && next.value.parent == top.rule
    ensures next.Some? && next.value.RuleH? ==> fresh(next.value.rule) && next.value.rule.ruleName == "" && next.value.rule.commands == []
  {
    match top {
      case DocumentH =>
        if DocumentChild(name).Some? {
          return Some(CompilerH);
        }
      case CompilerH =>
        match CompilerChild(name) {
          case Some(IdentElement) => return Some(IdentH);
          case Some(BmiCacheElement) => return Some(BmiCacheH);
          case Some(IncludeDirsElement) =>
            var c := new CommandHandlerBase();
            return Some(IncludeDirsH(c));
          case Some(RulesElement) => return Some(RulesH);
          case _ =>
        }
      case RulesH =>
        if RulesChild(name).Some? {
          var r := new RuleHandler();
          return Some(RuleH(r));
        }
      case RuleH(r) =>
        if RuleChild(name).Some? {
          var c := new CommandHandlerBase();
          return Some(CommandH(c, r));
        }
      case _ =>
    }
    return None;
  }

  /** `command_handler_base::onChild`, with the child handler writing to the command. */
  method CommandChildOf(c: CommandHandlerBase, name: string) returns (next: Option<Handler>)
    modifies c
    ensures KindOfSome(next) == CommandChildKind(old(c.hasTool), name)
    ensures next.Some? ==> (next.value.VarH? || next.value.CxxH? || next.value.ToolH?) && next.value.target == c
    ensures old(c.hasTool) ==>
      c.current == Command(old(c.current.tool), old(c.current.args) + [Str(ProcessedText(old(c.text)))]) && c.text == "" && c.hasTool
    ensures !old(c.hasTool) ==> unchanged(c)
  {
    var child := c.OnChild(name);
    match child {
      case Some(VarChild) => return Some(VarH(c));
      case Some(CxxChild) => return Some(CxxH(c));
      case Some(ToolChild) => return Some(ToolH(c));
      case None => return None;
    }
  }

  /** The configuration once a handler of kind `k` has read its element's attributes. */
  function Configured(out: FactoryConfig, k: Kind, attrs: Attrs): FactoryConfig
  {
    match k
    case IdentK => out.(ident := IdentAttrs(out.ident, attrs))
    case BmiCacheK => out.(bmiDecl := BmiAttrs(out.bmiDecl, attrs))
    case IncludeDirsK => out.(includeDirs := IncludeDirsAttrs(out.includeDirs, attrs))
    case _ => out
  }

  /**
   * `onElement` of a new handler: `ident`, `bmi-cache` and `include-dirs`
   * fill their part of the configuration; `rule` takes its name; `var`,
   * `cxx` and `tool` write to the command they belong to.
   */
  method Begin(h: Handler, config: XmlConfig, attrs: Attrs)
    modifies config, Objects(h)
    ensures config.out == Configured(old(config.out), KindOf(h), attrs) && config.strRules == old(config.strRules)
    ensures h.RuleH? ==> h.rule.ruleName == ValueOr(attrs, "id", old(h.rule.ruleName)) && h.rule.commands == old(h.rule.commands)
    ensures h.VarH? ==>
      h.target.current == Command(old(h.target.current.tool), old(h.target.current.args) + NamesOf(attrs))
      && h.target.text == old(h.target.text) && h.target.hasTool == old(h.target.hasTool)
    ensures h.CxxH? ==> h.target.hasTool && h.target.current == Command(Tool(true, ""), old(h.target.current.args)) && h.target.text == old(h.target.text)
    ensures h.ToolH? ==>
      && h.target.text == old(h.target.text)
      && (match LastTool(attrs)
       case Some(v) => h.target.hasTool && h.target.current == Command(Tool(false, v), old(h.target.current.args))
       case None => h.target.hasTool == old(h.target.hasTool) && h.target.current == old(h.target.current))
    ensures !(h.RuleH? || h.VarH? || h.CxxH? || h.ToolH?) ==> unchanged(Objects(h))
  {
    match h {
      case IdentH => config.IdentElement(attrs);
      case BmiCacheH => config.BmiCacheElement(attrs);
      case IncludeDirsH(_) => config.IncludeDirsElement(attrs);
      case RuleH(r) => r.OnElement(attrs);
      case VarH(c) => c.VarElement(attrs);
      case CxxH(c) => c.CxxElement();
      case ToolH(c) => c.ToolElement(attrs);
      case _ =>
    }
  }

  /**
   * `onStop` of a handler leaving the stack: `include-dirs` with a tool
   * becomes the include listing command, a finished `rule` is filed under
   * its name, and a finished `command` with a tool joins its rule.
   */
  method Stop(h: Handler, config: XmlConfig)
    requires config.Valid()
    modifies config, Objects(h)
    ensures config.Valid()
    ensures ReadsCommand(h) && old(h.cmd.hasTool) ==>
      h.cmd.current == Command(old(h.cmd.current.tool), TrimLast(old(h.cmd.current.args) + [Str(ProcessedText(old(h.cmd.text)))]))
    ensures ReadsCommand(h) && !old(h.cmd.hasTool) ==> h.cmd.current == old(h.cmd.current)
    ensures h.IncludeDirsH? && old(h.cmd.hasTool) ==>
      config.out == old(config.out).(includeDirs := old(config.out.includeDirs).(filter := h.cmd.current))
      && config.strRules == old(config.strRules)
    ensures h.RuleH? ==>
      config.strRules == Put(old(config.strRules), h.rule.ruleName, h.rule.commands, StringOrder) && config.out == old(config.out)
      && unchanged(h.rule)
    ensures h.CommandH? ==>
      h.parent.commands == old(h.parent.commands) + (if old(h.cmd.hasTool) then [h.cmd.current] else [])
      && h.parent.ruleName == old(h.parent.ruleName)
    ensures !(h.RuleH? || (h.IncludeDirsH? && old(h.cmd.hasTool))) ==> config.out == old(config.out) && config.strRules == old(config.strRules)
  {
    match h {
      case IncludeDirsH(c) => config.IncludeDirsStopped(c);
      case RuleH(r) => r.OnStop(config);
      case CommandH(c, r) => r.CommandStopped(c);
      case _ =>
    }
  }

  /** `onCharacter` of the handler on top of the stack: only a command handler whose tool is known keeps the text. */
  method Character(h: Handler, data: string)
    modifies Objects(h)
    ensures ReadsCommand(h) ==>
      h.cmd.text == (if old(h.cmd.hasTool) then old(h.cmd.text) + data else old(h.cmd.text))
      && h.cmd.current == old(h.cmd.current) && h.cmd.hasTool == old(h.cmd.hasTool)
    ensures !ReadsCommand(h) ==> unchanged(Objects(h))
  {
    match h {
      case IncludeDirsH(c) => c.OnCharacter(data);
      case CommandH(c, _) => c.OnCharacter(data);
      case _ =>
    }
  }

  /** The events the XML reader reports, in document order. */
  datatype Event = StartElement(name: string, attrs: Attrs) | EndElement | CharacterData(data: string)

  /** How many elements are open after the events. */
  function Opened(events: seq<Event>): int
  {
    if |events| == 0 then 0
    else Opened(events[..|events| - 1]) + (match events[|events| - 1] case StartElement(_, _) => 1 case EndElement => -1 case _ => 0)
  }

  /** `parser`: the handler stack, the depth inside elements no handler accepted, and the configuration. */
  class Parser {
    var handlers: seq<Handler>
    var ignoreDepth: nat
    const config: XmlConfig
    ghost var Repr: set<object>

    /** The document handler stays at the bottom, and every handler's objects are in the footprint. */
    ghost predicate Valid()
      reads this, config
    {
      && |handlers| >= 1 && handlers[0] == DocumentH
      && this !in Repr && config !in Repr
      && config.Valid()
      && (forall h :: h in handlers ==> Objects(h) <= Repr)
    }

    constructor (out: FactoryConfig)
      ensures Valid() && fresh(config) && fresh(Repr)
      ensures handlers == [DocumentH] && ignoreDepth == 0 && config.out == out && config.strRules == []
    {
      config := new XmlConfig(out);
      handlers := [DocumentH];
      ignoreDepth := 0;
      Repr := {};
    }

    /** The handler on top of the stack. */
    function Top(): Handler
      reads this
      requires |handlers| > 0
    {
      handlers[|handlers| - 1]
    }

    /**
     * `onStartElement`: inside an ignored element only the depth grows; an
     * element the top handler accepts gets a handler of the kind `ChildKind`
     * names, which reads the element's attributes before it is pushed; any
     * other element starts being ignored.
     */
    method OnStartElement(name: string, attrs: Attrs)
      requires Valid()
      modifies this, config, Repr
      ensures Valid() && fresh(Repr - old(Repr))
      ensures old(ignoreDepth) > 0 ==>
        ignoreDepth == old(ignoreDepth) + 1 && handlers == old(handlers) && unchanged(config) && Repr == old(Repr) && unchanged(Repr)
      ensures old(ignoreDepth) == 0 ==>
        var k := ChildKind(KindOf(old(Top())), old(ToolKnown(Top())), name);
        && (k.None? ==> ignoreDepth == 1 && handlers == old(handlers) && config.out == old(config.out))
        && (k.Some? ==>
              && ignoreDepth == 0 && |handlers| == |old(handlers)| + 1 && handlers[..|old(handlers)|] == old(handlers)
              && KindOf(Top()) == k.value && config.out == Configured(old(config.out), k.value, attrs))
        && config.strRules == old(config.strRules)
      ensures old(ignoreDepth) == 0 && |handlers| > |old(handlers)| && Top().RuleH? ==>
        Top().rule.ruleName == ValueOr(attrs, "id", "") && Top().rule.commands == []
    {
      if ignoreDepth == 0 {
        Accept(name, attrs);
      } else {
        ignoreDepth := ignoreDepth + 1;
      }
    }

    /** `onStartElement` outside any ignored element. */
    method Accept(name: string, attrs: Attrs)
      requires Valid() && ignoreDepth == 0
      modifies this, config, Repr
      ensures Valid() && fresh(Repr - old(Repr))
      ensures var k := ChildKind(KindOf(old(Top())), old(ToolKnown(Top())), name);
        && (k.None? ==> ignoreDepth == 1 && handlers == old(handlers) && config.out == old(config.out))
        && (k.Some? ==>
              && ignoreDepth == 0 && |handlers| == |old(handlers)| + 1 && handlers[..|old(handlers)|] == old(handlers)
              && KindOf(Top()) == k.value && config.out == Configured(old(config.out), k.value, attrs))
        && config.strRules == old(config.strRules)
      ensures |handlers| > |old(handlers)| && Top().RuleH? ==> Top().rule.ruleName == ValueOr(attrs, "id", "") && Top().rule.commands == []
    {
      var top := handlers[|handlers| - 1];
      ghost var k := ChildKind(KindOf(top), ToolKnown(top), name);
      ghost var out := config.out;
      var next := Child(top, name);
      assert KindOfSome(next) == k && config.out == out;
      if next.Some? {
        Begin(next.value, config, attrs);
        assert config.out == Configured(out, k.value, attrs);
        handlers := handlers + [next.value];
        Repr := Repr + Objects(next.value);
      } else {
        ignoreDepth := 1;
      }
    }

    /**
     * `onEndElement`: inside an ignored element only the depth shrinks;
     * otherwise the top handler leaves the stack and stops: a finished rule
     * is filed under its name, a finished `include-dirs` with a tool becomes
     * the include listing command, a finished command with a tool joins its
     * rule.
     */
    method OnEndElement()
      requires Valid() && (ignoreDepth > 0 || |handlers| > 1)
      modifies this, config, Repr
      ensures Valid() && Repr == old(Repr)
      ensures old(ignoreDepth) > 0 ==>
        ignoreDepth == old(ignoreDepth) - 1 && handlers == old(handlers) && unchanged(config) && unchanged(Repr)
      ensures old(ignoreDepth) == 0 ==> ignoreDepth == 0 && handlers == old(handlers)[..|old(handlers)| - 1]
      ensures old(ignoreDepth) == 0 ==>
        var h := old(Top());
        && (ReadsCommand(h) && old(h.cmd.hasTool) ==>
              h.cmd.current == Command(old(h.cmd.current.tool), TrimLast(old(h.cmd.current.args) + [Str(ProcessedText(old(h.cmd.text)))])))
        && (h.IncludeDirsH? && old(h.cmd.hasTool) ==>
              config.out == old(config.out).(includeDirs := old(config.out.includeDirs).(filter := h.cmd.current)))
        && (h.RuleH? ==> config.strRules == Put(old(config.strRules), old(h.rule.ruleName), old(h.rule.commands), StringOrder))
        && (h.CommandH? ==> h.parent.commands == old(h.parent.commands) + (if old(h.cmd.hasTool) then [h.cmd.current] else []))
        && (!(h.RuleH? || (h.IncludeDirsH? && old(h.cmd.hasTool))) ==> config.out == old(config.out) && config.strRules == old(config.strRules))
    {
      if ignoreDepth > 0 {
        ignoreDepth := ignoreDepth - 1;
        return;
      }
      var current := handlers[|handlers| - 1];
      handlers := handlers[..|handlers| - 1];
      Stop(current, config);
    }

    /** `onCharacterData`: ignored inside an ignored element, otherwise given to the top handler, where only a command whose tool is known keeps it. */
    method OnCharacterData(data: string)
      requires Valid()
      modifies Repr
      ensures Valid() && handlers == old(handlers) && ignoreDepth == old(ignoreDepth)
      ensures old(ignoreDepth) == 0 && ReadsCommand(Top()) ==>
        Top().cmd.text == (if old(Top().cmd.hasTool) then old(Top().cmd.text) + data else old(Top().cmd.text))
        && Top().cmd.current == old(Top().cmd.current)
      ensures old(ignoreDepth) > 0 || !ReadsCommand(Top()) ==> unchanged(Repr)
      ensures unchanged(config)
    {
      if ignoreDepth > 0 {
        return;
      }
      Character(handlers[|handlers| - 1], data);
    }

    /** The callback the reader calls for one event; an element opens or closes one level either way. */
    method Dispatch(e: Event)
      requires Valid() && (e.EndElement? ==> ignoreDepth > 0 || |handlers| > 1)
      modifies this, config, Repr
      ensures Valid() && fresh(Repr - old(Repr))
      ensures |handlers| + ignoreDepth == old(|handlers| + ignoreDepth) + (match e case StartElement(_, _) => 1 case EndElement => -1 case _ => 0)
    {
      match e {
        case StartElement(name, attrs) => OnStartElement(name, attrs);
        case EndElement => OnEndElement();
        case CharacterData(data) => OnCharacterData(data);
      }
    }
  }

  /**
   * `load` after the reader has reported `events`: the description must be
   * for a GCC-compatible compiler and name known rules only; the rule map
   * then has an entry for every rule.
   */
  method Load(events: seq<Event>, out: FactoryConfig) returns (r: Option<FactoryConfig>)
    requires forall k :: 0 <= k <= |events| ==> Opened(events[..k]) >= 0
    ensures r.Some? ==> r.value.ident.compat == "gcc"
    ensures r.Some? ==> KeysAscending(r.value.rules, RuleOrder) && forall t :: Lookup(r.value.rules, t).Some?
  {
    var p := new Parser(out);
    for k := 0 to |events|
      invariant p.Valid() && fresh(p.config) && fresh(p.Repr)
      invariant |p.handlers| - 1 + p.ignoreDepth == Opened(events[..k])
    {
      assert events[..k + 1][..k] == events[..k];
      assert Opened(events[..k + 1]) >= 0;
      p.Dispatch(events[k]);
    }
    var cfg := p.config.out;
    if cfg.ident.compat != "gcc" {
      return None;
    }
    var rules := RulesFrom(p.config.strRules);
    if rules.None? {
      return None;
    }
    forall t
      ensures KeysAscending(rules.value, RuleOrder) && Lookup(rules.value, t).Some?
    {
      RulesOfMeaning(p.config.strRules, t);
    }
    return Some(cfg.(rules := rules.value));
  }
}
