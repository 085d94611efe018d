/**
 * The element handlers of the compiler description reader: what each
 * element does to the command being read, to the rule holding it, and to
 * the configuration being filled.
 */
module XmlHandlers {
  import opened Wrappers
  import opened Utils
  import opened SortedSets
  import opened Generator
  import opened EnvPath
  import opened CommandSplit
  import opened XmlTypes

  /** An element's attributes, as (name, value) pairs in document order. */
  type Attrs = seq<(string, string)>

  /** `handler_interface::boolVal`: only "false", "no" and "0" are false. */
  predicate BoolVal(value: string)
  {
    value != "false" && value != "no" && value != "0"
  }

  /** The three spellings of false, and a few of the values, the empty one included, that read as true. */
  lemma BoolValCases()
    ensures !BoolVal("false") && !BoolVal("no") && !BoolVal("0")
    ensures BoolVal("") && BoolVal("true") && BoolVal("yes") && BoolVal("1") && BoolVal("False")
  {
    assert "False" != "false" by {
      assert "False"[0] != "false"[0];
    }
  }

  /** The value of the last attribute named `key`: the one the handlers' loops leave in place. */
  function LastValue(attrs: Attrs, key: string): (r: Option<string>)
    ensures r.Some? ==> (key, r.value) in attrs
    ensures r.None? ==> forall i :: 0 <= i < |attrs| ==> attrs[i].0 != key
  {
    if |attrs| == 0 then None
    else if attrs[|attrs| - 1].0 == key then Some(attrs[|attrs| - 1].1)
    else LastValue(attrs[..|attrs| - 1], key)
  }

  /** An attribute's value, or what the field held before when the attribute is absent. */
  function ValueOr(attrs: Attrs, key: string, otherwise: string): string
  {
    match LastValue(attrs, key)
    case Some(v) => v
    case None => otherwise
  }

  // ---------------------------------------------------------- text

  /** `spaced`: the stripped text, with one space in front and one behind as asked. */
  function Spaced(stripped: string, needsPre: bool, needsPost: bool): (r: string)
    ensures var pre := if needsPre then 1 else 0;
      && |r| == pre + |stripped| + (if needsPost then 1 else 0)
      && r[pre..pre + |stripped|] == stripped
      && (needsPre ==> r[0] == ' ')
      && (needsPost ==> r[|r| - 1] == ' ')
  {
    (if needsPre then " " else "") + stripped + (if needsPost then " " else "")
  }

  /** What `processText` pushes for a text: stripped, flagged by the white space lost on either side. */
  function ProcessedText(text: string): string
  {
    var left := LStrip(text);
    var right := RStrip(left);
    Spaced(right, |left| != |text|, |left| != |right|)
  }

  /**
   * The pushed text starts with a space exactly when the text started with
   * white space, ends with one exactly when the text ended with white space,
   * and strips to the stripped text.
   */
  lemma ProcessedTextMeaning(text: string)
    ensures var r := ProcessedText(text);
      && ((|r| > 0 && r[0] == ' ') <==> (|text| > 0 && IsSpace(text[0])))
      && ((|r| > 0 && r[|r| - 1] == ' ') <==> (|text| > 0 && IsSpace(text[|text| - 1])))
      && Strip(r) == RStrip(LStrip(text))
  {
    var left := LStrip(text);
    var right := RStrip(left);
    LStripMeaning(text);
    RStripMeaning(left);
    var r := ProcessedText(text);
    var pre := |left| != |text|;
    var post := |left| != |right|;
    assert r == Spaced(right, pre, post);
    if |text| > 0 && IsSpace(text[0]) {
      assert pre;
    }
    if pre {
      assert IsSpace(text[0]);
    }
    if |right| > 0 {
      assert text[|text| - |left|..][..|right|] == right;
      assert text[|text| - 1] == left[|left| - 1];
      if !post {
        assert r[|r| - 1] == right[|right| - 1];
      }
    }
    StripSpaced(right, pre, post);
  }

  /** Stripping undoes `spaced` on a text with no white space at its ends. */
  lemma StripSpaced(s: string, pre: bool, post: bool)
    requires |s| == 0 || (!IsSpace(s[0]) && !IsSpace(s[|s| - 1]))
    ensures Strip(Spaced(s, pre, post)) == s
  {
    var front := (if pre then " " else "") + s;
    var r := Spaced(s, pre, post);
    assert r == front + (if post then " " else "");
    if post {
      assert r[..|r| - 1] == front;
    }
    assert RStrip(r) == RStrip(front);
    if |s| > 0 {
      RStripNoop(front);
      if pre {
        assert front[1..] == s;
      }
      LStripNoop(s);
    } else if pre {
      assert front == " " && front[..0] == "";
    }
  }

  /** One trailing space removed, if there is one. */
  function TrimmedText(str: string): string
  {
    if |str| > 0 && str[|str| - 1] == ' ' then str[..|str| - 1] else str
  }

  /** What `onStop` does to the arguments: one trailing space trimmed from a final string, which goes when empty. */
  function TrimLast(args: TemplatedString): TemplatedString
  {
    if |args| == 0 || !args[|args| - 1].Str? then args
    else
      var trimmed := TrimmedText(args[|args| - 1].text);
      if |trimmed| == 0 then args[..|args| - 1] else args[..|args| - 1] + [Str(trimmed)]
  }

  /** Trimming the pushed text leaves the stripped text, behind its leading space if it had one. */
  lemma TrimmedProcessedText(text: string)
    ensures var s := RStrip(LStrip(text));
      TrimmedText(ProcessedText(text)) == if |s| == 0 then "" else (if |text| > 0 && IsSpace(text[0]) then " " else "") + s
  {
    var left := LStrip(text);
    var s := RStrip(left);
    LStripMeaning(text);
    RStripMeaning(left);
    var pre := |left| != |text|;
    var post := |left| != |s|;
    var p := ProcessedText(text);
    var front := (if pre then " " else "") + s;
    assert p == front + (if post then " " else "");
    if post {
      assert p[..|p| - 1] == front;
    } else if |s| > 0 {
      assert p[|p| - 1] == s[|s| - 1];
    }
    if pre {
      assert IsSpace(text[0]);
    } else if |text| > 0 {
      assert !IsSpace(text[0]);
    }
    if |s| == 0 && pre {
      assert front == " ";
    }
  }

  /**
   * Closing a command after text: text that is only white space leaves no
   * argument; any other ends the command stripped on the right, with its
   * leading space kept.
   */
  lemma ClosingText(args: TemplatedString, text: string)
    ensures var s := RStrip(LStrip(text));
      TrimLast(args + [Str(ProcessedText(text))]) ==
        if |s| == 0 then args else args + [Str((if |text| > 0 && IsSpace(text[0]) then " " else "") + s)]
  {
    var all := args + [Str(ProcessedText(text))];
    assert all[..|all| - 1] == args;
    TrimmedProcessedText(text);
  }

  // ---------------------------------------------------------- attributes

  /** The named variables a `var` element's loop pushes: one per "name" attribute, in order. */
  function NamesOf(attrs: Attrs): TemplatedString
  {
    if |attrs| == 0 then []
    else NamesOf(attrs[..|attrs| - 1]) + (if attrs[|attrs| - 1].0 == "name" then [Named(attrs[|attrs| - 1].1)] else [])
  }

  /** Every pushed variable comes from a "name" attribute, and every "name" attribute gives one. */
  lemma {:induction false} NamesOfMeaning(attrs: Attrs)
    ensures forall i :: 0 <= i < |NamesOf(attrs)| ==> NamesOf(attrs)[i].Named? && ("name", NamesOf(attrs)[i].name) in attrs
    ensures forall a :: a in attrs && a.0 == "name" ==> Named(a.1) in NamesOf(attrs)
  {
    if |attrs| > 0 {
      var init := attrs[..|attrs| - 1];
      NamesOfMeaning(init);
      assert attrs == init + [attrs[|attrs| - 1]];
      var r := NamesOf(attrs);
      forall i | 0 <= i < |r|
        ensures r[i].Named? && ("name", r[i].name) in attrs
      {
        if i < |NamesOf(init)| {
          assert r[i] == NamesOf(init)[i];
        }
      }
    }
  }

  /** The value of the last "which" or "PATH" attribute: the tool a `tool` element names. */
  function LastTool(attrs: Attrs): (r: Option<string>)
    ensures r.Some? ==> ("which", r.value) in attrs || ("PATH", r.value) in attrs
    ensures r.None? ==> forall i :: 0 <= i < |attrs| ==> attrs[i].0 != "which" && attrs[i].0 != "PATH"
  {
    if |attrs| == 0 then None
    else if attrs[|attrs| - 1].0 == "which" || attrs[|attrs| - 1].0 == "PATH" then Some(attrs[|attrs| - 1].1)
    else LastTool(attrs[..|attrs| - 1])
  }

  /** The turn of `include_dirs_handler::onElement` for one attribute. */
  function IncludeDirsStep(d: IncludeDirs, attr: (string, string)): IncludeDirs
  {
    if attr.0 == "output" then d.(output := if attr.1 == "stdout" then UseStdout else UseStderr)
    else if attr.0 == "start" then d.(filterStart := attr.1)
    else if attr.0 == "stop" then d.(filterStop := attr.1)
    else d
  }

  function IncludeDirsAttrs(d: IncludeDirs, attrs: Attrs): IncludeDirs
  {
    if |attrs| == 0 then d else IncludeDirsStep(IncludeDirsAttrs(d, attrs[..|attrs| - 1]), attrs[|attrs| - 1])
  }

  /** The last "output", "start" and "stop" attributes decide; "stdout" selects standard output, any other value standard error. */
  lemma {:induction false} IncludeDirsAttrsMeaning(d: IncludeDirs, attrs: Attrs)
    ensures var r := IncludeDirsAttrs(d, attrs);
      && r.output == (match LastValue(attrs, "output") case Some(v) => (if v == "stdout" then UseStdout else UseStderr) case None => d.output)
      && r.filterStart == ValueOr(attrs, "start", d.filterStart)
      && r.filterStop == ValueOr(attrs, "stop", d.filterStop)
      && r.filter == d.filter
  {
    if |attrs| > 0 {
      IncludeDirsAttrsMeaning(d, attrs[..|attrs| - 1]);
    }
  }

  /** The turn of `bmi_cache_handler::onElement` for one attribute. */
  function BmiStep(b: BmiDecl, attr: (string, string)): BmiDecl
  {
    if attr.0 == "dirname" then b.(dirname := attr.1)
    else if attr.0 == "ext" then b.(ext := attr.1)
    else if attr.0 == "type" then b.(kind := if attr.1 == "side-effect" then SideEffect else Direct)
    else if attr.0 == "partitions" then b.(supportsPartition := BoolVal(attr.1))
    else b
  }

  function BmiAttrs(b: BmiDecl, attrs: Attrs): BmiDecl
  {
    if |attrs| == 0 then b else BmiStep(BmiAttrs(b, attrs[..|attrs| - 1]), attrs[|attrs| - 1])
  }

  /** The last attribute of each name decides; "side-effect" is the only type that is not direct. */
  lemma {:induction false} BmiAttrsMeaning(b: BmiDecl, attrs: Attrs)
    ensures var r := BmiAttrs(b, attrs);
      && r.dirname == ValueOr(attrs, "dirname", b.dirname)
      && r.ext == ValueOr(attrs, "ext", b.ext)
      && r.kind == (match LastValue(attrs, "type") case Some(v) => (if v == "side-effect" then SideEffect else Direct) case None => b.kind)
      && r.supportsPartition == (match LastValue(attrs, "partitions") case Some(v) => BoolVal(v) case None => b.supportsPartition)
  {
    if |attrs| > 0 {
      BmiAttrsMeaning(b, attrs[..|attrs| - 1]);
    }
  }

  /** The turn of `ident_handler::onElement` for one attribute. */
  function IdentStep(id: Ident, attr: (string, string)): Ident
  {
    if attr.0 == "compat" then id.(compat := attr.1)
    else if attr.0 == "exe" then id.(exe := attr.1)
    else if attr.0 == "name" then id.(name := attr.1)
    else if attr.0 == "guard" then id.(guard := attr.1)
    else if attr.0 == "version" then id.(version := attr.1)
    else if attr.0 == "find-tripple" then id.(findTripple := BoolVal(attr.1))
    else id
  }

  function IdentAttrs(id: Ident, attrs: Attrs): Ident
  {
    if |attrs| == 0 then id else IdentStep(IdentAttrs(id, attrs[..|attrs| - 1]), attrs[|attrs| - 1])
  }

  /** The compatibility, the executable and the name each take the value of the last attribute of their name. */
  lemma {:induction false} IdentNamesMeaning(id: Ident, attrs: Attrs)
    ensures var r := IdentAttrs(id, attrs);
      && r.compat == ValueOr(attrs, "compat", id.compat)
      && r.exe == ValueOr(attrs, "exe", id.exe)
      && r.name == ValueOr(attrs, "name", id.name)
  {
    if |attrs| > 0 {
      IdentNamesMeaning(id, attrs[..|attrs| - 1]);
    }
  }

  /** The guard, the version and the triple search each take the value of the last attribute of their name. */
  lemma {:induction false} IdentMacrosMeaning(id: Ident, attrs: Attrs)
    ensures var r := IdentAttrs(id, attrs);
      && r.guard == ValueOr(attrs, "guard", id.guard)
      && r.version == ValueOr(attrs, "version", id.version)
      && r.findTripple == (match LastValue(attrs, "find-tripple") case Some(v) => BoolVal(v) case None => id.findTripple)
  {
    if |attrs| > 0 {
      IdentMacrosMeaning(id, attrs[..|attrs| - 1]);
    }
  }

  // ---------------------------------------------------------- handlers

  /** The handlers `command_handler_base::onChild` creates. */
  datatype CommandChild = VarChild | CxxChild | ToolChild

  /** `command_handler_base`: the command being read, its pending text, and whether its tool is known. */
  class CommandHandlerBase {
    var current: Command
    var text: string
    var hasTool: bool

    constructor ()
      ensures current == NoCommand && text == "" && !hasTool
    {
      current := NoCommand;
      text := "";
      hasTool := false;
    }

    /** `processText`: the pending text becomes a string argument, and is cleared. */
    method ProcessText()
      modifies this
      ensures current == Command(old(current.tool), old(current.args) + [Str(ProcessedText(old(text)))])
      ensures text == "" && hasTool == old(hasTool)
    {
      var view := text;
      var origLength := |view|;
      view := LStripSv(view);
      var leftLength := |view|;
      view := RStripSv(view);
      var rightLength := |view|;
      current := current.(args := current.args + [Str(Spaced(view, leftLength != origLength, leftLength != rightLength))]);
      text := "";
    }

    /** `onChild`: before the tool only `cxx` and `tool` are accepted; after it only `var`, once the text is pushed. */
    method OnChild(name: string) returns (child: Option<CommandChild>)
      modifies this
      ensures old(hasTool) ==>
        && child == (if name == "var" then Some(VarChild) else None)
        && current == Command(old(current.tool), old(current.args) + [Str(ProcessedText(old(text)))])
        && text == "" && hasTool
      ensures !old(hasTool) ==>
        && child == (if name == "cxx" then Some(CxxChild) else if name == "tool" then Some(ToolChild) else None)
        && current == old(current) && text == old(text) && !hasTool && unchanged(this)
    {
      if hasTool {
        ProcessText();
        if name == "var" {
          return Some(VarChild);
        }
        return None;
      }
      if name == "cxx" {
        return Some(CxxChild);
      }
      if name == "tool" {
        return Some(ToolChild);
      }
      return None;
    }

    /** `onCharacter`: character data is kept only once the tool is known. */
    method OnCharacter(data: string)
      modifies this
      ensures text == (if hasTool then old(text) + data else old(text))
      ensures current == old(current) && hasTool == old(hasTool)
    {
      if hasTool {
        text := text + data;
      }
    }

    /** `onStop`: the pending text is pushed, then one trailing space trimmed and an empty final string dropped. */
    method OnStop()
      modifies this
      ensures !old(hasTool) ==> current == old(current) && text == old(text) && !hasTool
      ensures old(hasTool) ==>
        current == Command(old(current.tool), TrimLast(old(current.args) + [Str(ProcessedText(old(text)))])) && text == "" && hasTool
    {
      if !hasTool {
        return;
      }
      ProcessText();
      if |current.args| > 0 {
        var back := current.args[|current.args| - 1];
        if back.Str? {
          var str := back.text;
          if |str| > 0 && str[|str| - 1] == ' ' {
            str := str[..|str| - 1];
          }
          if |str| == 0 {
            current := current.(args := current.args[..|current.args| - 1]);
          } else {
            current := current.(args := current.args[..|current.args| - 1] + [Str(str)]);
          }
        }
      }
    }

    /** `var_handler::onElement` on its parent: a named variable for each "name" attribute. */
    method VarElement(attrs: Attrs)
      modifies this
      ensures current == Command(old(current.tool), old(current.args) + NamesOf(attrs))
      ensures text == old(text) && hasTool == old(hasTool)
    {
      for k := 0 to |attrs|
        invariant current == Command(old(current.tool), old(current.args) + NamesOf(attrs[..k]))
        invariant text == old(text) && hasTool == old(hasTool)
      {
        assert attrs[..k + 1][..k] == attrs[..k];
        if attrs[k].0 == "name" {
          current := current.(args := current.args + [Named(attrs[k].1)]);
        }
      }
      assert attrs[..|attrs|] == attrs;
    }

    /** `cxx_handler::onElement` on its parent: the tool is the compiler itself. */
    method CxxElement()
      modifies this
      ensures hasTool && current == Command(Tool(true, ""), old(current.args)) && text == old(text)
    {
      hasTool := true;
      current := current.(tool := Tool(true, ""));
    }

    /** `tool_handler::onElement` on its parent: the last "which" or "PATH" attribute names the tool. */
    method ToolElement(attrs: Attrs)
      modifies this
      ensures match LastTool(attrs)
        case Some(v) => hasTool && current == Command(Tool(false, v), old(current.args))
        case None => hasTool == old(hasTool) && current == old(current)
      ensures text == old(text)
    {
      for k := 0 to |attrs|
        invariant match LastTool(attrs[..k])
          case Some(v) => hasTool && current == Command(Tool(false, v), old(current.args))
          case None => hasTool == old(hasTool) && current == old(current)
        invariant text == old(text)
      {
        assert attrs[..k + 1][..k] == attrs[..k];
        if attrs[k].0 == "which" || attrs[k].0 == "PATH" {
          hasTool := true;
          current := current.(tool := Tool(false, attrs[k].1));
        }
      }
      assert attrs[..|attrs|] == attrs;
    }
  }

  /** `xml_config`: the configuration being filled, and the rules by their names as written. */
  class XmlConfig {
    var out: FactoryConfig
    var strRules: seq<(string, seq<Command>)>

    constructor (out: FactoryConfig)
      ensures this.out == out && strRules == []
    {
      this.out := out;
      strRules := [];
    }

    /** `str_rules` is a map by rule name. */
    predicate Valid()
      reads this
    {
      KeysAscending(strRules, StringOrder)
    }

    /** `include_dirs_handler::onElement` */
    method IncludeDirsElement(attrs: Attrs)
      modifies this
      ensures out == old(out).(includeDirs := IncludeDirsAttrs(old(out.includeDirs), attrs))
      ensures strRules == old(strRules)
    {
      for k := 0 to |attrs|
        invariant out == old(out).(includeDirs := IncludeDirsAttrs(old(out.includeDirs), attrs[..k]))
        invariant strRules == old(strRules)
      {
        assert attrs[..k + 1][..k] == attrs[..k];
        var name := attrs[k].0;
        var value := attrs[k].1;
        if name == "output" {
          out := out.(includeDirs := out.includeDirs.(output := if value == "stdout" then UseStdout else UseStderr));
        } else if name == "start" {
          out := out.(includeDirs := out.includeDirs.(filterStart := value));
        } else if name == "stop" {
          out := out.(includeDirs := out.includeDirs.(filterStop := value));
        }
      }
      assert attrs[..|attrs|] == attrs;
    }

    /** `include_dirs_handler::onStop`: a command with a tool becomes the listing command. */
    method IncludeDirsStopped(h: CommandHandlerBase)
      modifies this, h
      ensures !old(h.hasTool) ==> out == old(out) && h.current == old(h.current)
      ensures old(h.hasTool) ==>
        && h.current == Command(old(h.current.tool), TrimLast(old(h.current.args) + [Str(ProcessedText(old(h.text)))]))
        && out == old(out).(includeDirs := old(out.includeDirs).(filter := h.current))
      ensures strRules == old(strRules)
    {
      h.OnStop();
      if h.hasTool {
        out := out.(includeDirs := out.includeDirs.(filter := h.current));
      }
    }

    /** `bmi_cache_handler::onElement` */
    method BmiCacheElement(attrs: Attrs)
      modifies this
      ensures out == old(out).(bmiDecl := BmiAttrs(old(out.bmiDecl), attrs))
      ensures strRules == old(strRules)
    {
      for k := 0 to |attrs|
        invariant out == old(out).(bmiDecl := BmiAttrs(old(out.bmiDecl), attrs[..k]))
        invariant strRules == old(strRules)
      {
        assert attrs[..k + 1][..k] == attrs[..k];
        var name := attrs[k].0;
        var value := attrs[k].1;
        if name == "dirname" {
          out := out.(bmiDecl := out.bmiDecl.(dirname := value));
        } else if name == "ext" {
          out := out.(bmiDecl := out.bmiDecl.(ext := value));
        } else if name == "type" {
          out := out.(bmiDecl := out.bmiDecl.(kind := if value == "side-effect" then SideEffect else Direct));
        } else if name == "partitions" {
          out := out.(bmiDecl := out.bmiDecl.(supportsPartition := BoolVal(value)));
        }
      }
      assert attrs[..|attrs|] == attrs;
    }

    /** `ident_handler::onElement` */
    method IdentElement(attrs: Attrs)
      modifies this
      ensures out == old(out).(ident := IdentAttrs(old(out.ident), attrs))
      ensures strRules == old(strRules)
    {
      for k := 0 to |attrs|
        invariant out == old(out).(ident := IdentAttrs(old(out.ident), attrs[..k]))
        invariant strRules == old(strRules)
      {
        assert attrs[..k + 1][..k] == attrs[..k];
        var name := attrs[k].0;
        var value := attrs[k].1;
        if name == "compat" {
          out := out.(ident := out.ident.(compat := value));
        } else if name == "exe" {
          out := out.(ident := out.ident.(exe := value));
        } else if name == "name" {
          out := out.(ident := out.ident.(name := value));
        } else if name == "guard" {
          out := out.(ident := out.ident.(guard := value));
        } else if name == "version" {
          out := out.(ident := out.ident.(version := value));
        } else if name == "find-tripple" {
          out := out.(ident := out.ident.(findTripple := BoolVal(value)));
        }
      }
      assert attrs[..|attrs|] == attrs;
    }
  }

  /** `rule_handler`: the rule's name and the commands read so far. */
  class RuleHandler {
    var ruleName: string
    var commands: seq<Command>

    constructor ()
      ensures ruleName == "" && commands == []
    {
      ruleName := "";
      commands := [];
    }

    /** `onElement`: the last "id" attribute names the rule. */
    method OnElement(attrs: Attrs)
      modifies this
      ensures ruleName == ValueOr(attrs, "id", old(ruleName)) && commands == old(commands)
    {
      for k := 0 to |attrs|
        invariant ruleName == ValueOr(attrs[..k], "id", old(ruleName)) && commands == old(commands)
      {
        assert attrs[..k + 1][..k] == attrs[..k];
        if attrs[k].0 == "id" {
          ruleName := attrs[k].1;
        }
      }
      assert attrs[..|attrs|] == attrs;
    }

    /** `command_handler::onStop`: a command that got a tool joins the rule. */
    method CommandStopped(h: CommandHandlerBase)
      modifies this, h
      ensures !old(h.hasTool) ==> commands == old(commands) && h.current == old(h.current)
      ensures old(h.hasTool) ==>
        && h.current == Command(old(h.current.tool), TrimLast(old(h.current.args) + [Str(ProcessedText(old(h.text)))]))
        && commands == old(commands) + [h.current]
      ensures ruleName == old(ruleName)
    {
      h.OnStop();
      if h.hasTool {
        commands := commands + [h.current];
      }
    }

    /** `onStop`: the rule's commands are filed under its name, replacing any earlier rule of that name. */
    method OnStop(cfg: XmlConfig)
      requires cfg.Valid()
      modifies cfg
      ensures cfg.Valid() && cfg.out == old(cfg.out)
      ensures cfg.strRules == Put(old(cfg.strRules), ruleName, commands, StringOrder)
      ensures Lookup(cfg.strRules, ruleName) == Some(commands)
      ensures forall k :: k != ruleName ==> Lookup(cfg.strRules, k) == Lookup(old(cfg.strRules), k)
    {
      StringOrderIsStrict();
      PutMeaning(cfg.strRules, ruleName, commands, StringOrder);
      cfg.strRules := Put(cfg.strRules, ruleName, commands, StringOrder);
    }
  }

  /** The children the stateless handlers accept. */
  datatype Element = CompilerElement | IdentElement | BmiCacheElement | IncludeDirsElement | RulesElement | RuleElement | CommandElement

  /** `document_handler::onChild` */
  function DocumentChild(name: string): (r: Option<Element>)
    ensures r.Some? <==> name == "compiler"
    ensures r.Some? ==> r.value == CompilerElement
  {
    if name == "compiler" then Some(CompilerElement) else None
  }

  /** `compiler_handler::onChild` */
  function CompilerChild(name: string): (r: Option<Element>)
    ensures r.Some? <==> name in ["ident", "bmi-cache", "include-dirs", "rules"]
    ensures r == Some(IdentElement) <==> name == "ident"
    ensures r == Some(BmiCacheElement) <==> name == "bmi-cache"
    ensures r == Some(IncludeDirsElement) <==> name == "include-dirs"
    ensures r == Some(RulesElement) <==> name == "rules"
  {
    if name == "ident" then Some(IdentElement)
    else if name == "bmi-cache" then Some(BmiCacheElement)
    else if name == "include-dirs" then Some(IncludeDirsElement)
    else if name == "rules" then Some(RulesElement)
    else None
  }

  /** `rules_handler::onChild` */
  function RulesChild(name: string): (r: Option<Element>)
    ensures r.Some? <==> name == "rule"
    ensures r.Some? ==> r.value == RuleElement
  {
    if name == "rule" then Some(RuleElement) else None
  }

  /** `rule_handler::onChild` */
  function RuleChild(name: string): (r: Option<Element>)
    ensures r.Some? <==> name == "command"
    ensures r.Some? ==> r.value == CommandElement
  {
    if name == "command" then Some(CommandElement) else None
  }
}
