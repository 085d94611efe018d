/**
 * The vocabulary shared by the compilers and the generators: build rules and
 * the set of rules a build needs, templated command strings, file
 * references and targets, and the generator that collects them.
 */
module Generator {
  import opened Types

  /** `rule_type`, in declaration order; `ARCHIVE` is another name for `LINK_STATIC`. */
  datatype RuleType = Mkdir | Compile | EmitBmi | EmitInclude | LinkStatic | LinkSo | LinkMod | LinkExecutable
  {
    function Ordinal(): nat
    {
      match this
      case Mkdir => 0
      case Compile => 1
      case EmitBmi => 2
      case EmitInclude => 3
      case LinkStatic => 4
      case LinkSo => 5
      case LinkMod => 6
      case LinkExecutable => 7
    }
  }

  const Archive: RuleType := LinkStatic

  /** The `RULE(ENUM)` list the compilers walk in `add_rules` and `rules_from`. */
  const AllRules: seq<RuleType> := [Mkdir, Compile, EmitBmi, EmitInclude, LinkStatic, LinkSo, LinkMod, LinkExecutable]

  /** `command_list::rule_count` */
  const RuleCount: nat := 8

  /** The list holds every rule once, at the position of its ordinal. */
  lemma AllRulesInOrder(r: RuleType)
    ensures |AllRules| == RuleCount
    ensures r in AllRules && AllRules[r.Ordinal()] == r
    ensures forall i :: 0 <= i < |AllRules| ==> AllRules[i].Ordinal() == i
    ensures Archive == LinkStatic && Archive.Ordinal() == 4
  {
  }

  /** `var`: the placeholders of a command template. */
  datatype Var = Input | Output | MainOutput | LinkFlags | LinkPath | LinkLibrary | Defines | CFlags | CxxFlags

  /** One piece of a `templated_string`: literal text, a `named_var`, or a `var`. */
  datatype Arg = Str(text: string) | Named(name: string) | VarArg(v: Var)

  type TemplatedString = seq<Arg>

  /** `rule_name`: none, a rule named by text, or a built-in rule. */
  datatype RuleName = Unnamed | Custom(name: string) | Builtin(rule: RuleType)

  datatype Rule = Rule(name: RuleName, commands: seq<TemplatedString>, message: TemplatedString)

  /** `file_ref::kind` */
  datatype FileKind = InputFile | OutputFile | LinkedFile | HeaderModule | IncludeFile

  /** `file_ref`: a file of one project setup; output files are the default kind. */
  datatype FileRef = FileRef(prj: nat, path: string, kind: FileKind, nodeName: string)

  /** `mod_ref`: the interface file of a module. */
  datatype ModRef = ModRef(mod: ModName, path: string)

  /** `artifact` */
  datatype Artifact = File(file: FileRef) | Mod(ref: ModRef)
  {
    /** The path either alternative carries. */
    function Path(): string
    {
      match this
      case File(f) => f.path
      case Mod(m) => m.path
    }
  }

  datatype FileList = FileList(expl: seq<Artifact>, impl: seq<Artifact>, order: seq<Artifact>)

  const NoFiles := FileList([], [], [])

  datatype Target = Target(rule: RuleName, mainOutput: Artifact, inputs: FileList, outputs: FileList, edge: string)

  datatype ProjectSetup = ProjectSetup(name: string, objdir: string, subdir: string)

  /** `std::numeric_limits<size_t>::max()` with a 64-bit `size_t`. */
  const SizeMax: nat := 0xFFFF_FFFF_FFFF_FFFF

  // ---------------------------------------------------------- rule_types

  /** `rule_types::bit`: one bit per rule, at the rule's ordinal. */
  function Bit(r: RuleType): bv64
  {
    match r
    case Mkdir => 0x01
    case Compile => 0x02
    case EmitBmi => 0x04
    case EmitInclude => 0x08
    case LinkStatic => 0x10
    case LinkSo => 0x20
    case LinkMod => 0x40
    case LinkExecutable => 0x80
  }

  /** A rule's bit is 1 shifted left by the rule's ordinal. */
  lemma BitIsShift(r: RuleType)
    ensures Bit(r) == (1 as bv64) << r.Ordinal()
  {
  }

  /** `rule_types::has` on a bit set. */
  predicate HasBit(bits: bv64, r: RuleType)
  {
    bits & Bit(r) == Bit(r)
  }

  /** Different rules own different bits, and no rule's bit is zero. */
  lemma BitsDistinct(r: RuleType, q: RuleType)
    ensures Bit(r) != 0
    ensures r != q ==> Bit(r) & Bit(q) == 0
  {
  }

  /** Setting a rule's bit adds that rule and clears no other. */
  lemma SetThenHas(bits: bv64, r: RuleType, q: RuleType)
    ensures HasBit(bits | Bit(r), q) <==> HasBit(bits, q) || q == r
  {
    BitsDistinct(r, q);
    OrMasked(bits, Bit(r), Bit(q));
  }

  /** `set(r)` when `cond` holds. */
  function SetIf(bits: bv64, cond: bool, r: RuleType): bv64
  {
    if cond then bits | Bit(r) else bits
  }

  /** Setting a rule's bit when `cond` holds adds that rule then, and clears nothing. */
  lemma SetIfThenHas(bits: bv64, cond: bool, r: RuleType, q: RuleType)
    ensures HasBit(SetIf(bits, cond, r), q) <==> HasBit(bits, q) || (cond && q == r)
  {
    if cond {
      SetThenHas(bits, r, q);
    }
  }

  /** `set(r)` when `cond` holds, then `set(q)`. */
  function SetIfThenSet(bits: bv64, cond: bool, r: RuleType, q: RuleType): bv64
  {
    SetIf(bits, cond, r) | Bit(q)
  }

  /** Setting `r` when `cond` holds and then `q`: the rules before, `r` if `cond`, and `q`. */
  lemma SetIfThenSetHas(bits: bv64, cond: bool, r: RuleType, q: RuleType, x: RuleType)
    ensures HasBit(SetIfThenSet(bits, cond, r, q), x) <==> HasBit(bits, x) || (x == r && cond) || q == x
  {
    SetIfThenHas(bits, cond, r, x);
    SetThenHas(SetIf(bits, cond, r), q, x);
    Chained(HasBit(bits, x), HasBit(SetIf(bits, cond, r), x), HasBit(SetIf(bits, cond, r) | Bit(q), x),
      x == r && cond, q == x);
  }

  /** Two additions in a row, as plain logic. */
  lemma Chained(a: bool, b: bool, c: bool, first: bool, second: bool)
    requires b <==> a || first
    requires c <==> b || second
    ensures c <==> a || first || second
  {
  }

  /** Masking distributes over `|`. */
  lemma OrMasked(x: bv64, y: bv64, m: bv64)
    ensures (x | y) & m == (x & m) | (y & m)
  {
  }

  /** No rule is in the empty set. */
  lemma EmptyHasNothing(r: RuleType)
    ensures !HasBit(0, r)
  {
    BitsDistinct(r, r);
  }

  /** `rule_types`: the rules a build needs, as a bit set. */
  class RuleTypes {
    var bits: bv64

    constructor ()
      ensures bits == 0
    {
      bits := 0;
    }

    /** `rule_types::has` */
    predicate Has(r: RuleType)
      reads this
    {
      HasBit(bits, r)
    }

    /** `rule_types::set` */
    method Set(r: RuleType)
      modifies this
      ensures bits == old(bits) | Bit(r)
      ensures Has(r) && forall q :: Has(q) <==> old(Has(q)) || q == r
    {
      bits := bits | Bit(r);
      forall q
        ensures Has(q) <==> old(Has(q)) || q == r
      {
        SetThenHas(old(bits), r, q);
      }
    }
  }

  // ---------------------------------------------------------- rule

  /** `rule::default_message`: a fixed text, then the output placeholder. */
  function DefaultMessage(t: RuleType): (r: TemplatedString)
    ensures |r| == 2 && r[0].Str? && r[1] == VarArg(Output)
  {
    match t
    case Mkdir => [Str("Create DIR "), VarArg(Output)]
    case Compile => [Str("Building CXX object "), VarArg(Output)]
    case EmitBmi => [Str("Building CXX module interface "), VarArg(Output)]
    case EmitInclude => [Str("Building CXX header-module interface "), VarArg(Output)]
    case LinkStatic => [Str("Linking CXX static library "), VarArg(Output)]
    case LinkSo => [Str("Linking CXX shared library "), VarArg(Output)]
    case LinkMod => [Str("Linking CXX module library "), VarArg(Output)]
    case LinkExecutable => [Str("Linking CXX executable "), VarArg(Output)]
  }

  /** Every rule gets its own message, each of them non-empty; archives and objects say what they build. */
  lemma DefaultMessagesDistinct(a: RuleType, b: RuleType)
    ensures a != b ==> DefaultMessage(a) != DefaultMessage(b)
    ensures |DefaultMessage(a)[0].text| > 0
    ensures DefaultMessage(Archive)[0].text == "Linking CXX static library "
    ensures DefaultMessage(Compile)[0].text == "Building CXX object "
  {
  }

  // ---------------------------------------------------------- generator

  /** `generator`: the rules, project setups and targets a back end writes out. */
  class BuildGenerator {
    var rules: seq<Rule>
    var setups: seq<ProjectSetup>
    var targets: seq<Target>

    constructor ()
      ensures rules == [] && setups == [] && targets == []
    {
      rules := [];
      setups := [];
      targets := [];
    }

    method SetRules(rs: seq<Rule>)
      modifies this
      ensures rules == rs && setups == old(setups) && targets == old(targets)
    {
      rules := rs;
    }

    method SetSetups(ss: seq<ProjectSetup>)
      modifies this
      ensures setups == ss && rules == old(rules) && targets == old(targets)
    {
      setups := ss;
    }

    method SetTargets(ts: seq<Target>)
      modifies this
      ensures targets == ts && rules == old(rules) && setups == old(setups)
    {
      targets := ts;
    }

    /** `register_setup`: append one setup and answer the index it landed at. */
    method RegisterSetup(setup: ProjectSetup) returns (id: nat)
      modifies this
      ensures id == |old(setups)| && setups == old(setups) + [setup]
      ensures setups[id] == setup
      ensures rules == old(rules) && targets == old(targets)
    {
      id := |setups|;
      setups := setups + [setup];
    }
  }
}
