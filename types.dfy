/**
 * The build's basic value types: projects and their output file names,
 * module names, and what the scanner learns about one translation unit.
 */
module Types {
  import opened Strings

  /** `project::kind`, in declaration order. */
  datatype ProjectKind = Executable | StaticLib | SharedLib | ModuleLib
  {
    function Ordinal(): nat
    {
      match this
      case Executable => 0
      case StaticLib => 1
      case SharedLib => 2
      case ModuleLib => 3
    }

    /** `project::kind2str` */
    function Name(): string
    {
      match this
      case Executable => "EXE"
      case StaticLib => "LIB"
      case SharedLib => "SO"
      case ModuleLib => "MOD"
    }

    /** `project::prefix` */
    function Prefix(): string
    {
      if this == Executable then "" else "lib"
    }

    /** `project::suffix` */
    function Suffix(): string
    {
      match this
      case Executable => ""
      case StaticLib => ".a"
      case SharedLib => ".so"
      case ModuleLib => ".mod"
    }
  }

  /** `project`: a name and a kind; a project is a static library unless said otherwise. */
  datatype Project = Project(name: string, kind: ProjectKind)

  /** `project::filename` */
  function Filename(p: Project): string
  {
    p.kind.Prefix() + p.name + p.kind.Suffix()
  }

  /** Executables keep their name; every library is "lib" + name + its own suffix. */
  lemma FilenameForms(p: Project)
    ensures p.kind == Executable ==> Filename(p) == p.name
    ensures p.kind == StaticLib ==> Filename(p) == "lib" + p.name + ".a"
    ensures p.kind == SharedLib ==> Filename(p) == "lib" + p.name + ".so"
    ensures p.kind == ModuleLib ==> Filename(p) == "lib" + p.name + ".mod"
  {
    assert "" + p.name + "" == p.name;
  }

  /** Two projects of one kind never share a file name. */
  lemma FilenameInjective(p: Project, q: Project)
    requires p.kind == q.kind && Filename(p) == Filename(q)
    ensures p == q
  {
    var pre := p.kind.Prefix();
    var suf := p.kind.Suffix();
    assert p.name == Filename(p)[|pre|..|Filename(p)| - |suf|];
    assert q.name == Filename(q)[|pre|..|Filename(q)| - |suf|];
  }

  /** The defaulted `operator<=>` of `project`: by name, then by kind. */
  predicate ProjectLess(a: Project, b: Project)
  {
    LexLess(a.name, b.name) || (a.name == b.name && a.kind.Ordinal() < b.kind.Ordinal())
  }

  lemma ProjectLessIsStrictTotalOrder(a: Project, b: Project, c: Project)
    ensures !ProjectLess(a, a)
    ensures ProjectLess(a, b) && ProjectLess(b, c) ==> ProjectLess(a, c)
    ensures a == b || ProjectLess(a, b) || ProjectLess(b, a)
    ensures !(ProjectLess(a, b) && ProjectLess(b, a))
  {
    LexLessIrreflexive(a.name);
    LexLessTrichotomy(a.name, b.name);
    if LexLess(a.name, b.name) && LexLess(b.name, c.name) {
      LexLessTransitive(a.name, b.name, c.name);
    }
    if LexLess(a.name, b.name) && b.name == c.name {
      assert LexLess(a.name, c.name);
    }
    assert a.kind.Ordinal() == b.kind.Ordinal() ==> a.kind == b.kind;
  }

  /** `mod_name`: a module and, for a partition, its partition name. */
  datatype ModName = ModName(moduleName: string, part: string)

  /** `mod_name::empty` */
  predicate IsEmpty(m: ModName)
  {
    |m.moduleName| == 0 && |m.part| == 0
  }

  lemma IsEmptyMeaning(m: ModName)
    ensures IsEmpty(m) <==> m == ModName("", "")
  {
  }

  /** The defaulted `operator<=>` of `mod_name`: by module, then by partition. */
  predicate ModNameLess(a: ModName, b: ModName)
  {
    LexLess(a.moduleName, b.moduleName) || (a.moduleName == b.moduleName && LexLess(a.part, b.part))
  }

  lemma ModNameLessIsStrictTotalOrder(a: ModName, b: ModName, c: ModName)
    ensures !ModNameLess(a, a)
    ensures ModNameLess(a, b) && ModNameLess(b, c) ==> ModNameLess(a, c)
    ensures a == b || ModNameLess(a, b) || ModNameLess(b, a)
    ensures !(ModNameLess(a, b) && ModNameLess(b, a))
  {
    LexLessIrreflexive(a.moduleName);
    LexLessIrreflexive(a.part);
    LexLessTrichotomy(a.moduleName, b.moduleName);
    LexLessTrichotomy(a.part, b.part);
    if ModNameLess(a, b) && ModNameLess(b, c) {
      if LexLess(a.moduleName, b.moduleName) && LexLess(b.moduleName, c.moduleName) {
        LexLessTransitive(a.moduleName, b.moduleName, c.moduleName);
      }
      if a.moduleName == b.moduleName && b.moduleName == c.moduleName {
        LexLessTransitive(a.part, b.part, c.part);
      }
    }
  }

  /** `mod_name::toString`: the module, then ':' and the partition when there is one. */
  function ToString(m: ModName): string
  {
    if |m.part| == 0 then m.moduleName else m.moduleName + ":" + m.part
  }

  /** Splits a name at its first ':': the reading `ToString` is meant for. */
  function ParseModName(s: string): ModName
    decreases |s|
  {
    if |s| == 0 then ModName("", "")
    else if s[0] == ':' then ModName("", s[1..])
    else
      var rest := ParseModName(s[1..]);
      ModName([s[0]] + rest.moduleName, rest.part)
  }

  /** A module name without ':' reads back from its text. */
  lemma {:induction false} ToStringRoundTrip(m: ModName)
    requires ':' !in m.moduleName
    ensures ParseModName(ToString(m)) == m
    decreases |m.moduleName|
  {
    if |m.moduleName| == 0 {
      if |m.part| > 0 {
        assert ToString(m) == [':'] + m.part;
        assert ToString(m)[1..] == m.part;
      }
    } else {
      var tail := ModName(m.moduleName[1..], m.part);
      ToStringRoundTrip(tail);
      assert ToString(m) == [m.moduleName[0]] + ToString(tail);
      assert ToString(m)[1..] == ToString(tail);
      assert [m.moduleName[0]] + m.moduleName[1..] == m.moduleName;
    }
  }

  /** `mod_name::toBMI`: the module, then '-' and the partition when there is one, then ".bmi". */
  function ToBMI(m: ModName): string
  {
    (if |m.part| == 0 then m.moduleName else m.moduleName + "-" + m.part) + ".bmi"
  }

  /** Module names without '-' get different file names; with it, a module and a partition can meet. */
  lemma ToBMIInjective(a: ModName, b: ModName)
    requires '-' !in a.moduleName && '-' !in b.moduleName && ToBMI(a) == ToBMI(b)
    ensures a == b
  {
    var x := ToBMI(a)[..|ToBMI(a)| - 4];
    var y := ToBMI(b)[..|ToBMI(b)| - 4];
    assert x == y;
    assert x == if |a.part| == 0 then a.moduleName else a.moduleName + "-" + a.part;
    assert y == if |b.part| == 0 then b.moduleName else b.moduleName + "-" + b.part;
    assert forall i :: 0 <= i < |a.moduleName| ==> x[i] == a.moduleName[i] != '-';
    assert forall i :: 0 <= i < |b.moduleName| ==> y[i] == b.moduleName[i] != '-';
    assert |a.part| > 0 ==> x[|a.moduleName|] == '-';
    assert |b.part| > 0 ==> y[|b.moduleName|] == '-';
    if |a.part| > 0 && |b.part| > 0 {
      assert a.moduleName == x[..|a.moduleName|];
      assert a.part == x[|a.moduleName| + 1..];
      assert b.part == y[|b.moduleName| + 1..];
    }
  }

  lemma ToBMIMeetsPartition()
    ensures ToBMI(ModName("a-b", "")) == ToBMI(ModName("a", "b"))
  {
  }

  /** `module_unit`: the unit's own name, what it imports, and whether it is an interface. */
  datatype ModuleUnit = ModuleUnit(name: ModName, imports: seq<ModName>, isInterface: bool)

  const EmptyUnit := ModuleUnit(ModName("", ""), [], false)
}
