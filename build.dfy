/**
 * `build_info::analyze`: scan every source of every project, record which
 * module each unit declares and imports, and turn project-level imports of
 * modules other projects export into links between the projects.
 */
module Build {
  import opened Wrappers
  import opened Types
  import opened SortedSets
  import opened Paths

  /** The defaulted orders of `mod_name` and `project`, as the ordered sets use them. */
  const ModOrder: (ModName, ModName) -> bool := (a: ModName, b: ModName) => ModNameLess(a, b)
  const ProjectOrder: (Project, Project) -> bool := (a: Project, b: Project) => ProjectLess(a, b)

  lemma OrdersAreStrict()
    ensures IsStrictTotalOrder(ModOrder) && IsStrictTotalOrder(ProjectOrder)
  {
    forall a: ModName, b: ModName, c: ModName
      ensures !ModOrder(a, a) && (ModOrder(a, b) && ModOrder(b, c) ==> ModOrder(a, c))
      ensures a == b || ModOrder(a, b) || ModOrder(b, a)
    {
      ModNameLessIsStrictTotalOrder(a, b, c);
    }
    forall a: Project, b: Project, c: Project
      ensures !ProjectOrder(a, a) && (ProjectOrder(a, b) && ProjectOrder(b, c) ==> ProjectOrder(a, c))
      ensures a == b || ProjectOrder(a, b) || ProjectOrder(b, a)
    {
      ProjectLessIsStrictTotalOrder(a, b, c);
    }
  }

  /** `project::setup`: where a project lives and its sources. */
  datatype Setup = Setup(subdir: string, sources: seq<string>)

  /** `module_info`: the interface file, the implementation files, the modules it needs, the projects it is part of. */
  datatype ModuleInfo = ModuleInfo(iface: string, sources: seq<string>, req: seq<ModName>, libs: seq<Project>)

  const NoModule := ModuleInfo("", [], [], [])

  /** `project_info` */
  datatype ProjectInfo = ProjectInfo(subdir: string, sources: seq<string>, exports: seq<ModName>, imports: seq<ModName>, links: seq<Project>)

  /** `build_info`; `projects` keeps the project map's ascending order. */
  datatype BuildInfo = BuildInfo(
    sourceDir: string,
    binaryDir: string,
    modules: map<ModName, ModuleInfo>,
    projects: seq<(Project, ProjectInfo)>,
    imports: map<string, seq<ModName>>,
    exports: map<string, ModName>)

  /**
   * What `analyze` calls out to: `lexically_normal` on a source's path, and
   * preprocessing and scanning the source at a normal path (nothing when
   * the preprocessor fails).
   */
  datatype Scanner = Scanner(normal: string -> string, unitOf: string -> Option<ModuleUnit>)

  /** The normaliser is `path::lexically_normal`. */
  ghost predicate NormalisesLexically(scanned: Scanner)
  {
    forall p :: scanned.normal(p) == LexicallyNormal(p)
  }

  /** The key `analyze` files a source under: the lexically normal form of its path below the source directory. */
  function SourceKey(subdir: string, source: string): string
  {
    LexicallyNormal(Join(subdir, source))
  }

  /** A key is already normal: normalising it again changes nothing. */
  lemma SourceKeyIsNormal(subdir: string, source: string)
    ensures LexicallyNormal(SourceKey(subdir, source)) == SourceKey(subdir, source)
  {
    LexicallyNormalIdempotent(Join(subdir, source));
  }

  /** The key the gcc and clang generators look a source up by, as written: its path below the source directory, not normalised. */
  function RawSourceFile(subdir: string, source: string): string
  {
    Join(subdir, source)
  }

  /** The project's source `j`, normalised, as the maps key it. */
  function SourcePath(scanned: Scanner, setup: Setup, j: nat): string
    requires j < |setup.sources|
  {
    scanned.normal(Join(setup.subdir, setup.sources[j]))
  }

  /** `build.modules[name]`, which creates an empty entry for a new name. */
  function ModuleOf(mods: map<ModName, ModuleInfo>, name: ModName): ModuleInfo
  {
    if name in mods then mods[name] else NoModule
  }

  /** A unit exports `m` when it is the interface of the named module `m`. */
  predicate Exports(u: Option<ModuleUnit>, m: ModName)
  {
    u.Some? && u.value.isInterface && !IsEmpty(u.value.name) && u.value.name == m
  }

  predicate Imports(u: Option<ModuleUnit>, m: ModName)
  {
    u.Some? && m in u.value.imports
  }

  /** One of the first `n` sources of a project exports `m`. */
  ghost predicate ExportedBy(setup: Setup, scanned: Scanner, n: nat, m: ModName)
    requires n <= |setup.sources|
    decreases n
  {
    n > 0 && (ExportedBy(setup, scanned, n - 1, m) || Exports(scanned.unitOf(SourcePath(scanned, setup, n - 1)), m))
  }

  /** One of the first `n` sources of a project imports `m`. */
  ghost predicate ImportedBy(setup: Setup, scanned: Scanner, n: nat, m: ModName)
    requires n <= |setup.sources|
    decreases n
  {
    n > 0 && (ImportedBy(setup, scanned, n - 1, m) || Imports(scanned.unitOf(SourcePath(scanned, setup, n - 1)), m))
  }

  ghost predicate ExportedByProject(projects: seq<(Project, Setup)>, scanned: Scanner, k: nat, m: ModName)
    requires k < |projects|
  {
    ExportedBy(projects[k].1, scanned, |projects[k].1.sources|, m)
  }

  ghost predicate ImportedByProject(projects: seq<(Project, Setup)>, scanned: Scanner, k: nat, m: ModName)
    requires k < |projects|
  {
    ImportedBy(projects[k].1, scanned, |projects[k].1.sources|, m)
  }

  /** Some project exports `m`. */
  ghost predicate ExportedAnywhere(projects: seq<(Project, Setup)>, scanned: Scanner, m: ModName)
  {
    exists k :: 0 <= k < |projects| && ExportedByProject(projects, scanned, k, m)
  }

  /** Project `k` imports a module it does not export itself and project `k2` exports. */
  ghost predicate NeedsLink(projects: seq<(Project, Setup)>, scanned: Scanner, k: nat, k2: nat)
    requires k < |projects| && k2 < |projects|
  {
    exists m :: ImportedByProject(projects, scanned, k, m) && !ExportedByProject(projects, scanned, k, m)
      && ExportedByProject(projects, scanned, k2, m)
  }

  /** No module requires itself, and the ordered sets of every module are ascending. */
  predicate ModulesWellFormed(mods: map<ModName, ModuleInfo>)
  {
    forall m :: m in mods ==> m !in mods[m].req && Ascending(mods[m].req, ModOrder) && Ascending(mods[m].libs, ProjectOrder)
  }

  /** A source whose unit was scanned: the project it belongs to, its path, its unit. */
  datatype Scanned = Scanned(project: Project, path: string, unit: ModuleUnit)

  /** The unit of the project's source `j`, when the preprocessor did not fail on it. */
  function UnitAt(project: Project, setup: Setup, scanned: Scanner, j: nat): seq<Scanned>
    requires j < |setup.sources|
  {
    var path := SourcePath(scanned, setup, j);
    match scanned.unitOf(path)
    case None => []
    case Some(u) => [Scanned(project, path, u)]
  }

  /** The units of the project's first `n` sources, in the order they are scanned. */
  function SourceUnits(project: Project, setup: Setup, scanned: Scanner, n: nat): seq<Scanned>
    requires n <= |setup.sources|
  {
    if n == 0 then [] else SourceUnits(project, setup, scanned, n - 1) + UnitAt(project, setup, scanned, n - 1)
  }

  /** The units of the first `k` projects, in the order `analyze` scans them. */
  function ProjectUnits(projects: seq<(Project, Setup)>, scanned: Scanner, k: nat): seq<Scanned>
    requires k <= |projects|
  {
    if k == 0 then []
    else ProjectUnits(projects, scanned, k - 1) + SourceUnits(projects[k - 1].0, projects[k - 1].1, scanned, |projects[k - 1].1.sources|)
  }

  /** Some unit declares the module `m` (the empty name included). */
  ghost predicate NamedIn(units: seq<Scanned>, m: ModName)
  {
    exists i :: 0 <= i < |units| && units[i].unit.name == m
  }

  /** Some unit of `m` belongs to the project `q`. */
  ghost predicate LibIn(units: seq<Scanned>, m: ModName, q: Project)
  {
    exists i :: 0 <= i < |units| && units[i].unit.name == m && units[i].project == q
  }

  /** Some unit of `m` imports `x`. */
  ghost predicate ReqIn(units: seq<Scanned>, m: ModName, x: ModName)
  {
    exists i :: 0 <= i < |units| && units[i].unit.name == m && x in units[i].unit.imports
  }

  /** The paths of the units of `m` that are not interfaces, in scanning order. */
  function ImplPaths(units: seq<Scanned>, m: ModName): seq<string>
  {
    if units == [] then []
    else
      var u := units[|units| - 1];
      ImplPaths(units[..|units| - 1], m) + (if u.unit.name == m && !u.unit.isInterface then [u.path] else [])
  }

  /** The path of the last unit that is the interface of the named module `m`; empty when there is none. */
  function IfacePath(units: seq<Scanned>, m: ModName): string
  {
    if units == [] then ""
    else if Exports(Some(units[|units| - 1].unit), m) then units[|units| - 1].path
    else IfacePath(units[..|units| - 1], m)
  }

  /** The imports of every unit found at `path`, one unit after the other. */
  function ImportsAt(units: seq<Scanned>, path: string): seq<ModName>
  {
    if units == [] then []
    else
      var u := units[|units| - 1];
      ImportsAt(units[..|units| - 1], path) + (if u.path == path then u.unit.imports else [])
  }

  /** The module the last named interface found at `path` declares. */
  function ExportAt(units: seq<Scanned>, path: string): Option<ModName>
  {
    if units == [] then None
    else
      var u := units[|units| - 1];
      if u.path == path && u.unit.isInterface && !IsEmpty(u.unit.name) then Some(u.unit.name)
      else ExportAt(units[..|units| - 1], path)
  }

  /** `build.imports[path]`, which creates an empty list for a new path. */
  function ImportsOr(imports: map<string, seq<ModName>>, path: string): seq<ModName>
  {
    if path in imports then imports[path] else []
  }

  /** The module map has an entry for every declared name and no other. */
  ghost predicate KeysOf(mods: map<ModName, ModuleInfo>, units: seq<Scanned>)
  {
    forall m :: m in mods <==> NamedIn(units, m)
  }

  /** A module's libraries are the projects holding one of its units. */
  ghost predicate LibsOf(mods: map<ModName, ModuleInfo>, units: seq<Scanned>)
  {
    forall m, q :: m in mods ==> (q in mods[m].libs <==> LibIn(units, m, q))
  }

  /** A module requires what its units import, itself excepted. */
  ghost predicate ReqsOf(mods: map<ModName, ModuleInfo>, units: seq<Scanned>)
  {
    forall m, x :: m in mods ==> (x in mods[m].req <==> x != m && ReqIn(units, m, x))
  }

  /** A module's sources are its units that are not interfaces, and its interface is the last one that is. */
  ghost predicate FilesOf(mods: map<ModName, ModuleInfo>, units: seq<Scanned>)
  {
    forall m :: m in mods ==> mods[m].sources == ImplPaths(units, m) && mods[m].iface == IfacePath(units, m)
  }

  /** The import map lists, per path with any, the imports of the units found there. */
  ghost predicate ImportMapOf(imports: map<string, seq<ModName>>, units: seq<Scanned>)
  {
    forall p :: (p in imports <==> ImportsAt(units, p) != []) && (p in imports ==> imports[p] == ImportsAt(units, p))
  }

  /** The export map names, per path holding a named interface, the module it declares. */
  ghost predicate ExportMapOf(exports: map<string, ModName>, units: seq<Scanned>)
  {
    forall p :: (p in exports <==> ExportAt(units, p).Some?) && (p in exports ==> exports[p] == ExportAt(units, p).value)
  }

  /** The three maps of `build_info` are what scanning `units` in order records. */
  ghost predicate Recorded(mods: map<ModName, ModuleInfo>, imports: map<string, seq<ModName>>, exports: map<string, ModName>, units: seq<Scanned>)
  {
    KeysOf(mods, units) && LibsOf(mods, units) && ReqsOf(mods, units) && FilesOf(mods, units)
    && ImportMapOf(imports, units) && ExportMapOf(exports, units)
  }

  /** A unit found in `units` has its imports listed under its path. */
  lemma {:induction false} ImportsAtHas(units: seq<Scanned>, r: Scanned)
    requires r in units
    ensures forall x :: x in r.unit.imports ==> x in ImportsAt(units, r.path)
    decreases |units|
  {
    var init := units[..|units| - 1];
    if r != units[|units| - 1] {
      assert units == init + [units[|units| - 1]];
      ImportsAtHas(init, r);
    }
  }

  /** A named interface found in `units` has an export under its path. */
  lemma {:induction false} ExportAtHas(units: seq<Scanned>, r: Scanned)
    requires r in units && r.unit.isInterface && !IsEmpty(r.unit.name)
    ensures ExportAt(units, r.path).Some?
    decreases |units|
  {
    var init := units[..|units| - 1];
    if r != units[|units| - 1] {
      assert units == init + [units[|units| - 1]];
      ExportAtHas(init, r);
    }
  }

  /** The unit of a scanned source is among the units of its project. */
  lemma {:induction false} SourceUnitsHas(project: Project, setup: Setup, scanned: Scanner, n: nat, j: nat)
    requires j < n <= |setup.sources| && scanned.unitOf(SourcePath(scanned, setup, j)).Some?
    ensures Scanned(project, SourcePath(scanned, setup, j), scanned.unitOf(SourcePath(scanned, setup, j)).value) in SourceUnits(project, setup, scanned, n)
    decreases n
  {
    var r := Scanned(project, SourcePath(scanned, setup, j), scanned.unitOf(SourcePath(scanned, setup, j)).value);
    var before := SourceUnits(project, setup, scanned, n - 1);
    var last := UnitAt(project, setup, scanned, n - 1);
    assert SourceUnits(project, setup, scanned, n) == before + last;
    if j < n - 1 {
      SourceUnitsHas(project, setup, scanned, n - 1, j);
      assert r in before;
    } else {
      assert j == n - 1;
      assert last == UnitAt(project, setup, scanned, j);
      assert UnitAt(project, setup, scanned, j) == [r];
      assert r in last;
    }
  }

  /** The units of project `k` are among the units of the first `n` projects when `k < n`. */
  lemma {:induction false} ProjectUnitsHas(projects: seq<(Project, Setup)>, scanned: Scanner, n: nat, k: nat, r: Scanned)
    requires k < n <= |projects|
    requires r in SourceUnits(projects[k].0, projects[k].1, scanned, |projects[k].1.sources|)
    ensures r in ProjectUnits(projects, scanned, n)
    decreases n
  {
    var before := ProjectUnits(projects, scanned, n - 1);
    var last := SourceUnits(projects[n - 1].0, projects[n - 1].1, scanned, |projects[n - 1].1.sources|);
    assert ProjectUnits(projects, scanned, n) == before + last;
    if k < n - 1 {
      ProjectUnitsHas(projects, scanned, n - 1, k, r);
      assert r in before;
    } else {
      assert k == n - 1;
    }
  }

  /**
   * Looked up by `SourceKey`, every source `analyze` scanned is found: one
   * with imports in the import map, holding all of them, and a named
   * interface in the export map.
   */
  lemma KeyedLookupFinds(projects: seq<(Project, Setup)>, scanned: Scanner, k: nat, j: nat,
                         imports: map<string, seq<ModName>>, exports: map<string, ModName>)
    requires k < |projects| && j < |projects[k].1.sources| && NormalisesLexically(scanned)
    requires ImportMapOf(imports, ProjectUnits(projects, scanned, |projects|))
    requires ExportMapOf(exports, ProjectUnits(projects, scanned, |projects|))
    ensures var key := SourceKey(projects[k].1.subdir, projects[k].1.sources[j]);
      scanned.unitOf(key).Some? && scanned.unitOf(key).value.imports != [] ==>
        key in imports && forall x :: x in scanned.unitOf(key).value.imports ==> x in imports[key]
    ensures var key := SourceKey(projects[k].1.subdir, projects[k].1.sources[j]);
      scanned.unitOf(key).Some? && scanned.unitOf(key).value.isInterface && !IsEmpty(scanned.unitOf(key).value.name) ==> key in exports
  {
    var setup := projects[k].1;
    var key := SourcePath(scanned, setup, j);
    assert key == SourceKey(setup.subdir, setup.sources[j]);
    if scanned.unitOf(key).Some? {
      var r := Scanned(projects[k].0, key, scanned.unitOf(key).value);
      var units := ProjectUnits(projects, scanned, |projects|);
      SourceUnitsHas(projects[k].0, setup, scanned, |setup.sources|, j);
      ProjectUnitsHas(projects, scanned, |projects|, k, r);
      ImportsAtHas(units, r);
      if r.unit.imports != [] {
        assert r.unit.imports[0] in ImportsAt(units, key);
      }
      if r.unit.isInterface && !IsEmpty(r.unit.name) {
        ExportAtHas(units, r);
      }
    }
  }

  /**
   * The lookup as the gcc and clang generators write it misses a source
   * listed as "./a.cpp": `analyze` files its imports under "a.cpp".
   */
  lemma RawLookupMisses(p: Project, scanned: Scanner, u: ModuleUnit, imports: map<string, seq<ModName>>)
    requires NormalisesLexically(scanned) && scanned.unitOf("a.cpp") == Some(u) && u.imports != []
    requires ImportMapOf(imports, ProjectUnits([(p, Setup("", ["./a.cpp"]))], scanned, 1))
    ensures SourceKey("", "./a.cpp") in imports
    ensures RawSourceFile("", "./a.cpp") !in imports
  {
    var setup := Setup("", ["./a.cpp"]);
    NormalDropsDot();
    assert SourcePath(scanned, setup, 0) == "a.cpp";
    var projects := [(p, setup)];
    var units := ProjectUnits(projects, scanned, 1);
    assert UnitAt(p, setup, scanned, 0) == [Scanned(p, "a.cpp", u)];
    assert SourceUnits(p, setup, scanned, 1) == [] + UnitAt(p, setup, scanned, 0);
    assert projects[0].0 == p && projects[0].1 == setup && |setup.sources| == 1;
    assert ProjectUnits(projects, scanned, 0) == [];
    assert units == [] + SourceUnits(p, setup, scanned, 1);
    assert units == [Scanned(p, "a.cpp", u)];
    assert units[..0] == [];
    assert ImportsAt(units, "a.cpp") == u.imports;
    assert RawSourceFile("", "./a.cpp") == "./a.cpp";
    assert "./a.cpp" != "a.cpp" by {
      assert |"./a.cpp"| != |"a.cpp"|;
    }
    assert ImportsAt(units, "./a.cpp") == [];
  }

  /**
   * `after` is `before` once the unit `r` is recorded: only its module's entry
   * changes (interface, sources, libraries, requirements), its imports are
   * appended under its path and, for a named interface, its path exports it.
   */
  ghost predicate Adds(before: BuildInfo, after: BuildInfo, r: Scanned)
  {
    var name := r.unit.name;
    var was := ModuleOf(before.modules, name);
    && after == before.(modules := after.modules, imports := after.imports, exports := after.exports)
    && name in after.modules
    && (forall m :: m != name ==> (m in after.modules <==> m in before.modules))
    && (forall m :: m != name && m in before.modules ==> after.modules[m] == before.modules[m])
    && after.modules[name].iface == (if Exports(Some(r.unit), name) then r.path else was.iface)
    && after.modules[name].sources == was.sources + (if r.unit.isInterface then [] else [r.path])
    && (forall q :: q in after.modules[name].libs <==> q in was.libs || q == r.project)
    && (forall x :: x in after.modules[name].req <==> x in was.req || (x in r.unit.imports && x != name))
    && after.imports == (if r.unit.imports == [] then before.imports
                         else before.imports[r.path := ImportsOr(before.imports, r.path) + r.unit.imports])
    && after.exports == (if Exports(Some(r.unit), name) then before.exports[r.path := name] else before.exports)
  }

  lemma {:induction false} NamedInStep(units: seq<Scanned>, r: Scanned, m: ModName)
    ensures NamedIn(units + [r], m) <==> NamedIn(units, m) || r.unit.name == m
  {
    if NamedIn(units + [r], m) && r.unit.name != m {
      var i :| 0 <= i < |units + [r]| && (units + [r])[i].unit.name == m;
      assert i < |units| && units[i] == (units + [r])[i];
    }
    if NamedIn(units, m) {
      var i :| 0 <= i < |units| && units[i].unit.name == m;
      assert (units + [r])[i] == units[i];
    }
    if r.unit.name == m {
      assert (units + [r])[|units|] == r;
    }
  }

  lemma {:induction false} LibInStep(units: seq<Scanned>, r: Scanned, m: ModName, q: Project)
    ensures LibIn(units + [r], m, q) <==> LibIn(units, m, q) || (r.unit.name == m && r.project == q)
    ensures LibIn(units, m, q) ==> NamedIn(units, m)
  {
    if LibIn(units + [r], m, q) && !(r.unit.name == m && r.project == q) {
      var i :| 0 <= i < |units + [r]| && (units + [r])[i].unit.name == m && (units + [r])[i].project == q;
      assert i < |units| && units[i] == (units + [r])[i];
    }
    if LibIn(units, m, q) {
      var i :| 0 <= i < |units| && units[i].unit.name == m && units[i].project == q;
      assert (units + [r])[i] == units[i];
    }
    if r.unit.name == m && r.project == q {
      assert (units + [r])[|units|] == r;
    }
  }

  lemma {:induction false} ReqInStep(units: seq<Scanned>, r: Scanned, m: ModName, x: ModName)
    ensures ReqIn(units + [r], m, x) <==> ReqIn(units, m, x) || (r.unit.name == m && x in r.unit.imports)
    ensures ReqIn(units, m, x) ==> NamedIn(units, m)
  {
    if ReqIn(units + [r], m, x) && !(r.unit.name == m && x in r.unit.imports) {
      var i :| 0 <= i < |units + [r]| && (units + [r])[i].unit.name == m && x in (units + [r])[i].unit.imports;
      assert i < |units| && units[i] == (units + [r])[i];
    }
    if ReqIn(units, m, x) {
      var i :| 0 <= i < |units| && units[i].unit.name == m && x in units[i].unit.imports;
      assert (units + [r])[i] == units[i];
    }
    if r.unit.name == m && x in r.unit.imports {
      assert (units + [r])[|units|] == r;
    }
  }

  /** A name no unit declares has no sources and no interface. */
  lemma {:induction false} UndeclaredHasNoFiles(units: seq<Scanned>, m: ModName)
    requires !NamedIn(units, m)
    ensures ImplPaths(units, m) == [] && IfacePath(units, m) == ""
  {
    if units != [] {
      var init := units[..|units| - 1];
      assert units == init + [units[|units| - 1]];
      NamedInStep(init, units[|units| - 1], m);
      UndeclaredHasNoFiles(init, m);
    }
  }

  /** Recording one more unit keeps the module map's keys, libraries and requirements what the units declare. */
  lemma AddsKeepsModules(before: BuildInfo, after: BuildInfo, units: seq<Scanned>, r: Scanned)
    requires KeysOf(before.modules, units) && LibsOf(before.modules, units) && ReqsOf(before.modules, units)
    requires Adds(before, after, r)
    ensures KeysOf(after.modules, units + [r]) && LibsOf(after.modules, units + [r]) && ReqsOf(after.modules, units + [r])
  {
    var name := r.unit.name;
    forall m
      ensures m in after.modules <==> NamedIn(units + [r], m)
    {
      NamedInStep(units, r, m);
    }
    forall m, q | m in after.modules
      ensures q in after.modules[m].libs <==> LibIn(units + [r], m, q)
    {
      LibInStep(units, r, m, q);
    }
    forall m, x | m in after.modules
      ensures x in after.modules[m].req <==> x != m && ReqIn(units + [r], m, x)
    {
      ReqInStep(units, r, m, x);
    }
  }

  /** Recording one more unit keeps every module's files what the units say. */
  lemma AddsKeepsFiles(before: BuildInfo, after: BuildInfo, units: seq<Scanned>, r: Scanned)
    requires KeysOf(before.modules, units) && FilesOf(before.modules, units)
    requires Adds(before, after, r)
    ensures FilesOf(after.modules, units + [r])
  {
    var name := r.unit.name;
    var more := units + [r];
    assert more[..|units|] == units && more[|more| - 1] == r;
    if name !in before.modules {
      UndeclaredHasNoFiles(units, name);
    }
    forall m | m in after.modules
      ensures after.modules[m].sources == ImplPaths(more, m) && after.modules[m].iface == IfacePath(more, m)
    {
      assert ImplPaths(more, m) == ImplPaths(units, m) + (if name == m && !r.unit.isInterface then [r.path] else []);
      if m != name {
        assert after.modules[m] == before.modules[m];
      }
    }
  }

  /** Recording one more unit keeps the import and export maps what the units say. */
  lemma AddsKeepsPaths(before: BuildInfo, after: BuildInfo, units: seq<Scanned>, r: Scanned)
    requires ImportMapOf(before.imports, units) && ExportMapOf(before.exports, units)
    requires Adds(before, after, r)
    ensures ImportMapOf(after.imports, units + [r]) && ExportMapOf(after.exports, units + [r])
  {
    assert (units + [r])[..|units|] == units;
  }

  /** Recording a unit as `analyze` does keeps the three maps what the scanned units say. */
  lemma AddsRecords(before: BuildInfo, after: BuildInfo, units: seq<Scanned>, r: Scanned, more: seq<Scanned>)
    requires Recorded(before.modules, before.imports, before.exports, units)
    requires Adds(before, after, r) && more == units + [r]
    ensures Recorded(after.modules, after.imports, after.exports, more)
  {
    AddsKeepsModules(before, after, units, r);
    AddsKeepsFiles(before, after, units, r);
    AddsKeepsPaths(before, after, units, r);
  }

  /**
   * `analyze`: the projects keep their order, sources and exports; a project
   * imports what its units import and no project exports; it links every
   * project that exports a module it imports without exporting it; each
   * module's entry, the import map and the export map are what the scanned
   * units, in order, declare.
   */
  method Analyze(projects: seq<(Project, Setup)>, scanned: Scanner, sourceDir: string, binaryDir: string)
    returns (build: BuildInfo)
    ensures |build.projects| == |projects|
    ensures forall k :: 0 <= k < |projects| ==>
      (build.projects[k].0 == projects[k].0
       && build.projects[k].1.subdir == projects[k].1.subdir && build.projects[k].1.sources == projects[k].1.sources)
    ensures forall k, m :: 0 <= k < |projects| ==>
      (m in build.projects[k].1.exports <==> ExportedByProject(projects, scanned, k, m))
    ensures forall k, m :: 0 <= k < |projects| ==>
      (m in build.projects[k].1.imports <==> ImportedByProject(projects, scanned, k, m) && !ExportedAnywhere(projects, scanned, m))
    ensures forall k, k2 :: 0 <= k < |projects| && 0 <= k2 < |projects| ==>
      (NeedsLink(projects, scanned, k, k2) ==> projects[k2].0 in build.projects[k].1.links)
    ensures forall k, q :: 0 <= k < |projects| && q in build.projects[k].1.links ==>
      exists k2 :: 0 <= k2 < |projects| && projects[k2].0 == q && NeedsLink(projects, scanned, k, k2)
    ensures forall k :: 0 <= k < |projects| ==> Ascending(build.projects[k].1.links, ProjectOrder)
    ensures ModulesWellFormed(build.modules)
    ensures Recorded(build.modules, build.imports, build.exports, ProjectUnits(projects, scanned, |projects|))
  {
    build := ScanProjects(projects, scanned, sourceDir, binaryDir);
    var linked := ResolveLinks(build.projects);
    ghost var before := build.projects;
    build := build.(projects := linked);
    forall k, m | 0 <= k < |projects|
      ensures m in build.projects[k].1.imports <==> ImportedByProject(projects, scanned, k, m) && !ExportedAnywhere(projects, scanned, m)
    {
      assert Resolved(before, before[k].1, build.projects[k].1);
      if ExportedAnywhere(projects, scanned, m) {
        var k2 :| 0 <= k2 < |projects| && ExportedByProject(projects, scanned, k2, m);
        assert m in before[k2].1.exports;
      }
      if ExportedIn(before, m) {
        var k2 :| 0 <= k2 < |before| && m in before[k2].1.exports;
        assert ExportedByProject(projects, scanned, k2, m);
      }
    }
    forall k, k2 | 0 <= k < |projects| && 0 <= k2 < |projects| && NeedsLink(projects, scanned, k, k2)
      ensures projects[k2].0 in build.projects[k].1.links
    {
      assert Resolved(before, before[k].1, build.projects[k].1);
      var m :| ImportedByProject(projects, scanned, k, m) && !ExportedByProject(projects, scanned, k, m)
        && ExportedByProject(projects, scanned, k2, m);
      assert m in before[k].1.imports && m in before[k2].1.exports;
      assert ProvidesAny(before, before[k].1.imports, projects[k2].0);
    }
    forall k, q | 0 <= k < |projects| && q in build.projects[k].1.links
      ensures exists k2 :: 0 <= k2 < |projects| && projects[k2].0 == q && NeedsLink(projects, scanned, k, k2)
    {
      assert Resolved(before, before[k].1, build.projects[k].1);
      assert LinkedFrom(before, before[k].1, q);
      var k2, m :| 0 <= k2 < |before| && before[k2].0 == q && m in before[k].1.imports && m in before[k2].1.exports;
      assert NeedsLink(projects, scanned, k, k2);
    }
  }

  /** The first `k` projects are scanned: in order, with their own exports and the imports they do not export, still without links. */
  ghost predicate ProjectsScanned(build: BuildInfo, projects: seq<(Project, Setup)>, scanned: Scanner, k: nat)
    requires k <= |projects|
  {
    |build.projects| == k
    && (forall i :: 0 <= i < k ==>
      (build.projects[i].0 == projects[i].0
       && build.projects[i].1.subdir == projects[i].1.subdir && build.projects[i].1.sources == projects[i].1.sources
       && build.projects[i].1.links == []))
    && (forall i, m :: 0 <= i < k ==>
      (m in build.projects[i].1.exports <==> ExportedByProject(projects, scanned, i, m)))
    && (forall i, m :: 0 <= i < k ==>
      (m in build.projects[i].1.imports <==> ImportedByProject(projects, scanned, i, m) && !ExportedByProject(projects, scanned, i, m)))
    && ModulesWellFormed(build.modules)
    && Recorded(build.modules, build.imports, build.exports, ProjectUnits(projects, scanned, k))
  }

  /** The first loop of `analyze`: every project is scanned in order and appended to the project list, still without links. */
  method ScanProjects(projects: seq<(Project, Setup)>, scanned: Scanner, sourceDir: string, binaryDir: string)
    returns (build: BuildInfo)
    ensures |build.projects| == |projects|
    ensures forall i :: 0 <= i < |projects| ==>
      (build.projects[i].0 == projects[i].0
       && build.projects[i].1.subdir == projects[i].1.subdir && build.projects[i].1.sources == projects[i].1.sources
       && build.projects[i].1.links == [])
    ensures forall i, m :: 0 <= i < |projects| ==>
      (m in build.projects[i].1.exports <==> ExportedByProject(projects, scanned, i, m))
    ensures forall i, m :: 0 <= i < |projects| ==>
      (m in build.projects[i].1.imports <==> ImportedByProject(projects, scanned, i, m) && !ExportedByProject(projects, scanned, i, m))
    ensures ModulesWellFormed(build.modules)
    ensures Recorded(build.modules, build.imports, build.exports, ProjectUnits(projects, scanned, |projects|))
  {
    build := BuildInfo(sourceDir, binaryDir, map[], [], map[], map[]);
    for k := 0 to |projects|
      invariant ProjectsScanned(build, projects, scanned, k)
    {
      build := ScanProject(build, projects, scanned, k);
    }
  }

  /** One turn of the first loop of `analyze`: project `k` is scanned and appended. */
  method ScanProject(build: BuildInfo, projects: seq<(Project, Setup)>, scanned: Scanner, k: nat) returns (next: BuildInfo)
    requires k < |projects| && ProjectsScanned(build, projects, scanned, k)
    ensures ProjectsScanned(next, projects, scanned, k + 1)
  {
    var b, dep := AnalyzeProject(build, projects[k].0, projects[k].1, scanned, ProjectUnits(projects, scanned, k));
    next := b.(projects := b.projects + [(projects[k].0, dep)]);
  }

  /** The first loop of `analyze` for one project: every source's unit is recorded, then the project's own exports leave its imports. */
  method AnalyzeProject(build: BuildInfo, project: Project, setup: Setup, scanned: Scanner, ghost units: seq<Scanned>)
    returns (b: BuildInfo, dep: ProjectInfo)
    requires ModulesWellFormed(build.modules)
    requires Recorded(build.modules, build.imports, build.exports, units)
    ensures ModulesWellFormed(b.modules) && b.projects == build.projects
    ensures Recorded(b.modules, b.imports, b.exports, units + SourceUnits(project, setup, scanned, |setup.sources|))
    ensures dep.subdir == setup.subdir && dep.sources == setup.sources && dep.links == []
    ensures forall m :: m in dep.exports <==> ExportedBy(setup, scanned, |setup.sources|, m)
    ensures forall m :: m in dep.imports <==>
      ImportedBy(setup, scanned, |setup.sources|, m) && !ExportedBy(setup, scanned, |setup.sources|, m)
  {
    b := build;
    var d := ProjectInfo(setup.subdir, setup.sources, [], [], []);
    assert units + SourceUnits(project, setup, scanned, 0) == units;
    for j := 0 to |setup.sources|
      invariant ModulesWellFormed(b.modules) && b.projects == build.projects
      invariant Recorded(b.modules, b.imports, b.exports, units + SourceUnits(project, setup, scanned, j))
      invariant d.subdir == setup.subdir && d.sources == setup.sources && d.links == []
      invariant forall m :: m in d.exports <==> ExportedBy(setup, scanned, j, m)
      invariant forall m :: m in d.imports <==> ImportedBy(setup, scanned, j, m)
    {
      b, d := ScanSource(b, d, project, setup, scanned, j, units);
    }
    var kept := RemoveListed(d.imports, d.exports);
    OrdersAreStrict();
    FromSeqKeepsElements(kept, ModOrder);
    dep := d.(imports := FromSeq(kept, ModOrder));
  }

  /** One turn of the per-source loop of `analyze`: a source the preprocessor fails on is skipped, any other has its unit recorded. */
  method ScanSource(build: BuildInfo, dep: ProjectInfo, project: Project, setup: Setup, scanned: Scanner, j: nat, ghost units: seq<Scanned>)
    returns (b: BuildInfo, d: ProjectInfo)
    requires j < |setup.sources| && ModulesWellFormed(build.modules)
    requires Recorded(build.modules, build.imports, build.exports, units + SourceUnits(project, setup, scanned, j))
    requires forall m :: m in dep.exports <==> ExportedBy(setup, scanned, j, m)
    requires forall m :: m in dep.imports <==> ImportedBy(setup, scanned, j, m)
    ensures ModulesWellFormed(b.modules) && b.projects == build.projects
    ensures Recorded(b.modules, b.imports, b.exports, units + SourceUnits(project, setup, scanned, j + 1))
    ensures d.subdir == dep.subdir && d.sources == dep.sources && d.links == dep.links
    ensures forall m :: m in d.exports <==> ExportedBy(setup, scanned, j + 1, m)
    ensures forall m :: m in d.imports <==> ImportedBy(setup, scanned, j + 1, m)
  {
    var path := SourcePath(scanned, setup, j);
    var unit := scanned.unitOf(path);
    b, d := build, dep;
    if unit.Some? {
      b, d := AddUnit(b, d, project, path, unit.value);
      assert SourceUnits(project, setup, scanned, j + 1) == SourceUnits(project, setup, scanned, j) + [Scanned(project, path, unit.value)];
      AddsRecords(build, b, units + SourceUnits(project, setup, scanned, j), Scanned(project, path, unit.value),
                  units + SourceUnits(project, setup, scanned, j + 1));
    } else {
      assert SourceUnits(project, setup, scanned, j + 1) == SourceUnits(project, setup, scanned, j);
    }
  }

  /** The body of the per-source loop of `analyze`, for a source whose unit was scanned. */
  method AddUnit(build: BuildInfo, dep: ProjectInfo, project: Project, path: string, unit: ModuleUnit)
    returns (b: BuildInfo, d: ProjectInfo)
    requires ModulesWellFormed(build.modules)
    ensures ModulesWellFormed(b.modules)
    ensures Adds(build, b, Scanned(project, path, unit))
    ensures d.subdir == dep.subdir && d.sources == dep.sources && d.links == dep.links
    ensures forall m :: m in d.exports <==> m in dep.exports || Exports(Some(unit), m)
    ensures forall m :: m in d.imports <==> m in dep.imports || m in unit.imports
  {
    b, d := DeclareUnit(build, dep, project, path, unit);
    b, d := AddImports(b, d, unit.name, path, unit.imports);
  }

  /** The declaration part of the per-source loop: interface and export, library, implementation source. */
  method DeclareUnit(build: BuildInfo, dep: ProjectInfo, project: Project, path: string, unit: ModuleUnit)
    returns (b: BuildInfo, d: ProjectInfo)
    requires ModulesWellFormed(build.modules)
    ensures ModulesWellFormed(b.modules)
    ensures b == build.(modules := b.modules, exports := b.exports) && unit.name in b.modules
    ensures b.modules == build.modules[unit.name := b.modules[unit.name]]
    ensures var was := ModuleOf(build.modules, unit.name);
      && b.modules[unit.name].iface == (if Exports(Some(unit), unit.name) then path else was.iface)
      && b.modules[unit.name].sources == was.sources + (if unit.isInterface then [] else [path])
      && b.modules[unit.name].req == was.req
      && (forall q :: q in b.modules[unit.name].libs <==> q in was.libs || q == project)
    ensures b.exports == (if Exports(Some(unit), unit.name) then build.exports[path := unit.name] else build.exports)
    ensures d == dep.(exports := d.exports)
    ensures forall m :: m in d.exports <==> m in dep.exports || Exports(Some(unit), m)
  {
    OrdersAreStrict();
    var exporting := !IsEmpty(unit.name) && unit.isInterface;
    var was := ModuleOf(build.modules, unit.name);
    InsertKeepsOrder(was.libs, project, ProjectOrder);
    var info := was.(iface := if exporting then path else was.iface,
                     sources := if unit.isInterface then was.sources else was.sources + [path],
                     libs := Insert(was.libs, project, ProjectOrder));
    b := build.(modules := build.modules[unit.name := info],
                exports := if exporting then build.exports[path := unit.name] else build.exports);
    d := if exporting then dep.(exports := Insert(dep.exports, unit.name, ModOrder)) else dep;
  }

  /** The import loop of `analyze`: a unit's imports other than itself become its module's requirements and are listed under its path. */
  method AddImports(build: BuildInfo, dep: ProjectInfo, name: ModName, path: string, imports: seq<ModName>)
    returns (b: BuildInfo, d: ProjectInfo)
    requires ModulesWellFormed(build.modules) && name in build.modules
    ensures ModulesWellFormed(b.modules)
    ensures b == build.(modules := b.modules, imports := b.imports) && name in b.modules
    ensures b.modules == build.modules[name := build.modules[name].(req := b.modules[name].req)]
    ensures forall x :: x in b.modules[name].req <==> x in build.modules[name].req || (x in imports && x != name)
    ensures b.imports == if imports == [] then build.imports else build.imports[path := ImportsOr(build.imports, path) + imports]
    ensures d == dep.(imports := d.imports)
    ensures forall m :: m in d.imports <==> m in dep.imports || m in imports
  {
    b, d := build, dep;
    for i := 0 to |imports|
      invariant ModulesWellFormed(b.modules)
      invariant b == build.(modules := b.modules, imports := b.imports) && name in b.modules
      invariant b.modules == build.modules[name := build.modules[name].(req := b.modules[name].req)]
      invariant forall x :: x in b.modules[name].req <==> x in build.modules[name].req || (x in imports[..i] && x != name)
      invariant b.imports == if i == 0 then build.imports else build.imports[path := ImportsOr(build.imports, path) + imports[..i]]
      invariant d == dep.(imports := d.imports)
      invariant forall m :: m in d.imports <==> m in dep.imports || m in imports[..i]
    {
      ghost var was := b;
      b, d := AddImport(b, d, name, path, imports[i]);
      assert imports[..i + 1] == imports[..i] + [imports[i]];
      assert ImportsOr(build.imports, path) + imports[..i + 1] == ImportsOr(was.imports, path) + [imports[i]];
    }
    assert imports[..|imports|] == imports;
  }

  /** One turn of the import loop. */
  method AddImport(build: BuildInfo, dep: ProjectInfo, name: ModName, path: string, imported: ModName)
    returns (b: BuildInfo, d: ProjectInfo)
    requires ModulesWellFormed(build.modules) && name in build.modules
    ensures ModulesWellFormed(b.modules)
    ensures b == build.(modules := b.modules, imports := b.imports) && name in b.modules
    ensures b.modules == build.modules[name := build.modules[name].(req := b.modules[name].req)]
    ensures forall x :: x in b.modules[name].req <==> x in build.modules[name].req || (x == imported && x != name)
    ensures b.imports == build.imports[path := ImportsOr(build.imports, path) + [imported]]
    ensures d == dep.(imports := d.imports)
    ensures forall m :: m in d.imports <==> m in dep.imports || m == imported
  {
    OrdersAreStrict();
    b, d := build, dep;
    if name != imported {
      var info := b.modules[name];
      InsertKeepsOrder(info.req, imported, ModOrder);
      b := b.(modules := b.modules[name := info.(req := Insert(info.req, imported, ModOrder))]);
    }
    d := d.(imports := Insert(d.imports, imported, ModOrder));
    var prev := if path in b.imports then b.imports[path] else [];
    b := b.(imports := b.imports[path := prev + [imported]]);
  }

  /** The `remove_if` over a copy of the imports: keep, in order, what the other list does not hold. */
  method RemoveListed(items: seq<ModName>, listed: seq<ModName>) returns (kept: seq<ModName>)
    ensures forall m :: m in kept <==> m in items && m !in listed
  {
    kept := [];
    for i := 0 to |items|
      invariant forall m :: m in kept <==> m in items[..i] && m !in listed
    {
      var found := Contains(listed, items[i]);
      if !found {
        kept := kept + [items[i]];
      }
      assert items[..i + 1] == items[..i] + [items[i]];
    }
    assert items[..|items|] == items;
  }

  /** The search loop with `break` the lambdas of `analyze` run. */
  method Contains(s: seq<ModName>, m: ModName) returns (found: bool)
    ensures found <==> m in s
  {
    found := false;
    var i := 0;
    while i < |s|
      invariant 0 <= i <= |s|
      invariant m !in s[..i]
    {
      if s[i] == m {
        found := true;
        return;
      }
      assert s[..i + 1] == s[..i] + [s[i]];
      i := i + 1;
    }
    assert s[..i] == s;
  }

  /** Some project of the list exports `m`. */
  ghost predicate ExportedIn(projects: seq<(Project, ProjectInfo)>, m: ModName)
  {
    exists k :: 0 <= k < |projects| && m in projects[k].1.exports
  }

  /** Some project of the list exports one of `imports` and is called `q`. */
  ghost predicate ProvidesAny(projects: seq<(Project, ProjectInfo)>, imports: seq<ModName>, q: Project)
  {
    exists k2, m :: 0 <= k2 < |projects| && projects[k2].0 == q && m in imports && m in projects[k2].1.exports
  }

  /** `q` is linked from a project before the second loop or provides one of its imports. */
  ghost predicate LinkedFrom(projects: seq<(Project, ProjectInfo)>, deps: ProjectInfo, q: Project)
  {
    q in deps.links || ProvidesAny(projects, deps.imports, q)
  }

  /** `after` is `before` once the second loop has turned its imports other projects export into links. */
  ghost predicate Resolved(projects: seq<(Project, ProjectInfo)>, before: ProjectInfo, after: ProjectInfo)
  {
    (forall m :: m in after.imports <==> m in before.imports && !ExportedIn(projects, m))
    && (forall q :: q in after.links <==> LinkedFrom(projects, before, q))
  }

  /**
   * The second loop of `analyze`: each project's imports that some project
   * exports become links to every such project and leave the imports.
   */
  method ResolveLinks(projects: seq<(Project, ProjectInfo)>) returns (r: seq<(Project, ProjectInfo)>)
    requires forall k :: 0 <= k < |projects| ==> Ascending(projects[k].1.links, ProjectOrder)
    ensures |r| == |projects|
    ensures forall k :: 0 <= k < |r| ==>
      (r[k].0 == projects[k].0 && r[k].1.exports == projects[k].1.exports
       && r[k].1.subdir == projects[k].1.subdir && r[k].1.sources == projects[k].1.sources
       && Ascending(r[k].1.links, ProjectOrder))
    ensures forall k :: 0 <= k < |r| ==> Resolved(projects, projects[k].1, r[k].1)
  {
    r := projects;
    for k := 0 to |projects|
      invariant |r| == |projects|
      invariant forall i :: 0 <= i < |r| ==>
        (r[i].0 == projects[i].0 && r[i].1.exports == projects[i].1.exports
         && r[i].1.subdir == projects[i].1.subdir && r[i].1.sources == projects[i].1.sources
         && Ascending(r[i].1.links, ProjectOrder))
      invariant forall i :: k <= i < |r| ==> r[i] == projects[i]
      invariant forall i :: 0 <= i < k ==> Resolved(projects, projects[i].1, r[i].1)
    {
      var deps := LinkProject(projects, r[k].1);
      ghost var prev := r;
      r := r[k := (r[k].0, deps)];
      assert forall i :: 0 <= i < k ==> r[i] == prev[i];
    }
  }

  /** One turn of the second loop: the project's imports are sorted into links and kept imports. */
  method LinkProject(projects: seq<(Project, ProjectInfo)>, deps: ProjectInfo) returns (d: ProjectInfo)
    requires Ascending(deps.links, ProjectOrder)
    ensures d.exports == deps.exports && d.subdir == deps.subdir && d.sources == deps.sources
    ensures Ascending(d.links, ProjectOrder)
    ensures Resolved(projects, deps, d)
  {
    OrdersAreStrict();
    var kept: seq<ModName> := [];
    var links := deps.links;
    var imports := deps.imports;
    for i := 0 to |imports|
      invariant Ascending(links, ProjectOrder)
      invariant forall m :: m in kept <==> m in imports[..i] && !ExportedIn(projects, m)
      invariant forall q :: q in links <==> q in deps.links || ProvidesAny(projects, imports[..i], q)
    {
      ghost var before := links;
      var found;
      found, links := Exporters(projects, imports[i], links);
      if !found {
        kept := kept + [imports[i]];
      }
      assert imports[..i + 1] == imports[..i] + [imports[i]];
      forall q
        ensures q in links <==> q in deps.links || ProvidesAny(projects, imports[..i + 1], q)
      {
        if ProvidesAny(projects, imports[..i + 1], q) && !ProvidesAny(projects, imports[..i], q) {
          var k2, m :| 0 <= k2 < |projects| && projects[k2].0 == q && m in imports[..i + 1] && m in projects[k2].1.exports;
          assert m == imports[i];
          assert exists k3 :: 0 <= k3 < |projects| && projects[k3].0 == q && imports[i] in projects[k3].1.exports;
        }
        if ProvidesAny(projects, imports[..i], q) {
          var k2, m :| 0 <= k2 < |projects| && projects[k2].0 == q && m in imports[..i] && m in projects[k2].1.exports;
          assert m in imports[..i + 1];
        }
        if q in links && q !in before {
          var k2 :| 0 <= k2 < |projects| && projects[k2].0 == q && imports[i] in projects[k2].1.exports;
          assert imports[i] in imports[..i + 1];
          assert ProvidesAny(projects, imports[..i + 1], q);
        }
      }
    }
    assert imports[..|imports|] == imports;
    FromSeqKeepsElements(kept, ModOrder);
    d := deps.(imports := FromSeq(kept, ModOrder), links := links);
  }

  /** The lambda of the second loop: does any project export `m`? Each one that does is linked. */
  method Exporters(projects: seq<(Project, ProjectInfo)>, m: ModName, links: seq<Project>) returns (found: bool, r: seq<Project>)
    requires Ascending(links, ProjectOrder)
    ensures Ascending(r, ProjectOrder)
    ensures found <==> ExportedIn(projects, m)
    ensures forall q :: q in r <==> q in links || exists k2 :: 0 <= k2 < |projects| && projects[k2].0 == q && m in projects[k2].1.exports
  {
    OrdersAreStrict();
    found := false;
    r := links;
    for k := 0 to |projects|
      invariant Ascending(r, ProjectOrder)
      invariant found <==> exists k2 :: 0 <= k2 < k && m in projects[k2].1.exports
      invariant forall q :: q in r <==> q in links || exists k2 :: 0 <= k2 < k && projects[k2].0 == q && m in projects[k2].1.exports
    {
      var here := Contains(projects[k].1.exports, m);
      if here {
        found := true;
        InsertKeepsOrder(r, projects[k].0, ProjectOrder);
        r := Insert(r, projects[k].0, ProjectOrder);
      }
    }
  }
}
