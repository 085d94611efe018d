/**
 * `binary_interface`: where a compiler puts the binary module interfaces
 * (BMIs) of named modules and of header units, and the targets that build
 * the header units it was asked about.
 */
module BinaryInterface {
  import opened Wrappers
  import opened SortedSets
  import opened Types
  import opened Paths
  import opened Generator
  import opened IncludeLocator

  /** `append`: the directory, ending in `ch` unless it is empty. */
  function Append(ch: char, dirname: string): (r: string)
    ensures |dirname| == 0 ==> r == ""
    ensures |dirname| > 0 ==> |dirname| <= |r| <= |dirname| + 1 && r[|r| - 1] == ch && r[..|dirname|] == dirname
  {
    if |dirname| > 0 && dirname[|dirname| - 1] != ch then dirname + [ch] else dirname
  }

  /** `prepend`: the extension, starting with `ch` unless it is empty. */
  function Prepend(ch: char, ext: string): (r: string)
    ensures |ext| == 0 ==> r == ""
    ensures |ext| > 0 ==> |ext| <= |r| <= |ext| + 1 && r[0] == ch && r[|r| - |ext|..] == ext
  {
    if |ext| > 0 && ext[0] != ch then [ch] + ext else ext
  }

  /** A directory and an extension already in shape are kept as they are. */
  lemma AppendPrependIdempotent(ch: char, dirname: string, ext: string)
    ensures Append(ch, Append(ch, dirname)) == Append(ch, dirname)
    ensures Prepend(ch, Prepend(ch, ext)) == Prepend(ch, ext)
  {
    var d := Append(ch, dirname);
    if |dirname| > 0 {
      assert d[|d| - 1] == ch;
    }
    var e := Prepend(ch, ext);
    if |ext| > 0 {
      assert e[0] == ch;
    }
  }

  /** `path::relative_path` of a POSIX path: what follows the leading separators. */
  function RelativePath(p: string): (r: string)
    ensures |r| <= |p| && r == p[|p| - |r|..]
    ensures forall i :: 0 <= i < |p| - |r| ==> p[i] == '/'
    ensures |r| == 0 || r[0] != '/'
    decreases |p|
  {
    if |p| > 0 && p[0] == '/' then RelativePath(p[1..]) else p
  }

  /** A module name naming a header unit: `<...>` or `"..."`. */
  predicate IsHeaderUnit(name: string)
  {
    |name| > 0 && (name[0] == '<' || name[0] == '"')
  }

  /** What `header_modules_` keeps for a BMI: the header found, the BMI's node name, and the name as imported. */
  datatype HeaderSource = HeaderSource(path: string, nodeName: string, header: string)

  /** The header itself, as an include file named after the import. */
  function IncludeRef(src: HeaderSource): FileRef
  {
    FileRef(0, src.path, IncludeFile, src.header)
  }

  /** The target that emits a header unit's BMI from the header. */
  function EmitTarget(bmi: string, src: HeaderSource): Target
  {
    Target(Builtin(EmitInclude), File(FileRef(0, bmi, FileKind.HeaderModule, src.nodeName)),
           FileList([File(IncludeRef(src))], [], []), NoFiles, "")
  }

  /** The header as a target of its own, with no rule. */
  function IncludeTarget(src: HeaderSource): Target
  {
    Target(Unnamed, File(IncludeRef(src)), NoFiles, NoFiles, "")
  }

  /** The targets `add_targets` appends, header module after header module. */
  function HeaderTargets(hm: seq<(string, HeaderSource)>): seq<Target>
  {
    if |hm| == 0 then []
    else HeaderTargets(hm[..|hm| - 1]) + [EmitTarget(hm[|hm| - 1].0, hm[|hm| - 1].1), IncludeTarget(hm[|hm| - 1].1)]
  }

  /** Two targets per header module, in key order: the BMI from the header, then the header. */
  lemma {:induction false} HeaderTargetsLayout(hm: seq<(string, HeaderSource)>)
    ensures |HeaderTargets(hm)| == 2 * |hm|
    ensures forall i :: 0 <= i < |hm| ==>
      HeaderTargets(hm)[2 * i] == EmitTarget(hm[i].0, hm[i].1) && HeaderTargets(hm)[2 * i + 1] == IncludeTarget(hm[i].1)
  {
    if |hm| > 0 {
      var init := hm[..|hm| - 1];
      HeaderTargetsLayout(init);
      forall i | 0 <= i < |hm|
        ensures HeaderTargets(hm)[2 * i] == EmitTarget(hm[i].0, hm[i].1)
        ensures HeaderTargets(hm)[2 * i + 1] == IncludeTarget(hm[i].1)
      {
        if i < |init| {
          assert hm[i] == init[i];
        }
      }
    }
  }

  /** `binary_interface` */
  class BinaryInterface {
    const partitionSeparator: char
    const standaloneInterface: bool
    const dirname: string
    const ext: string
    var headerModules: seq<(string, HeaderSource)>

    /** `header_modules_` is a map by BMI path, and every node name is the file name of its BMI. */
    predicate Valid()
      reads this
    {
      KeysAscending(headerModules, StringOrder)
      && forall e :: e in headerModules ==> e.1.nodeName == FileName(e.0)
    }

    constructor (supportsPartitions: bool, standaloneInterface: bool, dirname: string, ext: string)
      ensures partitionSeparator == (if supportsPartitions then '-' else '.')
      ensures this.standaloneInterface == standaloneInterface
      ensures this.dirname == Append('/', dirname) && this.ext == Prepend('.', ext)
      ensures headerModules == [] && Valid()
    {
      partitionSeparator := if supportsPartitions then '-' else '.';
      this.standaloneInterface := standaloneInterface;
      this.dirname := Append('/', dirname);
      this.ext := Prepend('.', ext);
      headerModules := [];
    }

    /** The BMI file name of a named module or partition, between the directory and the extension. */
    function Stem(name: ModName): string
      reads this
    {
      if |name.part| == 0 then name.moduleName else name.moduleName + [partitionSeparator] + name.part
    }

    /** `as_interface` */
    function AsInterface(name: ModName): (r: string)
      reads this
      ensures |r| == |dirname| + |Stem(name)| + |ext|
      ensures r[..|dirname|] == dirname && r[|r| - |ext|..] == ext
      ensures r[|dirname|..|r| - |ext|] == Stem(name)
    {
      dirname + Stem(name) + ext
    }

    /** Modules whose names hold no separator get BMIs of their own. */
    lemma AsInterfaceInjective(a: ModName, b: ModName)
      requires partitionSeparator !in a.moduleName && partitionSeparator !in b.moduleName
      ensures AsInterface(a) == AsInterface(b) ==> a == b
    {
      if AsInterface(a) == AsInterface(b) {
        var s := Stem(a);
        assert s == Stem(b);
        StemSplit(a);
        StemSplit(b);
      }
    }

    /** The module name is what precedes the first separator of the stem, the partition what follows it. */
    lemma StemSplit(name: ModName)
      requires partitionSeparator !in name.moduleName
      ensures |Stem(name)| >= |name.moduleName| && Stem(name)[..|name.moduleName|] == name.moduleName
      ensures |name.part| == 0 <==> partitionSeparator !in Stem(name)
      ensures |name.part| > 0 ==>
        Stem(name)[|name.moduleName|] == partitionSeparator && Stem(name)[|name.moduleName| + 1..] == name.part
      ensures forall i :: 0 <= i < |name.moduleName| ==> Stem(name)[i] != partitionSeparator
    {
      var s := Stem(name);
      if |name.part| > 0 {
        assert s[|name.moduleName|] == partitionSeparator;
      }
      forall i | 0 <= i < |name.moduleName|
        ensures s[i] != partitionSeparator
      {
        assert s[i] == name.moduleName[i];
      }
    }

    /** The BMI of a header found at `path`: under the directory, by the header's path, with the extension. */
    function BmiOf(path: string): (r: string)
      reads this
      ensures |r| == |dirname| + |RelativePath(path)| + |ext|
      ensures r[..|dirname|] == dirname && r[|r| - |ext|..] == ext
      ensures r[|dirname|..|r| - |ext|] == RelativePath(path)
    {
      var rel := RelativePath(path);
      var head := dirname + rel;
      assert head[..|dirname|] == dirname && head[|dirname|..] == rel;
      assert (head + ext)[..|head|] == head && (head + ext)[|head|..] == ext;
      head + ext
    }

    /** `from_module`: a header unit is looked up with the locator; a named module gets its BMI path. */
    method FromModule(locator: Locator, sourcePath: string, ref: ModName, isRegular: string -> bool)
      returns (r: Option<Artifact>)
      requires Valid()
      modifies this, locator
      ensures Valid()
      ensures !IsHeaderUnit(ref.moduleName) ==>
        r == Some(Mod(ModRef(ref, AsInterface(ref)))) && headerModules == old(headerModules) && unchanged(locator)
      ensures IsHeaderUnit(ref.moduleName) ==>
        var path := FoundInclude(locator.dirs, sourcePath, ref.moduleName, isRegular);
        && (path == "" ==> r == None && headerModules == old(headerModules))
        && (path != "" ==>
              && r == Some(File(FileRef(0, BmiOf(path), FileKind.HeaderModule, FileName(BmiOf(path)))))
              && Lookup(headerModules, BmiOf(path)) == Some(HeaderSource(path, FileName(BmiOf(path)), ref.moduleName))
              && forall k :: k != BmiOf(path) ==> Lookup(headerModules, k) == Lookup(old(headerModules), k))
    {
      if IsHeaderUnit(ref.moduleName) {
        r := HeaderModule(locator, sourcePath, ref, isRegular);
        return;
      }
      r := Some(Mod(ModRef(ref, AsInterface(ref))));
    }

    /** `header_module`: finds the header, files its BMI under the BMI path and names it. */
    method HeaderModule(locator: Locator, sourcePath: string, ref: ModName, isRegular: string -> bool)
      returns (r: Option<Artifact>)
      requires Valid()
      modifies this, locator
      ensures Valid()
      ensures if |ref.moduleName| < 3 || LocalHit(sourcePath, ref.moduleName, isRegular)
        then locator.parsed == old(locator.parsed) && locator.dirs == old(locator.dirs)
        else locator.parsed && locator.dirs == (if old(locator.parsed) then old(locator.dirs) else locator.Learnt())
      ensures var path := FoundInclude(locator.dirs, sourcePath, ref.moduleName, isRegular);
        && (path == "" ==> r == None && headerModules == old(headerModules))
        && (path != "" ==>
              && r == Some(File(FileRef(0, BmiOf(path), FileKind.HeaderModule, FileName(BmiOf(path)))))
              && headerModules == Put(old(headerModules), BmiOf(path),
                                      HeaderSource(path, FileName(BmiOf(path)), ref.moduleName), StringOrder)
              && Lookup(headerModules, BmiOf(path)) == Some(HeaderSource(path, FileName(BmiOf(path)), ref.moduleName))
              && forall k :: k != BmiOf(path) ==> Lookup(headerModules, k) == Lookup(old(headerModules), k))
    {
      var path := locator.FindInclude(sourcePath, ref.moduleName, isRegular);
      if path == "" {
        return None;
      }
      var bmi := dirname + RelativePath(path) + ext;
      var nodeName := FileName(bmi);
      var src := HeaderSource(path, nodeName, ref.moduleName);
      StringOrderIsStrict();
      PutMeaning(headerModules, bmi, src, StringOrder);
      PutEntries(headerModules, bmi, src, StringOrder);
      headerModules := Put(headerModules, bmi, src, StringOrder);
      r := Some(File(FileRef(0, bmi, FileKind.HeaderModule, nodeName)));
    }

    /** `add_targets`: two targets for every header unit, and the header-unit rule once there is one. */
    method AddTargets(targets: seq<Target>, rulesNeeded: RuleTypes) returns (result: seq<Target>)
      modifies rulesNeeded
      ensures result == targets + HeaderTargets(headerModules)
      ensures rulesNeeded.bits == if |headerModules| == 0 then old(rulesNeeded.bits) else old(rulesNeeded.bits) | Bit(EmitInclude)
    {
      result := targets;
      var i := 0;
      while i < |headerModules|
        invariant 0 <= i <= |headerModules|
        invariant result == targets + HeaderTargets(headerModules[..i])
        invariant rulesNeeded.bits == if i == 0 then old(rulesNeeded.bits) else old(rulesNeeded.bits) | Bit(EmitInclude)
      {
        var entry := headerModules[i];
        rulesNeeded.Set(EmitInclude);
        result := result + [EmitTarget(entry.0, entry.1), IncludeTarget(entry.1)];
        assert headerModules[..i + 1][..i] == headerModules[..i];
        i := i + 1;
      }
      assert headerModules[..i] == headerModules;
    }
  }
}
