/** `env/defaults`: how the names of executables, libraries and objects are derived from a target's path. */
module Defaults {
  import opened Paths

  /** `affix`: what goes before and after a file name. */
  datatype Affix = Affix(prefix: string, suffix: string)

  /** `modifiers`: one affix per kind of output. */
  datatype Modifiers = Modifiers(executable: Affix, staticLibrary: Affix, sharedLibrary: Affix, objectFile: Affix)

  /** `affix::modify`: the file name gets the prefix and the suffix; the directory stays. */
  function Modify(a: Affix, file: string): string
  {
    Join(ParentPath(file), a.prefix + FileName(file) + a.suffix)
  }

  /** `modify` keeps the directory and wraps the file name in the affix. */
  lemma ModifyMeaning(a: Affix, file: string)
    requires IsDirName(ParentPath(file))
    requires '/' !in a.prefix && '/' !in a.suffix
    requires |a.prefix + FileName(file) + a.suffix| > 0
    ensures ParentPath(Modify(a, file)) == ParentPath(file)
    ensures FileName(Modify(a, file)) == a.prefix + FileName(file) + a.suffix
  {
    var name := a.prefix + FileName(file) + a.suffix;
    PartsWellFormed(file);
    assert '/' !in name by {
      forall i | 0 <= i < |name|
        ensures name[i] != '/'
      {
        if i < |a.prefix| {
          assert name[i] == a.prefix[i];
        } else if i < |a.prefix| + |FileName(file)| {
          assert name[i] == FileName(file)[i - |a.prefix|];
        } else {
          assert name[i] == a.suffix[i - |a.prefix| - |FileName(file)|];
        }
      }
    }
    JoinSplits(ParentPath(file), name);
  }

  /** `path_mods`: the platform's affixes; `windows` stands for the `_WIN32` build. */
  function PathMods(windows: bool): Modifiers
  {
    if windows then
      Modifiers(Affix("", ".exe"), Affix("", ".lib"), Affix("", ".dll"), Affix("", ".obj"))
    else
      Modifiers(Affix("", ""), Affix("lib", ".a"), Affix("lib", ".so"), Affix("", ".o"))
  }

  /** A file named in a directory is renamed in that directory. */
  lemma ModifyJoin(a: Affix, dir: string, name: string)
    requires IsDirName(dir) && |name| > 0 && '/' !in name
    ensures Modify(a, Join(dir, name)) == Join(dir, a.prefix + name + a.suffix)
  {
    JoinSplits(dir, name);
  }

  /** An affix without a prefix only appends its suffix to the file name. */
  lemma ModifySuffix(suffix: string, dir: string, name: string)
    requires IsDirName(dir) && |name| > 0 && '/' !in name
    ensures Modify(Affix("", suffix), Join(dir, name)) == Join(dir, name + suffix)
  {
    var a := Affix("", suffix);
    ModifyJoin(a, dir, name);
    assert a.prefix + name + a.suffix == name + suffix by {
      assert a.prefix == "" && a.suffix == suffix;
    }
  }

  /**
   * Outside Windows an executable keeps its name, an object gets ".o", and
   * libraries get "lib" in front and ".a" or ".so" after; all in the same
   * directory.
   */
  lemma PosixNames(dir: string, name: string)
    requires IsDirName(dir) && |name| > 0 && '/' !in name
    ensures Modify(PathMods(false).executable, Join(dir, name)) == Join(dir, name)
    ensures Modify(PathMods(false).objectFile, Join(dir, name)) == Join(dir, name + ".o")
    ensures Modify(PathMods(false).staticLibrary, Join(dir, name)) == Join(dir, "lib" + name + ".a")
    ensures Modify(PathMods(false).sharedLibrary, Join(dir, name)) == Join(dir, "lib" + name + ".so")
  {
    ModifySuffix("", dir, name);
    assert name + "" == name;
    ModifySuffix(".o", dir, name);
    ModifyJoin(Affix("lib", ".a"), dir, name);
    ModifyJoin(Affix("lib", ".so"), dir, name);
  }

  /** On Windows no output gets a prefix, and each kind gets its own extension. */
  lemma WindowsNames(dir: string, name: string)
    requires IsDirName(dir) && |name| > 0 && '/' !in name
    ensures Modify(PathMods(true).executable, Join(dir, name)) == Join(dir, name + ".exe")
    ensures Modify(PathMods(true).objectFile, Join(dir, name)) == Join(dir, name + ".obj")
    ensures Modify(PathMods(true).staticLibrary, Join(dir, name)) == Join(dir, name + ".lib")
    ensures Modify(PathMods(true).sharedLibrary, Join(dir, name)) == Join(dir, name + ".dll")
  {
    ModifySuffix(".exe", dir, name);
    ModifySuffix(".obj", dir, name);
    ModifySuffix(".lib", dir, name);
    ModifySuffix(".dll", dir, name);
  }
}
