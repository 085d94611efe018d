/**
 * `compiler_cache`: the compiler descriptions found on disk, one per
 * compiler name, the newest file winning.
 */
module XmlCache {
  import opened Wrappers
  import opened SortedSets
  import opened XmlTypes

  /** `xml_compiler_info`: a description with the file it came from and that file's modification time. */
  datatype Info = Info(mtime: int, filename: string, cfg: FactoryConfig)

  /** The cache key of a description: its compiler's name. */
  function NameOf(info: Info): string
  {
    info.cfg.ident.name
  }

  /** `add_config` on the map of configurations. */
  function Added(configs: seq<(string, Info)>, info: Info): seq<(string, Info)>
  {
    match Lookup(configs, NameOf(info))
    case None => Put(configs, NameOf(info), info, StringOrder)
    case Some(stored) => if stored.mtime < info.mtime then Put(configs, NameOf(info), info, StringOrder) else configs
  }

  /** `PutMeaning` for the cache's map. */
  lemma PutConfig(configs: seq<(string, Info)>, name: string, info: Info)
    requires KeysAscending(configs, StringOrder)
    ensures KeysAscending(Put(configs, name, info, StringOrder), StringOrder)
    ensures Lookup(Put(configs, name, info, StringOrder), name) == Some(info)
    ensures forall q :: q != name ==> Lookup(Put(configs, name, info, StringOrder), q) == Lookup(configs, q)
  {
    StringOrderIsStrict();
    PutMeaning(configs, name, info, StringOrder);
  }

  /**
   * A new name is inserted; a known name is replaced only by a strictly
   * newer file, an equal or older one leaving the stored entry as it was;
   * no other name changes, and the keys stay ordered.
   */
  lemma AddedMeaning(configs: seq<(string, Info)>, info: Info)
    requires KeysAscending(configs, StringOrder)
    ensures KeysAscending(Added(configs, info), StringOrder)
    ensures Lookup(configs, NameOf(info)).None? ==> Lookup(Added(configs, info), NameOf(info)) == Some(info)
    ensures Lookup(configs, NameOf(info)).Some? && Lookup(configs, NameOf(info)).value.mtime < info.mtime ==>
      Lookup(Added(configs, info), NameOf(info)) == Some(info)
    ensures Lookup(configs, NameOf(info)).Some? && Lookup(configs, NameOf(info)).value.mtime >= info.mtime ==>
      Added(configs, info) == configs
    ensures forall q :: q != NameOf(info) ==> Lookup(Added(configs, info), q) == Lookup(configs, q)
  {
    PutConfig(configs, NameOf(info), info);
  }

  /** Ordered keys hold each name at most once. */
  lemma {:induction false} OnePerName(configs: seq<(string, Info)>)
    requires KeysAscending(configs, StringOrder)
    ensures forall i, j :: 0 <= i < |configs| && 0 <= j < |configs| && configs[i].0 == configs[j].0 ==> i == j
  {
    StringOrderIsStrict();
  }

  /** Every description read, added in turn to an empty cache. */
  function AddedAll(infos: seq<Info>): seq<(string, Info)>
  {
    if |infos| == 0 then [] else Added(AddedAll(infos[..|infos| - 1]), infos[|infos| - 1])
  }

  /** The cache's keys stay ordered whatever the files. */
  lemma {:induction false} AddedAllOrdered(infos: seq<Info>)
    ensures KeysAscending(AddedAll(infos), StringOrder)
  {
    if |infos| > 0 {
      AddedAllOrdered(infos[..|infos| - 1]);
      AddedMeaning(AddedAll(infos[..|infos| - 1]), infos[|infos| - 1]);
    }
  }

  /**
   * After all files are read, a name is in the cache exactly when some file
   * describes it, and the stored description is one of those files, at
   * least as new as every other.
   */
  lemma {:induction false} NewestWins(infos: seq<Info>, name: string)
    ensures Lookup(AddedAll(infos), name).Some? <==> exists i :: 0 <= i < |infos| && NameOf(infos[i]) == name
    ensures Lookup(AddedAll(infos), name).Some? ==>
      var stored := Lookup(AddedAll(infos), name).value;
      && stored in infos && NameOf(stored) == name
      && forall i :: 0 <= i < |infos| && NameOf(infos[i]) == name ==> infos[i].mtime <= stored.mtime
  {
    if |infos| > 0 {
      var init := infos[..|infos| - 1];
      var last := infos[|infos| - 1];
      NewestWins(init, name);
      AddedAllOrdered(init);
      var prev := AddedAll(init);
      AddedMeaning(prev, last);
      assert infos == init + [last];
      if NameOf(last) != name {
        assert Lookup(AddedAll(infos), name) == Lookup(prev, name);
        forall i | 0 <= i < |infos| && NameOf(infos[i]) == name
          ensures i < |init| && infos[i] == init[i]
        {
        }
      } else if Lookup(prev, name).None? || Lookup(prev, name).value.mtime < last.mtime {
        assert Lookup(AddedAll(infos), name) == Some(last);
        forall i | 0 <= i < |init| && NameOf(infos[i]) == name
          ensures infos[i].mtime <= last.mtime
        {
          assert init[i] == infos[i];
        }
      } else {
        assert Lookup(AddedAll(infos), name) == Lookup(prev, name);
        forall i | 0 <= i < |init| && NameOf(infos[i]) == name
          ensures infos[i].mtime <= Lookup(prev, name).value.mtime
        {
          assert init[i] == infos[i];
        }
      }
    }
  }

  /** `compiler_cache` */
  class CompilerCache {
    /** `configs`, ordered by name. */
    var configs: seq<(string, Info)>

    ghost predicate Valid()
      reads this
    {
      KeysAscending(configs, StringOrder)
    }

    constructor ()
      ensures Valid() && configs == []
    {
      configs := [];
    }

    /** `add_config`: inserts a new name, replaces a known one only with a strictly newer file. */
    method AddConfig(mtime: int, filename: string, cfg: FactoryConfig)
      requires Valid()
      modifies this
      ensures Valid() && configs == Added(old(configs), Info(mtime, filename, cfg))
    {
      var info := Info(mtime, filename, cfg);
      AddedMeaning(configs, info);
      var stored := Lookup(configs, cfg.ident.name);
      if stored.None? {
        configs := Put(configs, cfg.ident.name, info, StringOrder);
        return;
      }
      if stored.value.mtime < mtime {
        configs := Put(configs, cfg.ident.name, info, StringOrder);
      }
    }
  }

  /** The reading loop of `load_xml_compilers`, given the descriptions that parsed, in directory order. */
  method Collect(infos: seq<Info>) returns (cache: CompilerCache)
    ensures fresh(cache) && cache.Valid() && cache.configs == AddedAll(infos)
  {
    cache := new CompilerCache();
    for k := 0 to |infos|
      invariant cache.Valid() && cache.configs == AddedAll(infos[..k])
    {
      assert infos[..k + 1][..k] == infos[..k];
      cache.AddConfig(infos[k].mtime, infos[k].filename, infos[k].cfg);
    }
    assert infos[..|infos|] == infos;
  }
}
