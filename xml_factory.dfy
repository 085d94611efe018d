/** `xml::factory`: the compiler a description file configures. */
module XmlFactory {
  import opened Wrappers
  import opened Strings
  import opened Utils
  import opened XmlTypes

  /** `get_version_major`: the text before the first space (all of it without one) as an `unsigned`, or 255. */
  function GetVersionMajor(version: string): (major: nat)
    ensures major <= UintMax
  {
    var majorText := match Find(version, ' ', 0) case Some(pos) => version[..pos] case None => version;
    ParseWholeMeaning(majorText);
    match ParseWhole(majorText)
    case Some(v) => v
    case None => 255
  }

  /** The first word decides, with or without more words after it; a word that is no `unsigned` gives 255. */
  lemma VersionMajorMeaning(word: string, rest: string)
    requires ' ' !in word
    ensures var expected := if |word| > 0 && (forall i :: 0 <= i < |word| ==> IsDigit(word[i])) && DecimalValue(word) <= UintMax
                            then DecimalValue(word) else 255;
      GetVersionMajor(word) == expected && GetVersionMajor(word + " " + rest) == expected
  {
    var v := word + " " + rest;
    assert v[|word|] == ' ' && v[..|word|] == word;
    assert Find(v, ' ', 0) == Some(|word|);
    assert Find(word, ' ', 0) == None;
    ParseWholeMeaning(word);
  }

  /** `compiler_id` */
  datatype CompilerId = CompilerId(name: string, guard: string, version: string)

  /** `get_compiler_id`: the name, the guard macro and the version macro of the description. */
  function GetCompilerId(cfg: FactoryConfig): (r: CompilerId)
    ensures r.name == cfg.ident.name && r.guard == cfg.ident.guard && r.version == cfg.ident.version
  {
    CompilerId(cfg.ident.name, cfg.ident.guard, cfg.ident.version)
  }
}
