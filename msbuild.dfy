/**
 * The MSBuild back end: a Visual Studio project per target built by one of
 * the `VS-EXE`, `VS-LIB` and `VS-DLL` rules, each known by a name-based
 * GUID (a version 3 UUID of section 4.3 of RFC 4122), and the lists of
 * sources and project references written into each project file.
 */
module Msbuild {
  import opened Wrappers
  import opened Strings
  import opened SortedSets
  import opened Types
  import opened Generator
  import Ninja
  import Paths

  // ---------------------------------------------------------- project kinds

  /** `name_of`: the `ConfigurationType` of a project of the given kind. */
  function NameOf(kind: ProjectKind): (s: string)
    ensures s == "Utility" <==> kind == ModuleLib
    ensures s == "Application" <==> kind == Executable
    ensures s == "StaticLibrary" <==> kind == StaticLib
    ensures s == "DynamicLibrary" <==> kind == SharedLib
  {
    match kind
    case Executable => "Application"
    case StaticLib => "StaticLibrary"
    case SharedLib => "DynamicLibrary"
    case _ => "Utility"
  }

  /** Different kinds of project get different configuration types. */
  lemma NameOfDistinct(a: ProjectKind, b: ProjectKind)
    ensures NameOf(a) == NameOf(b) ==> a == b
  {
  }

  /** The kind of project a target's rule asks for; only the three Visual Studio rules ask for one. */
  function KindOfRule(rule: RuleName): (k: Option<ProjectKind>)
    ensures k.Some? <==> rule == Custom("VS-EXE") || rule == Custom("VS-LIB") || rule == Custom("VS-DLL")
    ensures k == Some(Executable) <==> rule == Custom("VS-EXE")
    ensures k == Some(StaticLib) <==> rule == Custom("VS-LIB")
    ensures k == Some(SharedLib) <==> rule == Custom("VS-DLL")
    ensures k != Some(ModuleLib)
  {
    match rule
    case Custom(name) =>
      if name == "VS-EXE" then Some(Executable)
      else if name == "VS-LIB" then Some(StaticLib)
      else if name == "VS-DLL" then Some(SharedLib)
      else None
    case _ => None
  }

  // ---------------------------------------------------------- GUID text

  /** A digit of `0123456789ABCDEF`. */
  function HexDigit(n: bv8): (c: char)
    requires n < 16
  {
    if n < 10 then ('0' as int + n as int) as char else ('A' as int + n as int - 10) as char
  }

  predicate IsUpperHex(c: char)
  {
    '0' <= c <= '9' || 'A' <= c <= 'F'
  }

  /** The value of an upper-case hexadecimal digit. */
  function DigitValue(c: char): (r: Option<bv8>)
    ensures r.Some? <==> IsUpperHex(c)
    ensures r.Some? ==> r.value < 16 && HexDigit(r.value) == c
  {
    if '0' <= c <= '9' then Some((c as int - '0' as int) as bv8)
    else if 'A' <= c <= 'F' then Some((c as int - 'A' as int + 10) as bv8)
    else None
  }

  /** The two digits of a byte, the high nibble first. */
  function Digits(b: bv8): (s: string)
    ensures |s| == 2
  {
    [HexDigit((b >> 4) & 0xF), HexDigit((b >> 0) & 0xF)]
  }

  /** The digits of the bytes, in order. */
  function Hex(bs: seq<bv8>): (s: string)
    ensures |s| == 2 * |bs|
  {
    if |bs| == 0 then "" else Hex(bs[..|bs| - 1]) + Digits(bs[|bs| - 1])
  }

  /** Reading pairs of digits back into bytes; `None` for an odd length or a character that is not a digit. */
  function UnHex(s: string): Option<seq<bv8>>
  {
    if |s| == 0 then Some([])
    else if |s| == 1 then None
    else
      match (UnHex(s[..|s| - 2]), DigitValue(s[|s| - 2]), DigitValue(s[|s| - 1]))
      case (Some(init), Some(hi), Some(lo)) => Some(init + [(hi << 4) | lo])
      case _ => None
  }

  lemma {:induction false} HexAppend(a: seq<bv8>, b: seq<bv8>)
    ensures Hex(a + b) == Hex(a) + Hex(b)
    decreases |b|
  {
    if |b| == 0 {
      assert a + b == a;
    } else {
      assert (a + b)[..|a + b| - 1] == a + b[..|b| - 1];
      HexAppend(a, b[..|b| - 1]);
    }
  }

  /** Every character of the text is an upper-case hexadecimal digit. */
  lemma {:induction false} HexDigits(bs: seq<bv8>)
    ensures forall i :: 0 <= i < |Hex(bs)| ==> IsUpperHex(Hex(bs)[i])
  {
    if |bs| > 0 {
      HexDigits(bs[..|bs| - 1]);
      var d := Digits(bs[|bs| - 1]);
      assert IsUpperHex(d[0]) && IsUpperHex(d[1]);
    }
  }

  /** A digit reads back as its value. */
  lemma DigitRoundTrip(n: bv8)
    requires n < 16
    ensures DigitValue(HexDigit(n)) == Some(n)
  {
  }

  /** The two nibbles of a byte put back together. */
  lemma NibblesJoin(b: bv8)
    ensures (((b >> 4) & 0xF) << 4) | ((b >> 0) & 0xF) == b
  {
  }

  /** The digits of one more byte read back as that byte. */
  lemma UnHexSnoc(t: string, b: bv8)
    requires UnHex(t).Some?
    ensures UnHex(t + Digits(b)) == Some(UnHex(t).value + [b])
  {
    var s := t + Digits(b);
    assert s[..|s| - 2] == t;
    DigitRoundTrip((b >> 4) & 0xF);
    DigitRoundTrip((b >> 0) & 0xF);
    NibblesJoin(b);
  }

  /** The digits read back into the bytes they came from. */
  lemma {:induction false} HexRoundTrip(bs: seq<bv8>)
    ensures UnHex(Hex(bs)) == Some(bs)
  {
    if |bs| > 0 {
      var init, last := bs[..|bs| - 1], bs[|bs| - 1];
      assert Hex(bs) == Hex(init) + Digits(last);
      HexRoundTrip(init);
      UnHexSnoc(Hex(init), last);
      assert init + [last] == bs;
    }
  }

  /** `uuid_groups`: the bytes in each dash-separated group. */
  const Groups: seq<nat> := [4, 2, 2, 2, 6]

  /** The index of the first byte of group `g`. */
  function Offset(g: nat): (n: nat)
    requires g <= |Groups|
    ensures n <= 16
  {
    if g == 0 then 0
    else if g == 1 then 4
    else if g == 2 then 6
    else if g == 3 then 8
    else if g == 4 then 10
    else 16
  }

  lemma OffsetSteps(g: nat)
    requires g < |Groups|
    ensures Offset(g + 1) == Offset(g) + Groups[g]
    ensures Offset(g) > 0 <==> g > 0
  {
  }

  /** The first `g` groups, a dash before every group that does not start at the first byte. */
  function GroupsText(u: seq<bv8>, g: nat): string
    requires g <= |Groups| && |u| == 16
  {
    if g == 0 then ""
    else GroupsText(u, g - 1) + (if Offset(g - 1) > 0 then "-" else "") + Hex(u[Offset(g - 1)..Offset(g)])
  }

  /** The text of a GUID. */
  function GuidText(u: seq<bv8>): string
    requires |u| == 16
  {
    GroupsText(u, 5)
  }

  /** The text as its five groups. */
  lemma GuidLayout(u: seq<bv8>)
    requires |u| == 16
    ensures GuidText(u) == Hex(u[..4]) + "-" + Hex(u[4..6]) + "-" + Hex(u[6..8]) + "-" + Hex(u[8..10]) + "-" + Hex(u[10..])
  {
    assert u[0..4] == u[..4] && u[10..16] == u[10..];
    assert GroupsText(u, 1) == Hex(u[..4]);
    assert GroupsText(u, 2) == Hex(u[..4]) + "-" + Hex(u[4..6]);
    assert GroupsText(u, 3) == Hex(u[..4]) + "-" + Hex(u[4..6]) + "-" + Hex(u[6..8]);
    assert GroupsText(u, 4) == Hex(u[..4]) + "-" + Hex(u[4..6]) + "-" + Hex(u[6..8]) + "-" + Hex(u[8..10]);
  }

  /** 36 characters: upper-case hexadecimal digits in groups of 8, 4, 4, 4 and 12, with dashes between. */
  lemma GuidShape(u: seq<bv8>)
    requires |u| == 16
    ensures |GuidText(u)| == 36
    ensures forall i :: 0 <= i < 36 && i != 8 && i != 13 && i != 18 && i != 23 ==> IsUpperHex(GuidText(u)[i])
    ensures GuidText(u)[8] == '-' && GuidText(u)[13] == '-' && GuidText(u)[18] == '-' && GuidText(u)[23] == '-'
  {
    GuidLayout(u);
    var a, b, c, d, e := Hex(u[..4]), Hex(u[4..6]), Hex(u[6..8]), Hex(u[8..10]), Hex(u[10..]);
    HexDigits(u[..4]);
    HexDigits(u[4..6]);
    HexDigits(u[6..8]);
    HexDigits(u[8..10]);
    HexDigits(u[10..]);
    var s := GuidText(u);
    assert s[..8] == a && s[9..13] == b && s[14..18] == c && s[19..23] == d && s[24..] == e;
    forall i | 0 <= i < 36 && i != 8 && i != 13 && i != 18 && i != 23
      ensures IsUpperHex(s[i])
    {
      if i < 8 {
        assert s[i] == a[i];
      } else if i < 13 {
        assert s[i] == b[i - 9];
      } else if i < 18 {
        assert s[i] == c[i - 14];
      } else if i < 23 {
        assert s[i] == d[i - 19];
      } else {
        assert s[i] == e[i - 24];
      }
    }
  }

  /** Reading a GUID's text: the dashes where they belong and 32 digits. */
  function ParseGuid(s: string): Option<seq<bv8>>
  {
    if |s| != 36 || s[8] != '-' || s[13] != '-' || s[18] != '-' || s[23] != '-' then None
    else UnHex(s[..8] + s[9..13] + s[14..18] + s[19..23] + s[24..])
  }

  /** Five groups of 8, 4, 4, 4 and 12 characters joined by dashes, cut apart again. */
  lemma Pieces(a: string, b: string, c: string, d: string, e: string)
    requires |a| == 8 && |b| == 4 && |c| == 4 && |d| == 4 && |e| == 12
    ensures var s := a + "-" + b + "-" + c + "-" + d + "-" + e;
      s[..8] + s[9..13] + s[14..18] + s[19..23] + s[24..] == a + b + c + d + e
  {
    var s := a + "-" + b + "-" + c + "-" + d + "-" + e;
    assert s[..8] == a && s[9..13] == b && s[14..18] == c && s[19..23] == d && s[24..] == e;
  }

  /** The text of a GUID reads back as the same sixteen bytes. */
  lemma GuidRoundTrip(u: seq<bv8>)
    requires |u| == 16
    ensures ParseGuid(GuidText(u)) == Some(u)
  {
    GuidShape(u);
    GuidDigits(u);
    HexRoundTrip(u);
  }

  /** The text without its dashes is the digits of all sixteen bytes. */
  lemma GuidDigits(u: seq<bv8>)
    requires |u| == 16
    ensures |GuidText(u)| == 36
    ensures var s := GuidText(u); s[..8] + s[9..13] + s[14..18] + s[19..23] + s[24..] == Hex(u)
  {
    GuidLayout(u);
    Pieces(Hex(u[..4]), Hex(u[4..6]), Hex(u[6..8]), Hex(u[8..10]), Hex(u[10..]));
    HexAppend(u[..4], u[4..6]);
    HexAppend(u[..6], u[6..8]);
    HexAppend(u[..8], u[8..10]);
    HexAppend(u[..10], u[10..]);
    assert u[..4] + u[4..6] == u[..6];
    assert u[..6] + u[6..8] == u[..8];
    assert u[..8] + u[8..10] == u[..10];
    assert u[..10] + u[10..] == u;
  }

  // ---------------------------------------------------------- uuid3

  /**
   * The version and variant fields of section 4.1 of RFC 4122: the high
   * nibble of byte 6 becomes 3 (a name-based MD5 UUID, section 4.1.3) and
   * the two high bits of byte 8 become 10 (section 4.1.1); every other bit
   * of the digest stays.
   */
  function FixBits(d: seq<bv8>): (u: seq<bv8>)
    requires |d| == 16
    ensures |u| == 16
    ensures u[6] >> 4 == 3 && u[6] & 0xF == d[6] & 0xF
    ensures u[8] >> 6 == 2 && u[8] & 0x3F == d[8] & 0x3F
    ensures forall i :: 0 <= i < 16 && i != 6 && i != 8 ==> u[i] == d[i]
  {
    d[6 := (d[6] & 0xF) | (3 << 4)][8 := (d[8] & 0x3F) | 0x80]
  }

  /** `uuid3` given the MD5 digest of the name space and the payload: the empty text when the digest is not 16 bytes long. */
  function Uuid3Text(digest: seq<bv8>): string
  {
    if |digest| != 16 then "" else GuidText(FixBits(digest))
  }

  /** The version digit 3 opens the third group and the fourth group opens with 8, 9, A or B. */
  lemma VersionVisible(digest: seq<bv8>)
    requires |digest| == 16
    ensures |Uuid3Text(digest)| == 36
    ensures Uuid3Text(digest)[14] == '3'
    ensures Uuid3Text(digest)[19] in "89AB"
  {
    var u := FixBits(digest);
    GuidLayout(u);
    GuidShape(u);
    var s := GuidText(u);
    assert s[14..18] == Hex(u[6..8]);
    assert s[19..23] == Hex(u[8..10]);
    HexAppend([u[6]], [u[7]]);
    HexAppend([u[8]], [u[9]]);
    assert [u[6]] + [u[7]] == u[6..8];
    assert [u[8]] + [u[9]] == u[8..10];
    assert Hex([u[6]]) == Digits(u[6]);
    assert Hex([u[8]]) == Digits(u[8]);
    assert (u[8] >> 4) & 0xF == 8 || (u[8] >> 4) & 0xF == 9 || (u[8] >> 4) & 0xF == 10 || (u[8] >> 4) & 0xF == 11;
  }

  /** Hex of one more byte of a group. */
  lemma HexSnoc(u: seq<bv8>, a: nat, b: nat)
    requires a <= b < |u|
    ensures Hex(u[a..b + 1]) == Hex(u[a..b]) + Digits(u[b])
  {
    assert u[a..b + 1][..b - a] == u[a..b];
  }

  /** One more byte of a group written out. */
  lemma GroupStep(u: seq<bv8>, head: string, output: string, a: nat, b: nat)
    requires a <= b < |u| && output == head + Hex(u[a..b])
    ensures output + [HexDigit((u[b] >> 4) & 0xF)] + [HexDigit((u[b] >> 0) & 0xF)] == head + Hex(u[a..b + 1])
  {
    HexSnoc(u, a, b);
  }

  /** `Guids::uuid3`, the digest given: fixes the version and variant bits, then writes the groups byte by byte. */
  method Uuid3(digest: seq<bv8>) returns (output: string)
    ensures output == Uuid3Text(digest)
  {
    if |digest| != 16 {
      return "";
    }
    var uuid := new bv8[16](i => if 0 <= i < |digest| then digest[i] else 0);
    uuid[6] := uuid[6] & 0xF;
    uuid[6] := uuid[6] | (3 << 4);
    uuid[8] := uuid[8] & 0x3F;
    uuid[8] := uuid[8] | 0x80;
    assert uuid[..] == FixBits(digest);
    output := WriteGroups(uuid);
  }

  /** The layout loop of `uuid3`: each group's bytes as digits, a dash before every group after the first. */
  method WriteGroups(uuid: array<bv8>) returns (output: string)
    requires uuid.Length == 16
    ensures output == GuidText(uuid[..])
  {
    ghost var u := uuid[..];
    output := "";
    var inputIndex := 0;
    for g := 0 to |Groups|
      invariant uuid[..] == u
      invariant inputIndex == Offset(g) && output == GroupsText(u, g)
    {
      OffsetSteps(g);
      if inputIndex > 0 {
        output := output + "-";
      }
      ghost var head := output;
      for pos := 0 to Groups[g]
        invariant uuid[..] == u
        invariant inputIndex == Offset(g) + pos
        invariant output == head + Hex(u[Offset(g)..inputIndex])
      {
        var byte := uuid[inputIndex];
        GroupStep(u, head, output, Offset(g), inputIndex);
        inputIndex := inputIndex + 1;
        output := output + [HexDigit((byte >> 4) & 0xF)];
        output := output + [HexDigit((byte >> 0) & 0xF)];
      }
    }
  }

  // ---------------------------------------------------------- Guids

  /** What is hashed for a name: the binary directory, a bar, the name. */
  function Payload(bindir: string, name: string): (p: string)
    ensures |p| == |bindir| + 1 + |name| && p[|bindir|] == '|'
    ensures p[..|bindir|] == bindir && p[|bindir| + 1..] == name
  {
    bindir + "|" + name
  }

  /** The GUID of a name, `md5` standing for the digest of the UUID name space followed by the payload. */
  function GuidOf(bindir: string, name: string, md5: string -> seq<bv8>): string
  {
    Uuid3Text(md5(Payload(bindir, name)))
  }

  /** `Guids`: the GUIDs handed out so far, by name. */
  class Guids {
    const bindir: string
    /** The MD5 digest of the name space and a payload. */
    const md5: string -> seq<bv8>
    /** `guids_`, ordered by name. */
    var guids: seq<(string, string)>

    ghost predicate Valid()
      reads this
    {
      && KeysAscending(guids, StringOrder)
      && forall e :: e in guids ==> e.1 == GuidOf(bindir, e.0, md5)
    }

    constructor (binaryDir: string, digest: string -> seq<bv8>)
      ensures Valid() && guids == [] && bindir == binaryDir && md5 == digest
    {
      bindir := binaryDir;
      md5 := digest;
      guids := [];
    }

    /**
     * `getGuid`: the stored GUID of a known name, otherwise a new one, which
     * is stored. Either way the answer is the name's own GUID, so the same
     * name always gets the same answer.
     */
    method GetGuid(name: string) returns (guid: string)
      requires Valid()
      modifies this
      ensures Valid()
      ensures guid == GuidOf(bindir, name, md5)
      ensures Lookup(guids, name) == Some(guid)
      ensures old(Lookup(guids, name)).Some? ==> guids == old(guids)
      ensures forall q :: q != name ==> Lookup(guids, q) == old(Lookup(guids, q))
    {
      var found := Lookup(guids, name);
      if found.Some? {
        return found.value;
      }
      var payload := bindir + "|" + name;
      guid := Uuid3(md5(payload));
      PutGuid(guids, name, guid);
      guids := Put(guids, name, guid, StringOrder);
    }
  }

  /** `PutMeaning` and `PutEntries` for the map of GUIDs. */
  lemma PutGuid(m: seq<(string, string)>, name: string, guid: string)
    requires KeysAscending(m, StringOrder)
    ensures KeysAscending(Put(m, name, guid, StringOrder), StringOrder)
    ensures Lookup(Put(m, name, guid, StringOrder), name) == Some(guid)
    ensures forall q :: q != name ==> Lookup(Put(m, name, guid, StringOrder), q) == Lookup(m, q)
    ensures forall e :: e in Put(m, name, guid, StringOrder) ==> e == (name, guid) || e in m
  {
    StringOrderIsStrict();
    PutMeaning(m, name, guid, StringOrder);
    PutEntries(m, name, guid, StringOrder);
  }

  // ---------------------------------------------------------- projects

  /** What a generation runs with: the way back to the sources, the binary directory, the project setups and the digest. */
  datatype Env = Env(back: string, bindir: string, setups: seq<ProjectSetup>, md5: string -> seq<bv8>)

  /** `VsSource`: a source file of a project and the module it exports, if any. */
  datatype VsSource = VsSource(file: FileRef, exports: string)

  /** `VsProject` */
  datatype VsProject = VsProject(name: Artifact, guid: string, kind: ProjectKind, sources: seq<VsSource>, refGuids: seq<string>)

  /** The first loop of `generate`: the module exported by each target built by no rule, by its main output; a later target wins. */
  function Interfaces(targets: seq<Target>): map<Artifact, string>
  {
    if |targets| == 0 then map[]
    else
      var t := targets[|targets| - 1];
      var m := Interfaces(targets[..|targets| - 1]);
      if t.rule.Unnamed? && t.edge != "" then m[t.mainOutput := t.edge] else m
  }

  /** The target is built by no rule and exports a module from `a`. */
  predicate Exports(t: Target, a: Artifact)
  {
    t.rule.Unnamed? && t.edge != "" && t.mainOutput == a
  }

  /**
   * An output is in the map exactly when a target built by no rule exports
   * a module from it, and it maps to the module of the last such target.
   */
  lemma {:induction false} InterfacesMeaning(targets: seq<Target>, a: Artifact)
    ensures a in Interfaces(targets) <==> exists i :: 0 <= i < |targets| && Exports(targets[i], a)
    ensures a in Interfaces(targets) ==>
      exists i :: (0 <= i < |targets| && Exports(targets[i], a)
        && Interfaces(targets)[a] == targets[i].edge
        && forall j :: i < j < |targets| ==> !Exports(targets[j], a))
  {
    if |targets| > 0 {
      var n := |targets| - 1;
      var init := targets[..n];
      InterfacesMeaning(init, a);
      if Exports(targets[n], a) {
        assert Interfaces(targets)[a] == targets[n].edge;
      } else {
        assert a in Interfaces(targets) <==> a in Interfaces(init);
        if a in Interfaces(init) {
          assert Interfaces(targets)[a] == Interfaces(init)[a];
          var i :| 0 <= i < n && Exports(init[i], a) && Interfaces(init)[a] == init[i].edge
            && forall j :: i < j < n ==> !Exports(init[j], a);
          assert Exports(targets[i], a);
        }
        forall i | 0 <= i < |targets| && Exports(targets[i], a)
          ensures i < n && Exports(init[i], a)
        {
        }
      }
    }
  }

  method CollectInterfaces(targets: seq<Target>) returns (interfaces: map<Artifact, string>)
    ensures interfaces == Interfaces(targets)
  {
    interfaces := map[];
    for k := 0 to |targets|
      invariant interfaces == Interfaces(targets[..k])
    {
      assert targets[..k + 1][..k] == targets[..k];
      var t := targets[k];
      if !t.rule.Unnamed? {
        continue;
      }
      if t.edge != "" {
        interfaces := interfaces[t.mainOutput := t.edge];
      }
    }
    assert targets[..|targets|] == targets;
  }

  /** The sources of a project: its explicit inputs that are files, each with the module it exports. */
  function SourcesOf(expl: seq<Artifact>, interfaces: map<Artifact, string>): seq<VsSource>
  {
    if |expl| == 0 then []
    else
      var prev := SourcesOf(expl[..|expl| - 1], interfaces);
      var a := expl[|expl| - 1];
      if !a.File? then prev
      else prev + [VsSource(a.file, if a in interfaces then interfaces[a] else "")]
  }

  /** What a source exports, by its file. */
  function ExportsOf(f: FileRef, interfaces: map<Artifact, string>): string
  {
    if File(f) in interfaces then interfaces[File(f)] else ""
  }

  /**
   * Every source is a file among the inputs and carries the module that file
   * exports, and every file among the inputs is a source; module inputs are
   * not.
   */
  lemma {:induction false} SourcesOfMeaning(expl: seq<Artifact>, interfaces: map<Artifact, string>)
    ensures forall s :: s in SourcesOf(expl, interfaces) ==> File(s.file) in expl && s.exports == ExportsOf(s.file, interfaces)
    ensures forall f :: File(f) in expl ==> VsSource(f, ExportsOf(f, interfaces)) in SourcesOf(expl, interfaces)
  {
    if |expl| > 0 {
      var init := expl[..|expl| - 1];
      SourcesOfMeaning(init, interfaces);
      assert forall a :: a in init ==> a in expl;
      assert expl == init + [expl[|expl| - 1]];
    }
  }

  method CollectSources(expl: seq<Artifact>, interfaces: map<Artifact, string>) returns (sources: seq<VsSource>)
    ensures sources == SourcesOf(expl, interfaces)
  {
    sources := [];
    for k := 0 to |expl|
      invariant sources == SourcesOf(expl[..k], interfaces)
    {
      assert expl[..k + 1][..k] == expl[..k];
      var src := expl[k];
      if !src.File? {
        continue;
      }
      if src in interfaces {
        sources := sources + [VsSource(src.file, interfaces[src])];
      } else {
        sources := sources + [VsSource(src.file, "")];
      }
    }
    assert expl[..|expl|] == expl;
  }

  /** The GUID of an artifact: that of its name as `msbuild::filename` writes it. */
  function ArtifactGuid(a: Artifact, env: Env): string
    requires Ninja.Known(a, env.setups)
  {
    GuidOf(env.bindir, Ninja.ArtifactName(env.back, a, env.setups), env.md5)
  }

  /** The GUIDs of a project's implicit inputs, in order. */
  function RefGuids(impl: seq<Artifact>, env: Env): (r: seq<string>)
    requires Ninja.AllKnown(impl, env.setups)
    ensures |r| == |impl|
  {
    if |impl| == 0 then []
    else
      assert forall a :: a in impl[..|impl| - 1] ==> a in impl;
      RefGuids(impl[..|impl| - 1], env) + [ArtifactGuid(impl[|impl| - 1], env)]
  }

  /** Each implicit input gets its own GUID at its own place. */
  lemma {:induction false} RefGuidsMeaning(impl: seq<Artifact>, env: Env)
    requires Ninja.AllKnown(impl, env.setups)
    ensures forall i :: 0 <= i < |impl| ==> RefGuids(impl, env)[i] == ArtifactGuid(impl[i], env)
  {
    if |impl| > 0 {
      var init := impl[..|impl| - 1];
      assert forall a :: a in init ==> a in impl;
      RefGuidsMeaning(init, env);
    }
  }

  method CollectRefs(impl: seq<Artifact>, back: string, setups: seq<ProjectSetup>, guids: Guids) returns (refs: seq<string>)
    requires guids.Valid() && Ninja.AllKnown(impl, setups)
    modifies guids
    ensures guids.Valid() && refs == RefGuids(impl, Env(back, guids.bindir, setups, guids.md5))
  {
    ghost var env := Env(back, guids.bindir, setups, guids.md5);
    refs := [];
    for k := 0 to |impl|
      invariant guids.Valid()
      invariant forall a :: a in impl[..k] ==> a in impl
      invariant refs == RefGuids(impl[..k], env)
    {
      assert impl[..k + 1][..k] == impl[..k];
      assert forall a :: a in impl[..k + 1] ==> a in impl;
      var guid := guids.GetGuid(Ninja.ArtifactName(back, impl[k], setups));
      refs := refs + [guid];
    }
    assert impl[..|impl|] == impl;
  }

  /** What `generate` needs to name a target's project and references. */
  predicate ProjectKnown(t: Target, setups: seq<ProjectSetup>)
  {
    Ninja.Known(t.mainOutput, setups) && Ninja.AllKnown(t.inputs.impl, setups)
  }

  /** The target makes the project with this GUID. */
  predicate MakesProject(t: Target, guid: string, env: Env)
  {
    ProjectKnown(t, env.setups) && KindOfRule(t.rule).Some? && ArtifactGuid(t.mainOutput, env) == guid
  }

  /**
   * One turn of the second loop of `generate`: a target built by a Visual
   * Studio rule names the project of its GUID, sets its kind, and appends its
   * sources and references to those of a project of the same GUID.
   */
  function Absorbed(projects: seq<(string, VsProject)>, t: Target, interfaces: map<Artifact, string>, env: Env): seq<(string, VsProject)>
    requires ProjectKnown(t, env.setups)
  {
    match KindOfRule(t.rule)
    case None => projects
    case Some(kind) =>
      var guid := ArtifactGuid(t.mainOutput, env);
      var prev := match Lookup(projects, guid) case Some(p) => p case None => VsProject(t.mainOutput, guid, kind, [], []);
      Put(projects, guid, VsProject(t.mainOutput, guid, kind,
        prev.sources + SourcesOf(t.inputs.expl, interfaces), prev.refGuids + RefGuids(t.inputs.impl, env)), StringOrder)
  }

  /** The projects of the targets, by GUID. */
  function ProjectsOf(targets: seq<Target>, interfaces: map<Artifact, string>, env: Env): seq<(string, VsProject)>
    requires forall t :: t in targets ==> ProjectKnown(t, env.setups)
  {
    if |targets| == 0 then []
    else
      assert forall t :: t in targets[..|targets| - 1] ==> t in targets;
      Absorbed(ProjectsOf(targets[..|targets| - 1], interfaces, env), targets[|targets| - 1], interfaces, env)
  }

  /** `PutMeaning` for the map of projects. */
  lemma PutProject(m: seq<(string, VsProject)>, guid: string, p: VsProject)
    requires KeysAscending(m, StringOrder)
    ensures KeysAscending(Put(m, guid, p, StringOrder), StringOrder)
    ensures Lookup(Put(m, guid, p, StringOrder), guid) == Some(p)
    ensures forall q :: q != guid ==> Lookup(Put(m, guid, p, StringOrder), q) == Lookup(m, q)
  {
    StringOrderIsStrict();
    PutMeaning(m, guid, p, StringOrder);
  }

  /** A turn keeps the GUIDs ordered, and changes only the project the target makes, if any. */
  lemma AbsorbedMeaning(projects: seq<(string, VsProject)>, t: Target, interfaces: map<Artifact, string>, env: Env, guid: string)
    requires ProjectKnown(t, env.setups) && KeysAscending(projects, StringOrder)
    ensures KeysAscending(Absorbed(projects, t, interfaces, env), StringOrder)
    ensures MakesProject(t, guid, env) ==>
      && Lookup(Absorbed(projects, t, interfaces, env), guid).Some?
      && var p := Lookup(Absorbed(projects, t, interfaces, env), guid).value;
         p.name == t.mainOutput && p.guid == guid && Some(p.kind) == KindOfRule(t.rule)
    ensures !MakesProject(t, guid, env) ==> Lookup(Absorbed(projects, t, interfaces, env), guid) == Lookup(projects, guid)
  {
    match KindOfRule(t.rule)
    case None =>
    case Some(kind) =>
      var g := ArtifactGuid(t.mainOutput, env);
      var prev := match Lookup(projects, g) case Some(p) => p case None => VsProject(t.mainOutput, g, kind, [], []);
      PutProject(projects, g, VsProject(t.mainOutput, g, kind,
        prev.sources + SourcesOf(t.inputs.expl, interfaces), prev.refGuids + RefGuids(t.inputs.impl, env)));
  }

  /**
   * Only targets built by `VS-EXE`, `VS-LIB` or `VS-DLL` make projects: a
   * GUID has a project exactly when such a target's main output has that
   * GUID.
   */
  lemma {:induction false} ProjectsOfMeaning(targets: seq<Target>, interfaces: map<Artifact, string>, env: Env, guid: string)
    requires forall t :: t in targets ==> ProjectKnown(t, env.setups)
    ensures KeysAscending(ProjectsOf(targets, interfaces, env), StringOrder)
    ensures Lookup(ProjectsOf(targets, interfaces, env), guid).Some? <==>
      exists i :: 0 <= i < |targets| && MakesProject(targets[i], guid, env)
  {
    if |targets| > 0 {
      var n := |targets| - 1;
      var init := targets[..n];
      assert forall t :: t in init ==> t in targets;
      var before := ProjectsOf(init, interfaces, env);
      assert ProjectsOf(targets, interfaces, env) == Absorbed(before, targets[n], interfaces, env);
      ProjectsOfMeaning(init, interfaces, env, guid);
      AbsorbedMeaning(before, targets[n], interfaces, env, guid);
      if MakesProject(targets[n], guid, env) {
        assert Lookup(ProjectsOf(targets, interfaces, env), guid).Some?;
      } else {
        assert Lookup(ProjectsOf(targets, interfaces, env), guid) == Lookup(before, guid);
        forall i | 0 <= i < |targets| && MakesProject(targets[i], guid, env)
          ensures i < n && MakesProject(init[i], guid, env)
        {
        }
      }
    }
  }

  /** The index of the last target that makes the project with this GUID. */
  function LastMaker(targets: seq<Target>, guid: string, env: Env): (r: Option<nat>)
    ensures r.Some? ==> r.value < |targets| && MakesProject(targets[r.value], guid, env)
  {
    if |targets| == 0 then None
    else if MakesProject(targets[|targets| - 1], guid, env) then Some(|targets| - 1)
    else LastMaker(targets[..|targets| - 1], guid, env)
  }

  /** No target after the last maker makes the project, and there is a last maker whenever there is a maker. */
  lemma {:induction false} LastMakerIsLast(targets: seq<Target>, guid: string, env: Env)
    ensures LastMaker(targets, guid, env).Some? ==>
      forall j :: LastMaker(targets, guid, env).value < j < |targets| ==> !MakesProject(targets[j], guid, env)
    ensures LastMaker(targets, guid, env).None? ==> forall j :: 0 <= j < |targets| ==> !MakesProject(targets[j], guid, env)
  {
    if |targets| > 0 && !MakesProject(targets[|targets| - 1], guid, env) {
      var init := targets[..|targets| - 1];
      assert LastMaker(targets, guid, env) == LastMaker(init, guid, env);
      LastMakerIsLast(init, guid, env);
      assert forall j :: 0 <= j < |init| ==> init[j] == targets[j];
    }
  }

  /** The project of a GUID carries that GUID, and the name and kind of the last target that makes it. */
  lemma {:induction false} ProjectsOfLast(targets: seq<Target>, interfaces: map<Artifact, string>, env: Env, guid: string)
    requires forall t :: t in targets ==> ProjectKnown(t, env.setups)
    ensures Lookup(ProjectsOf(targets, interfaces, env), guid).Some? ==>
      var p := Lookup(ProjectsOf(targets, interfaces, env), guid).value;
      && p.guid == guid
      && LastMaker(targets, guid, env).Some?
      && p.name == targets[LastMaker(targets, guid, env).value].mainOutput
      && KindOfRule(targets[LastMaker(targets, guid, env).value].rule) == Some(p.kind)
  {
    if |targets| > 0 {
      var n := |targets| - 1;
      var init := targets[..n];
      assert forall t :: t in init ==> t in targets;
      var before := ProjectsOf(init, interfaces, env);
      assert ProjectsOf(targets, interfaces, env) == Absorbed(before, targets[n], interfaces, env);
      ProjectsOfMeaning(init, interfaces, env, guid);
      AbsorbedMeaning(before, targets[n], interfaces, env, guid);
      if MakesProject(targets[n], guid, env) {
        assert LastMaker(targets, guid, env) == Some(n);
      } else {
        ProjectsOfLast(init, interfaces, env, guid);
        assert LastMaker(targets, guid, env) == LastMaker(init, guid, env);
        if LastMaker(init, guid, env).Some? {
          assert init[LastMaker(init, guid, env).value] == targets[LastMaker(init, guid, env).value];
        }
      }
    }
  }

  /** One turn of the second loop of `generate`. */
  method AddProject(projects: seq<(string, VsProject)>, t: Target, interfaces: map<Artifact, string>,
                    back: string, setups: seq<ProjectSetup>, guids: Guids) returns (next: seq<(string, VsProject)>)
    requires guids.Valid() && ProjectKnown(t, setups)
    modifies guids
    ensures guids.Valid()
    ensures next == Absorbed(projects, t, interfaces, Env(back, guids.bindir, setups, guids.md5))
  {
    var kind: ProjectKind;
    if t.rule == Custom("VS-EXE") {
      kind := Executable;
    } else if t.rule == Custom("VS-LIB") {
      kind := StaticLib;
    } else if t.rule == Custom("VS-DLL") {
      kind := SharedLib;
    } else {
      return projects;
    }
    var guid := guids.GetGuid(Ninja.ArtifactName(back, t.mainOutput, setups));
    var prj := match Lookup(projects, guid) case Some(p) => p case None => VsProject(t.mainOutput, guid, kind, [], []);
    var sources := CollectSources(t.inputs.expl, interfaces);
    var refs := CollectRefs(t.inputs.impl, back, setups, guids);
    prj := prj.(name := t.mainOutput, kind := kind, guid := guid);
    next := Put(projects, guid, prj.(sources := prj.sources + sources, refGuids := prj.refGuids + refs), StringOrder);
  }

  /** The second loop of `generate`: every target in turn. */
  method CollectProjects(targets: seq<Target>, interfaces: map<Artifact, string>,
                         back: string, setups: seq<ProjectSetup>, guids: Guids) returns (projects: seq<(string, VsProject)>)
    requires guids.Valid() && forall t :: t in targets ==> ProjectKnown(t, setups)
    modifies guids
    ensures guids.Valid()
    ensures projects == ProjectsOf(targets, interfaces, Env(back, guids.bindir, setups, guids.md5))
  {
    projects := [];
    for k := 0 to |targets|
      invariant guids.Valid()
      invariant forall t :: t in targets[..k] ==> t in targets
      invariant projects == ProjectsOf(targets[..k], interfaces, Env(back, guids.bindir, setups, guids.md5))
    {
      assert targets[..k + 1][..k] == targets[..k];
      assert forall t :: t in targets[..k + 1] ==> t in targets;
      projects := AddProject(projects, targets[k], interfaces, back, setups, guids);
    }
    assert targets[..|targets|] == targets;
  }

  /** The projects `generate` writes, by GUID, the GUIDs drawn from names under `binaryDir`. */
  method Generate(g: BuildGenerator, back: string, binaryDir: string, md5: string -> seq<bv8>)
    returns (projects: seq<(string, VsProject)>)
    requires forall t :: t in g.targets ==> ProjectKnown(t, g.setups)
    ensures projects == ProjectsOf(g.targets, Interfaces(g.targets), Env(back, binaryDir, g.setups, md5))
  {
    var interfaces := CollectInterfaces(g.targets);
    var guids := new Guids(binaryDir, md5);
    projects := CollectProjects(g.targets, interfaces, back, g.setups, guids);
  }

  // ---------------------------------------------------------- project files

  /** `s` repeated `n` times. */
  function Repeat(s: string, n: nat): string
  {
    if n == 0 then "" else Repeat(s, n - 1) + s
  }

  /** `n` steps up: `n` times `../`, so `n` slashes. */
  lemma {:induction false} RepeatUp(n: nat)
    ensures |Repeat("../", n)| == 3 * n
    ensures Count('/', Repeat("../", n)) == n
    ensures forall i :: 0 <= i < 3 * n ==> Repeat("../", n)[i] == (if i % 3 == 2 then '/' else '.')
  {
    if n > 0 {
      RepeatUp(n - 1);
      CountAppend('/', Repeat("../", n - 1), "../");
      assert Count('/', "../") == 1 by {
        assert "../"[..2] == "..";
        assert ".."[..1] == ".";
      }
    }
  }

  /** `additional_back`: one `../` for each `/` in the project's name, leading from its directory back to the binary directory. */
  method AdditionalBack(prjname: string) returns (result: string)
    ensures result == Repeat("../", Count('/', prjname))
  {
    var count := 0;
    for i := 0 to |prjname|
      invariant count == Count('/', prjname[..i])
    {
      assert prjname[..i + 1][..i] == prjname[..i];
      if prjname[i] == '/' {
        count := count + 1;
      }
    }
    assert prjname[..|prjname|] == prjname;
    result := "";
    for index := 0 to count
      invariant result == Repeat("../", index)
    {
      result := result + "../";
    }
  }

  const ItemOpen: string := "    <ClCompile Include=\""
  const PlainClose: string := "\" />\n"
  const ModuleClose: string := "\">\n      <CompileAs>CompileAsCppModule</CompileAs>\n    </ClCompile>\n"

  /** The item of one source; a source that exports a module is compiled as a module. */
  function SourceItem(additionalBack: string, path: string, exports: string): string
  {
    ItemOpen + additionalBack + path + (if exports == "" then PlainClose else ModuleClose)
  }

  /** The item names the path under the way back, and ends as a plain item exactly when the source exports nothing. */
  lemma SourceItemMeaning(additionalBack: string, path: string, exports: string)
    ensures var item := SourceItem(additionalBack, path, exports);
      && item[..|ItemOpen| + |additionalBack| + |path|] == ItemOpen + additionalBack + path
      && (exports == "" <==> |item| >= |PlainClose| && item[|item| - |PlainClose|..] == PlainClose)
  {
    var item := SourceItem(additionalBack, path, exports);
    var head := ItemOpen + additionalBack + path;
    if exports == "" {
      assert item[|item| - |PlainClose|..] == PlainClose;
    } else {
      assert item[|item| - |PlainClose|..] == ModuleClose[|ModuleClose| - |PlainClose|..];
      assert ModuleClose[|ModuleClose| - |PlainClose|] != PlainClose[0];
    }
    assert item[..|head|] == head;
  }

  /** The items of all sources. */
  function SourcesText(sources: seq<VsSource>, additionalBack: string, back: string, setups: seq<ProjectSetup>): string
    requires forall s :: s in sources ==> s.file.prj < |setups|
  {
    if |sources| == 0 then ""
    else
      var src := sources[|sources| - 1];
      assert forall s :: s in sources[..|sources| - 1] ==> s in sources;
      SourcesText(sources[..|sources| - 1], additionalBack, back, setups)
      + SourceItem(additionalBack, Ninja.FileNameFrom(back, src.file, setups), src.exports)
  }

  /** The source items of a project file. */
  method WriteSources(sources: seq<VsSource>, additionalBack: string, back: string, setups: seq<ProjectSetup>) returns (text: string)
    requires forall s :: s in sources ==> s.file.prj < |setups|
    ensures text == SourcesText(sources, additionalBack, back, setups)
  {
    text := "";
    for k := 0 to |sources|
      invariant forall s :: s in sources[..k] ==> s in sources
      invariant text == SourcesText(sources[..k], additionalBack, back, setups)
    {
      assert sources[..k + 1][..k] == sources[..k];
      assert forall s :: s in sources[..k + 1] ==> s in sources;
      var path := Ninja.FileNameFrom(back, sources[k].file, setups);
      var item: string;
      if sources[k].exports == "" {
        item := ItemOpen + additionalBack + path + PlainClose;
      } else {
        item := ItemOpen + additionalBack + path + ModuleClose;
      }
      text := text + item;
    }
    assert sources[..|sources|] == sources;
  }

  /** The reference to one project: its project file under the binary directory, its GUID and its name. */
  function ReferenceItem(bindir: string, guid: string, depName: string): string
  {
    "    <ProjectReference Include=\"" + Paths.Join(bindir, depName) + ".vcxproj\">\n\t  <Project>{" + guid
    + "}</Project>\n\t  <Name>" + depName + "</Name>\n\t</ProjectReference>\n"
  }

  /** Every project is named by a known artifact. */
  predicate NamesKnown(projects: seq<(string, VsProject)>, setups: seq<ProjectSetup>)
  {
    forall e :: e in projects ==> Ninja.Known(e.1.name, setups)
  }

  /** The references of a project, a GUID without a project skipped. */
  function ReferencesText(refs: seq<string>, projects: seq<(string, VsProject)>, env: Env): string
    requires NamesKnown(projects, env.setups)
  {
    if |refs| == 0 then ""
    else
      var prev := ReferencesText(refs[..|refs| - 1], projects, env);
      var ref := refs[|refs| - 1];
      match Lookup(projects, ref)
      case None => prev
      case Some(dep) => prev + ReferenceItem(env.bindir, ref, Ninja.ArtifactName(env.back, dep.name, env.setups))
  }

  /** The GUIDs that have a project, in order. */
  function KnownRefs(refs: seq<string>, projects: seq<(string, VsProject)>): seq<string>
  {
    if |refs| == 0 then []
    else KnownRefs(refs[..|refs| - 1], projects) + (if Lookup(projects, refs[|refs| - 1]).Some? then [refs[|refs| - 1]] else [])
  }

  /** The GUIDs kept are those among the references that have a project. */
  lemma {:induction false} KnownRefsMeaning(refs: seq<string>, projects: seq<(string, VsProject)>)
    ensures forall r :: r in KnownRefs(refs, projects) <==> r in refs && Lookup(projects, r).Some?
  {
    if |refs| > 0 {
      KnownRefsMeaning(refs[..|refs| - 1], projects);
      assert refs == refs[..|refs| - 1] + [refs[|refs| - 1]];
    }
  }

  /** A reference to a GUID without a project is skipped: the text is that of the GUIDs that have one. */
  lemma {:induction false} ReferencesSkipUnknown(refs: seq<string>, projects: seq<(string, VsProject)>, env: Env)
    requires NamesKnown(projects, env.setups)
    ensures ReferencesText(refs, projects, env) == ReferencesText(KnownRefs(refs, projects), projects, env)
  {
    if |refs| > 0 {
      var init := refs[..|refs| - 1];
      var ref := refs[|refs| - 1];
      ReferencesSkipUnknown(init, projects, env);
      var known := KnownRefs(init, projects);
      if Lookup(projects, ref).Some? {
        assert (known + [ref])[..|known|] == known;
      } else {
        assert known + [] == known;
      }
    }
  }

  /** The project references of a project file. */
  method WriteReferences(refs: seq<string>, projects: seq<(string, VsProject)>,
                         back: string, bindir: string, setups: seq<ProjectSetup>, ghost md5: string -> seq<bv8>) returns (text: string)
    requires NamesKnown(projects, setups)
    ensures text == ReferencesText(refs, projects, Env(back, bindir, setups, md5))
  {
    text := "";
    for k := 0 to |refs|
      invariant text == ReferencesText(refs[..k], projects, Env(back, bindir, setups, md5))
    {
      assert refs[..k + 1][..k] == refs[..k];
      var it := Lookup(projects, refs[k]);
      if it.None? {
        continue;
      }
      var dep := it.value;
      var name := Ninja.ArtifactName(back, dep.name, setups);
      text := text + ReferenceItem(bindir, refs[k], name);
    }
    assert refs[..|refs|] == refs;
  }
}
