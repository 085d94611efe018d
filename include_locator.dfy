// `env::include_locator`: finds the file a header-unit import names. The
// system include directories are learnt lazily, once, from the output of a
// preprocessor command run with a listing flag: they are the lines between
// a start and a stop marker. The command's output is given to the locator
// when it is built, standing in for running it.

module IncludeLocator {
  import opened Wrappers
  import opened Utils
  import opened Paths
  import opened Generator
  import opened EnvPath
  import opened CommandSplit

  /** What running the listing command gives: its exit status and its two output streams. */
  datatype ProcessOutput = ProcessOutput(exitStatus: int, out: string, err: string)

  // ------------------------------------------------------------ resolve

  /** The text arguments, in order; the others are dropped. */
  function TextsOf(args: TemplatedString): (r: seq<string>)
    ensures |r| <= |args|
  {
    if |args| == 0 then []
    else TextsOf(args[..|args| - 1]) + (if args[|args| - 1].Str? then [args[|args| - 1].text] else [])
  }

  /** `include_locator::resolve`: the program, found as `paths::which` finds tools, then the split text arguments. */
  function ResolveOf(p: ToolPaths, cmd: Command, exists_: string -> bool, env: Option<string>, isRegular: string -> bool): seq<string>
  {
    [WhichOf(p, cmd.tool, exists_, env, isRegular)] + TextsOf(SplitAll(cmd.args))
  }

  /** All the words of several texts, one text after another. */
  function Words(texts: seq<string>): seq<string>
  {
    if |texts| == 0 then [] else Words(texts[..|texts| - 1]) + ArgsOf(texts[|texts| - 1])
  }

  lemma {:induction false} TextsOfAppend(a: TemplatedString, b: TemplatedString)
    ensures TextsOf(a + b) == TextsOf(a) + TextsOf(b)
    decreases |b|
  {
    if |b| > 0 {
      assert (a + b)[..|a + b| - 1] == a + b[..|b| - 1];
      TextsOfAppend(a, b[..|b| - 1]);
    } else {
      assert a + b == a;
    }
  }

  lemma {:induction false} TextsOfTexts(ws: seq<string>)
    ensures TextsOf(Texts(ws)) == ws
    decreases |ws|
  {
    if |ws| > 0 {
      assert Texts(ws)[..|ws| - 1] == Texts(ws[..|ws| - 1]);
      TextsOfTexts(ws[..|ws| - 1]);
      assert ws[..|ws| - 1] + [ws[|ws| - 1]] == ws;
    }
  }

  /** The program's arguments are the words of the command's text arguments, in order; other arguments are dropped. */
  lemma {:induction false} ResolvedWords(args: TemplatedString)
    ensures TextsOf(SplitAll(args)) == Words(TextsOf(args))
    decreases |args|
  {
    if |args| > 0 {
      var init, a := args[..|args| - 1], args[|args| - 1];
      ResolvedWords(init);
      TextsOfAppend(SplitAll(init), Expand(a));
      if a.Str? {
        TextsOfTexts(ArgsOf(a.text));
        assert TextsOf(args) == TextsOf(init) + [a.text];
        assert [a.text][..0] == [];
      } else {
        assert TextsOf(args) == TextsOf(init);
        assert TextsOf([a]) == [] by {
          assert [a][..0] == [];
        }
      }
    }
  }

  /** `resolve`'s loop: the tool resolved, then each text argument of the split command. */
  method Resolve(p: ToolPaths, cmd: Command, exists_: string -> bool, env: Option<string>, isRegular: string -> bool)
    returns (result: seq<string>)
    ensures result == ResolveOf(p, cmd, exists_, env, isRegular)
  {
    var split := CommandLineSplit(cmd);
    var program := Which(p, split.tool, exists_, env, isRegular);
    var texts := StrTexts(split.args);
    result := [program] + texts;
  }

  /** The loop of `resolve` over the split arguments: the text of each string argument, in order. */
  method StrTexts(args: TemplatedString) returns (texts: seq<string>)
    ensures texts == TextsOf(args)
  {
    texts := [];
    for k := 0 to |args|
      invariant texts == TextsOf(args[..k])
    {
      var arg := args[k];
      assert args[..k + 1][..k] == args[..k];
      if !arg.Str? {
        continue;
      }
      texts := texts + [arg.text];
    }
    assert args[..|args|] == args;
  }

  // ------------------------------------------------------ the listing

  /** The lines `std::getline` reads from `text`: split at '\n', with no empty line after a final one. */
  function Lines(text: string): (r: seq<string>)
    ensures forall i :: 0 <= i < |r| ==> '\n' !in r[i]
    decreases |text|
  {
    if |text| == 0 then []
    else
      match Find(text, '\n', 0)
      case None => [text]
      case Some(i) => [text[..i]] + Lines(text[i + 1..])
  }

  /** Each line stripped of surrounding white space. */
  function StripAll(ls: seq<string>): (r: seq<string>)
    ensures |r| == |ls| && forall i :: 0 <= i < |ls| ==> r[i] == Strip(ls[i])
  {
    seq(|ls|, i requires 0 <= i < |ls| => Strip(ls[i]))
  }

  /**
   * The getline loop: the directories read up to the stop marker, or
   * nothing when the stop marker never comes. Inside the list every line
   * but the stop marker is a directory; before it, only the start marker
   * counts.
   */
  function Collect(lines: seq<string>, start: string, stop: string, inlist: bool): Option<seq<string>>
    decreases |lines|
  {
    if |lines| == 0 then None
    else if lines[0] == stop then Some([])
    else if inlist then
      match Collect(lines[1..], start, stop, true)
      case None => None
      case Some(ds) => Some([Strip(lines[0])] + ds)
    else Collect(lines[1..], start, stop, lines[0] == start)
  }

  /** Inside the list: the lines before the first stop marker, stripped; nothing without one. */
  lemma {:induction false} CollectInList(lines: seq<string>, start: string, stop: string)
    ensures stop !in lines ==> Collect(lines, start, stop, true) == None
    ensures forall b :: 0 <= b < |lines| && lines[b] == stop && stop !in lines[..b] ==>
      Collect(lines, start, stop, true) == Some(StripAll(lines[..b]))
    decreases |lines|
  {
    if |lines| > 0 && lines[0] != stop {
      CollectInList(lines[1..], start, stop);
      forall b | 0 <= b < |lines| && lines[b] == stop && stop !in lines[..b]
        ensures Collect(lines, start, stop, true) == Some(StripAll(lines[..b]))
      {
        assert b > 0;
        InRestPrefix(lines, b - 1, stop);
        assert lines[1..][b - 1] == stop;
        assert [Strip(lines[0])] + StripAll(lines[1..b]) == StripAll(lines[..b]);
      }
      if stop !in lines {
        assert stop !in lines[1..] by {
          assert forall x :: x in lines[1..] ==> x in lines;
        }
      }
    }
  }

  /**
   * Before the list: with a stop marker, the lines strictly between the
   * first start marker and it, stripped, or none when no start marker
   * comes first; without a stop marker, nothing.
   */
  lemma CollectBeforeList(lines: seq<string>, start: string, stop: string)
    ensures stop !in lines ==> Collect(lines, start, stop, false) == None
    ensures forall b :: 0 <= b < |lines| && lines[b] == stop && stop !in lines[..b] && start !in lines[..b] ==>
      Collect(lines, start, stop, false) == Some([])
    ensures forall a, b ::
      (0 <= a < b < |lines| && lines[a] == start && lines[b] == stop && start !in lines[..a] && stop !in lines[..b]) ==>
      Collect(lines, start, stop, false) == Some(StripAll(lines[a + 1..b]))
  {
    CollectNoStop(lines, start, stop);
    forall b | 0 <= b < |lines| && lines[b] == stop && stop !in lines[..b] && start !in lines[..b]
      ensures Collect(lines, start, stop, false) == Some([])
    {
      CollectStopFirst(lines, start, stop, b);
    }
    forall a, b | 0 <= a < b < |lines| && lines[a] == start && lines[b] == stop && start !in lines[..a] && stop !in lines[..b]
      ensures Collect(lines, start, stop, false) == Some(StripAll(lines[a + 1..b]))
    {
      CollectStartFirst(lines, start, stop, a, b);
    }
  }

  /** A line missing from a prefix of `lines` is missing from the same prefix of `lines[1..]`, one shorter. */
  lemma InRestPrefix(lines: seq<string>, k: nat, x: string)
    requires k < |lines|
    ensures lines[1..][..k] == lines[1..k + 1]
    ensures x !in lines[..k + 1] ==> x !in lines[1..][..k]
  {
    if x in lines[1..][..k] {
      var i :| 0 <= i < k && lines[1..][..k][i] == x;
      assert lines[..k + 1][i + 1] == x;
    }
  }

  /** Without a stop marker nothing is collected. */
  lemma {:induction false} CollectNoStop(lines: seq<string>, start: string, stop: string)
    ensures stop !in lines ==> Collect(lines, start, stop, false) == None
    decreases |lines|
  {
    if |lines| > 0 && stop !in lines {
      assert stop !in lines[1..] by {
        assert forall x :: x in lines[1..] ==> x in lines;
      }
      if lines[0] == start {
        CollectInList(lines[1..], start, stop);
      } else {
        CollectNoStop(lines[1..], start, stop);
      }
    }
  }

  /** A stop marker before any start marker: an empty list. */
  lemma {:induction false} CollectStopFirst(lines: seq<string>, start: string, stop: string, b: nat)
    requires b < |lines| && lines[b] == stop && stop !in lines[..b] && start !in lines[..b]
    ensures Collect(lines, start, stop, false) == Some([])
    decreases b
  {
    if b > 0 {
      assert lines[..b][0] == lines[0];
      InRestPrefix(lines, b - 1, stop);
      InRestPrefix(lines, b - 1, start);
      CollectStopFirst(lines[1..], start, stop, b - 1);
    }
  }

  /** The first start marker, then the first stop marker: the stripped lines between them. */
  lemma {:induction false} CollectStartFirst(lines: seq<string>, start: string, stop: string, a: nat, b: nat)
    requires a < b < |lines| && lines[a] == start && lines[b] == stop && start !in lines[..a] && stop !in lines[..b]
    ensures Collect(lines, start, stop, false) == Some(StripAll(lines[a + 1..b]))
    decreases a
  {
    assert lines[..b][0] == lines[0];
    InRestPrefix(lines, b - 1, stop);
    if a == 0 {
      CollectInList(lines[1..], start, stop);
      assert lines[1..][b - 1] == stop;
    } else {
      assert lines[..a][0] == lines[0];
      InRestPrefix(lines, a - 1, start);
      assert lines[1..][a..b - 1] == lines[a + 1..b];
      CollectStartFirst(lines[1..], start, stop, a - 1, b - 1);
    }
  }

  /** The stream the directories are read from. */
  function ListingText(listing: ProcessOutput, useStdout: bool): string
  {
    if useStdout then listing.out else listing.err
  }

  /** `parse_if_needed`'s result: empty after a failed command or without a stop marker. */
  function ParsedDirs(listing: ProcessOutput, useStdout: bool, start: string, stop: string): seq<string>
  {
    if listing.exitStatus != 0 then []
    else
      match Collect(Lines(ListingText(listing, useStdout)), start, stop, false)
      case None => []
      case Some(ds) => ds
  }

  /** The first directory holding `filename` as a regular file, joined with it, or the empty path. */
  function SysInclude(dirs: seq<string>, filename: string, isRegular: string -> bool): string
  {
    match FirstRegular(dirs, filename, isRegular)
    case Some(c) => c
    case None => ""
  }

  /** The header named inside the include's delimiters. */
  function IncludeName(header: string): string
    requires |header| >= 3
  {
    header[1..|header| - 1]
  }

  /** Whether the include is found next to the including source, without the system directories. */
  predicate LocalHit(sourcePath: string, header: string, isRegular: string -> bool)
  {
    |header| >= 3 && header[0] != '<' && isRegular(Join(ParentPath(sourcePath), IncludeName(header)))
  }

  /** `find_include` given the system directories: nothing for a name too short to have delimiters; `<...>` from the system directories; otherwise next to the source first. */
  function FoundInclude(dirs: seq<string>, sourcePath: string, header: string, isRegular: string -> bool): string
  {
    if |header| < 3 then ""
    else if LocalHit(sourcePath, header, isRegular) then Join(ParentPath(sourcePath), IncludeName(header))
    else SysInclude(dirs, IncludeName(header), isRegular)
  }

  /**
   * What `find_include` finds: nothing, or the header in the first system
   * directory that holds it; for a quoted name, the header next to the
   * source wins over the system directories.
   */
  lemma FoundIncludeMeaning(dirs: seq<string>, sourcePath: string, header: string, isRegular: string -> bool)
    ensures var r := FoundInclude(dirs, sourcePath, header, isRegular);
      (|header| < 3 ==> r == "")
      && (LocalHit(sourcePath, header, isRegular) ==> r == Join(ParentPath(sourcePath), IncludeName(header)))
      && (|header| >= 3 && !LocalHit(sourcePath, header, isRegular) ==>
        (r == "" <==> forall i :: 0 <= i < |dirs| ==> !isRegular(Join(dirs[i], IncludeName(header))))
        && (r != "" ==> exists i :: 0 <= i < |dirs| && r == Join(dirs[i], IncludeName(header)) && isRegular(r)))
  {
    if |header| >= 3 && !LocalHit(sourcePath, header, isRegular) {
      var name := IncludeName(header);
      FirstRegularMeaning(dirs, name, isRegular);
      var f := FirstRegular(dirs, name, isRegular);
      if f.Some? {
        var i :| 0 <= i < |dirs| && f.value == Join(dirs[i], name) && isRegular(Join(dirs[i], name))
          && forall j :: 0 <= j < i ==> !isRegular(Join(dirs[j], name));
      }
    }
  }

  /** The collected directories after a stop marker are the stripped lines before it and after the start marker. */
  lemma ParsedDirsMeaning(listing: ProcessOutput, useStdout: bool, start: string, stop: string)
    ensures listing.exitStatus != 0 ==> ParsedDirs(listing, useStdout, start, stop) == []
    ensures var lines := Lines(ListingText(listing, useStdout));
      (stop !in lines ==> ParsedDirs(listing, useStdout, start, stop) == [])
      && (listing.exitStatus == 0 ==> forall a, b ::
        (0 <= a < b < |lines| && lines[a] == start && lines[b] == stop && start !in lines[..a] && stop !in lines[..b]) ==>
          ParsedDirs(listing, useStdout, start, stop) == StripAll(lines[a + 1..b]))
  {
    CollectBeforeList(Lines(ListingText(listing, useStdout)), start, stop);
  }

  // ------------------------------------------------------------ the class

  /** The locator: the resolved listing command, its markers, and the directories once learnt. */
  class Locator {
    var parsed: bool
    var dirs: seq<string>
    const useStdout: bool
    const filterStart: string
    const filterStop: string
    const filter: seq<string>
    /** What running `filter` gives. */
    const listing: ProcessOutput

    /** The directories the first search learns. */
    function Learnt(): seq<string>
    {
      ParsedDirs(listing, useStdout, filterStart, filterStop)
    }

    constructor (p: ToolPaths, useStdout: bool, filterStart: string, filterStop: string, filterCmd: Command,
                 listing: ProcessOutput, exists_: string -> bool, env: Option<string>, isRegular: string -> bool)
      ensures this.useStdout == useStdout && this.filterStart == filterStart && this.filterStop == filterStop
      ensures this.listing == listing
      ensures filter == ResolveOf(p, filterCmd, exists_, env, isRegular)
      ensures !parsed && dirs == []
    {
      var resolved := Resolve(p, filterCmd, exists_, env, isRegular);
      this.useStdout := useStdout;
      this.filterStart := filterStart;
      this.filterStop := filterStop;
      this.filter := resolved;
      this.listing := listing;
      parsed := false;
      dirs := [];
    }

    /** `from_env`: an unset variable changes nothing; a set one replaces the directories with its ':'-separated parts. */
    method FromEnv(env: Option<string>)
      modifies this
      ensures parsed == old(parsed)
      ensures env.None? ==> dirs == old(dirs)
      ensures env.Some? ==> dirs == Split(PathSep, env.value)
    {
      if env.None? {
        return;
      }
      dirs := SplitS(PathSep, env.value);
    }

    /** `parse_if_needed`: the first call learns the directories, later calls change nothing. */
    method ParseIfNeeded()
      modifies this
      ensures parsed
      ensures old(parsed) ==> dirs == old(dirs)
      ensures !old(parsed) ==> dirs == Learnt()
    {
      if parsed {
        return;
      }
      parsed := true;
      dirs := [];
      if listing.exitStatus != 0 {
        return;
      }
      var lines := Lines(ListingText(listing, useStdout));
      var found := CollectLoop(lines, filterStart, filterStop);
      dirs := found;
    }

    /** `find_sys_include`: learn the directories if needed, then the first that holds the file. */
    method FindSysInclude(filename: string, isRegular: string -> bool) returns (r: string)
      modifies this
      ensures parsed && dirs == (if old(parsed) then old(dirs) else Learnt())
      ensures r == SysInclude(dirs, filename, isRegular)
    {
      ParseIfNeeded();
      var k := 0;
      while k < |dirs|
        invariant k <= |dirs|
        invariant FirstRegular(dirs, filename, isRegular) == FirstRegular(dirs[k..], filename, isRegular)
        decreases |dirs| - k
      {
        var candidate := Join(dirs[k], filename);
        assert dirs[k..][1..] == dirs[k + 1..];
        if isRegular(candidate) {
          return candidate;
        }
        k := k + 1;
      }
      return "";
    }

    /** `find_include`: the header the include names, learning the system directories only when they are searched. */
    method FindInclude(sourcePath: string, header: string, isRegular: string -> bool) returns (r: string)
      modifies this
      ensures if |header| < 3 || LocalHit(sourcePath, header, isRegular)
        then parsed == old(parsed) && dirs == old(dirs)
        else parsed && dirs == (if old(parsed) then old(dirs) else Learnt())
      ensures r == FoundInclude(dirs, sourcePath, header, isRegular)
    {
      if |header| < 3 {
        return "";
      }
      var name := header[1..|header| - 1];
      if header[0] == '<' {
        r := FindSysInclude(name, isRegular);
        return;
      }
      var candidate := Join(ParentPath(sourcePath), name);
      if isRegular(candidate) {
        return candidate;
      }
      r := FindSysInclude(name, isRegular);
    }
  }

  /** The getline loop over the listing's lines, with its `inlist` flag. */
  method CollectLoop(lines: seq<string>, start: string, stop: string) returns (dirs: seq<string>)
    ensures dirs == match Collect(lines, start, stop, false) case None => [] case Some(ds) => ds
  {
    dirs := [];
    var inlist := false;
    var i := 0;
    assert lines[i..] == lines;
    assert Prefixed(dirs, Collect(lines, start, stop, false)) == Collect(lines, start, stop, false) by {
      var c := Collect(lines, start, stop, false);
      if c.Some? {
        assert dirs + c.value == c.value;
      }
    }
    while i < |lines|
      invariant i <= |lines|
      invariant !inlist ==> dirs == []
      invariant Collect(lines, start, stop, false) == Prefixed(dirs, Collect(lines[i..], start, stop, inlist))
      decreases |lines| - i
    {
      CollectStep(lines, i, start, stop, inlist, dirs);
      if lines[i] == stop {
        return;
      }
      if inlist {
        dirs := dirs + [Strip(lines[i])];
        i := i + 1;
        continue;
      }
      inlist := lines[i] == start;
      i := i + 1;
    }
    dirs := [];
  }

  /** `ds` in front of what a later part of the loop collects, if it collects anything. */
  function Prefixed(ds: seq<string>, o: Option<seq<string>>): Option<seq<string>>
  {
    match o
    case None => None
    case Some(more) => Some(ds + more)
  }

  /** One line of the getline loop, on what is still to be read. */
  lemma CollectStep(lines: seq<string>, i: nat, start: string, stop: string, inlist: bool, dirs: seq<string>)
    requires i < |lines|
    ensures lines[i] == stop ==> Prefixed(dirs, Collect(lines[i..], start, stop, inlist)) == Some(dirs)
    ensures lines[i] != stop && inlist ==>
      Prefixed(dirs, Collect(lines[i..], start, stop, inlist))
        == Prefixed(dirs + [Strip(lines[i])], Collect(lines[i + 1..], start, stop, true))
    ensures lines[i] != stop && !inlist ==>
      Collect(lines[i..], start, stop, inlist) == Collect(lines[i + 1..], start, stop, lines[i] == start)
    ensures i + 1 == |lines| ==>
      Collect(lines[i + 1..], start, stop, true) == None && Collect(lines[i + 1..], start, stop, false) == None
  {
    assert lines[i..][0] == lines[i] && lines[i..][1..] == lines[i + 1..];
    assert dirs + [] == dirs;
    var rest := Collect(lines[i + 1..], start, stop, true);
    if rest.Some? {
      assert dirs + ([Strip(lines[i])] + rest.value) == dirs + [Strip(lines[i])] + rest.value;
    }
  }
}
