/**
 * Line splices: a backslash immediately followed by an end of line ("\r\n",
 * "\r" or "\n"). The scanner and the highlighter each carry a copy of the
 * same three helpers: find where a line ends, find the next splice, and
 * remove every splice from a piece of text.
 *
 * The helpers as written have two defects (see `FindDelEolAsWritten` and
 * `RemoveDeletedEolsAsWritten`); the rest of the model uses the corrected
 * `FindDelEol` and `RemoveDeletedEols`.
 */
module Splice {
  import opened Wrappers
  import Utils

  /** `find_eol_end`: the position after an optional '\r' and an optional '\n' at `pos`, if either is there. */
  function EolEnd(s: string, pos: nat): (r: Option<nat>)
    ensures r.Some? ==> pos < r.value <= |s| && r.value <= pos + 2
  {
    var a := if pos < |s| && s[pos] == '\r' then pos + 1 else pos;
    var b := if a < |s| && s[a] == '\n' then a + 1 else a;
    if b != pos then Some(b) else None
  }

  /** Every character an end of line spans is a carriage return or a line feed. */
  lemma EolEndSpans(s: string, pos: nat)
    requires EolEnd(s, pos).Some?
    ensures forall j :: pos <= j < EolEnd(s, pos).value ==> s[j] == '\r' || s[j] == '\n'
  {
  }

  /** A splice starts at `b`. */
  predicate SpliceAt(s: string, b: nat)
  {
    b < |s| && s[b] == '\\' && EolEnd(s, b + 1).Some?
  }

  function SpliceEnd(s: string, b: nat): (e: nat)
    requires SpliceAt(s, b)
    ensures b + 1 < e <= |s|
  {
    EolEnd(s, b + 1).value
  }

  /** The first splice at or after `pos`: its backslash and the position after its end of line. */
  function FindSplice(s: string, pos: nat): (r: Option<(nat, nat)>)
    ensures r.None? ==> forall j :: pos <= j < |s| ==> !SpliceAt(s, j)
    ensures r.Some? ==> pos <= r.value.0 && SpliceAt(s, r.value.0) && r.value.1 == SpliceEnd(s, r.value.0)
                        && forall j :: pos <= j < r.value.0 ==> !SpliceAt(s, j)
    decreases |s| - pos
  {
    match Utils.Find(s, '\\', pos)
    case None => None
    case Some(slash) =>
      match EolEnd(s, slash + 1)
      case Some(e) => Some((slash, e))
      case None => FindSplice(s, slash + 1)
  }

  // ------------------------------------------------------------- as written

  datatype Search = Found(end: nat) | NotFound | Hangs

  /**
   * `find_del_eol` as written: when the first backslash from `pos` is not
   * followed by an end of line, the loop increments its local copy of the
   * backslash position and searches again from the unchanged `pos`, finding
   * the same backslash forever.
   */
  function FindDelEolAsWritten(s: string, pos: nat): Search
  {
    match Utils.Find(s, '\\', pos)
    case None => NotFound
    case Some(slash) =>
      match EolEnd(s, slash + 1)
      case Some(e) => Found(e)
      case None => Hangs
  }

  /** A backslash that does not start a splice, as in the header name `"dir\file.h"`, hangs the search. */
  lemma BackslashWithoutEolHangs()
    ensures FindDelEolAsWritten("\\a", 0) == Hangs
    ensures FindDelEolAsWritten("\"dir\\file.h\"", 0) == Hangs
  {
    assert Utils.Find("\\a", '\\', 0) == Some(0);
    var h := "\"dir\\file.h\"";
    assert h[4] == '\\';
    assert Utils.Find(h, '\\', 0) == Some(4);
  }

  /** Where no such backslash comes first, the search as written finds what the corrected one finds. */
  lemma FindDelEolAsWrittenAgrees(s: string, pos: nat)
    requires FindDelEolAsWritten(s, pos) != Hangs
    ensures FindDelEolAsWritten(s, pos) == match FindSplice(s, pos) case None => NotFound case Some(p) => Found(p.1)
  {
  }

  /** The walk back from a splice's end to its backslash as written: it starts ON the end position, reading past the text when the splice ends it. */
  function WalkBackAsWritten(s: string, pos: nat, b: nat): (r: Option<nat>)
    requires b <= pos && b < |s| && s[b] == '\\'
    ensures r.Some? ==> b <= r.value <= pos && r.value < |s| && s[r.value] == '\\'
    ensures r.None? <==> pos >= |s|
    decreases pos
  {
    if pos >= |s| then None
    else if s[pos] == '\\' then Some(pos)
    else WalkBackAsWritten(s, pos - 1, b)
  }

  datatype Removal = Text(text: string) | Hang | ReadsPastEnd

  /** The backslash of a splice that ends at `e`: two characters back, or three after "\r\n". */
  function SlashOf(s: string, e: nat): nat
    requires 2 <= e <= |s|
  {
    if s[e - 2] == '\\' || e < 3 then e - 2 else e - 3
  }

  /** A splice end found from `from`: its backslash lies at or after `from`. */
  predicate FoundShape(s: string, from: nat, r: Search)
  {
    r.Found? && from + 2 <= r.end <= |s| && from <= SlashOf(s, r.end) && s[SlashOf(s, r.end)] == '\\'
  }

  lemma FoundHasShape(s: string, from: nat)
    requires FindDelEolAsWritten(s, from).Found?
    ensures FoundShape(s, from, FindDelEolAsWritten(s, from))
  {
    var slash := Utils.Find(s, '\\', from).value;
    var e := EolEnd(s, slash + 1).value;
    assert e == slash + 2 || (e == slash + 3 && s[e - 2] == '\r');
  }

  /** The loop of `remove_deleted_eols` as written, from `prev` with the next splice end `pos`. */
  function RemoveLoopAsWritten(s: string, prev: nat, pos: Search): Removal
    requires prev <= |s|
    requires pos.Found? ==> FoundShape(s, prev, pos)
    decreases |s| - prev
  {
    match pos
    case Hangs => Hang
    case NotFound => Text(s[prev..])
    case Found(e) =>
      match WalkBackAsWritten(s, e, SlashOf(s, e))
      case None => ReadsPastEnd
      case Some(until) =>
        var next := FindDelEolAsWritten(s, e);
        var rest := if next.Found? then FoundHasShape(s, e); RemoveLoopAsWritten(s, e, next)
                    else RemoveLoopAsWritten(s, e, next);
        match rest
        case Text(t) => Text(s[prev..until] + t)
        case other => other
  }

  /** `remove_deleted_eols` (scanner copy) as written. */
  function RemoveDeletedEolsAsWritten(s: string): Removal
  {
    var pos := FindDelEolAsWritten(s, 0);
    if pos == NotFound then Text(s)
    else if pos.Found? then FoundHasShape(s, 0); RemoveLoopAsWritten(s, 0, pos)
    else RemoveLoopAsWritten(s, 0, pos)
  }

  /**
   * Two splices in a row: the walk back from the first splice's end stops on
   * the second splice's backslash, so the first splice is copied instead of
   * removed; a splice at the very end makes the walk read past the text.
   */
  lemma AdjacentSplicesKeepFirst()
    ensures RemoveDeletedEolsAsWritten("\\\n\\\nx") == Text("\\\nx")
    ensures RemoveSplices("\\\n\\\nx") == "x"
    ensures RemoveDeletedEolsAsWritten("a\\\n") == ReadsPastEnd
  {
    var s := "\\\n\\\nx";
    assert Utils.Find(s, '\\', 0) == Some(0);
    assert FindDelEolAsWritten(s, 0) == Found(2);
    assert WalkBackAsWritten(s, 2, 0) == Some(2);
    assert Utils.Find(s, '\\', 2) == Some(2);
    assert FindDelEolAsWritten(s, 2) == Found(4);
    assert WalkBackAsWritten(s, 4, 2) == Some(2);
    assert Utils.Find(s, '\\', 4) == None;
    assert FindDelEolAsWritten(s, 4) == NotFound;
    assert RemoveLoopAsWritten(s, 4, NotFound) == Text("x");
    assert RemoveLoopAsWritten(s, 2, Found(4)) == Text("x");
    assert s[0..2] + "x" == "\\\nx";
    assert SpliceAt(s, 0) && SpliceEnd(s, 0) == 2;
    assert SpliceAt(s, 2) && SpliceEnd(s, 2) == 4;
    assert !SpliceAt(s, 4);
    assert RemoveSplicesFrom(s, 4) == "x";
    var t := "a\\\n";
    assert Utils.Find(t, '\\', 0) == Some(1);
    assert FindDelEolAsWritten(t, 0) == Found(3);
  }

  // ------------------------------------------------------------- corrected

  /** `find_del_eol`, corrected: after a backslash that does not start a splice, search on from the next character. */
  method FindDelEol(s: string, from: nat) returns (r: Option<nat>)
    ensures r == match FindSplice(s, from) case None => None case Some(p) => Some(p.1)
  {
    var pos := from;
    while true
      invariant FindSplice(s, pos) == FindSplice(s, from)
      decreases |s| - pos
    {
      var slash := Utils.Find(s, '\\', pos);
      FindSpliceNext(s, pos, slash);
      if slash.None? {
        return None;
      }
      var end := EolEnd(s, slash.value + 1);
      if end.Some? {
        return end;
      }
      pos := slash.value + 1;
    }
  }

  /** One round of the search: the next backslash either starts the splice sought or is passed over. */
  lemma FindSpliceNext(s: string, pos: nat, slash: Option<nat>)
    requires slash == Utils.Find(s, '\\', pos)
    ensures slash.None? ==> FindSplice(s, pos).None?
    ensures slash.Some? && EolEnd(s, slash.value + 1).Some? ==>
      FindSplice(s, pos) == Some((slash.value, EolEnd(s, slash.value + 1).value))
    ensures slash.Some? && EolEnd(s, slash.value + 1).None? ==> FindSplice(s, pos) == FindSplice(s, slash.value + 1)
  {
  }

  /** The text from `j` on with every splice removed, scanning from the front. */
  function RemoveSplicesFrom(s: string, j: nat): (r: string)
    ensures |r| <= |s| - j || j > |s|
    decreases |s| - j
  {
    if j >= |s| then ""
    else if SpliceAt(s, j) then RemoveSplicesFrom(s, SpliceEnd(s, j))
    else [s[j]] + RemoveSplicesFrom(s, j + 1)
  }

  /** Translation phase 2 of C++: the text with every backslash-newline removed, in one pass. */
  function RemoveSplices(s: string): string
  {
    RemoveSplicesFrom(s, 0)
  }

  /** Characters before the first splice are copied through unchanged. */
  lemma {:induction false} CopiedUpTo(s: string, prev: nat, b: nat)
    requires prev <= b <= |s|
    requires forall j :: prev <= j < b ==> !SpliceAt(s, j)
    ensures RemoveSplicesFrom(s, prev) == s[prev..b] + RemoveSplicesFrom(s, b)
    decreases b - prev
  {
    if prev < b {
      assert !SpliceAt(s, prev);
      assert RemoveSplicesFrom(s, prev) == [s[prev]] + RemoveSplicesFrom(s, prev + 1);
      CopiedUpTo(s, prev + 1, b);
      assert s[prev..b] == [s[prev]] + s[prev + 1..b];
    }
  }

  /** Text without splices comes out unchanged; otherwise it comes out shorter. */
  lemma {:induction false} RemoveSplicesUnchanged(s: string)
    ensures RemoveSplices(s) == s <==> forall j :: 0 <= j < |s| ==> !SpliceAt(s, j)
  {
    match FindSplice(s, 0)
    case None =>
      CopiedUpTo(s, 0, |s|);
      assert s[0..|s|] == s;
    case Some(p) =>
      CopiedUpTo(s, 0, p.0);
      assert |RemoveSplicesFrom(s, p.1)| <= |s| - p.1;
  }

  /** The corrected walk back: from the last character of a splice's end of line down to its backslash. */
  method WalkBack(sv: string, pos: nat, ghost b: nat) returns (until: nat)
    requires SpliceAt(sv, b) && pos == SpliceEnd(sv, b)
    ensures until == b
  {
    EolEndSpans(sv, b + 1);
    until := pos - 1;
    while sv[until] != '\\'
      invariant b <= until < pos
      decreases until
    {
      until := until - 1;
    }
  }

  /** Removing the first splice from `prev` on: the text before it, then the rest after it. */
  lemma RemoveFirstSplice(s: string, prev: nat)
    requires prev <= |s| && FindSplice(s, prev).Some?
    ensures var (b, e) := FindSplice(s, prev).value;
      RemoveSplicesFrom(s, prev) == s[prev..b] + RemoveSplicesFrom(s, e)
  {
    CopiedUpTo(s, prev, FindSplice(s, prev).value.0);
  }

  /**
   * `remove_deleted_eols` (scanner copy), corrected: copy the text between
   * splices, walking back from the last character of each splice's end of
   * line to its backslash. Text without splices is returned as it is.
   */
  method RemoveDeletedEols(sv: string) returns (out: string)
    ensures out == RemoveSplices(sv)
  {
    var pos := FindDelEol(sv, 0);
    var prev: nat := 0;
    if pos.None? {
      RemoveSplicesUnchanged(sv);
      return sv;
    }
    out := "";
    while pos.Some?
      invariant prev <= |sv|
      invariant pos == match FindSplice(sv, prev) case None => None case Some(p) => Some(p.1)
      invariant out + RemoveSplicesFrom(sv, prev) == RemoveSplices(sv)
      decreases |sv| - prev
    {
      ghost var b := FindSplice(sv, prev).value.0;
      var until := WalkBack(sv, pos.value, b);
      RemoveFirstSplice(sv, prev);
      ghost var before := out;
      out := out + sv[prev..until];
      assert before + (sv[prev..until] + RemoveSplicesFrom(sv, pos.value)) == out + RemoveSplicesFrom(sv, pos.value);
      prev := pos.value;
      pos := FindDelEol(sv, prev);
    }
    CopiedUpTo(sv, prev, |sv|);
    out := out + sv[prev..];
  }

  /** The highlighter's copy: the same, except that text without splices gives an empty string. */
  method RemoveDeletedEolsHilite(sv: string) returns (out: string)
    ensures FindSplice(sv, 0).None? ==> out == ""
    ensures FindSplice(sv, 0).Some? ==> out == RemoveSplices(sv)
  {
    var pos := FindDelEol(sv, 0);
    if pos.None? {
      return "";
    }
    out := RemoveDeletedEols(sv);
  }
}
