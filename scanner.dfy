/**
 * The module-declaration scanner. The highlighter hands it one line at a
 * time with that line's tokens (offsets relative to the line); the scanner
 * tracks open braces and parentheses, and on a line that starts with
 * `export`, `module` or `import` outside any bracket it reads the module
 * name, the partition and the kind of declaration into the unit it builds.
 * Finally, bare partition imports (`import :part;`) are given the unit's
 * own module name and imports that name nothing are dropped.
 */
module Scanner {
  import opened HiliteToken
  import opened Types
  import opened Wrappers
  import Splice

  // -------------------------------------------------------------- decl_info

  /** The fields of `decl_info`. */
  datatype DeclFlags = DeclFlags(
    moduleExport: bool, moduleDecl: bool, moduleImport: bool, legacyHeader: bool,
    nameStart: nat, nameEnd: nat)

  const NoDecl := DeclFlags(false, false, false, false, 0, 0)

  /** The kinds `is_decl` removes from the line: the keywords and the module name itself. */
  predicate IsDeclKind(k: Kind)
  {
    k == MODULE_EXPORT || k == MODULE_DECL || k == MODULE_IMPORT || k == MODULE_NAME
  }

  /** What `is_decl` records about one token. */
  function Absorb(d: DeclFlags, t: Token): (r: DeclFlags)
  {
    if t.kind == MODULE_EXPORT then d.(moduleExport := true)
    else if t.kind == MODULE_DECL then d.(moduleDecl := true)
    else if t.kind == MODULE_IMPORT then d.(moduleImport := true)
    else if t.kind == MODULE_NAME then d.(nameStart := t.start, nameEnd := t.end)
    else if t.kind == SYSTEM_HEADER_NAME || t.kind == LOCAL_HEADER_NAME then
      d.(legacyHeader := true, nameStart := t.start, nameEnd := t.end)
    else d
  }

  /** `is_decl` applied to every token in order. */
  function AbsorbAll(d: DeclFlags, ts: seq<Token>): DeclFlags
  {
    if |ts| == 0 then d else Absorb(AbsorbAll(d, ts[..|ts| - 1]), ts[|ts| - 1])
  }

  /** A flag is set exactly when a token of its kind is on the line. */
  lemma AbsorbAllFlags(ts: seq<Token>)
    ensures AbsorbAll(NoDecl, ts).moduleExport <==> exists i :: 0 <= i < |ts| && ts[i].kind == MODULE_EXPORT
    ensures AbsorbAll(NoDecl, ts).moduleDecl <==> exists i :: 0 <= i < |ts| && ts[i].kind == MODULE_DECL
    ensures AbsorbAll(NoDecl, ts).moduleImport <==> exists i :: 0 <= i < |ts| && ts[i].kind == MODULE_IMPORT
    ensures AbsorbAll(NoDecl, ts).legacyHeader <==>
      exists i :: 0 <= i < |ts| && (ts[i].kind == SYSTEM_HEADER_NAME || ts[i].kind == LOCAL_HEADER_NAME)
  {
    AbsorbAllFlag(ts, 0);
    AbsorbAllFlag(ts, 1);
    AbsorbAllFlag(ts, 2);
    AbsorbAllFlag(ts, 3);
  }

  /** The four flags of `decl_info`, numbered. */
  function FlagOf(d: DeclFlags, f: nat): bool
  {
    if f == 0 then d.moduleExport
    else if f == 1 then d.moduleDecl
    else if f == 2 then d.moduleImport
    else d.legacyHeader
  }

  /** The token kinds that set flag `f`. */
  predicate Raises(k: Kind, f: nat)
  {
    if f == 0 then k == MODULE_EXPORT
    else if f == 1 then k == MODULE_DECL
    else if f == 2 then k == MODULE_IMPORT
    else k == SYSTEM_HEADER_NAME || k == LOCAL_HEADER_NAME
  }

  /** Flag `f` is set exactly when a token that raises it is on the line. */
  lemma {:induction false} AbsorbAllFlag(ts: seq<Token>, f: nat)
    ensures FlagOf(AbsorbAll(NoDecl, ts), f) <==> exists i :: 0 <= i < |ts| && Raises(ts[i].kind, f)
  {
    if |ts| > 0 {
      var init := ts[..|ts| - 1];
      AbsorbAllFlag(init, f);
      assert forall i :: 0 <= i < |init| ==> init[i] == ts[i];
      assert FlagOf(AbsorbAll(NoDecl, ts), f) == (FlagOf(AbsorbAll(NoDecl, init), f) || Raises(ts[|ts| - 1].kind, f));
    }
  }

  /** `within`: the token starts inside the recorded name. */
  predicate Within(d: DeclFlags, t: Token)
  {
    d.nameStart <= t.start < d.nameEnd
  }

  /** The tokens the first `remove_if` keeps: the ones `is_decl` does not claim, in their order. */
  function NotDecl(ts: seq<Token>): (r: seq<Token>)
    ensures forall t :: t in r <==> t in ts && !IsDeclKind(t.kind)
  {
    if |ts| == 0 then []
    else
      assert forall t :: t in ts <==> t in ts[..|ts| - 1] || t == ts[|ts| - 1];
      NotDecl(ts[..|ts| - 1]) + (if IsDeclKind(ts[|ts| - 1].kind) then [] else [ts[|ts| - 1]])
  }

  /** The tokens the second `remove_if` keeps: the ones starting inside the name, in their order. */
  function InName(d: DeclFlags, ts: seq<Token>): (r: seq<Token>)
    ensures forall t :: t in r <==> t in ts && Within(d, t)
  {
    if |ts| == 0 then []
    else
      assert forall t :: t in ts <==> t in ts[..|ts| - 1] || t == ts[|ts| - 1];
      InName(d, ts[..|ts| - 1]) + (if Within(d, ts[|ts| - 1]) then [ts[|ts| - 1]] else [])
  }

  // ----------------------------------------------------- stable sort by start

  /** Places `x` after every element starting no later than it. */
  function InsertByStart(s: seq<Token>, x: Token): (r: seq<Token>)
    ensures multiset(r) == multiset(s) + multiset{x}
  {
    if |s| == 0 then [x]
    else if s[|s| - 1].start <= x.start then s + [x]
    else
      assert s == s[..|s| - 1] + [s[|s| - 1]];
      InsertByStart(s[..|s| - 1], x) + [s[|s| - 1]]
  }

  /** `std::stable_sort` by start: an insertion sort, each element placed after its equals. */
  function SortByStart(ts: seq<Token>): (r: seq<Token>)
    ensures multiset(r) == multiset(ts)
  {
    if |ts| == 0 then []
    else
      assert ts == ts[..|ts| - 1] + [ts[|ts| - 1]];
      InsertByStart(SortByStart(ts[..|ts| - 1]), ts[|ts| - 1])
  }

  predicate SortedByStart(s: seq<Token>)
  {
    forall i, j :: 0 <= i < j < |s| ==> s[i].start <= s[j].start
  }

  lemma {:induction false} InsertSorted(s: seq<Token>, x: Token)
    requires SortedByStart(s)
    ensures SortedByStart(InsertByStart(s, x))
    ensures |InsertByStart(s, x)| == |s| + 1
    ensures forall i :: 0 <= i < |InsertByStart(s, x)| ==> InsertByStart(s, x)[i] == x || InsertByStart(s, x)[i] in s
  {
    if |s| > 0 && s[|s| - 1].start > x.start {
      var init := s[..|s| - 1];
      InsertSorted(init, x);
      var r := InsertByStart(init, x);
      forall i | 0 <= i < |r|
        ensures r[i].start <= s[|s| - 1].start
      {
        assert r[i] == x || r[i] in init;
      }
    }
  }

  lemma {:induction false} SortByStartSorted(ts: seq<Token>)
    ensures SortedByStart(SortByStart(ts))
  {
    if |ts| > 0 {
      SortByStartSorted(ts[..|ts| - 1]);
      InsertSorted(SortByStart(ts[..|ts| - 1]), ts[|ts| - 1]);
    }
  }

  /** The tokens starting at `k`, in order. */
  function AtStart(s: seq<Token>, k: nat): seq<Token>
  {
    if |s| == 0 then []
    else AtStart(s[..|s| - 1], k) + (if s[|s| - 1].start == k then [s[|s| - 1]] else [])
  }

  lemma {:induction false} AtStartAppend(a: seq<Token>, b: seq<Token>, k: nat)
    ensures AtStart(a + b, k) == AtStart(a, k) + AtStart(b, k)
    decreases |b|
  {
    if |b| == 0 {
      assert a + b == a;
    } else {
      var init := b[..|b| - 1];
      AtStartAppend(a, init, k);
      assert (a + b)[..|a + b| - 1] == a + init;
    }
  }

  lemma AtStartSingle(x: Token, k: nat)
    ensures AtStart([x], k) == if x.start == k then [x] else []
  {
    assert [x][..0] == [];
  }

  lemma {:induction false} InsertStable(s: seq<Token>, x: Token, k: nat)
    ensures AtStart(InsertByStart(s, x), k) == AtStart(s, k) + (if x.start == k then [x] else [])
  {
    AtStartSingle(x, k);
    if |s| == 0 {
      assert InsertByStart(s, x) == [x];
      assert AtStart(s, k) == [];
    } else if s[|s| - 1].start <= x.start {
      assert InsertByStart(s, x) == s + [x];
      AtStartAppend(s, [x], k);
    } else {
      var init, last := s[..|s| - 1], s[|s| - 1];
      assert s == init + [last];
      InsertStable(init, x, k);
      InsertStableStep(init, last, x, k);
    }
  }

  /** Inserting before a later-starting last element: the two cannot both start at `k`. */
  lemma InsertStableStep(init: seq<Token>, last: Token, x: Token, k: nat)
    requires last.start > x.start
    requires AtStart(InsertByStart(init, x), k) == AtStart(init, k) + (if x.start == k then [x] else [])
    ensures AtStart(InsertByStart(init + [last], x), k) == AtStart(init + [last], k) + (if x.start == k then [x] else [])
  {
    var s := init + [last];
    assert s[..|s| - 1] == init;
    var ins := InsertByStart(init, x);
    var xs := if x.start == k then [x] else [];
    var ls := if last.start == k then [last] else [];
    assert InsertByStart(s, x) == ins + [last];
    AtStartAppend(ins, [last], k);
    AtStartSingle(last, k);
    AtStartAppend(init, [last], k);
    var before := AtStart(init, k);
    if x.start == k {
      assert ls == [];
      assert AtStart(ins, k) + [] == AtStart(ins, k) && before + [] == before;
    } else {
      assert xs == [];
      assert before + [] == before && AtStart(s, k) + [] == AtStart(s, k);
    }
  }

  /** The sort keeps tokens with the same start in their original order. */
  lemma {:induction false} SortByStartStable(ts: seq<Token>, k: nat)
    ensures AtStart(SortByStart(ts), k) == AtStart(ts, k)
  {
    if |ts| > 0 {
      var init := ts[..|ts| - 1];
      SortByStartStable(init, k);
      InsertStable(SortByStart(init), ts[|ts| - 1], k);
    }
  }

  /** `decl_info::filter`, as a function of the line's tokens. */
  function Filtered(ts: seq<Token>): (r: (DeclFlags, seq<Token>))
  {
    var d := AbsorbAll(NoDecl, ts);
    (d, SortByStart(InName(d, NotDecl(ts))))
  }

  /** After `filter` the tokens that remain lie in the name's range, are no declaration tokens, and are sorted by start. */
  lemma FilteredMeaning(ts: seq<Token>)
    ensures var (d, r) := Filtered(ts);
      SortedByStart(r)
      && (forall t :: t in r <==> t in ts && !IsDeclKind(t.kind) && Within(d, t))
  {
    var (d, r) := Filtered(ts);
    var kept := InName(d, NotDecl(ts));
    SortByStartSorted(kept);
    forall t
      ensures t in r <==> t in kept
    {
      assert t in r <==> t in multiset(r);
    }
  }

  /** The object `decl_info`. */
  class DeclInfo {
    var moduleExport: bool
    var moduleDecl: bool
    var moduleImport: bool
    var legacyHeader: bool
    var nameStart: nat
    var nameEnd: nat

    function Flags(): DeclFlags
      reads this
    {
      DeclFlags(moduleExport, moduleDecl, moduleImport, legacyHeader, nameStart, nameEnd)
    }

    constructor ()
      ensures Flags() == NoDecl
    {
      moduleExport, moduleDecl, moduleImport, legacyHeader := false, false, false, false;
      nameStart, nameEnd := 0, 0;
    }

    /** `is_decl`: record what the token says; answer whether it is a declaration token. */
    method IsDecl(t: Token) returns (b: bool)
      modifies this
      ensures Flags() == Absorb(old(Flags()), t)
      ensures b == IsDeclKind(t.kind)
    {
      if t.kind == MODULE_EXPORT {
        moduleExport := true;
        return true;
      } else if t.kind == MODULE_DECL {
        moduleDecl := true;
        return true;
      } else if t.kind == MODULE_IMPORT {
        moduleImport := true;
        return true;
      } else if t.kind == MODULE_NAME {
        nameStart, nameEnd := t.start, t.end;
        return true;
      } else if t.kind == SYSTEM_HEADER_NAME || t.kind == LOCAL_HEADER_NAME {
        legacyHeader := true;
        nameStart, nameEnd := t.start, t.end;
        return false;
      }
      return false;
    }

    /**
     * `filter`: drop the declaration tokens while recording them, then drop
     * the tokens outside the recorded name, then sort what is left by start.
     */
    method Filter(tokens: seq<Token>) returns (kept: seq<Token>)
      requires Flags() == NoDecl
      modifies this
      ensures (Flags(), kept) == Filtered(tokens)
    {
      var rest: seq<Token> := [];
      for k := 0 to |tokens|
        invariant Flags() == AbsorbAll(NoDecl, tokens[..k])
        invariant rest == NotDecl(tokens[..k])
      {
        assert tokens[..k + 1][..k] == tokens[..k];
        var decl := IsDecl(tokens[k]);
        if !decl {
          rest := rest + [tokens[k]];
        }
      }
      assert tokens[..|tokens|] == tokens;
      kept := [];
      for k := 0 to |rest|
        invariant kept == InName(Flags(), rest[..k])
      {
        assert rest[..k + 1][..k] == rest[..k];
        if Flags().nameStart <= rest[k].start < Flags().nameEnd {
          kept := kept + [rest[k]];
        }
      }
      assert rest[..|rest|] == rest;
      kept := SortByStart(kept);
    }
  }

  // ------------------------------------------------------------ the brackets

  /** `pop` on a stack of expected closing brackets. */
  function Popped(stack: seq<string>, close: string): (r: seq<string>)
  {
    if |stack| == 0 then stack
    else if stack[|stack| - 1] == close then stack[..|stack| - 1]
    else stack[..Lowest(stack, close, 0)]
  }

  /** The lowest index at or after `from` holding `close`, or the size when there is none. */
  function Lowest(stack: seq<string>, close: string, from: nat): (r: nat)
    requires from <= |stack|
    ensures from <= r <= |stack|
    ensures r < |stack| ==> stack[r] == close
    ensures forall j :: from <= j < r ==> stack[j] != close
    decreases |stack| - from
  {
    if from == |stack| then from
    else if stack[from] == close then from
    else Lowest(stack, close, from + 1)
  }

  /**
   * A matching top is popped; otherwise the stack is cut below the lowest
   * matching entry, so that no entry expecting `close` is left; with no
   * match, nothing changes.
   */
  lemma PoppedMeaning(stack: seq<string>, close: string)
    ensures |stack| > 0 && stack[|stack| - 1] == close ==> Popped(stack, close) == stack[..|stack| - 1]
    ensures |stack| > 0 && stack[|stack| - 1] != close ==> close !in Popped(stack, close)
    ensures close !in stack ==> Popped(stack, close) == stack
    ensures Popped(stack, close) <= stack
  {
    if close !in stack && |stack| > 0 {
      assert Lowest(stack, close, 0) == |stack|;
    }
  }

  /** `pop` undoes `push`. */
  lemma PopUndoesPush(stack: seq<string>, close: string)
    ensures Popped(stack + [close], close) == stack
  {
    assert (stack + [close])[..|stack|] == stack;
  }

  // ---------------------------------------------------------- on_module

  /** The part of the text `substr(pos, count)` gives: at most `count` characters from `pos`. */
  function Substr(s: string, pos: nat, count: nat): (r: string)
    requires pos <= |s|
    ensures |r| <= count
  {
    if pos + count <= |s| then s[pos..pos + count] else s[pos..]
  }

  /** Tokens the tokenizer delivers for a line of `length` characters: non-empty and inside it. */
  predicate InLine(ts: seq<Token>, length: nat)
  {
    forall i :: 0 <= i < |ts| ==> ts[i].start < ts[i].end <= length
  }

  /** A name token's text is appended to the current name; one-character punctuators steer; anything else aborts. */
  predicate Allowed(line: string, t: Token)
    requires t.start < t.end <= |line|
  {
    t.kind == IDENTIFIER || t.kind == SYSTEM_HEADER_NAME || t.kind == LOCAL_HEADER_NAME
    || (t.kind == PUNCTUATOR && t.end - t.start == 1)
  }

  predicate IsColon(line: string, t: Token)
    requires t.start < t.end <= |line|
  {
    t.kind == PUNCTUATOR && t.end - t.start == 1 && line[t.start] == ':'
  }

  function Colons(line: string, ts: seq<Token>): nat
    requires InLine(ts, |line|)
  {
    if |ts| == 0 then 0 else (if IsColon(line, ts[0]) then 1 else 0) + Colons(line, ts[1..])
  }

  /**
   * The loop of `on_module` over the filtered tokens: names are appended to
   * the module name, and after a ':' to the partition name.
   */
  function Collect(line: string, ts: seq<Token>, m: string, p: string, inPart: bool): (r: Option<(string, string)>)
    requires InLine(ts, |line|)
    decreases |ts|
  {
    if |ts| == 0 then Some((m, p))
    else
      var t := ts[0];
      if t.kind == IDENTIFIER || t.kind == SYSTEM_HEADER_NAME || t.kind == LOCAL_HEADER_NAME then
        var piece := Splice.RemoveSplices(line[t.start..t.end]);
        if inPart then Collect(line, ts[1..], m, p + piece, inPart)
        else Collect(line, ts[1..], m + piece, p, inPart)
      else if t.kind == PUNCTUATOR then
        if t.end - t.start > 1 then None
        else if line[t.start] == ':' then
          if inPart then None else Collect(line, ts[1..], m, p, true)
        else if line[t.start] == '.' then
          if inPart then Collect(line, ts[1..], m, p + ".", inPart)
          else Collect(line, ts[1..], m + ".", p, inPart)
        else Collect(line, ts[1..], m, p, inPart)
      else None
  }

  /** The declaration is read unless a token of another kind, a longer punctuator or a second ':' turns up. */
  lemma {:induction false} CollectSucceeds(line: string, ts: seq<Token>, m: string, p: string, inPart: bool)
    requires InLine(ts, |line|)
    ensures Collect(line, ts, m, p, inPart).Some? <==>
      (forall i :: 0 <= i < |ts| ==> Allowed(line, ts[i]))
      && Colons(line, ts) + (if inPart then 1 else 0) <= 1
    decreases |ts|
  {
    if |ts| > 0 {
      var t := ts[0];
      assert forall i :: 1 <= i < |ts| ==> ts[1..][i - 1] == ts[i];
      if Allowed(line, t) {
        if t.kind == IDENTIFIER || t.kind == SYSTEM_HEADER_NAME || t.kind == LOCAL_HEADER_NAME {
          var piece := Splice.RemoveSplices(line[t.start..t.end]);
          if inPart {
            CollectSucceeds(line, ts[1..], m, p + piece, inPart);
          } else {
            CollectSucceeds(line, ts[1..], m + piece, p, inPart);
          }
        } else if line[t.start] == ':' {
          if !inPart {
            CollectSucceeds(line, ts[1..], m, p, true);
          }
        } else if line[t.start] == '.' {
          if inPart {
            CollectSucceeds(line, ts[1..], m, p + ".", inPart);
          } else {
            CollectSucceeds(line, ts[1..], m + ".", p, inPart);
          }
        } else {
          CollectSucceeds(line, ts[1..], m, p, inPart);
        }
      }
    }
  }

  /** What the declaration does to the unit, once its names are read. */
  function Declare(unit: ModuleUnit, d: DeclFlags, m: string, p: string): (r: ModuleUnit)
  {
    if d.moduleDecl then
      ModuleUnit(ModName(m, p), if d.moduleExport then unit.imports else unit.imports + [ModName(m, p)], d.moduleExport)
    else if d.moduleImport then
      if d.legacyHeader then
        if |m| > 0 && |p| == 0 then unit.(imports := unit.imports + [ModName(m, "")]) else unit
      else unit.(imports := unit.imports + [ModName(m, p)])
    else unit
  }

  /**
   * A module declaration names the unit, which is an interface exactly when
   * exported; an implementation unit imports its own interface. An import
   * adds one entry, except a header import whose name is empty or has a
   * partition. Nothing else is touched.
   */
  lemma DeclareMeaning(unit: ModuleUnit, d: DeclFlags, m: string, p: string)
    ensures var r := Declare(unit, d, m, p);
      (d.moduleDecl ==>
         (r.name == ModName(m, p) && r.isInterface == d.moduleExport
          && r.imports == unit.imports + (if d.moduleExport then [] else [ModName(m, p)])))
      && (!d.moduleDecl ==> r.name == unit.name && r.isInterface == unit.isInterface)
      && (!d.moduleDecl && d.moduleImport && !d.legacyHeader ==> r.imports == unit.imports + [ModName(m, p)])
      && (!d.moduleDecl && d.moduleImport && d.legacyHeader ==>
            r.imports == unit.imports + (if |m| > 0 && |p| == 0 then [ModName(m, "")] else []))
      && (!d.moduleDecl && !d.moduleImport ==> r == unit)
  {
  }

  /** `on_module`, as a function of the unit before and the line. */
  function ModuleLine(unit: ModuleUnit, line: string, ts: seq<Token>): ModuleUnit
    requires InLine(ts, |line|)
  {
    var (d, kept) := Filtered(ts);
    FilteredInLine(ts, |line|);
    if |kept| == 0 then unit
    else
      match Collect(line, kept, "", "", false)
      case None => unit
      case Some((m, p)) => Declare(unit, d, m, p)
  }

  lemma FilteredInLine(ts: seq<Token>, length: nat)
    requires InLine(ts, length)
    ensures InLine(Filtered(ts).1, length)
  {
    FilteredMeaning(ts);
    var r := Filtered(ts).1;
    forall i | 0 <= i < |r|
      ensures r[i].start < r[i].end <= length
    {
      assert r[i] in ts;
    }
  }

  // ------------------------------------------------------------ on_line

  /** `is_module_decl`: the line's first token is `export`, `import` or `module`. */
  predicate IsModuleDecl(ts: seq<Token>)
  {
    |ts| > 0 && (ts[0].kind == MODULE_EXPORT || ts[0].kind == MODULE_IMPORT || ts[0].kind == MODULE_DECL)
  }

  /** The stack after one punctuator: a closing bracket pops, an opening one pushes its closer. */
  function Bracket(stack: seq<string>, punc: string): seq<string>
  {
    if punc == "}" then Popped(stack, "}")
    else if punc == "{" then stack + ["}"]
    else if punc == ")" then Popped(stack, ")")
    else if punc == "(" then stack + [")"]
    else stack
  }

  function Brackets(stack: seq<string>, line: string, ts: seq<Token>): seq<string>
    requires InLine(ts, |line|)
  {
    if |ts| == 0 then stack
    else
      var init := Brackets(stack, line, ts[..|ts| - 1]);
      var t := ts[|ts| - 1];
      if t.kind == PUNCTUATOR then Bracket(init, Splice.RemoveSplices(line[t.start..t.end])) else init
  }

  /** A line's tokens as the tokenizer reports them: where the line starts, its length, its tokens. */
  datatype Line = Line(start: nat, length: nat, tokens: seq<Token>)

  predicate WellFormed(text: string, l: Line)
  {
    l.start <= |text| && InLine(l.tokens, |Substr(text, l.start, l.length)|)
  }

  /** The scanner's state: the expected closing brackets and the unit so far. */
  datatype ScanState = ScanState(closeParens: seq<string>, unit: ModuleUnit)

  /** `on_line`: a declaration outside brackets updates the unit; any other line updates the brackets. */
  function OnLineEffect(st: ScanState, text: string, l: Line): (r: ScanState)
    requires WellFormed(text, l)
  {
    var line := Substr(text, l.start, l.length);
    if |st.closeParens| == 0 && IsModuleDecl(l.tokens) then
      ScanState(st.closeParens, ModuleLine(st.unit, line, l.tokens))
    else ScanState(Brackets(st.closeParens, line, l.tokens), st.unit)
  }

  /** Declarations are read only outside braces and parentheses; inside them the unit stays as it is. */
  lemma DeclarationsOnlyOutsideBrackets(st: ScanState, text: string, l: Line)
    requires WellFormed(text, l)
    ensures |st.closeParens| > 0 ==> OnLineEffect(st, text, l).unit == st.unit
    ensures |st.closeParens| == 0 && IsModuleDecl(l.tokens) ==> OnLineEffect(st, text, l).closeParens == []
    ensures !IsModuleDecl(l.tokens) ==> OnLineEffect(st, text, l).unit == st.unit
  {
  }

  /** `callback`: the text, the stack of expected closing brackets, the unit being built. */
  class Callback {
    const text: string
    var closeParens: seq<string>
    var result: ModuleUnit

    constructor (text: string)
      ensures this.text == text && closeParens == [] && result == EmptyUnit
    {
      this.text := text;
      closeParens := [];
      result := EmptyUnit;
    }

    function State(): ScanState
      reads this
    {
      ScanState(closeParens, result)
    }

    method Push(close: string)
      modifies this
      ensures closeParens == old(closeParens) + [close] && result == old(result)
    {
      closeParens := closeParens + [close];
    }

    /** `pop`: walk down from the top, cutting the stack below each entry that matches. */
    method Pop(close: string)
      modifies this
      ensures closeParens == Popped(old(closeParens), close) && result == old(result)
    {
      if |closeParens| > 0 {
        if closeParens[|closeParens| - 1] == close {
          closeParens := closeParens[..|closeParens| - 1];
        } else {
          ghost var stack := closeParens;
          var index: nat := |closeParens|;
          while index > 0
            invariant index <= |stack|
            invariant result == old(result)
            invariant closeParens == stack[..Lowest(stack, close, index)]
            decreases index
          {
            if close == closeParens[index - 1] {
              closeParens := closeParens[..index - 1];
            }
            index := index - 1;
          }
        }
      }
    }

    /** `on_module` */
    method OnModule(start: nat, length: nat, tokens: seq<Token>)
      requires start <= |text| && InLine(tokens, |Substr(text, start, length)|)
      modifies this
      ensures result == ModuleLine(old(result), Substr(text, start, length), tokens)
      ensures closeParens == old(closeParens)
    {
      var info := new DeclInfo();
      var kept := info.Filter(tokens);
      if |kept| == 0 {
        return;
      }
      var line := Substr(text, start, length);
      FilteredInLine(tokens, |line|);
      var names := ReadNames(line, kept);
      if names.None? {
        return;
      }
      var (m, p) := names.value;
      if info.moduleDecl {
        result := result.(isInterface := info.moduleExport);
        if !info.moduleExport {
          result := result.(imports := result.imports + [ModName(m, p)]);
        }
        result := result.(name := ModName(m, p));
        return;
      }
      if info.moduleImport {
        if info.legacyHeader {
          if |m| > 0 && |p| == 0 {
            result := result.(imports := result.imports + [ModName(m, "")]);
          }
          return;
        }
        result := result.(imports := result.imports + [ModName(m, p)]);
      }
    }

    /** `on_line` */
    method OnLine(l: Line)
      requires WellFormed(text, l)
      modifies this
      ensures State() == OnLineEffect(old(State()), text, l)
    {
      if |closeParens| == 0 && IsModuleDecl(l.tokens) {
        OnModule(l.start, l.length, l.tokens);
        return;
      }
      var line := Substr(text, l.start, l.length);
      for k := 0 to |l.tokens|
        invariant closeParens == Brackets(old(closeParens), line, l.tokens[..k])
        invariant result == old(result)
      {
        assert l.tokens[..k + 1][..k] == l.tokens[..k];
        var t := l.tokens[k];
        if t.kind == PUNCTUATOR {
          var punc := Splice.RemoveDeletedEols(line[t.start..t.end]);
          if punc == "}" {
            Pop("}");
          } else if punc == "{" {
            Push("}");
          } else if punc == ")" {
            Pop(")");
          } else if punc == "(" {
            Push(")");
          }
        }
      }
      assert l.tokens[..|l.tokens|] == l.tokens;
    }
  }

  /** The loop of `on_module` over the filtered tokens, appending to the module name and then to the partition. */
  method ReadNames(line: string, ts: seq<Token>) returns (r: Option<(string, string)>)
    requires InLine(ts, |line|)
    ensures r == Collect(line, ts, "", "", false)
  {
    var m, p, inPart := "", "", false;
    for k := 0 to |ts|
      invariant Collect(line, ts, "", "", false) == Collect(line, ts[k..], m, p, inPart)
    {
      assert ts[k..][1..] == ts[k + 1..];
      var t := ts[k];
      if t.kind == IDENTIFIER || t.kind == SYSTEM_HEADER_NAME || t.kind == LOCAL_HEADER_NAME {
        var piece := Splice.RemoveDeletedEols(line[t.start..t.end]);
        if inPart { p := p + piece; } else { m := m + piece; }
      } else if t.kind == PUNCTUATOR {
        if t.end - t.start > 1 {
          return None;
        }
        var punc := line[t.start];
        if punc == ':' {
          if inPart {
            return None;
          }
          inPart := true;
        } else if punc == '.' {
          if inPart { p := p + "."; } else { m := m + "."; }
        }
      } else {
        return None;
      }
    }
    return Some((m, p));
  }

  // ------------------------------------------------------------------ scan

  /** The fix-up of one import after tokenizing: a bare partition takes the unit's module; a malformed one is emptied. */
  function ResolveImport(own: string, imp: ModName): (r: ModName)
  {
    if |imp.part| == 0 then imp
    else if |imp.moduleName| > 0 || |own| == 0 then ModName("", "")
    else ModName(own, imp.part)
  }

  /** The imports that survive, fixed up and in their order. */
  function Resolved(own: string, imports: seq<ModName>): (r: seq<ModName>)
  {
    if |imports| == 0 then []
    else
      var x := ResolveImport(own, imports[|imports| - 1]);
      Resolved(own, imports[..|imports| - 1]) + (if |x.moduleName| > 0 then [x] else [])
  }

  /**
   * After `scan` every import names a module. A named import without a
   * partition is kept as it is; a bare partition import of a named unit
   * becomes that unit's partition; nothing else survives.
   */
  lemma {:induction false} ResolvedMeaning(own: string, imports: seq<ModName>)
    ensures forall x :: x in Resolved(own, imports) ==> |x.moduleName| > 0
    ensures forall x :: x in Resolved(own, imports) <==>
      exists i :: 0 <= i < |imports| && x == ResolveImport(own, imports[i]) && |x.moduleName| > 0
    ensures forall i :: (0 <= i < |imports| && |imports[i].part| == 0 && |imports[i].moduleName| > 0
      ==> imports[i] in Resolved(own, imports))
    ensures forall i :: (0 <= i < |imports| && |imports[i].part| > 0 && |imports[i].moduleName| == 0 && |own| > 0
      ==> ModName(own, imports[i].part) in Resolved(own, imports))
  {
    if |imports| > 0 {
      var init := imports[..|imports| - 1];
      ResolvedMeaning(own, init);
      assert forall i :: 0 <= i < |init| ==> init[i] == imports[i];
      var last := imports[|imports| - 1];
      var x := ResolveImport(own, last);
      forall y | y in Resolved(own, imports)
        ensures exists i :: 0 <= i < |imports| && y == ResolveImport(own, imports[i]) && |y.moduleName| > 0
      {
        if y !in Resolved(own, init) {
          assert y == x;
        } else {
          var i :| 0 <= i < |init| && y == ResolveImport(own, init[i]) && |y.moduleName| > 0;
          assert imports[i] == init[i];
        }
      }
      forall i | 0 <= i < |imports| && |ResolveImport(own, imports[i]).moduleName| > 0
        ensures ResolveImport(own, imports[i]) in Resolved(own, imports)
      {
        if i < |init| {
          assert imports[i] == init[i];
          assert ResolveImport(own, init[i]) in Resolved(own, init);
        }
      }
    }
  }

  /** The fix-up loop of `scan` over the unit's imports, then the erase of the empty ones. */
  method ResolveImports(own: string, imports: seq<ModName>) returns (r: seq<ModName>)
    ensures r == Resolved(own, imports)
  {
    var fixed := imports;
    for k := 0 to |fixed|
      invariant |fixed| == |imports|
      invariant forall i :: 0 <= i < k ==> fixed[i] == ResolveImport(own, imports[i])
      invariant forall i :: k <= i < |imports| ==> fixed[i] == imports[i]
    {
      if |fixed[k].part| == 0 {
        continue;
      }
      if |fixed[k].moduleName| > 0 || |own| == 0 {
        fixed := fixed[k := ModName("", "")];
        continue;
      }
      fixed := fixed[k := fixed[k].(moduleName := own)];
    }
    r := [];
    for k := 0 to |fixed|
      invariant r == Resolved(own, imports[..k])
    {
      assert imports[..k + 1][..k] == imports[..k];
      if |fixed[k].moduleName| > 0 {
        r := r + [fixed[k]];
      }
    }
    assert imports[..|imports|] == imports;
  }

  /** The state after the tokenizer has reported every line. */
  function AfterLines(text: string, lines: seq<Line>): (r: ScanState)
    requires forall i :: 0 <= i < |lines| ==> WellFormed(text, lines[i])
  {
    if |lines| == 0 then ScanState([], EmptyUnit)
    else OnLineEffect(AfterLines(text, lines[..|lines| - 1]), text, lines[|lines| - 1])
  }

  /** `cxx::scan`, over the lines the tokenizer reports for `text`. */
  function Scan(text: string, lines: seq<Line>): (r: ModuleUnit)
    requires forall i :: 0 <= i < |lines| ==> WellFormed(text, lines[i])
  {
    var unit := AfterLines(text, lines).unit;
    unit.(imports := Resolved(unit.name.moduleName, unit.imports))
  }

  /** After `scan`, every import names a module. */
  lemma ScanImportsNamed(text: string, lines: seq<Line>)
    requires forall i :: 0 <= i < |lines| ==> WellFormed(text, lines[i])
    ensures forall x :: x in Scan(text, lines).imports ==> |x.moduleName| > 0
  {
    var unit := AfterLines(text, lines).unit;
    ResolvedMeaning(unit.name.moduleName, unit.imports);
  }

  /** `cxx::scan`: feed the tokenizer's lines to a callback, then fix up the imports. */
  method ScanText(text: string, lines: seq<Line>) returns (unit: ModuleUnit)
    requires forall i :: 0 <= i < |lines| ==> WellFormed(text, lines[i])
    ensures unit == Scan(text, lines)
  {
    var cb := new Callback(text);
    for k := 0 to |lines|
      invariant cb.State() == AfterLines(text, lines[..k])
      invariant cb.text == text
    {
      assert lines[..k + 1][..k] == lines[..k];
      cb.OnLine(lines[k]);
    }
    assert lines[..|lines|] == lines;
    unit := cb.result;
    var imports := ResolveImports(unit.name.moduleName, unit.imports);
    unit := unit.(imports := imports);
  }
}
