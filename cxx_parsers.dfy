/**
 * The hand-written parsers of the C++ highlighter grammar: the line-splice
 * skip parser, a character inside a character or string literal (with its
 * escape sequences), the string literal with its raw form, and the names of
 * the token kinds. The grammar's other rules are built from the `cell`
 * combinators; the string literal's optional user-defined suffix, which is
 * the grammar's `identifier` rule, is a parser parameter here.
 *
 * Every parser here filters through a skip parser; the tokenizer installs
 * `DeletedEol` in that role.
 */
module CxxParsers {
  import opened Cell
  import opened CellOperators
  import opened CellRepeat
  import opened HiliteToken
  import opened Wrappers
  import Splice

  /** A report of `tag` over `[a, b)`, made only while actions are enabled. */
  function Report(on: bool, a: nat, b: nat, tag: Kind): seq<Emit>
  {
    if on then [Emit(a, b, tag)] else []
  }

  // ------------------------------------------------------------ deleted_eol

  /**
   * `deleted_eol_parser`: a backslash followed by an end of line, reported
   * as a deleted newline (the backslash) and a newline (the end of line).
   * A backslash without an end of line fails one character further on.
   */
  function DeletedEol(s: string, i: nat, on: bool): (r: Step)
  {
    if i < |s| && s[i] == '\\' then
      var e := Eol(s, i + 1);
      if e.ok then Step(true, e.pos, Report(on, i, i + 1, DELETED_NEWLINE) + Report(on, i + 1, e.pos, NEWLINE))
      else Step(false, i + 1, [])
    else Step(false, i, [])
  }

  /** It matches exactly the line splices that removing deleted end-of-lines removes. */
  lemma DeletedEolIsSplice(s: string, i: nat, on: bool)
    requires i <= |s|
    ensures DeletedEol(s, i, on).ok <==> Splice.SpliceAt(s, i)
    ensures DeletedEol(s, i, on).ok ==> DeletedEol(s, i, on).pos == Splice.SpliceEnd(s, i)
    ensures DeletedEol(s, i, on).ok && on ==> |DeletedEol(s, i, on).out| == 2
  {
    if i < |s| {
      EolMeaning(s, i + 1);
    }
  }

  const DeletedEolParser: Parser := (s: string, i: nat, on: bool) => DeletedEol(s, i, on)

  // ------------------------------------------------------- cxx_char_parser

  const XDigitOf := (skip: Parser) => (s: string, i: nat, on: bool) => IsA(XDigit, skip, s, i, on)
  const ODigitOf := (skip: Parser) => (s: string, i: nat, on: bool) => IsA(ODigit, skip, s, i, on)

  /** The digits after `\u`, `\U`, `\x` and `\0`: exactly four or eight hex digits, one or more, or any number of octal digits. */
  function EscapeBody(esc: char, skip: Parser, s: string, i: nat, on: bool): Step
  {
    if esc == 'u' then Exactly(XDigitOf(skip), 4, s, i, on)
    else if esc == 'U' then Exactly(XDigitOf(skip), 8, s, i, on)
    else if esc == 'x' then Plus(XDigitOf(skip), s, i, on)
    else Star(ODigitOf(skip), s, i, on)
  }

  /**
   * `cxx_char_parser<C>`: one character of a literal delimited by `c`. An
   * end of line or `c` itself ends the literal; a backslash starts an
   * escape, reported as a universal character name or an escape sequence.
   */
  function CxxChar(c: char, skip: Parser, s: string, i: nat, on: bool): (r: Step)
  {
    var f := Filtered(skip, s, i, on);
    var save := f.0;
    if save >= |s| then Step(false, save, f.1)
    else if Eol(s, save).ok then Step(false, save, f.1)
    else if s[save] == c then Step(false, save, f.1)
    else if s[save] != '\\' then Step(true, save + 1, f.1)
    else
      var g := Filtered(skip, s, save + 1, on);
      if g.0 >= |s| then Step(false, save, f.1 + g.1)
      else Prefixed(f.1 + g.1, Escape(save, skip, s, g.0, on))
  }

  /**
   * The escape whose backslash is at `save` and whose letter is at `j`:
   * `\u`, `\U`, `\x` and `\0` need their digits and report a universal
   * character name (the first two) or an escape sequence; a failure puts
   * the position back on the backslash. Any other letter is a one-letter
   * escape sequence.
   */
  function Escape(save: nat, skip: Parser, s: string, j: nat, on: bool): (r: Step)
    requires j < |s|
  {
    var esc := s[j];
    if esc == 'u' || esc == 'U' || esc == 'x' || esc == '0' then
      var body := EscapeBody(esc, skip, s, j + 1, on);
      var tag := if esc == 'u' || esc == 'U' then UNIVERSAL_CHARACTER_NAME else ESCAPE_SEQUENCE;
      if body.ok then Step(true, body.pos, body.out + Report(on, save, body.pos, tag))
      else Step(false, save, body.out)
    else Step(true, j + 1, Report(on, save, j + 1, ESCAPE_SEQUENCE))
  }

  /** An escape either ends past its letter or fails back at its backslash. */
  lemma EscapeEnds(save: nat, skip: Parser, s: string, j: nat, on: bool)
    requires j < |s|
    ensures var r := Escape(save, skip, s, j, on);
      (r.ok ==> j < r.pos <= |s|) && (!r.ok ==> r.pos == save)
  {
    EscapeBodyStays(s[j], skip, s, j + 1, on);
  }

  /**
   * After filtering, an end of line or the closing delimiter stops the
   * parser where it stands; a plain character is taken; a failed escape
   * puts the position back on its backslash.
   */
  lemma CxxCharMeaning(c: char, skip: Parser, s: string, i: nat, on: bool)
    requires i <= |s|
    ensures var f := Filtered(skip, s, i, on).0;
      var r := CxxChar(c, skip, s, i, on);
      (f == |s| ==> !r.ok && r.pos == f)
      && (f < |s| && (s[f] == '\r' || s[f] == '\n' || s[f] == c) ==> !r.ok && r.pos == f)
      && (f < |s| && s[f] != '\r' && s[f] != '\n' && s[f] != c && s[f] != '\\' ==> r.ok && r.pos == f + 1)
      && (f < |s| && s[f] == '\\' && c != '\\' && !r.ok ==> r.pos == f)
  {
  }

  /** A successful character always consumes something and stays within the text. */
  lemma CxxCharAdvances(c: char, skip: Parser, s: string, i: nat, on: bool)
    requires i <= |s|
    ensures CxxChar(c, skip, s, i, on).ok ==> i < CxxChar(c, skip, s, i, on).pos <= |s|
  {
    var f := Filtered(skip, s, i, on);
    if f.0 < |s| && s[f.0] == '\\' {
      var g := Filtered(skip, s, f.0 + 1, on);
      if g.0 < |s| {
        EscapeEnds(f.0, skip, s, g.0, on);
      }
    }
  }

  /** The digits of an escape stay within the text. */
  lemma EscapeBodyStays(esc: char, skip: Parser, s: string, j: nat, on: bool)
    requires j <= |s|
    ensures j <= EscapeBody(esc, skip, s, j, on).pos <= |s|
  {
    XDigitsForward(skip);
    if esc == 'u' || esc == 'U' {
      ExactlyConsumes(XDigitOf(skip), if esc == 'u' then 4 else 8, s, j, on);
      ExactlyStays(XDigitOf(skip), if esc == 'u' then 4 else 8, s, j, on);
    } else if esc == 'x' {
      var x := XDigitOf(skip)(s, j, on);
      if x.ok {
        StarForward(XDigitOf(skip), s, x.pos, on);
      }
    } else {
      StarForward(ODigitOf(skip), s, j, on);
    }
  }

  lemma {:induction false} ExactlyStays(p: Parser, n: nat, s: string, i: nat, on: bool)
    requires i <= |s| && Forward(p)
    ensures i <= Exactly(p, n, s, i, on).pos <= |s|
    decreases n
  {
    if n > 0 {
      var st := p(s, i, on);
      if st.ok {
        ExactlyStays(p, n - 1, s, st.pos, on);
      }
    }
  }

  /** Class parsers move forward within the text and consume one character when they succeed. */
  lemma XDigitsForward(skip: Parser)
    ensures Forward(XDigitOf(skip)) && Progressive(XDigitOf(skip))
    ensures Forward(ODigitOf(skip)) && Progressive(ODigitOf(skip))
  {
  }

  lemma {:induction false} StarForward(p: Parser, s: string, i: nat, on: bool)
    requires i <= |s| && Forward(p)
    ensures i <= Star(p, s, i, on).pos <= |s|
    decreases |s| - i
  {
    var st := p(s, i, on);
    if st.ok && i < st.pos <= |s| {
      StarForward(p, s, st.pos, on);
    }
  }

  // -------------------------------------------------------- parse_end_delim

  /**
   * `parse_end_delim`: compare the text at `i` with the opening delimiter
   * `s[ds..de]`, one character at a time. An empty delimiter matches at
   * once; the first differing character rejects; the end of the text
   * before the end of the delimiter accepts.
   */
  function EndDelim(s: string, ds: nat, de: nat, i: nat): (r: (bool, nat))
    requires ds <= de <= |s| && i <= |s|
    ensures i <= r.1 <= |s|
    decreases de - ds
  {
    if ds == de || i == |s| then (true, i)
    else if s[ds] != s[i] then (false, i)
    else EndDelim(s, ds + 1, de, i + 1)
  }

  /** What the comparison finds: a match of as much of the delimiter as the text holds, or the first difference. */
  lemma {:induction false} EndDelimMeaning(s: string, ds: nat, de: nat, i: nat)
    requires ds <= de <= |s| && i <= |s|
    ensures var (ok, j) := EndDelim(s, ds, de, i);
      var n := j - i;
      n <= de - ds && s[i..j] == s[ds..ds + n]
      && (ok <==> n == de - ds || j == |s|)
      && (!ok ==> s[ds + n] != s[j])
    decreases de - ds
  {
    if ds < de && i < |s| && s[ds] == s[i] {
      EndDelimMeaning(s, ds + 1, de, i + 1);
      var j := EndDelim(s, ds, de, i).1;
      assert s[i..j] == [s[i]] + s[i + 1..j];
      assert s[ds..ds + (j - i)] == [s[ds]] + s[ds + 1..ds + 1 + (j - (i + 1))];
    }
  }

  method ParseEndDelim(s: string, delimFirst: nat, delimLast: nat, first: nat) returns (ok: bool, last: nat)
    requires delimFirst <= delimLast <= |s| && first <= |s|
    ensures (ok, last) == EndDelim(s, delimFirst, delimLast, first)
  {
    if delimFirst == delimLast {
      return true, first;
    }
    var d, f := delimFirst, first;
    while d != delimLast && f != |s|
      invariant delimFirst <= d <= delimLast && first <= f <= |s|
      invariant EndDelim(s, delimFirst, delimLast, first) == EndDelim(s, d, delimLast, f)
      decreases delimLast - d
    {
      if s[d] != s[f] {
        return false, f;
      }
      d, f := d + 1, f + 1;
    }
    return true, f;
  }

  // ------------------------------------------------------------ parse_raw

  /** The `d-char`s of a raw string delimiter: any character except space, parentheses, backslash, the control white space and '"'. */
  const NotDChars := " ()\\\t\U{000B}\U{000C}\r\n\""

  const DCharOf := (skip: Parser) => (s: string, i: nat, on: bool) =>
    Diff((s': string, i': nat, on': bool) => AnyChar(skip, s', i', on'),
         (s': string, i': nat, on': bool) => OneOf(NotDChars, skip, s', i', on'), s, i, on)

  lemma DCharForward(skip: Parser)
    ensures Forward(DCharOf(skip)) && Progressive(DCharOf(skip))
  {
    forall s: string, i: nat, on: bool | i <= |s|
      ensures i <= DCharOf(skip)(s, i, on).pos <= |s|
      ensures DCharOf(skip)(s, i, on).ok ==> i < DCharOf(skip)(s, i, on).pos
    {
      var rt := OneOf(NotDChars, skip, s, i, on);
      if !rt.ok {
        var lt := AnyChar(skip, s, rt.pos, on);
        assert i <= rt.pos <= lt.pos <= |s|;
        assert lt.ok ==> rt.pos < lt.pos;
      }
    }
  }

  /**
   * The inner loop of `parse_raw` as written: line ends are reported and
   * passed over; a ')' ends the loop after it; any other character is
   * stepped over. When the ')' test filters up to the end of the text (a
   * line splice at the very end) and fails, the step goes past the end.
   * `None` marks that overrun.
   */
  function ToCloseAsWritten(skip: Parser, s: string, i: nat, on: bool): (r: Option<(nat, seq<Emit>)>)
    decreases |s| - i
  {
    if i >= |s| then Some((i, []))
    else
      var e := Eol(s, i);
      if e.ok then
        match ToCloseAsWritten(skip, s, e.pos, on)
        case None => None
        case Some((p, out)) => Some((p, Report(on, i, e.pos, NEWLINE) + out))
      else
        var c := LitChar(')', skip, s, i, on);
        if c.ok then Some((c.pos, c.out))
        else if c.pos >= |s| then None
        else
          match ToCloseAsWritten(skip, s, c.pos + 1, on)
          case None => None
          case Some((p, out)) => Some((p, c.out + out))
  }

  /** An unterminated raw string whose text ends in a line splice: the inner loop steps past the end. */
  lemma RawStringOverrun()
    ensures ToCloseAsWritten(DeletedEolParser, "R\"(\\\n", 3, true).None?
  {
    var s := "R\"(\\\n";
    assert DeletedEol(s, 3, true).ok && DeletedEol(s, 3, true).pos == 5;
    assert Filtered(DeletedEolParser, s, 5, true).0 == 5;
    assert Filtered(DeletedEolParser, s, 3, true).0 == 5;
  }

  /** The inner loop, corrected: it ends at the end of the text. */
  function ToClose(skip: Parser, s: string, i: nat, on: bool): (r: (nat, seq<Emit>))
    ensures i < |s| ==> i < r.0 <= |s|
    ensures i >= |s| ==> r.0 == i
    decreases |s| - i
  {
    if i >= |s| then (i, [])
    else
      var e := Eol(s, i);
      if e.ok then
        var rest := ToClose(skip, s, e.pos, on);
        (rest.0, Report(on, i, e.pos, NEWLINE) + rest.1)
      else
        var c := LitChar(')', skip, s, i, on);
        if c.ok then (c.pos, c.out)
        else if c.pos >= |s| then (|s|, c.out)
        else
          var rest := ToClose(skip, s, c.pos + 1, on);
          (rest.0, c.out + rest.1)
  }

  /** Where the loop as written stays inside the text, the corrected loop does the same. */
  lemma {:induction false} ToCloseAgrees(skip: Parser, s: string, i: nat, on: bool)
    requires ToCloseAsWritten(skip, s, i, on).Some?
    ensures ToCloseAsWritten(skip, s, i, on).value == ToClose(skip, s, i, on)
    decreases |s| - i
  {
    if i < |s| {
      var e := Eol(s, i);
      if e.ok {
        ToCloseAgrees(skip, s, e.pos, on);
      } else {
        var c := LitChar(')', skip, s, i, on);
        if !c.ok && c.pos < |s| {
          ToCloseAgrees(skip, s, c.pos + 1, on);
        }
      }
    }
  }

  /** One step of the corrected loop, at a position inside the text. */
  lemma ToCloseUnfold(skip: Parser, s: string, i: nat, on: bool)
    requires i < |s|
    ensures var e, c := Eol(s, i), LitChar(')', skip, s, i, on);
      ToClose(skip, s, i, on)
      == if e.ok then (ToClose(skip, s, e.pos, on).0, Report(on, i, e.pos, NEWLINE) + ToClose(skip, s, e.pos, on).1)
         else if c.ok then (c.pos, c.out)
         else if c.pos >= |s| then (|s|, c.out)
         else (ToClose(skip, s, c.pos + 1, on).0, c.out + ToClose(skip, s, c.pos + 1, on).1)
  {
  }

  /** The inner loop of `parse_raw`, corrected. */
  method ScanToClose(skip: Parser, s: string, first: nat, on: bool) returns (last: nat, out: seq<Emit>)
    requires first <= |s|
    ensures (last, out) == ToClose(skip, s, first, on)
  {
    last, out := first, [];
    PrecededByNothing(ToClose(skip, s, first, on));
    while last != |s|
      invariant first <= last <= |s|
      invariant ToClose(skip, s, first, on) == Preceded(ToClose(skip, s, last, on), out)
      decreases |s| - last
    {
      var done, next, emitted := CloseStep(skip, s, last, on);
      if done {
        return next, out + emitted;
      }
      PrecededTwice(ToClose(skip, s, next, on), out, emitted);
      out := out + emitted;
      last := next;
    }
    assert ToClose(skip, s, last, on) == (last, []);
    assert out + [] == out;
  }

  /** One pass of the inner loop of `parse_raw`: a line break, the closing parenthesis, or one character skipped. */
  method CloseStep(skip: Parser, s: string, i: nat, on: bool) returns (done: bool, next: nat, emitted: seq<Emit>)
    requires i < |s|
    ensures done ==> ToClose(skip, s, i, on) == (next, emitted)
    ensures !done ==> i < next <= |s| && ToClose(skip, s, i, on) == Preceded(ToClose(skip, s, next, on), emitted)
  {
    ToCloseUnfold(skip, s, i, on);
    var e := Eol(s, i);
    if e.ok {
      return false, e.pos, Report(on, i, e.pos, NEWLINE);
    }
    var c := LitChar(')', skip, s, i, on);
    if c.ok {
      return true, c.pos, c.out;
    }
    if c.pos >= |s| {
      return true, |s|, c.out;
    }
    return false, c.pos + 1, c.out;
  }

  /**
   * The outer loop of `parse_raw`, after "(": find the next ')', compare
   * the delimiter `s[ds..de]`, and accept at a closing '"'; otherwise go on
   * from where the comparison stopped.
   */
  function RawBody(skip: Parser, s: string, ds: nat, de: nat, i: nat, on: bool): (r: Step)
    requires ds <= de <= |s|
    decreases |s| - i
  {
    if i >= |s| then Step(false, i, [])
    else
      var (p, out) := ToClose(skip, s, i, on);
      var (matched, j) := EndDelim(s, ds, de, p);
      if !matched then Prefixed(out, RawBody(skip, s, ds, de, j, on))
      else
        var q := LitChar('"', skip, s, j, on);
        if q.ok then Step(true, q.pos, out + q.out)
        else Prefixed(out + q.out, RawBody(skip, s, ds, de, j, on))
  }

  /** When a raw string fails it has read the whole text. */
  lemma {:induction false} RawBodyFails(skip: Parser, s: string, ds: nat, de: nat, i: nat, on: bool)
    requires ds <= de <= |s| && i <= |s|
    ensures !RawBody(skip, s, ds, de, i, on).ok ==> RawBody(skip, s, ds, de, i, on).pos == |s|
    decreases |s| - i
  {
    if i < |s| {
      var (p, out) := ToClose(skip, s, i, on);
      var (matched, j) := EndDelim(s, ds, de, p);
      RawBodyFails(skip, s, ds, de, j, on);
    }
  }

  /** The text at `p` closes a raw string with delimiter `s[ds..de]`: ')' just before it, then the delimiter. */
  predicate ClosesAt(s: string, ds: nat, de: nat, p: nat)
    requires ds <= de <= |s|
  {
    0 < p && p + (de - ds) <= |s| && s[p - 1] == ')' && s[p..p + (de - ds)] == s[ds..de]
  }

  /** A raw string succeeds only after ')' and the whole delimiter, past where it started. */
  lemma {:induction false} RawBodyCloses(skip: Parser, s: string, ds: nat, de: nat, i: nat, on: bool)
    requires ds <= de <= |s| && i <= |s|
    ensures var r := RawBody(skip, s, ds, de, i, on);
      r.ok ==> exists p: nat :: i < p && p + (de - ds) < r.pos && ClosesAt(s, ds, de, p)
    decreases |s| - i
  {
    var r := RawBody(skip, s, ds, de, i, on);
    if i < |s| && r.ok {
      var (p, out) := ToClose(skip, s, i, on);
      var (matched, j) := EndDelim(s, ds, de, p);
      var q := LitChar('"', skip, s, j, on);
      if matched && q.ok {
        ToCloseFindsParen(skip, s, i, on);
        EndDelimMeaning(s, ds, de, p);
        assert j < |s|;
        assert j == p + (de - ds);
        assert ClosesAt(s, ds, de, p);
      } else {
        RawBodyCloses(skip, s, ds, de, j, on);
        assert r.pos == RawBody(skip, s, ds, de, j, on).pos;
      }
    }
  }

  /** The inner loop ends just after a ')' or at the end of the text. */
  lemma {:induction false} ToCloseFindsParen(skip: Parser, s: string, i: nat, on: bool)
    requires i < |s|
    ensures var p := ToClose(skip, s, i, on).0;
      p == |s| || (i < p && s[p - 1] == ')')
    decreases |s| - i
  {
    var e := Eol(s, i);
    if e.ok {
      if e.pos < |s| {
        ToCloseFindsParen(skip, s, e.pos, on);
      }
    } else {
      var c := LitChar(')', skip, s, i, on);
      if !c.ok && c.pos < |s| && c.pos + 1 < |s| {
        ToCloseFindsParen(skip, s, c.pos + 1, on);
      }
    }
  }

  /** `parse_raw` after the 'R': '"', the delimiter, '(' and the body; the flag is the raw mark, set once '"' is read. */
  function RawParse(skip: Parser, s: string, i: nat, on: bool): (r: (Step, bool))
    requires i <= |s|
  {
    var q := LitChar('"', skip, s, i, on);
    if !q.ok then (Step(false, q.pos, q.out), false)
    else
      DCharForward(skip);
      StarForward(DCharOf(skip), s, q.pos, on);
      var d := Star(DCharOf(skip), s, q.pos, on);
      var open := LitChar('(', skip, s, d.pos, on);
      if !open.ok then (Prefixed(q.out + d.out, open), true)
      else (Prefixed(q.out + d.out + open.out, RawBody(skip, s, q.pos, d.pos, open.pos, on)), true)
  }

  /** Without '"' there is no raw string; without '(' after the delimiter it fails. */
  lemma RawParseNeeds(skip: Parser, s: string, i: nat, on: bool)
    requires i <= |s|
    ensures var q := LitChar('"', skip, s, i, on);
      var d := Star(DCharOf(skip), s, q.pos, on);
      (RawParse(skip, s, i, on).1 <==> q.ok)
      && (!LitChar('(', skip, s, d.pos, on).ok ==> !RawParse(skip, s, i, on).0.ok)
  {
  }

  method ParseRaw(skip: Parser, s: string, first: nat, on: bool) returns (r: Step, isRaw: bool)
    requires first <= |s|
    ensures (r, isRaw) == RawParse(skip, s, first, on)
  {
    var q := LitChar('"', skip, s, first, on);
    if !q.ok {
      return Step(false, q.pos, q.out), false;
    }
    DCharForward(skip);
    var d := ZeroOrMore(DCharOf(skip), s, q.pos, on);
    var open := LitChar('(', skip, s, d.pos, on);
    if !open.ok {
      return Prefixed(q.out + d.out, open), true;
    }
    var ds, de := q.pos, d.pos;
    var pos := open.pos;
    var out := q.out + d.out + open.out;
    while pos != |s|
      invariant ds <= de <= |s| && pos <= |s|
      invariant RawParse(skip, s, first, on).0 == Prefixed(out, RawBody(skip, s, ds, de, pos, on))
      decreases |s| - pos
    {
      var done, res, next, emitted := RawRound(skip, s, ds, de, pos, on);
      if done {
        return Prefixed(out, res), true;
      }
      PrefixedTwice(out, emitted, RawBody(skip, s, ds, de, next, on));
      out, pos := out + emitted, next;
    }
    assert out + [] == out;
    return Step(false, pos, out), true;
  }

  /** One round of the outer loop of `parse_raw`: either the raw string ends here, or the scan goes on from `next`. */
  method RawRound(skip: Parser, s: string, ds: nat, de: nat, pos: nat, on: bool)
    returns (done: bool, r: Step, next: nat, emitted: seq<Emit>)
    requires ds <= de <= |s| && pos < |s|
    ensures done ==> RawBody(skip, s, ds, de, pos, on) == r
    ensures !done ==> pos < next <= |s| && RawBody(skip, s, ds, de, pos, on) == Prefixed(emitted, RawBody(skip, s, ds, de, next, on))
  {
    var p, o := ScanToClose(skip, s, pos, on);
    var matched, j := ParseEndDelim(s, ds, de, p);
    r := Step(false, j, o);
    if !matched {
      return false, r, j, o;
    }
    var c := LitChar('"', skip, s, j, on);
    if c.ok {
      return true, Step(true, c.pos, o + c.out), j, o;
    }
    return false, r, j, o + c.out;
  }

  // ------------------------------------------------------ cxx_string_parser

  /** The encoding prefixes `u8`, `u`, `U` and `L`, longest first. */
  function EncodingPrefix(skip: Parser, s: string, i: nat, on: bool): (r: Step)
    ensures i <= |s| ==> i <= r.pos <= |s|
  {
    StringTokRestores("u8", skip, s, i, on);
    StringTokRestores("u", skip, s, i, on);
    StringTokRestores("U", skip, s, i, on);
    StringTokRestores("L", skip, s, i, on);
    Alt([(s': string, i': nat, on': bool) => StringTok("u8", skip, s', i', on'),
         (s': string, i': nat, on': bool) => StringTok("u", skip, s', i', on'),
         (s': string, i': nat, on': bool) => StringTok("U", skip, s', i', on'),
         (s': string, i': nat, on': bool) => StringTok("L", skip, s', i', on')], s, i, on)
  }

  /** An ordinary string: '"', its characters, '"'. */
  function CString(skip: Parser, s: string, i: nat, on: bool): Step
  {
    var sChar := (s': string, i': nat, on': bool) => CxxChar('"', skip, s', i', on');
    Seq([(s': string, i': nat, on': bool) => LitChar('"', skip, s', i', on'),
         (s': string, i': nat, on': bool) => Star(sChar, s', i', on'),
         (s': string, i': nat, on': bool) => LitChar('"', skip, s', i', on')], s, i, on)
  }

  /**
   * `cxx_string_parser::parse`: an optional encoding prefix, then a raw
   * string after 'R' or an ordinary one, then the optional suffix. On
   * failure the position goes back to where the literal would have
   * started. The flag is the raw mark the string token is classified by.
   */
  function StringLiteral(udSuffix: Parser, skip: Parser, s: string, i: nat, on: bool): (r: (Step, bool))
    requires i <= |s|
  {
    var enc := EncodingPrefix(skip, s, i, on);
    var rmark := LitChar('R', skip, s, enc.pos, on);
    var (body, isRaw) := if rmark.ok then RawParse(skip, s, rmark.pos, on) else (CString(skip, s, rmark.pos, on), false);
    var out := enc.out + rmark.out + body.out;
    if !body.ok then (Step(false, i, out), isRaw)
    else
      var ud := udSuffix(s, body.pos, on);
      (Step(true, ud.pos, out + ud.out), isRaw)
  }

  /**
   * A string literal that does not parse leaves the position where it was;
   * one that does is raw exactly when an 'R' and '"' followed the prefix.
   */
  lemma StringLiteralRestores(udSuffix: Parser, skip: Parser, s: string, i: nat, on: bool)
    requires i <= |s|
    ensures var r := StringLiteral(udSuffix, skip, s, i, on);
      var rmark := LitChar('R', skip, s, EncodingPrefix(skip, s, i, on).pos, on);
      (!r.0.ok ==> r.0.pos == i)
      && (r.1 <==> rmark.ok && LitChar('"', skip, s, rmark.pos, on).ok)
  {
  }
  // --------------------------------------------------------- token_to_string

  /** `token_to_string`: the name of a token kind, empty for an unknown one. */
  function TokenName(k: Kind): (r: string)
    ensures r == "" <==> k > MACRO_REPLACEMENT
  {
    match k
    case 0 => "whitespace"
    case 1 => "newline"
    case 2 => "line_comment"
    case 3 => "block_comment"
    case 4 => "identifier"
    case 5 => "keyword"
    case 6 => "module_name"
    case 7 => "known_ident_1"
    case 8 => "known_ident_2"
    case 9 => "known_ident_3"
    case 10 => "punctuator"
    case 11 => "number"
    case 12 => "character"
    case 13 => "char_encoding"
    case 14 => "char_delim"
    case 15 => "char_udl"
    case 16 => "string"
    case 17 => "string_encoding"
    case 18 => "string_delim"
    case 19 => "string_udl"
    case 20 => "escape_sequence"
    case 21 => "raw_string"
    case 22 => "meta"
    case 23 => "meta_identifier"
    case 24 => "deleted_newline"
    case 25 => "local_header_name"
    case 26 => "system_header_name"
    case 27 => "module_decl"
    case 28 => "module_export"
    case 29 => "module_import"
    case 30 => "universal_character_name"
    case 31 => "macro_name"
    case 32 => "macro_arg_list"
    case 33 => "macro_arg"
    case 34 => "macro_va_args"
    case 35 => "macro_replacement"
    case _ => ""
  }

  /** The names of WHITESPACE to BLOCK_COMMENT spell their enumerators. */
  lemma TokenNames1()
    ensures TokenName(WHITESPACE) == "whitespace"
    ensures TokenName(NEWLINE) == "newline"
    ensures TokenName(LINE_COMMENT) == "line_comment"
    ensures TokenName(BLOCK_COMMENT) == "block_comment"
  {
  }

  /** The names of IDENTIFIER to KNOWN_IDENT_1 spell their enumerators. */
  lemma TokenNames2()
    ensures TokenName(IDENTIFIER) == "identifier"
    ensures TokenName(KEYWORD) == "keyword"
    ensures TokenName(MODULE_NAME) == "module_name"
    ensures TokenName(KNOWN_IDENT_1) == "known_ident_1"
  {
  }

  /** The names of KNOWN_IDENT_2 to NUMBER spell their enumerators. */
  lemma TokenNames3()
    ensures TokenName(KNOWN_IDENT_2) == "known_ident_2"
    ensures TokenName(KNOWN_IDENT_3) == "known_ident_3"
    ensures TokenName(PUNCTUATOR) == "punctuator"
    ensures TokenName(NUMBER) == "number"
  {
  }

  /** The names of CHARACTER to CHAR_UDL spell their enumerators. */
  lemma TokenNames4()
    ensures TokenName(CHARACTER) == "character"
    ensures TokenName(CHAR_ENCODING) == "char_encoding"
    ensures TokenName(CHAR_DELIM) == "char_delim"
    ensures TokenName(CHAR_UDL) == "char_udl"
  {
  }

  /** The names of STRING to STRING_UDL spell their enumerators. */
  lemma TokenNames5()
    ensures TokenName(STRING) == "string"
    ensures TokenName(STRING_ENCODING) == "string_encoding"
    ensures TokenName(STRING_DELIM) == "string_delim"
    ensures TokenName(STRING_UDL) == "string_udl"
  {
  }

  /** The names of ESCAPE_SEQUENCE to META_IDENTIFIER spell their enumerators. */
  lemma TokenNames6()
    ensures TokenName(ESCAPE_SEQUENCE) == "escape_sequence"
    ensures TokenName(RAW_STRING) == "raw_string"
    ensures TokenName(META) == "meta"
    ensures TokenName(META_IDENTIFIER) == "meta_identifier"
  {
  }

  /** The names of DELETED_NEWLINE to MODULE_DECL spell their enumerators. */
  lemma TokenNames7()
    ensures TokenName(DELETED_NEWLINE) == "deleted_newline"
    ensures TokenName(LOCAL_HEADER_NAME) == "local_header_name"
    ensures TokenName(SYSTEM_HEADER_NAME) == "system_header_name"
    ensures TokenName(MODULE_DECL) == "module_decl"
  {
  }

  /** The names of MODULE_EXPORT to MACRO_NAME spell their enumerators. */
  lemma TokenNames8()
    ensures TokenName(MODULE_EXPORT) == "module_export"
    ensures TokenName(MODULE_IMPORT) == "module_import"
    ensures TokenName(UNIVERSAL_CHARACTER_NAME) == "universal_character_name"
    ensures TokenName(MACRO_NAME) == "macro_name"
  {
  }

  /** The names of MACRO_ARG_LIST to MACRO_REPLACEMENT spell their enumerators. */
  lemma TokenNames9()
    ensures TokenName(MACRO_ARG_LIST) == "macro_arg_list"
    ensures TokenName(MACRO_ARG) == "macro_arg"
    ensures TokenName(MACRO_VA_ARGS) == "macro_va_args"
    ensures TokenName(MACRO_REPLACEMENT) == "macro_replacement"
  {
  }
}
