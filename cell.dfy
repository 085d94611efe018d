/**
 * The kernel of the `cell` parser-combinator library.
 *
 * A parser looks at the text from a position and either succeeds, moving the
 * position forward, or fails, possibly having moved it too. Actions attached
 * to parsers report the range they matched to the grammar's destination; here
 * every such report is an `Emit` record and a parse returns the reports made
 * during it, in order. Reports made during an attempt that later fails stay
 * reported, as in the library. The Boolean argument of a parser is the
 * per-thread "actions enabled" flag at the time of the call.
 *
 * Character-level parsers first run the context's skip parser (`filter`),
 * which is passed here as an explicit `skip` parser.
 */
module Cell {
  import Ascii
  import opened Wrappers

  datatype Emit = Emit(start: nat, end: nat, tag: nat)
  datatype Step = Step(ok: bool, pos: nat, out: seq<Emit>)

  /** A parser: text, start position, actions enabled. */
  type Parser = (string, nat, bool) -> Step

  /** A parser never moves backwards and never past the end of the text. */
  ghost predicate Forward(p: Parser)
  {
    forall s: string, i: nat, on: bool :: i <= |s| ==> i <= p(s, i, on).pos <= |s|
  }

  /** A parser that consumes at least one character whenever it succeeds. */
  ghost predicate Progressive(p: Parser)
  {
    forall s: string, i: nat, on: bool :: i <= |s| && p(s, i, on).ok ==> i < p(s, i, on).pos
  }

  /** A parser that leaves the position where it was when it fails. */
  ghost predicate Restoring(p: Parser)
  {
    forall s: string, i: nat, on: bool :: i <= |s| && !p(s, i, on).ok ==> p(s, i, on).pos == i
  }

  // ------------------------------------------------------------- filter

  /**
   * `character_parser::filter`: run the skip parser while it succeeds and
   * moves; the position ends after the last such run, so a final run that
   * moved and then failed is undone.
   */
  function Filtered(skip: Parser, s: string, i: nat, on: bool): (r: (nat, seq<Emit>))
    ensures i <= |s| ==> i <= r.0 <= |s|
    decreases |s| - i
  {
    var st := skip(s, i, on);
    if st.ok && i < st.pos <= |s| then
      var rest := Filtered(skip, s, st.pos, on);
      (rest.0, st.out + rest.1)
    else (i, st.out)
  }

  /** After filtering, the skip parser cannot make progress any more. */
  lemma {:induction false} FilteredStops(skip: Parser, s: string, i: nat, on: bool)
    requires i <= |s| && Forward(skip)
    ensures var f := Filtered(skip, s, i, on);
      var st := skip(s, f.0, on);
      !(st.ok && st.pos != f.0)
    decreases |s| - i
  {
    var st := skip(s, i, on);
    if st.ok && i < st.pos <= |s| {
      FilteredStops(skip, s, st.pos, on);
    }
  }

  /** Filtering twice is filtering once, provided the skip parser does not depend on the actions flag's past. */
  lemma {:induction false} FilteredIdempotent(skip: Parser, s: string, i: nat, on: bool)
    requires i <= |s| && Forward(skip)
    ensures var f := Filtered(skip, s, i, on);
      Filtered(skip, s, f.0, on).0 == f.0
  {
    FilteredStops(skip, s, i, on);
  }

  /** The outcome `r` of the rest of a scan or filter, preceded by the reports `out` made so far. */
  function Preceded(r: (nat, seq<Emit>), out: seq<Emit>): (nat, seq<Emit>)
  {
    (r.0, out + r.1)
  }

  lemma PrecededByNothing(r: (nat, seq<Emit>))
    ensures Preceded(r, []) == r
  {
    assert [] + r.1 == r.1;
  }

  lemma PrecededTwice(r: (nat, seq<Emit>), a: seq<Emit>, b: seq<Emit>)
    ensures Preceded(Preceded(r, b), a) == Preceded(r, a + b)
  {
    assert a + (b + r.1) == (a + b) + r.1;
  }

  /** One run of the skip parser inside `filter`: it either stops filtering or moves on, keeping what it reported. */
  lemma FilteredUnfold(skip: Parser, s: string, i: nat, on: bool)
    requires i <= |s|
    ensures var st := skip(s, i, on);
      if st.ok && i < st.pos <= |s| then Filtered(skip, s, i, on) == Preceded(Filtered(skip, s, st.pos, on), st.out)
      else Filtered(skip, s, i, on) == (i, st.out)
  {
  }

  method Filter(skip: Parser, s: string, first: nat, on: bool) returns (last: nat, out: seq<Emit>)
    requires first <= |s| && Forward(skip)
    ensures (last, out) == Filtered(skip, s, first, on)
  {
    last := first;
    out := [];
    PrecededByNothing(Filtered(skip, s, first, on));
    while true
      invariant first <= last <= |s|
      invariant Filtered(skip, s, first, on) == Preceded(Filtered(skip, s, last, on), out)
      decreases |s| - last
    {
      var st := skip(s, last, on);
      FilteredUnfold(skip, s, last, on);
      if !(st.ok && last != st.pos) {
        out := out + st.out;
        break;
      }
      PrecededTwice(Filtered(skip, s, st.pos, on), out, st.out);
      out := out + st.out;
      last := st.pos;
    }
  }

  // ------------------------------------------------------ character parsers

  /** `literal_character`: one given character, after filtering. */
  function LitChar(value: char, skip: Parser, s: string, i: nat, on: bool): (r: Step)
    ensures i <= |s| ==> i <= r.pos <= |s|
  {
    var f := Filtered(skip, s, i, on);
    if f.0 < |s| && s[f.0] == value then Step(true, f.0 + 1, f.1) else Step(false, f.0, f.1)
  }

  /** The set of characters a `one_of_characters` accepts, as `ch("...")` spells it: the literal minus its NUL. */
  function OneOf(value: string, skip: Parser, s: string, i: nat, on: bool): (r: Step)
    ensures i <= |s| ==> i <= r.pos <= |s|
  {
    var f := Filtered(skip, s, i, on);
    if f.0 < |s| && s[f.0] in value then Step(true, f.0 + 1, f.1) else Step(false, f.0, f.1)
  }

  /** `one_of_characters::parse`: filter, then look the character up in the list. */
  method OneOfCharacters(value: string, skip: Parser, s: string, first: nat, on: bool) returns (r: Step)
    requires first <= |s| && Forward(skip)
    ensures r == OneOf(value, skip, s, first, on)
  {
    var f, out := Filter(skip, s, first, on);
    if f < |s| {
      var lhs := s[f];
      for k := 0 to |value|
        invariant lhs !in value[..k]
      {
        if lhs == value[k] {
          return Step(true, f + 1, out);
        }
      }
      assert value[..|value|] == value;
    }
    return Step(false, f, out);
  }

  /** `any_character`: any one character, after filtering. */
  function AnyChar(skip: Parser, s: string, i: nat, on: bool): (r: Step)
    ensures i <= |s| ==> i <= r.pos <= |s|
  {
    var f := Filtered(skip, s, i, on);
    if f.0 < |s| then Step(true, f.0 + 1, f.1) else Step(false, f.0, f.1)
  }

  /**
   * With a skip parser that never matches, each character parser consumes
   * exactly one character when it succeeds and none when it fails, and
   * succeeds exactly when the next character is the one it wants.
   */
  lemma CharParsersPlain(value: char, chars: string, cls: CharClass, skip: Parser, s: string, i: nat, on: bool)
    requires i <= |s|
    requires forall j: nat, o: bool :: j <= |s| ==> !skip(s, j, o).ok
    ensures var r := LitChar(value, skip, s, i, on);
      (r.ok <==> i < |s| && s[i] == value) && r.pos == if r.ok then i + 1 else i
    ensures var r := OneOf(chars, skip, s, i, on);
      (r.ok <==> i < |s| && s[i] in chars) && r.pos == if r.ok then i + 1 else i
    ensures var r := AnyChar(skip, s, i, on);
      (r.ok <==> i < |s|) && r.pos == if r.ok then i + 1 else i
    ensures var r := IsA(cls, skip, s, i, on);
      (r.ok <==> i < |s| && Is(cls, s[i])) && r.pos == if r.ok then i + 1 else i
  {
    assert Filtered(skip, s, i, on).0 == i;
  }

  /** `ch("x")` with a single character is the literal character parser. */
  lemma SingleCharIsLiteral(value: char, skip: Parser, s: string, i: nat, on: bool)
    ensures OneOf([value], skip, s, i, on) == LitChar(value, skip, s, i, on)
  {
    var f := Filtered(skip, s, i, on);
    if f.0 < |s| {
      assert s[f.0] in [value] <==> s[f.0] == value;
    }
  }

  /** The character classes `basic_is_a` is instantiated with. */
  datatype CharClass = InlSpace | Alpha | Alnum | Digit | XDigit | ODigit

  /** `unsigned char` value of a character of the text. */
  function Byte(c: char): int { c as int % 256 }

  /** `plain char` value of a character of the text, on a target where `char` is signed. */
  function SignedChar(c: char): int
  {
    var b := Byte(c);
    if b < 128 then b else b - 256
  }

  predicate InClass(cls: CharClass, ch: int)
    requires Ascii.IsByte(ch)
  {
    match cls
    case InlSpace => Ascii.IsInlSpace(ch)
    case Alpha => Ascii.IsAlpha(ch)
    case Alnum => Ascii.IsAlnum(ch)
    case Digit => Ascii.IsDigit(ch)
    case XDigit => Ascii.IsXDigit(ch)
    case ODigit => Ascii.IsODigit(ch)
  }

  /**
   * `basic_is_a::is(*first)` as written: the character is handed over as a
   * plain `char`, so a byte of 0x80 or more arrives negative and fails the
   * class predicate's `assert(0 == (ch & ~UCHAR_MAX))`. `None` marks that failure.
   */
  function IsAsWritten(cls: CharClass, c: char): (r: Option<bool>)
    ensures r.None? <==> Byte(c) >= 128
  {
    var v := SignedChar(c);
    if Ascii.IsByte(v) then Some(InClass(cls, v)) else None
  }

  /** A UTF-8 lead byte such as 0xC3 trips the assertion. */
  lemma Utf8ByteFailsAsWritten(cls: CharClass)
    ensures IsAsWritten(cls, 0xC3 as char).None?
  {
  }

  /** The class test on the `unsigned char` value, as the predicates' assertion asks for. */
  predicate Is(cls: CharClass, c: char)
  {
    InClass(cls, Byte(c))
  }

  /** On 7-bit characters the corrected test and the one as written agree; above, nothing is in any class. */
  lemma IsAgreesBelow128(cls: CharClass, c: char)
    ensures Byte(c) < 128 ==> IsAsWritten(cls, c) == Some(Is(cls, c))
    ensures Byte(c) >= 128 ==> !Is(cls, c)
  {
    Ascii.RangesAgreeWithTable(Byte(c));
  }

  /** `basic_is_a::parse`: filter, then accept one character of the class. */
  function IsA(cls: CharClass, skip: Parser, s: string, i: nat, on: bool): (r: Step)
    ensures i <= |s| ==> i <= r.pos <= |s|
  {
    var f := Filtered(skip, s, i, on);
    if f.0 < |s| && Is(cls, s[f.0]) then Step(true, f.0 + 1, f.1) else Step(false, f.0, f.1)
  }

  // -------------------------------------------------------------- strings

  /** `string_token` on its own copy of the position: each character after filtering. */
  function StringTok(value: string, skip: Parser, s: string, i: nat, on: bool): (r: Step)
    ensures i <= |s| ==> i <= r.pos <= |s|
    decreases |value|
  {
    if |value| == 0 then Step(true, i, [])
    else
      var f := Filtered(skip, s, i, on);
      if f.0 == |s| || f.0 > |s| || s[f.0] != value[0] then Step(false, i, f.1)
      else
        var rest := StringTok(value[1..], skip, s, f.0 + 1, on);
        Step(rest.ok, if rest.ok then rest.pos else i, f.1 + rest.out)
  }

  /** A string token either matches completely or leaves the position untouched. */
  lemma {:induction false} StringTokRestores(value: string, skip: Parser, s: string, i: nat, on: bool)
    ensures !StringTok(value, skip, s, i, on).ok ==> StringTok(value, skip, s, i, on).pos == i
  {
  }

  /** With no skip parser in play, a string token matches exactly when the text continues with it. */
  lemma {:induction false} StringTokPlain(value: string, skip: Parser, s: string, i: nat, on: bool)
    requires i <= |s|
    requires forall j: nat, o: bool :: j <= |s| ==> !skip(s, j, o).ok
    ensures var r := StringTok(value, skip, s, i, on);
      r.ok <==> i + |value| <= |s| && s[i..i + |value|] == value
    ensures StringTok(value, skip, s, i, on).ok ==> StringTok(value, skip, s, i, on).pos == i + |value|
    decreases |value|
  {
    if |value| > 0 {
      assert Filtered(skip, s, i, on).0 == i;
      if i < |s| && s[i] == value[0] {
        StringTokPlain(value[1..], skip, s, i + 1, on);
        if i + |value| <= |s| {
          assert s[i..i + |value|] == [s[i]] + s[i + 1..i + |value|];
        }
      }
    }
  }

  /** An outcome whose reports are preceded by `out`. */
  function Prefixed(out: seq<Emit>, r: Step): Step
  {
    Step(r.ok, r.pos, out + r.out)
  }

  lemma PrefixedTwice(a: seq<Emit>, b: seq<Emit>, r: Step)
    ensures Prefixed(a, Prefixed(b, r)) == Prefixed(a + b, r)
  {
    assert a + (b + r.out) == (a + b) + r.out;
  }

  /** The outcome of a whole string token, given the outcome of its remaining characters from `copy`. */
  function Resume(rest: Step, first: nat, out: seq<Emit>): Step
  {
    Step(rest.ok, if rest.ok then rest.pos else first, out + rest.out)
  }

  lemma ResumeTwice(rest: Step, copy: nat, first: nat, a: seq<Emit>, b: seq<Emit>)
    ensures Resume(Resume(rest, copy, b), first, a) == Resume(rest, first, a + b)
  {
    assert a + (b + rest.out) == (a + b) + rest.out;
  }

  lemma StringTokStep(value: string, k: nat, skip: Parser, s: string, copy: nat, on: bool)
    requires k < |value| && copy <= |s|
    ensures var f := Filtered(skip, s, copy, on);
      StringTok(value[k..], skip, s, copy, on)
        == if f.0 < |s| && s[f.0] == value[k] then
             Resume(StringTok(value[k + 1..], skip, s, f.0 + 1, on), copy, f.1)
           else Step(false, copy, f.1)
  {
    assert value[k..][1..] == value[k + 1..];
  }

  /** One character of `string_token::parse`: filter, then match the literal's next character. */
  method CharStep(value: string, k: nat, skip: Parser, s: string, copy: nat, on: bool) returns (matched: bool, next: nat, o: seq<Emit>)
    requires k < |value| && copy <= |s| && Forward(skip)
    ensures matched ==> copy < next <= |s| && StringTok(value[k..], skip, s, copy, on) == Resume(StringTok(value[k + 1..], skip, s, next, on), copy, o)
    ensures !matched ==> StringTok(value[k..], skip, s, copy, on) == Step(false, copy, o)
  {
    var f;
    f, o := Filter(skip, s, copy, on);
    StringTokStep(value, k, skip, s, copy, on);
    matched := f < |s| && s[f] == value[k];
    next := if matched then f + 1 else copy;
  }

  /** `string_token::parse`: a copy of the position walks the literal; the real one moves only on a full match. */
  method StringToken(value: string, skip: Parser, s: string, first: nat, on: bool) returns (r: Step)
    requires first <= |s| && Forward(skip)
    ensures r == StringTok(value, skip, s, first, on)
  {
    var copy := first;
    var out: seq<Emit> := [];
    assert StringTok(value, skip, s, first, on) == Resume(StringTok(value[0..], skip, s, copy, on), first, out);
    for k := 0 to |value|
      invariant first <= copy <= |s|
      invariant StringTok(value, skip, s, first, on) == Resume(StringTok(value[k..], skip, s, copy, on), first, out)
    {
      var matched, next, o := CharStep(value, k, skip, s, copy, on);
      if !matched {
        return Step(false, first, out + o);
      }
      ResumeTwice(StringTok(value[k + 1..], skip, s, next, on), copy, first, out, o);
      out := out + o;
      copy := next;
    }
    assert StringTok(value[|value|..], skip, s, copy, on) == Step(true, copy, []);
    return Step(true, copy, out);
  }

  // ------------------------------------------------------------- specials

  /** `end_of_line`: an optional carriage return then an optional line feed, at least one of them; no filtering. */
  function Eol(s: string, i: nat): (r: Step)
    ensures i <= |s| ==> i <= r.pos <= |s|
  {
    var a := if i < |s| && s[i] == '\r' then i + 1 else i;
    var b := if a < |s| && s[a] == '\n' then a + 1 else a;
    if b != i then Step(true, b, []) else Step(false, i, [])
  }

  /** `eol` matches exactly "\r\n", "\r" or "\n" at the position, the longest first. */
  lemma EolMeaning(s: string, i: nat)
    requires i <= |s|
    ensures var r := Eol(s, i);
      (r.ok <==> i < |s| && (s[i] == '\r' || s[i] == '\n'))
      && (r.ok ==> r.pos == i + (if i + 1 < |s| && s[i] == '\r' && s[i + 1] == '\n' then 2 else 1))
      && (!r.ok ==> r.pos == i)
  {
  }

  /** `end_of_file`: the position is at the end. */
  function Eof(s: string, i: nat): (r: Step)
    ensures r.ok <==> i == |s|
    ensures r.pos == i
  {
    Step(i == |s|, i, [])
  }

  /** `eps`: always succeeds, consuming nothing; `nothing`: always fails. */
  function Eps(s: string, i: nat): (r: Step)
    ensures r.ok && r.pos == i
  {
    Step(true, i, [])
  }

  function Nothing(s: string, i: nat): (r: Step)
    ensures !r.ok && r.pos == i
  {
    Step(false, i, [])
  }

  // -------------------------------------------------------------- actions

  /** `action::parse`: on success, and only while actions are enabled, report the matched range. */
  function Action(p: Parser, tag: nat, s: string, i: nat, on: bool): (r: Step)
  {
    var st := p(s, i, on);
    if st.ok && on then Step(true, st.pos, st.out + [Emit(i, st.pos, tag)]) else st
  }

  /** An action changes neither the outcome nor the position, and reports exactly when it succeeded with actions on. */
  lemma ActionMeaning(p: Parser, tag: nat, s: string, i: nat, on: bool)
    ensures var r := Action(p, tag, s, i, on);
      var st := p(s, i, on);
      r.ok == st.ok && r.pos == st.pos
      && (r.out == st.out + [Emit(i, st.pos, tag)] <==> st.ok && on)
  {
    var st := p(s, i, on);
    assert |st.out + [Emit(i, st.pos, tag)]| != |st.out|;
  }

  /** `peek_parser` (`ahead`): run the subject with actions disabled, then put the position back. */
  function Peek(p: Parser, s: string, i: nat): (r: Step)
    ensures r.ok == p(s, i, false).ok && r.pos == i
  {
    var st := p(s, i, false);
    Step(st.ok, i, st.out)
  }

  /** The per-thread "actions enabled" flag, `true` when a thread starts. */
  class ActionFlag {
    var enabled: bool

    constructor ()
      ensures enabled
    {
      enabled := true;
    }
  }

  /** `action_state`: a scope that disables actions and restores the previous setting when it ends. */
  class ActionState {
    const flag: ActionFlag
    const previous: bool

    constructor (flag: ActionFlag)
      modifies flag
      ensures this.flag == flag && previous == old(flag.enabled) && !flag.enabled
    {
      this.flag := flag;
      previous := flag.enabled;
      new;
      flag.enabled := false;
    }

    /** The destructor. */
    method Release()
      modifies flag
      ensures flag.enabled == previous
    {
      flag.enabled := previous;
    }
  }
}
