/**
 * The highlighter's collecting side: `grammar_result` gathers what the
 * grammar's actions report, `grammar_value` turns the action's iterator
 * range into offsets, and `parse_with_restart` runs the code grammar over a
 * whole text, restarting it at the next line end whenever it stops.
 */
module HiliteResult {
  import opened HiliteToken
  import opened HiliteLines
  import opened Cell

  /** `grammar_result`: the line ends and the tokens reported so far. */
  class GrammarResult {
    var endlines: seq<Endline>
    var tokens: seq<Token>

    /** There is always a line end; the first one, at offset 0, is there from the start. */
    predicate Valid()
      reads this
    {
      |endlines| > 0
    }

    constructor ()
      ensures endlines == [Endline(0, 0)] && tokens == []
      ensures Valid()
    {
      endlines := [Endline(0, 0)];
      tokens := [];
    }

    /** `emit`: a new line becomes a line end that remembers the end-of-line's size; everything else a token. */
    method Emit(start: nat, end: nat, kind: Kind)
      requires Valid()
      modifies this
      ensures Valid()
      ensures kind == NEWLINE ==> endlines == old(endlines) + [Endline(end, Wrap(end - start))] && tokens == old(tokens)
      ensures kind != NEWLINE ==> tokens == old(tokens) + [Token(start, end, kind)] && endlines == old(endlines)
    {
      if kind == NEWLINE {
        endlines := endlines + [Endline(end, Wrap(end - start))];
        return;
      }
      tokens := tokens + [Token(start, end, kind)];
    }

    /**
     * `produce_lines`: de-duplicate and order the line ends and the tokens,
     * break the tokens at the line ends, order the pieces, turn the line ends
     * into line sizes and hand every line its tokens. The tokens are spent.
     * The ghost results name the intermediate lists: the ordered line ends,
     * the ordered distinct tokens and the ordered pieces.
     */
    method ProduceLines(contentsLength: nat) returns (calls: seq<LineCall>, ghost lineEnds: seq<Endline>, ghost uniq: seq<Token>, ghost broken: seq<Token>)
      requires Valid()
      modifies this
      ensures Valid()
      ensures |lineEnds| > 0 && OffsetsAscending(lineEnds)
      ensures forall e :: e in lineEnds ==> e in old(endlines)
      ensures forall e :: e in old(endlines) ==> HasOffset(lineEnds, e.offset)
      ensures StrictlySorted(uniq) && forall t :: t in uniq <==> t in old(tokens)
      ensures Sorted(broken) && multiset(broken) == multiset(BreakLinesFrom(lineEnds, 0, uniq, 0))
      ensures endlines == LineSizes(lineEnds, contentsLength) && tokens == []
      ensures calls == Calls(LinesFrom(endlines, 0, broken, 0))
      ensures |calls| == |endlines|
      ensures forall i :: 0 <= i < |calls| ==> calls[i].start == endlines[i].offset && calls[i].length == endlines[i].size
      ensures forall a, b :: 0 <= a < b < |calls| ==> calls[a].start < calls[b].start
    {
      var u, ts, sorted := SortAndBreak(endlines, tokens);
      lineEnds, uniq, broken := u, ts, sorted;
      tokens := [];
      endlines := RewriteSizes(u, contentsLength);
      calls := CollectLines(endlines, sorted);
      LineSizesKeepOffsets(u, contentsLength);
      LinesInOrder(endlines, sorted);
    }
  }

  /** The first half of `produce_lines`: both lists sorted and de-duplicated, the tokens broken at the line ends, the pieces sorted. */
  method SortAndBreak(endlines: seq<Endline>, tokens: seq<Token>) returns (lineEnds: seq<Endline>, uniq: seq<Token>, broken: seq<Token>)
    requires |endlines| > 0
    ensures |lineEnds| > 0 && OffsetsAscending(lineEnds)
    ensures forall e :: e in lineEnds ==> e in endlines
    ensures forall e :: e in endlines ==> HasOffset(lineEnds, e.offset)
    ensures StrictlySorted(uniq) && forall t :: t in uniq <==> t in tokens
    ensures Sorted(broken) && multiset(broken) == multiset(BreakLinesFrom(lineEnds, 0, uniq, 0))
  {
    lineEnds := SortUniqEndlines(endlines);
    assert endlines[0] in endlines;
    uniq := SortUniqTokens(tokens);
    var pieces := BreakLines(lineEnds, uniq);
    broken := SortTokens(pieces);
  }

  /** `grammar_value`: reports go to `result`, at offsets counted from `begin`. */
  class GrammarValue {
    const result: GrammarResult
    const begin: nat

    constructor (result: GrammarResult, begin: nat)
      ensures this.result == result && this.begin == begin
    {
      this.result := result;
      this.begin := begin;
    }

    /** `emit`: the matched range `[first, second)` as distances from `begin`, in `size_t`. */
    method Emit(first: nat, second: nat, kind: Kind)
      requires result.Valid()
      modifies result
      ensures result.Valid()
      ensures result.endlines == old(result.endlines) + EndlinesOf(begin, [Cell.Emit(first, second, kind)])
      ensures result.tokens == old(result.tokens) + TokensOf(begin, [Cell.Emit(first, second, kind)])
    {
      result.Emit(Wrap(first - begin), Wrap(second - begin), kind);
    }

    /** Every report of one parse, in the order the actions made them. */
    method EmitAll(out: seq<Cell.Emit>)
      requires result.Valid()
      modifies result
      ensures result.Valid()
      ensures result.endlines == old(result.endlines) + EndlinesOf(begin, out)
      ensures result.tokens == old(result.tokens) + TokensOf(begin, out)
    {
      for k := 0 to |out|
        invariant result.Valid()
        invariant result.endlines == old(result.endlines) + EndlinesOf(begin, out[..k])
        invariant result.tokens == old(result.tokens) + TokensOf(begin, out[..k])
      {
        OfSnoc(begin, out[..k], out[k]);
        assert out[..k + 1] == out[..k] + [out[k]];
        Emit(out[k].start, out[k].end, out[k].tag);
      }
      assert out[..|out|] == out;
    }
  }

  /** The line ends a list of reports adds: one per new-line report. */
  function EndlinesOf(begin: nat, out: seq<Cell.Emit>): seq<Endline>
    decreases |out|
  {
    if |out| == 0 then []
    else
      var e := out[|out| - 1];
      var start := Wrap(e.start - begin);
      var end := Wrap(e.end - begin);
      EndlinesOf(begin, out[..|out| - 1]) + if e.tag == NEWLINE then [Endline(end, Wrap(end - start))] else []
  }

  /** The tokens a list of reports adds: one per report of any other kind. */
  function TokensOf(begin: nat, out: seq<Cell.Emit>): seq<Token>
    decreases |out|
  {
    if |out| == 0 then []
    else
      var e := out[|out| - 1];
      TokensOf(begin, out[..|out| - 1]) + if e.tag != NEWLINE then [Token(Wrap(e.start - begin), Wrap(e.end - begin), e.tag)] else []
  }

  lemma OfSnoc(begin: nat, out: seq<Cell.Emit>, e: Cell.Emit)
    ensures EndlinesOf(begin, out + [e]) == EndlinesOf(begin, out) + EndlinesOf(begin, [e])
    ensures TokensOf(begin, out + [e]) == TokensOf(begin, out) + TokensOf(begin, [e])
  {
    assert (out + [e])[..|out|] == out;
    assert [e][..0] == [];
  }

  /**
   * Every report lands in exactly one of the two lists; no token is a new
   * line; and with `begin` at 0 and reports inside a text that fits a
   * `size_t`, the positions are the reported ones.
   */
  lemma {:induction false} EveryReportLands(begin: nat, out: seq<Cell.Emit>)
    ensures |EndlinesOf(begin, out)| + |TokensOf(begin, out)| == |out|
    ensures forall t :: t in TokensOf(begin, out) ==> t.kind != NEWLINE
    ensures begin == 0 && (forall k :: 0 <= k < |out| ==> out[k].end < SIZE_MOD && out[k].start < SIZE_MOD) ==>
      forall t :: t in TokensOf(begin, out) ==> exists k :: 0 <= k < |out| && out[k] == Cell.Emit(t.start, t.end, t.kind)
    decreases |out|
  {
    if |out| > 0 {
      var init := out[..|out| - 1];
      EveryReportLands(begin, init);
      var e := out[|out| - 1];
      if begin == 0 && (forall k :: 0 <= k < |out| ==> out[k].end < SIZE_MOD && out[k].start < SIZE_MOD) {
        forall t | t in TokensOf(begin, out)
          ensures exists k :: 0 <= k < |out| && out[k] == Cell.Emit(t.start, t.end, t.kind)
        {
          if t in TokensOf(begin, init) {
            var k :| 0 <= k < |init| && init[k] == Cell.Emit(t.start, t.end, t.kind);
            assert out[k] == init[k];
          } else {
            assert out[|out| - 1] == Cell.Emit(t.start, t.end, t.kind);
          }
        }
      }
    }
  }

  // ------------------------------------------------------ parse_with_restart

  predicate IsEolChar(c: char)
  {
    c == '\r' || c == '\n'
  }

  /** `ahead(eol)`: a line end begins here; the position does not move and no action runs. */
  function AtEol(s: string, i: nat): (r: Step)
  {
    Peek((s': string, i': nat, on: bool) => Eol(s', i'), s, i)
  }

  lemma AtEolMeaning(s: string, i: nat)
    requires i <= |s|
    ensures AtEol(s, i).ok <==> i < |s| && IsEolChar(s[i])
    ensures AtEol(s, i).pos == i
  {
    EolMeaning(s, i);
  }

  /** The first line end at or after `i`, or the end of the text. */
  function NextEol(s: string, i: nat): (r: nat)
    requires i <= |s|
    ensures i <= r <= |s|
    ensures r < |s| ==> IsEolChar(s[r])
    ensures forall k :: i <= k < r ==> !IsEolChar(s[k])
    decreases |s| - i
  {
    if i == |s| || IsEolChar(s[i]) then i else NextEol(s, i + 1)
  }

  /**
   * What the restart loop needs of the code grammar to finish: it never
   * moves backwards, and started on a line end it gets past it. A grammar
   * that stops at a line end without consuming it makes the loop spin.
   */
  ghost predicate RestartsFinish(code: Parser, s: string)
  {
    Forward(code)
    && forall i :: 0 <= i < |s| && IsEolChar(s[i]) ==> i < code(s, i, true).pos
  }

  /** Where the code grammar stops and where the following restart is, from a start at `i`. */
  lemma RestartAdvances(code: Parser, s: string, i: nat)
    requires i < |s| && RestartsFinish(code, s)
    ensures i <= code(s, i, true).pos <= |s|
    ensures i < NextEol(s, code(s, i, true).pos)
  {
    var p := code(s, i, true).pos;
    if p == i {
      assert !IsEolChar(s[i]);
    }
  }

  /** The positions the code grammar is started at, from a start at `i` on. */
  ghost function Starts(code: Parser, s: string, i: nat): (r: seq<nat>)
    requires i <= |s| && RestartsFinish(code, s)
    decreases |s| - i
  {
    if i == |s| then []
    else
      RestartAdvances(code, s, i);
      [i] + Starts(code, s, NextEol(s, code(s, i, true).pos))
  }

  /** The reports of all the runs of the code grammar, from a start at `i` on. */
  ghost function Reports(code: Parser, s: string, i: nat): (r: seq<Cell.Emit>)
    requires i <= |s| && RestartsFinish(code, s)
    decreases |s| - i
  {
    if i == |s| then []
    else
      RestartAdvances(code, s, i);
      var st := code(s, i, true);
      st.out + Reports(code, s, NextEol(s, st.pos))
  }

  /**
   * The restarts go strictly forward, and every one after the first is at
   * a line end: the code grammar is started on the text once, then again
   * at each line end where it had stopped short.
   */
  lemma {:induction false} StartsAtLineEnds(code: Parser, s: string, i: nat)
    requires i <= |s| && RestartsFinish(code, s)
    ensures var r := Starts(code, s, i);
      (forall a, b :: 0 <= a < b < |r| ==> i <= r[a] < r[b] < |s|)
      && (|r| > 0 ==> r[0] == i)
      && (forall a :: 0 < a < |r| ==> IsEolChar(s[r[a]]))
    decreases |s| - i
  {
    if i < |s| {
      RestartAdvances(code, s, i);
      var j := NextEol(s, code(s, i, true).pos);
      StartsAtLineEnds(code, s, j);
      var r := Starts(code, s, i);
      var rest := Starts(code, s, j);
      assert r == [i] + rest;
      forall a | 0 < a < |r|
        ensures r[a] == rest[a - 1] && IsEolChar(s[r[a]])
      {
        assert r[a] == rest[a - 1];
        if a > 1 {
          assert IsEolChar(s[rest[a - 1]]);
        } else {
          assert rest[0] == j;
        }
      }
    }
  }

  /**
   * `parse_with_restart`: run the code grammar, skip to the next line end,
   * and start again there, until the text is used up. Every report of every
   * run goes to `result` through a `grammar_value` anchored at the start.
   */
  method ParseWithRestart(code: Parser, s: string, result: GrammarResult) returns (begin: nat)
    requires RestartsFinish(code, s) && result.Valid()
    modifies result
    ensures begin == |s|
    ensures result.Valid()
    ensures result.endlines == old(result.endlines) + EndlinesOf(0, Reports(code, s, 0))
    ensures result.tokens == old(result.tokens) + TokensOf(0, Reports(code, s, 0))
  {
    var value := new GrammarValue(result, 0);
    begin := 0;
    ghost var done: seq<Cell.Emit> := [];
    while begin != |s|
      invariant begin <= |s| && result.Valid()
      invariant value.result == result && value.begin == 0
      invariant Reports(code, s, 0) == done + Reports(code, s, begin)
      invariant result.endlines == old(result.endlines) + EndlinesOf(0, done)
      invariant result.tokens == old(result.tokens) + TokensOf(0, done)
      decreases |s| - begin
    {
      var st := code(s, begin, true);
      ReportsStep(code, s, begin, done);
      OfAppend(0, done, st.out);
      AppendAssoc(old(result.endlines), EndlinesOf(0, done), EndlinesOf(0, st.out));
      AppendAssoc(old(result.tokens), TokensOf(0, done), TokensOf(0, st.out));
      value.EmitAll(st.out);
      done := done + st.out;
      begin := SkipToEol(s, st.pos);
    }
    assert done + Reports(code, s, begin) == done;
  }

  /** The inner loop of `parse_with_restart`: step over characters until a line end or the end of the text. */
  method SkipToEol(s: string, first: nat) returns (begin: nat)
    requires first <= |s|
    ensures begin == NextEol(s, first)
  {
    begin := first;
    while begin != |s| && !AtEol(s, begin).ok
      invariant first <= begin <= |s|
      invariant NextEol(s, begin) == NextEol(s, first)
      decreases |s| - begin
    {
      AtEolMeaning(s, begin);
      begin := begin + 1;
    }
    AtEolMeaning(s, begin);
  }

  lemma ReportsStep(code: Parser, s: string, i: nat, done: seq<Cell.Emit>)
    requires i < |s| && RestartsFinish(code, s)
    ensures i <= code(s, i, true).pos <= |s|
    ensures done + Reports(code, s, i)
      == (done + code(s, i, true).out) + Reports(code, s, NextEol(s, code(s, i, true).pos))
  {
    RestartAdvances(code, s, i);
  }

  lemma OfAppend(begin: nat, a: seq<Cell.Emit>, b: seq<Cell.Emit>)
    ensures EndlinesOf(begin, a + b) == EndlinesOf(begin, a) + EndlinesOf(begin, b)
    ensures TokensOf(begin, a + b) == TokensOf(begin, a) + TokensOf(begin, b)
  {
    EndlinesOfAppend(begin, a, b);
    TokensOfAppend(begin, a, b);
  }

  lemma {:induction false} EndlinesOfAppend(begin: nat, a: seq<Cell.Emit>, b: seq<Cell.Emit>)
    ensures EndlinesOf(begin, a + b) == EndlinesOf(begin, a) + EndlinesOf(begin, b)
    decreases |b|
  {
    if |b| == 0 {
      assert a + b == a;
    } else {
      var init, e := b[..|b| - 1], b[|b| - 1];
      EndlinesOfAppend(begin, a, init);
      assert b == init + [e];
      assert a + b == (a + init) + [e];
      OfSnoc(begin, a + init, e);
      OfSnoc(begin, init, e);
      calc {
        EndlinesOf(begin, a + b);
        EndlinesOf(begin, a + init) + EndlinesOf(begin, [e]);
        (EndlinesOf(begin, a) + EndlinesOf(begin, init)) + EndlinesOf(begin, [e]);
        EndlinesOf(begin, a) + (EndlinesOf(begin, init) + EndlinesOf(begin, [e]));
        EndlinesOf(begin, a) + EndlinesOf(begin, b);
      }
    }
  }

  lemma {:induction false} TokensOfAppend(begin: nat, a: seq<Cell.Emit>, b: seq<Cell.Emit>)
    ensures TokensOf(begin, a + b) == TokensOf(begin, a) + TokensOf(begin, b)
    decreases |b|
  {
    if |b| == 0 {
      assert a + b == a;
    } else {
      var init, e := b[..|b| - 1], b[|b| - 1];
      TokensOfAppend(begin, a, init);
      assert b == init + [e];
      assert a + b == (a + init) + [e];
      OfSnoc(begin, a + init, e);
      OfSnoc(begin, init, e);
      calc {
        TokensOf(begin, a + b);
        TokensOf(begin, a + init) + TokensOf(begin, [e]);
        (TokensOf(begin, a) + TokensOf(begin, init)) + TokensOf(begin, [e]);
        TokensOf(begin, a) + (TokensOf(begin, init) + TokensOf(begin, [e]));
        TokensOf(begin, a) + TokensOf(begin, b);
      }
    }
  }
}
