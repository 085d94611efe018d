/**
 * The highlighter's line pass: sorting and de-duplicating what the grammar
 * reported, breaking tokens at line ends, turning line ends into line
 * lengths, and cutting the token list into per-line lists with touching
 * whitespace merged and positions made relative to the line.
 *
 * Positions are `size_t` in the library; a subtraction that goes below zero
 * wraps around, which `Wrap` spells out.
 */
module HiliteLines {
  import opened HiliteToken

  const SIZE_MOD: int := 0x1_0000_0000_0000_0000

  /** `size_t` arithmetic: the value modulo 2^64. */
  function Wrap(x: int): (r: nat)
    ensures r < SIZE_MOD
    ensures 0 <= x < SIZE_MOD ==> r == x
  {
    x % SIZE_MOD
  }

  /** `endline_t`: where a line ends (just after its end-of-line) and a size. */
  datatype Endline = Endline(offset: nat, size: nat)

  /** Line ends in strictly ascending offset order: `endline_t`'s `<`, with no two `==`. */
  predicate OffsetsAscending(es: seq<Endline>)
  {
    forall i, j :: 0 <= i < j < |es| ==> es[i].offset < es[j].offset
  }

  // ------------------------------------------------------------ sort_uniq

  /** One token put into its place in a strictly ascending list, unless it is there already. */
  function InsertToken(ts: seq<Token>, x: Token): (r: seq<Token>)
    requires StrictlySorted(ts)
    ensures StrictlySorted(r)
    ensures forall t :: t in r <==> t in ts || t == x
    decreases |ts|
  {
    if |ts| == 0 then [x]
    else if Less(x, ts[0]) then
      LessAfterFirst(ts, x);
      [x] + ts
    else if x == ts[0] then ts
    else
      LessIsStrictTotalOrder(x, ts[0], x);
      SameIsEquality(x, ts[0]);
      var rest := InsertToken(ts[1..], x);
      assert forall k :: 0 <= k < |rest| ==> Less(ts[0], rest[k]) by {
        forall k | 0 <= k < |rest|
          ensures Less(ts[0], rest[k])
        {
          assert rest[k] in rest;
          if rest[k] != x {
            var j :| 0 <= j < |ts[1..]| && ts[1..][j] == rest[k];
            assert ts[j + 1] == rest[k];
          }
        }
      }
      [ts[0]] + rest
  }

  lemma LessAfterFirst(ts: seq<Token>, x: Token)
    requires StrictlySorted(ts) && |ts| > 0 && Less(x, ts[0])
    ensures forall k :: 0 <= k < |ts| ==> Less(x, ts[k])
  {
    forall k | 0 < k < |ts|
      ensures Less(x, ts[k])
    {
      LessIsStrictTotalOrder(x, ts[0], ts[k]);
    }
  }

  /** `sort_uniq` on tokens: ascending by `token_t`'s `<`, each distinct token once. */
  method SortUniqTokens(v: seq<Token>) returns (r: seq<Token>)
    ensures StrictlySorted(r)
    ensures forall t :: t in r <==> t in v
  {
    r := [];
    for k := 0 to |v|
      invariant StrictlySorted(r)
      invariant forall t :: t in r <==> t in v[..k]
    {
      assert v[..k + 1] == v[..k] + [v[k]];
      r := InsertToken(r, v[k]);
    }
    assert v[..|v|] == v;
  }

  /** There is only one strictly ascending list of a given set of tokens, so `sort_uniq` has one outcome. */
  lemma {:induction false} StrictlySortedUnique(a: seq<Token>, b: seq<Token>)
    requires StrictlySorted(a) && StrictlySorted(b)
    requires forall t :: t in a <==> t in b
    ensures a == b
    decreases |a|
  {
    assert |b| > 0 ==> b[0] in a;
    assert |a| > 0 ==> a[0] in b;
    if |a| > 0 && |b| > 0 {
      var i :| 0 <= i < |a| && a[i] == b[0];
      var j :| 0 <= j < |b| && b[j] == a[0];
      assert i == 0 || Less(a[0], b[0]);
      assert j == 0 || Less(b[0], a[0]);
      LessIsStrictTotalOrder(a[0], b[0], a[0]);
      forall t
        ensures t in a[1..] <==> t in b[1..]
      {
        if t in a[1..] {
          var i :| 1 <= i < |a| && a[i] == t;
          assert Less(a[0], t);
          LessIsStrictTotalOrder(a[0], t, a[0]);
          assert t in b && t != b[0];
        }
        if t in b[1..] {
          var j :| 1 <= j < |b| && b[j] == t;
          assert Less(b[0], t);
          LessIsStrictTotalOrder(b[0], t, b[0]);
          assert t in a && t != a[0];
        }
      }
      StrictlySortedUnique(a[1..], b[1..]);
      assert a == [a[0]] + a[1..] && b == [b[0]] + b[1..];
    }
  }

  /** Some line end of `es` sits at offset `o`. */
  predicate HasOffset(es: seq<Endline>, o: nat)
  {
    exists e :: e in es && e.offset == o
  }

  /** One line end put into its place; a line end at an offset already present is dropped. */
  function InsertEndline(es: seq<Endline>, x: Endline): (r: seq<Endline>)
    requires OffsetsAscending(es)
    ensures OffsetsAscending(r)
    ensures forall e :: e in r ==> e in es || e == x
    ensures forall e :: e in es ==> e in r
    ensures HasOffset(r, x.offset)
    decreases |es|
  {
    if |es| == 0 then [x]
    else if x.offset < es[0].offset then [x] + es
    else if x.offset == es[0].offset then es
    else
      var rest := InsertEndline(es[1..], x);
      assert forall e :: e in rest ==> es[0].offset < e.offset;
      var e :| e in rest && e.offset == x.offset;
      assert e in [es[0]] + rest;
      [es[0]] + rest
  }

  /**
   * `sort_uniq` on line ends, which compare and match by offset alone: each
   * offset once, ascending. Which of several line ends at one offset is
   * kept, `std::sort` does not say; this one keeps the first reported.
   */
  method SortUniqEndlines(v: seq<Endline>) returns (r: seq<Endline>)
    ensures OffsetsAscending(r)
    ensures forall e :: e in r ==> e in v
    ensures forall e :: e in v ==> HasOffset(r, e.offset)
  {
    r := [];
    for k := 0 to |v|
      invariant OffsetsAscending(r)
      invariant forall e :: e in r ==> e in v[..k]
      invariant forall e :: e in v[..k] ==> HasOffset(r, e.offset)
    {
      ghost var before := r;
      r := InsertEndline(r, v[k]);
      assert v[..k + 1] == v[..k] + [v[k]];
      forall e | e in v[..k + 1]
        ensures HasOffset(r, e.offset)
      {
        if e in v[..k] {
          var f :| f in before && f.offset == e.offset;
          assert f in r;
        }
      }
    }
    assert v[..|v|] == v;
  }

  // -------------------------------------------------------------- sorting

  /** Ascending by `token_t`'s `<`, equal tokens allowed. */
  predicate Sorted(ts: seq<Token>)
  {
    forall i, j :: 0 <= i < j < |ts| ==> !Less(ts[j], ts[i])
  }

  function InsertSorted(ts: seq<Token>, x: Token): (r: seq<Token>)
    requires Sorted(ts)
    ensures Sorted(r)
    ensures multiset(r) == multiset(ts) + multiset{x}
    decreases |ts|
  {
    if |ts| == 0 then [x]
    else if !Less(ts[0], x) then
      SortedFirstLeast(ts, x);
      [x] + ts
    else
      var rest := InsertSorted(ts[1..], x);
      InsertedAboveFirst(ts, x, rest);
      assert ts == [ts[0]] + ts[1..];
      [ts[0]] + rest
  }

  /** Whatever the insertion behind the first token produced stays at or above that first token. */
  lemma InsertedAboveFirst(ts: seq<Token>, x: Token, rest: seq<Token>)
    requires Sorted(ts) && |ts| > 0 && Less(ts[0], x)
    requires multiset(rest) == multiset(ts[1..]) + multiset{x}
    ensures forall k :: 0 <= k < |rest| ==> !Less(rest[k], ts[0])
  {
    forall k | 0 <= k < |rest|
      ensures !Less(rest[k], ts[0])
    {
      assert rest[k] in multiset(rest);
      if rest[k] != x {
        assert rest[k] in multiset(ts[1..]);
        var j :| 0 <= j < |ts[1..]| && ts[1..][j] == rest[k];
        assert ts[j + 1] == rest[k];
      } else {
        LessIsStrictTotalOrder(ts[0], x, ts[0]);
      }
    }
  }

  lemma SortedFirstLeast(ts: seq<Token>, x: Token)
    requires Sorted(ts) && |ts| > 0 && !Less(ts[0], x)
    ensures forall k :: 0 <= k < |ts| ==> !Less(ts[k], x)
  {
    forall k | 0 < k < |ts|
      ensures !Less(ts[k], x)
    {
      LessIsStrictTotalOrder(ts[k], x, ts[0]);
      LessIsStrictTotalOrder(x, ts[0], ts[k]);
      LessIsStrictTotalOrder(ts[0], ts[k], x);
      SameIsEquality(ts[0], x);
      SameIsEquality(ts[k], x);
      SameIsEquality(ts[0], ts[k]);
    }
  }

  /** `std::sort` on the broken tokens: ascending, the same tokens as many times. */
  method SortTokens(v: seq<Token>) returns (r: seq<Token>)
    ensures Sorted(r) && multiset(r) == multiset(v)
  {
    r := [];
    for k := 0 to |v|
      invariant Sorted(r) && multiset(r) == multiset(v[..k])
    {
      assert v[..k + 1] == v[..k] + [v[k]];
      r := InsertSorted(r, v[k]);
    }
    assert v[..|v|] == v;
  }

  // ---------------------------------------------------------- break_token

  /** Where the text of a line stops: its end-of-line offset minus the end-of-line's size. */
  function TextEnd(e: Endline): nat
  {
    Wrap(e.offset - e.size)
  }

  /**
   * The pieces `break_token` cuts a token into, given the line ends from
   * the first one after the token's start: one piece per line the token
   * reaches, each stopping before the end-of-line and the next starting
   * after it.
   */
  function Pieces(tok: Token, eols: seq<Endline>): (r: seq<Token>)
    ensures 1 <= |r| <= |eols| + 1
    decreases |eols|
  {
    if |eols| == 0 || tok.end <= TextEnd(eols[0]) then [tok]
    else [Token(tok.start, TextEnd(eols[0]), tok.kind)] + Pieces(Token(eols[0].offset, tok.end, tok.kind), eols[1..])
  }

  /**
   * The pieces tile the token: the first starts where it started, the last
   * ends where it ended, all keep its kind; between two pieces lies exactly
   * one end-of-line, and the cutting stops at the first line end the rest of
   * the token does not cross.
   */
  lemma {:induction false} PiecesMeaning(tok: Token, eols: seq<Endline>)
    ensures var r := Pieces(tok, eols);
      r[0].start == tok.start && r[|r| - 1].end == tok.end
      && (forall m :: 0 <= m < |r| ==> r[m].kind == tok.kind)
      && (forall m :: 0 <= m < |r| - 1 ==>
            r[m].end == TextEnd(eols[m]) && r[m + 1].start == eols[m].offset && TextEnd(eols[m]) < tok.end)
      && (|r| - 1 < |eols| ==> tok.end <= TextEnd(eols[|r| - 1]))
    decreases |eols|
  {
    if |eols| > 0 && tok.end > TextEnd(eols[0]) {
      var rest := Token(eols[0].offset, tok.end, tok.kind);
      PiecesMeaning(rest, eols[1..]);
      var r := Pieces(tok, eols);
      assert r == [Token(tok.start, TextEnd(eols[0]), tok.kind)] + Pieces(rest, eols[1..]);
      forall m | 1 <= m < |r| - 1
        ensures r[m].end == TextEnd(eols[m]) && r[m + 1].start == eols[m].offset
      {
        assert r[m] == Pieces(rest, eols[1..])[m - 1];
        assert eols[1..][m - 1] == eols[m];
      }
    }
  }

  /** `break_token`: append the pieces of `tok`, walking the line ends from `k`. */
  method BreakToken(out: seq<Token>, tok: Token, eols: seq<Endline>, k: nat) returns (r: seq<Token>)
    requires k <= |eols|
    ensures r == out + Pieces(tok, eols[k..])
  {
    r := out;
    var t := tok;
    var eol := k;
    while eol != |eols|
      invariant k <= eol <= |eols|
      invariant out + Pieces(tok, eols[k..]) == r + Pieces(t, eols[eol..])
      decreases |eols| - eol
    {
      var end := TextEnd(eols[eol]);
      if t.end <= end {
        return r + [t];
      }
      assert eols[eol..][1..] == eols[eol + 1..];
      ghost var before := r;
      r := r + [Token(t.start, end, t.kind)];
      assert before + Pieces(t, eols[eol..]) == r + Pieces(Token(eols[eol].offset, t.end, t.kind), eols[eol + 1..]);
      t := Token(eols[eol].offset, t.end, t.kind);
      eol := eol + 1;
    }
    return r + [t];
  }

  // ---------------------------------------------------------- break_lines

  /**
   * `break_lines`: for each line end in turn, every token still waiting
   * that starts before it is broken against the line ends from there on;
   * tokens after the last line end are copied as they are.
   */
  function BreakLinesFrom(eols: seq<Endline>, k: nat, ts: seq<Token>, j: nat): seq<Token>
    requires k <= |eols| && j <= |ts|
    decreases |eols| - k, |ts| - j
  {
    if k == |eols| then ts[j..]
    else if j < |ts| && ts[j].start < eols[k].offset then Pieces(ts[j], eols[k..]) + BreakLinesFrom(eols, k, ts, j + 1)
    else BreakLinesFrom(eols, k + 1, ts, j)
  }

  method BreakLines(eols: seq<Endline>, ts: seq<Token>) returns (out: seq<Token>)
    ensures out == BreakLinesFrom(eols, 0, ts, 0)
  {
    out := [];
    var from: nat := 0;
    for k := 0 to |eols|
      invariant from <= |ts|
      invariant BreakLinesFrom(eols, 0, ts, 0) == out + BreakLinesFrom(eols, k, ts, from)
    {
      out, from := BreakBefore(eols, k, ts, from, out);
    }
    assert BreakLinesFrom(eols, |eols|, ts, from) == ts[from..];
    out := out + ts[from..];
  }

  /** The inner loop of `break_lines`: break the waiting tokens that start before line end `k`. */
  method BreakBefore(eols: seq<Endline>, k: nat, ts: seq<Token>, from: nat, out: seq<Token>) returns (out': seq<Token>, from': nat)
    requires k < |eols| && from <= |ts|
    ensures from <= from' <= |ts|
    ensures out' + BreakLinesFrom(eols, k + 1, ts, from') == out + BreakLinesFrom(eols, k, ts, from)
  {
    out', from' := out, from;
    while from' < |ts| && ts[from'].start < eols[k].offset
      invariant from <= from' <= |ts|
      invariant out' + BreakLinesFrom(eols, k, ts, from') == out + BreakLinesFrom(eols, k, ts, from)
      decreases |ts| - from'
    {
      out' := BreakNext(eols, k, ts, from', out');
      from' := from' + 1;
    }
    BreakLinesFromNext(eols, k, ts, from');
  }

  /** One turn of that loop: token `j` starts before line end `k`, so its pieces come next. */
  method BreakNext(eols: seq<Endline>, k: nat, ts: seq<Token>, j: nat, out: seq<Token>) returns (out': seq<Token>)
    requires k < |eols| && j < |ts| && ts[j].start < eols[k].offset
    ensures out' + BreakLinesFrom(eols, k, ts, j + 1) == out + BreakLinesFrom(eols, k, ts, j)
  {
    out' := BreakToken(out, ts[j], eols, k);
    BreakLinesFromStep(eols, k, ts, j);
    AppendAssoc(out, Pieces(ts[j], eols[k..]), BreakLinesFrom(eols, k, ts, j + 1));
  }

  lemma BreakLinesFromNext(eols: seq<Endline>, k: nat, ts: seq<Token>, j: nat)
    requires k < |eols| && j <= |ts| && (j == |ts| || ts[j].start >= eols[k].offset)
    ensures BreakLinesFrom(eols, k, ts, j) == BreakLinesFrom(eols, k + 1, ts, j)
  {
  }

  lemma BreakLinesFromStep(eols: seq<Endline>, k: nat, ts: seq<Token>, j: nat)
    requires k < |eols| && j < |ts| && ts[j].start < eols[k].offset
    ensures BreakLinesFrom(eols, k, ts, j) == Pieces(ts[j], eols[k..]) + BreakLinesFrom(eols, k, ts, j + 1)
  {
  }

  lemma AppendAssoc<T>(a: seq<T>, b: seq<T>, c: seq<T>)
    ensures a + (b + c) == (a + b) + c
  {
  }

  /** The index of the first line end after position `x`, searching from `k`; `|eols|` when there is none. */
  function FirstAfter(eols: seq<Endline>, x: nat, k: nat): (r: nat)
    requires k <= |eols|
    ensures k <= r <= |eols|
    decreases |eols| - k
  {
    if k == |eols| || x < eols[k].offset then k else FirstAfter(eols, x, k + 1)
  }

  /** The reference reading of `break_lines`: every token broken against the line ends after its own start. */
  function BreakEach(eols: seq<Endline>, ts: seq<Token>): seq<Token>
    decreases |ts|
  {
    if |ts| == 0 then []
    else Pieces(ts[0], eols[FirstAfter(eols, ts[0].start, 0)..]) + BreakEach(eols, ts[1..])
  }

  lemma {:induction false} FirstAfterSkips(eols: seq<Endline>, x: nat, k: nat)
    requires k <= |eols|
    requires forall m :: 0 <= m < k ==> eols[m].offset <= x
    ensures FirstAfter(eols, x, 0) == FirstAfter(eols, x, k)
    decreases k
  {
    if k > 0 {
      FirstAfterSkipsFrom(eols, x, 0, k);
    }
  }

  lemma {:induction false} FirstAfterSkipsFrom(eols: seq<Endline>, x: nat, i: nat, k: nat)
    requires i <= k <= |eols|
    requires forall m :: i <= m < k ==> eols[m].offset <= x
    ensures FirstAfter(eols, x, i) == FirstAfter(eols, x, k)
    decreases k - i
  {
    if i < k {
      FirstAfterSkipsFrom(eols, x, i + 1, k);
    }
  }

  /**
   * With tokens ascending by start and line ends by offset, `break_lines`
   * breaks every token exactly against the line ends after its start.
   */
  lemma BreakLinesBreaksEach(eols: seq<Endline>, ts: seq<Token>)
    requires OffsetsAscending(eols)
    requires forall i, j :: 0 <= i < j < |ts| ==> ts[i].start <= ts[j].start
    ensures BreakLinesFrom(eols, 0, ts, 0) == BreakEach(eols, ts)
  {
    BreakLinesBreaksEachFrom(eols, 0, ts, 0);
    assert ts[0..] == ts;
  }

  lemma {:induction false} BreakLinesBreaksEachFrom(eols: seq<Endline>, k: nat, ts: seq<Token>, j: nat)
    requires k <= |eols| && j <= |ts|
    requires OffsetsAscending(eols)
    requires forall i, i' :: 0 <= i < i' < |ts| ==> ts[i].start <= ts[i'].start
    requires forall m, i :: 0 <= m < k && j <= i < |ts| ==> eols[m].offset <= ts[i].start
    ensures BreakLinesFrom(eols, k, ts, j) == BreakEach(eols, ts[j..])
    decreases |eols| - k, |ts| - j
  {
    if k == |eols| {
      BreakEachPastEnd(eols, ts[j..]);
    } else if j < |ts| && ts[j].start < eols[k].offset {
      FirstAfterSkips(eols, ts[j].start, k);
      BreakLinesBreaksEachFrom(eols, k, ts, j + 1);
      assert ts[j..][1..] == ts[j + 1..];
    } else {
      if j < |ts| {
        forall m, i | 0 <= m < k + 1 && j <= i < |ts|
          ensures eols[m].offset <= ts[i].start
        {
          if m == k && i > j {
            assert ts[j].start <= ts[i].start;
          }
        }
      }
      BreakLinesBreaksEachFrom(eols, k + 1, ts, j);
    }
  }

  /** Tokens that start at or after every line end are copied unbroken. */
  lemma {:induction false} BreakEachPastEnd(eols: seq<Endline>, ts: seq<Token>)
    requires forall m, i :: 0 <= m < |eols| && 0 <= i < |ts| ==> eols[m].offset <= ts[i].start
    ensures BreakEach(eols, ts) == ts
    decreases |ts|
  {
    if |ts| > 0 {
      FirstAfterSkips(eols, ts[0].start, |eols|);
      BreakEachPastEnd(eols, ts[1..]);
      assert ts == [ts[0]] + ts[1..];
    }
  }

  // ------------------------------------------------------- line lengths

  /**
   * The sizes `produce_lines` gives the line ends: each line reaches up to
   * the next line end minus that one's end-of-line; the last reaches to the
   * end of the text, or is empty when its offset is already past it.
   */
  function LineSizes(es: seq<Endline>, contentsLength: nat): (r: seq<Endline>)
    requires |es| > 0
    ensures |r| == |es|
  {
    seq(|es|, i requires 0 <= i < |es| =>
      if i < |es| - 1 then Endline(es[i].offset, Wrap(es[i + 1].offset - es[i].offset - es[i + 1].size))
      else Endline(es[i].offset, if contentsLength < es[i].offset then 0 else contentsLength - es[i].offset))
  }

  /**
   * Where every end-of-line fits between its neighbours, the lines and the
   * ends-of-line tile the text: a line, then the next end-of-line, then the
   * next line; the last line runs to the end of the text.
   */
  lemma LinesTile(es: seq<Endline>, contentsLength: nat)
    requires |es| > 0 && OffsetsAscending(es)
    requires forall i :: 0 < i < |es| ==> es[i].size <= es[i].offset - es[i - 1].offset
    requires forall i :: 0 <= i < |es| ==> es[i].offset < SIZE_MOD
    requires es[|es| - 1].offset <= contentsLength
    ensures var r := LineSizes(es, contentsLength);
      (forall i :: 0 <= i < |r| - 1 ==> r[i].offset + r[i].size + es[i + 1].size == r[i + 1].offset)
      && r[|r| - 1].offset + r[|r| - 1].size == contentsLength
  {
  }

  /** Rewriting the sizes keeps every offset, hence their order. */
  lemma LineSizesKeepOffsets(es: seq<Endline>, contentsLength: nat)
    requires |es| > 0 && OffsetsAscending(es)
    ensures OffsetsAscending(LineSizes(es, contentsLength))
  {
  }

  /** The size rewrite loop of `produce_lines`, then the last line's size. */
  method RewriteSizes(es: seq<Endline>, contentsLength: nat) returns (r: seq<Endline>)
    requires |es| > 0
    ensures r == LineSizes(es, contentsLength)
  {
    ghost var sizes := LineSizes(es, contentsLength);
    r := es;
    for i := 1 to |es|
      invariant |r| == |es|
      invariant forall m :: i - 1 <= m < |es| ==> r[m] == es[m]
      invariant forall m :: 0 <= m < i - 1 ==> r[m] == sizes[m]
    {
      var prev := r[i - 1];
      var curr := r[i];
      assert prev == es[i - 1] && curr == es[i];
      var line := Endline(prev.offset, Wrap(curr.offset - prev.offset - curr.size));
      assert line == sizes[i - 1];
      r := r[i - 1 := line];
    }
    var back := r[|r| - 1];
    assert back == es[|es| - 1];
    r := r[|r| - 1 := Endline(back.offset, if contentsLength < back.offset then 0 else contentsLength - back.offset)];
    assert forall m :: 0 <= m < |r| ==> r[m] == sizes[m];
  }

  // ----------------------------------------------------------- one line

  /** How many tokens from `i` on end within the line, that is at or before `eol`. */
  function TakeCount(ts: seq<Token>, i: nat, eol: nat): (r: nat)
    requires i <= |ts|
    ensures i + r <= |ts|
    decreases |ts| - i
  {
    if i < |ts| && ts[i].end <= eol then 1 + TakeCount(ts, i + 1, eol) else 0
  }

  /** A line takes the tokens that end within it, up to the first that does not. */
  lemma {:induction false} TakeCountMeaning(ts: seq<Token>, i: nat, eol: nat)
    requires i <= |ts|
    ensures var r := TakeCount(ts, i, eol);
      (forall m :: i <= m < i + r ==> ts[m].end <= eol) && (i + r < |ts| ==> ts[i + r].end > eol)
    decreases |ts| - i
  {
    if i < |ts| && ts[i].end <= eol {
      TakeCountMeaning(ts, i + 1, eol);
    }
  }

  predicate IsWs(t: Token)
  {
    t.kind == WHITESPACE
  }

  /**
   * A line's tokens with touching whitespace merged: a whitespace token
   * that starts where the previous (whitespace) token ended extends the
   * last kept token instead of being kept itself.
   */
  function Merged(ts: seq<Token>): (r: seq<Token>)
    ensures |r| <= |ts|
    ensures |ts| > 0 ==> |r| > 0 && r[|r| - 1].end == ts[|ts| - 1].end && r[|r| - 1].kind == ts[|ts| - 1].kind
    decreases |ts|
  {
    if |ts| == 0 then []
    else
      var m := Merged(ts[..|ts| - 1]);
      var last := ts[|ts| - 1];
      if |ts| >= 2 && IsWs(ts[|ts| - 2]) && IsWs(last) && last.start == ts[|ts| - 2].end then
        m[..|m| - 1] + [Token(m[|m| - 1].start, last.end, m[|m| - 1].kind)]
      else m + [last]
  }

  /** No two neighbours are both whitespace with the second starting where the first ends. */
  predicate NoTouchingWhitespace(ts: seq<Token>)
  {
    forall k :: 0 <= k < |ts| - 1 ==> !(IsWs(ts[k]) && IsWs(ts[k + 1]) && ts[k + 1].start == ts[k].end)
  }

  lemma {:induction false} MergedLeavesNoTouchingWhitespace(ts: seq<Token>)
    ensures NoTouchingWhitespace(Merged(ts))
    decreases |ts|
  {
    if |ts| > 0 {
      var init := ts[..|ts| - 1];
      MergedLeavesNoTouchingWhitespace(init);
      var m := Merged(init);
      var last := ts[|ts| - 1];
      if |ts| >= 2 && IsWs(ts[|ts| - 2]) && IsWs(last) && last.start == ts[|ts| - 2].end {
        var tok := Token(m[|m| - 1].start, last.end, m[|m| - 1].kind);
        assert Merged(ts) == m[..|m| - 1] + [tok];
        NoTouchingExtend(m, tok);
      } else {
        assert Merged(ts) == m + [last];
        if |ts| >= 2 {
          assert init[|init| - 1] == ts[|ts| - 2];
        }
        NoTouchingAppend(m, last);
      }
    }
  }

  /** Widening the last token to a new end keeps neighbours apart. */
  lemma NoTouchingExtend(m: seq<Token>, tok: Token)
    requires |m| > 0 && NoTouchingWhitespace(m)
    requires tok.start == m[|m| - 1].start && tok.kind == m[|m| - 1].kind
    ensures NoTouchingWhitespace(m[..|m| - 1] + [tok])
  {
    var r := m[..|m| - 1] + [tok];
    forall k | 0 <= k < |r| - 1
      ensures !(IsWs(r[k]) && IsWs(r[k + 1]) && r[k + 1].start == r[k].end)
    {
      assert r[k] == m[k];
      assert r[k + 1].start == m[k + 1].start && r[k + 1].kind == m[k + 1].kind;
    }
  }

  /** A token that does not touch the last whitespace token keeps neighbours apart. */
  lemma NoTouchingAppend(m: seq<Token>, t: Token)
    requires NoTouchingWhitespace(m)
    requires |m| > 0 ==> !(IsWs(m[|m| - 1]) && IsWs(t) && t.start == m[|m| - 1].end)
    ensures NoTouchingWhitespace(m + [t])
  {
    var r := m + [t];
    forall k | 0 <= k < |r| - 1
      ensures !(IsWs(r[k]) && IsWs(r[k + 1]) && r[k + 1].start == r[k].end)
    {
      assert r[k] == m[k];
    }
  }

  /** The merge loop of `produce_lines`, over `ts[from..from + n]`. */
  method MergeWhitespace(ts: seq<Token>, from: nat, n: nat) returns (line: seq<Token>)
    requires from + n <= |ts|
    ensures line == Merged(ts[from..from + n])
  {
    line := [];
    var prevEnd: nat := 0;
    var prevWs := false;
    ghost var w := ts[from..from + n];
    for k := 0 to n
      invariant line == Merged(w[..k])
      invariant k > 0 ==> prevEnd == w[k - 1].end && prevWs == IsWs(w[k - 1])
      invariant k == 0 ==> !prevWs
    {
      var t := ts[from + k];
      line := MergeOne(w, k, line, t, prevWs, prevEnd);
      prevWs := IsWs(t);
      prevEnd := t.end;
    }
    assert w[..n] == w;
  }

  /** One round of the merge loop: widen the last token or append `t`. */
  method MergeOne(ghost w: seq<Token>, ghost k: nat, line: seq<Token>, t: Token, prevWs: bool, prevEnd: nat)
    returns (line': seq<Token>)
    requires k < |w| && t == w[k] && line == Merged(w[..k])
    requires k > 0 ==> prevEnd == w[k - 1].end && prevWs == IsWs(w[k - 1])
    requires k == 0 ==> !prevWs
    ensures line' == Merged(w[..k + 1])
  {
    var touching := prevWs && IsWs(t) && t.start == prevEnd;
    MergedExtends(w, k, line, touching);
    if touching {
      line' := line[|line| - 1 := Token(line[|line| - 1].start, t.end, line[|line| - 1].kind)];
    } else {
      line' := line + [t];
    }
  }

  /** The loop's test, on the previous token's end and kind, is `MergedNext`'s. */
  lemma MergedExtends(w: seq<Token>, k: nat, line: seq<Token>, touching: bool)
    requires k < |w| && line == Merged(w[..k])
    requires touching <==> k > 0 && IsWs(w[k - 1]) && IsWs(w[k]) && w[k].start == w[k - 1].end
    ensures touching ==> |line| > 0
    ensures Merged(w[..k + 1])
      == if touching then line[|line| - 1 := Token(line[|line| - 1].start, w[k].end, line[|line| - 1].kind)]
         else line + [w[k]]
  {
    MergedNext(w, 0, k);
    assert w[0..k] == w[..k] && w[0..k + 1] == w[..k + 1];
  }

  lemma MergedNext(ts: seq<Token>, from: nat, j: nat)
    requires from <= j < |ts|
    ensures var m := Merged(ts[from..j]);
      var t := ts[j];
      Merged(ts[from..j + 1])
        == if j > from && IsWs(ts[j - 1]) && IsWs(t) && t.start == ts[j - 1].end
           then m[|m| - 1 := Token(m[|m| - 1].start, t.end, m[|m| - 1].kind)]
           else m + [t]
  {
    var w := ts[from..j + 1];
    assert w[..|w| - 1] == ts[from..j];
    var m := Merged(ts[from..j]);
    if j > from && IsWs(ts[j - 1]) && IsWs(ts[j]) && ts[j].start == ts[j - 1].end {
      assert m[|m| - 1 := Token(m[|m| - 1].start, ts[j].end, m[|m| - 1].kind)]
        == m[..|m| - 1] + [Token(m[|m| - 1].start, ts[j].end, m[|m| - 1].kind)];
    }
  }

  /** Positions made relative to the line's start, in `size_t`. */
  function Shifted(ts: seq<Token>, offset: nat): (r: seq<Token>)
    ensures |r| == |ts|
    ensures forall k :: 0 <= k < |ts| ==> r[k].kind == ts[k].kind
    ensures forall k :: 0 <= k < |ts| && offset <= ts[k].start <= ts[k].end < SIZE_MOD ==>
              r[k].start + offset == ts[k].start && r[k].end + offset == ts[k].end
  {
    seq(|ts|, k requires 0 <= k < |ts| => Token(Wrap(ts[k].start - offset), Wrap(ts[k].end - offset), ts[k].kind))
  }

  /** What `produce_lines` hands to `on_line`: the line's offset, its size, and its tokens. */
  datatype LineCall = LineCall(start: nat, length: nat, highlights: seq<Token>)

  /** A line end with the tokens of its line. */
  type Line = (Endline, seq<Token>)

  /** The line ends from `k` on, each with the tokens of its line, the tokens being consumed in order from `i`. */
  function LinesFrom(es: seq<Endline>, k: nat, ts: seq<Token>, i: nat): (r: seq<Line>)
    requires k <= |es| && i <= |ts|
    ensures |r| == |es| - k
    ensures forall m :: 0 <= m < |r| ==> r[m].0 == es[k + m]
    decreases |es| - k
  {
    if k == |es| then []
    else
      var n := TakeCount(ts, i, Wrap(es[k].offset + es[k].size));
      [(es[k], ts[i..i + n])] + LinesFrom(es, k + 1, ts, i + n)
  }

  /** The call for the line ending at `e` whose tokens are `line`: merged, then made relative to the line's offset. */
  function LineAt(e: Endline, line: seq<Token>): LineCall
  {
    LineCall(e.offset, e.size, Shifted(Merged(line), e.offset))
  }

  /** The `on_line` calls for a run of lines, in order: one per line, with the line's offset and size. */
  function Calls(lines: seq<Line>): (r: seq<LineCall>)
    ensures |r| == |lines|
    ensures forall m :: 0 <= m < |r| ==> r[m].start == lines[m].0.offset && r[m].length == lines[m].0.size
  {
    if |lines| == 0 then [] else [LineAt(lines[0].0, lines[0].1)] + Calls(lines[1..])
  }

  lemma CallsCons(x: Line, rest: seq<Line>)
    ensures Calls([x] + rest) == [LineAt(x.0, x.1)] + Calls(rest)
  {
    assert ([x] + rest)[1..] == rest;
  }

  /** `on_line` is called once per line end, in ascending offset order, with that line's offset and size. */
  lemma LinesInOrder(es: seq<Endline>, ts: seq<Token>)
    requires OffsetsAscending(es)
    ensures var r := Calls(LinesFrom(es, 0, ts, 0));
      |r| == |es|
      && (forall i :: 0 <= i < |r| ==> r[i].start == es[i].offset && r[i].length == es[i].size)
      && forall a, b :: 0 <= a < b < |r| ==> r[a].start < r[b].start
  {
    var lines := LinesFrom(es, 0, ts, 0);
    var r := Calls(lines);
    forall i | 0 <= i < |r|
      ensures r[i].start == es[i].offset && r[i].length == es[i].size
    {
      assert lines[i].0 == es[0 + i];
    }
  }

  /** The counting walk of the per-line loop: how many tokens from `it` on end at or before `eol`. */
  method CountLine(broken: seq<Token>, it: nat, eol: nat) returns (n: nat)
    requires it <= |broken|
    ensures n == TakeCount(broken, it, eol)
  {
    n := 0;
    while it + n < |broken| && broken[it + n].end <= eol
      invariant it + n <= |broken|
      invariant TakeCount(broken, it, eol) == n + TakeCount(broken, it + n, eol)
      decreases |broken| - it - n
    {
      n := n + 1;
    }
  }

  /** The shifting loop of the per-line loop: every position made relative to `offset`. */
  method ShiftLine(line: seq<Token>, offset: nat) returns (highlights: seq<Token>)
    ensures highlights == Shifted(line, offset)
  {
    highlights := [];
    for m := 0 to |line|
      invariant highlights == Shifted(line[..m], offset)
    {
      highlights := highlights + [Token(Wrap(line[m].start - offset), Wrap(line[m].end - offset), line[m].kind)];
    }
    assert line[..|line|] == line;
  }

  /** One round of the per-line loop: count the line's tokens, merge, shift. */
  method CollectLine(endline: Endline, broken: seq<Token>, it: nat) returns (call: LineCall, n: nat)
    requires it <= |broken|
    ensures n == TakeCount(broken, it, Wrap(endline.offset + endline.size))
    ensures call == LineAt(endline, broken[it..it + n])
  {
    n := CountLine(broken, it, Wrap(endline.offset + endline.size));
    var lineTokens := MergeWhitespace(broken, it, n);
    var highlights := ShiftLine(lineTokens, endline.offset);
    call := LineCall(endline.offset, endline.size, highlights);
  }

  lemma LinesFromStep(es: seq<Endline>, k: nat, ts: seq<Token>, i: nat, n: nat)
    requires k < |es| && i <= |ts|
    requires n == TakeCount(ts, i, Wrap(es[k].offset + es[k].size))
    ensures LinesFrom(es, k, ts, i) == [(es[k], ts[i..i + n])] + LinesFrom(es, k + 1, ts, i + n)
  {
  }

  /** The per-line loop of `produce_lines`. */
  method CollectLines(es: seq<Endline>, broken: seq<Token>) returns (calls: seq<LineCall>)
    ensures calls == Calls(LinesFrom(es, 0, broken, 0))
  {
    calls := [];
    var it: nat := 0;
    assert Calls(LinesFrom(es, 0, broken, 0)) == calls + Calls(LinesFrom(es, 0, broken, it));
    for k := 0 to |es|
      invariant it <= |broken|
      invariant Calls(LinesFrom(es, 0, broken, 0)) == calls + Calls(LinesFrom(es, k, broken, it))
    {
      calls, it := CollectNext(es, k, broken, it, calls);
    }
    assert calls + [] == calls;
  }

  /** One turn of that loop: the call for line end `k` joins those already made. */
  method CollectNext(es: seq<Endline>, k: nat, broken: seq<Token>, it: nat, calls: seq<LineCall>) returns (calls': seq<LineCall>, it': nat)
    requires k < |es| && it <= |broken|
    ensures it' <= |broken|
    ensures calls' + Calls(LinesFrom(es, k + 1, broken, it')) == calls + Calls(LinesFrom(es, k, broken, it))
  {
    var call, n := CollectLine(es[k], broken, it);
    calls', it' := calls + [call], it + n;
    LinesFromStep(es, k, broken, it, n);
    CallsStep(calls, call, calls', (es[k], broken[it..it']), LinesFrom(es, k + 1, broken, it'), LinesFrom(es, k, broken, it));
  }

  lemma CallsStep(calls: seq<LineCall>, call: LineCall, calls': seq<LineCall>, x: Line, rest: seq<Line>, lines: seq<Line>)
    requires lines == [x] + rest && call == LineAt(x.0, x.1) && calls' == calls + [call]
    ensures calls' + Calls(rest) == calls + Calls(lines)
  {
    CallsCons(x, rest);
    AppendAssoc(calls, [call], Calls(rest));
  }
}
