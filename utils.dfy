/**
 * String helpers of the tool: splitting on a separator, stripping C-locale
 * white space from either end, and concatenating several strings into one.
 */
module Utils {
  import opened Strings
  import opened Wrappers

  /** `std::isspace` in the C locale. */
  predicate IsSpace(c: char)
  {
    c == ' ' || c == '\t' || c == '\n' || c == '\U{000B}' || c == '\U{000C}' || c == '\r'
  }

  // ---------------------------------------------------------------- split

  /** The pieces written back with one separator between neighbours. */
  function JoinWith(sep: char, parts: seq<string>): string
  {
    if |parts| == 0 then ""
    else if |parts| == 1 then parts[0]
    else JoinWith(sep, parts[..|parts| - 1]) + [sep] + parts[|parts| - 1]
  }

  predicate NoSeparator(sep: char, parts: seq<string>)
  {
    forall k :: 0 <= k < |parts| ==> sep !in parts[k]
  }

  /** What `split_s` computes: the text between separators, including empty pieces at either end. */
  function Split(sep: char, s: string): (r: seq<string>)
    ensures |r| >= 1 && JoinWith(sep, r) == s && NoSeparator(sep, r)
  {
    if |s| == 0 then [""]
    else
      var init := Split(sep, s[..|s| - 1]);
      var c := s[|s| - 1];
      assert s == s[..|s| - 1] + [c];
      SplitSnoc(sep, s[..|s| - 1], init, c);
      if c == sep then init + [""]
      else init[..|init| - 1] + [init[|init| - 1] + [c]]
  }

  /** One more character: a separator opens an empty piece, any other character extends the last one. */
  lemma SplitSnoc(sep: char, t: string, init: seq<string>, c: char)
    requires |init| >= 1 && JoinWith(sep, init) == t && NoSeparator(sep, init)
    ensures c == sep ==> JoinWith(sep, init + [""]) == t + [c] && NoSeparator(sep, init + [""])
    ensures c != sep ==>
      var r := init[..|init| - 1] + [init[|init| - 1] + [c]];
      JoinWith(sep, r) == t + [c] && NoSeparator(sep, r)
  {
    if c == sep {
      assert (init + [""])[..|init|] == init;
      assert t + [c] + "" == t + [c];
    } else {
      var last := init[|init| - 1] + [c];
      var r := init[..|init| - 1] + [last];
      assert r[..|init| - 1] == init[..|init| - 1];
      if |init| > 1 {
        assert JoinWith(sep, init) == JoinWith(sep, init[..|init| - 1]) + [sep] + init[|init| - 1];
        assert JoinWith(sep, r) == JoinWith(sep, init[..|init| - 1]) + [sep] + last;
      }
      forall k | 0 <= k < |r|
        ensures sep !in r[k]
      {
        if k < |init| - 1 {
          assert r[k] == init[k];
        }
      }
    }
  }

  /** Length of the separator-free run at the end of `s`. */
  function TailRun(sep: char, s: string): nat
  {
    if |s| == 0 || s[|s| - 1] == sep then 0 else TailRun(sep, s[..|s| - 1]) + 1
  }

  lemma {:induction false} TailRunAfter(sep: char, x: string, l: string)
    requires sep !in l
    requires |x| == 0 || x[|x| - 1] == sep
    ensures TailRun(sep, x + l) == |l|
    decreases |l|
  {
    if |l| > 0 {
      assert (x + l)[..|x + l| - 1] == x + l[..|l| - 1];
      TailRunAfter(sep, x, l[..|l| - 1]);
    } else {
      assert x + l == x;
    }
  }

  /** The last piece is the separator-free run the joined text ends with; there is a separator iff there are several pieces. */
  lemma {:induction false} LastPiece(sep: char, parts: seq<string>)
    requires |parts| >= 1 && NoSeparator(sep, parts)
    ensures var s := JoinWith(sep, parts);
      TailRun(sep, s) == |parts[|parts| - 1]| && (|parts| > 1 <==> sep in s)
  {
    var l := parts[|parts| - 1];
    if |parts| == 1 {
      TailRunAfter(sep, "", l);
      assert "" + l == l;
    } else {
      var x := JoinWith(sep, parts[..|parts| - 1]) + [sep];
      TailRunAfter(sep, x, l);
      assert (x + l)[|x| - 1] == sep;
    }
  }

  /** Two separator-free piece lists that join to the same text are the same list. */
  lemma {:induction false} JoinInjective(sep: char, a: seq<string>, b: seq<string>)
    requires |a| >= 1 && |b| >= 1 && NoSeparator(sep, a) && NoSeparator(sep, b)
    requires JoinWith(sep, a) == JoinWith(sep, b)
    ensures a == b
    decreases |a|
  {
    var s := JoinWith(sep, a);
    var la, lb := a[|a| - 1], b[|b| - 1];
    LastPiece(sep, a);
    LastPiece(sep, b);
    if |a| > 1 {
      var pa, pb := JoinWith(sep, a[..|a| - 1]), JoinWith(sep, b[..|b| - 1]);
      CutLast(s, pa, sep, la);
      CutLast(s, pb, sep, lb);
      JoinInjective(sep, a[..|a| - 1], b[..|b| - 1]);
      assert a == a[..|a| - 1] + [la] && b == b[..|b| - 1] + [lb];
    }
  }

  /** The two sides of the last separator of `s == p + [sep] + l`, recovered from the length of `l`. */
  lemma CutLast(s: string, p: string, sep: char, l: string)
    requires s == p + [sep] + l
    ensures s[|s| - |l|..] == l && s[..|s| - |l| - 1] == p
  {
  }

  /** Splitting yields exactly one more piece than there are separators. */
  lemma {:induction false} SplitCount(sep: char, s: string)
    ensures |Split(sep, s)| == Count(sep, s) + 1
  {
    JoinCount(sep, Split(sep, s));
  }

  lemma {:induction false} JoinCount(sep: char, parts: seq<string>)
    requires |parts| >= 1 && NoSeparator(sep, parts)
    ensures Count(sep, JoinWith(sep, parts)) == |parts| - 1
    decreases |parts|
  {
    if |parts| == 1 {
      CountAbsent(sep, parts[0]);
    } else {
      var init := parts[..|parts| - 1];
      JoinCount(sep, init);
      CountAppend(sep, JoinWith(sep, init) + [sep], parts[|parts| - 1]);
      CountAppend(sep, JoinWith(sep, init), [sep]);
      assert Count(sep, [sep]) == 1 by { assert [sep][..0] == []; }
      CountAbsent(sep, parts[|parts| - 1]);
    }
  }

  /** First index at or after `from` holding `c`, as `string_view::find`; `None` plays `npos`. */
  function Find(s: string, c: char, from: nat): (r: Option<nat>)
    ensures r.None? ==> forall i :: from <= i < |s| ==> s[i] != c
    ensures r.Some? ==> from <= r.value < |s| && s[r.value] == c
                        && forall i :: from <= i < r.value ==> s[i] != c
    decreases |s| - from
  {
    if from >= |s| then None
    else if s[from] == c then Some(from)
    else Find(s, c, from + 1)
  }

  /** `split_s`: the loop pushing the text before each separator, then the tail. */
  method SplitS(sep: char, data: string) returns (result: seq<string>)
    ensures result == Split(sep, data)
  {
    result := [];
    var pos := Find(data, sep, 0);
    var prev: nat := 0;
    while pos.Some?
      invariant prev <= |data|
      invariant pos == Find(data, sep, prev)
      invariant NoSeparator(sep, result)
      invariant JoinedPrefix(sep, result) == data[..prev]
      decreases |data| - prev
    {
      var p := pos.value;
      var view := data[prev..p];
      SplitStep(sep, data, result, prev, p);
      prev := p + 1;
      pos := Find(data, sep, prev);
      result := result + [view];
    }
    SplitTail(sep, data, result, prev);
    result := result + [data[prev..]];
    SplitUnique(sep, data, result);
  }

  /** One pass of `split_s`: the text before the separator at `p` becomes a piece. */
  lemma SplitStep(sep: char, data: string, result: seq<string>, prev: nat, p: nat)
    requires prev <= p < |data| && Find(data, sep, prev) == Some(p)
    requires NoSeparator(sep, result) && JoinedPrefix(sep, result) == data[..prev]
    ensures NoSeparator(sep, result + [data[prev..p]])
    ensures JoinedPrefix(sep, result + [data[prev..p]]) == data[..p + 1]
  {
    var view := data[prev..p];
    JoinSnoc(sep, result, view);
    assert sep !in view;
    assert data[..p + 1] == data[..prev] + view + [sep];
  }

  /** After the last separator, the tail of the text is the last piece. */
  lemma SplitTail(sep: char, data: string, result: seq<string>, prev: nat)
    requires prev <= |data| && Find(data, sep, prev) == None
    requires NoSeparator(sep, result) && JoinedPrefix(sep, result) == data[..prev]
    ensures NoSeparator(sep, result + [data[prev..]])
    ensures JoinWith(sep, result + [data[prev..]]) == data
  {
    JoinSnoc(sep, result, data[prev..]);
    assert sep !in data[prev..];
    assert data == data[..prev] + data[prev..];
  }

  /** `Split` is the only separator-free piece list that joins back to the text. */
  lemma SplitUnique(sep: char, s: string, parts: seq<string>)
    requires |parts| >= 1 && NoSeparator(sep, parts) && JoinWith(sep, parts) == s
    ensures parts == Split(sep, s)
  {
    JoinInjective(sep, parts, Split(sep, s));
  }

  /** The text the pieces so far stand for, up to and including the separator after the last one. */
  function JoinedPrefix(sep: char, parts: seq<string>): string
  {
    if |parts| == 0 then "" else JoinWith(sep, parts) + [sep]
  }

  lemma JoinSnoc(sep: char, parts: seq<string>, x: string)
    ensures JoinWith(sep, parts + [x]) == JoinedPrefix(sep, parts) + x
    ensures JoinedPrefix(sep, parts + [x]) == JoinedPrefix(sep, parts) + x + [sep]
  {
    assert (parts + [x])[..|parts|] == parts;
  }

  // ---------------------------------------------------------------- strip

  /** `lstrip_sv`: the text after its leading white space. */
  function LStrip(s: string): string
  {
    if |s| > 0 && IsSpace(s[0]) then LStrip(s[1..]) else s
  }

  /** `rstrip_sv`: the text before its trailing white space. */
  function RStrip(s: string): string
  {
    if |s| > 0 && IsSpace(s[|s| - 1]) then RStrip(s[..|s| - 1]) else s
  }

  /** `strip_sv` / `strip_s`: both ends stripped, the right one first. */
  function Strip(s: string): string
  {
    LStrip(RStrip(s))
  }

  /** `LStrip` removes exactly the leading run of white space. */
  lemma {:induction false} LStripMeaning(s: string)
    ensures var r := LStrip(s);
      |r| <= |s| && r == s[|s| - |r|..]
      && (forall i :: 0 <= i < |s| - |r| ==> IsSpace(s[i]))
      && (|r| > 0 ==> !IsSpace(r[0]))
  {
    if |s| > 0 && IsSpace(s[0]) {
      LStripMeaning(s[1..]);
    }
  }

  /** `RStrip` removes exactly the trailing run of white space. */
  lemma {:induction false} RStripMeaning(s: string)
    ensures var r := RStrip(s);
      |r| <= |s| && r == s[..|r|]
      && (forall i :: |r| <= i < |s| ==> IsSpace(s[i]))
      && (|r| > 0 ==> !IsSpace(r[|r| - 1]))
  {
    if |s| > 0 && IsSpace(s[|s| - 1]) {
      RStripMeaning(s[..|s| - 1]);
    }
  }

  lemma {:induction false} LStripNoop(s: string)
    requires |s| == 0 || !IsSpace(s[0])
    ensures LStrip(s) == s
  {
  }

  lemma {:induction false} RStripNoop(s: string)
    requires |s| == 0 || !IsSpace(s[|s| - 1])
    ensures RStrip(s) == s
  {
  }

  /** Stripping twice changes nothing more, and the result neither starts nor ends with white space. */
  lemma {:induction false} StripIdempotent(s: string)
    ensures var r := Strip(s);
      Strip(r) == r && (|r| > 0 ==> !IsSpace(r[0]) && !IsSpace(r[|r| - 1]))
  {
    var rs := RStrip(s);
    RStripMeaning(s);
    LStripMeaning(rs);
    var r := LStrip(rs);
    assert |r| > 0 ==> r[|r| - 1] == rs[|rs| - 1];
    RStripNoop(r);
    LStripNoop(r);
  }

  method LStripSv(data: string) returns (r: string)
    ensures r == LStrip(data)
  {
    var newStop := |data|;
    var newStart := 0;
    while newStart < newStop && IsSpace(data[newStart])
      invariant 0 <= newStart <= newStop
      invariant LStrip(data[newStart..]) == LStrip(data)
    {
      assert data[newStart..][1..] == data[newStart + 1..];
      newStart := newStart + 1;
    }
    r := data[newStart..];
  }

  method RStripSv(data: string) returns (r: string)
    ensures r == RStrip(data)
  {
    var newStop := |data|;
    assert data[..newStop] == data;
    while newStop > 0 && IsSpace(data[newStop - 1])
      invariant 0 <= newStop <= |data|
      invariant RStrip(data[..newStop]) == RStrip(data)
    {
      assert data[..newStop][..newStop - 1] == data[..newStop - 1];
      newStop := newStop - 1;
    }
    r := data[..newStop];
  }

  method StripSv(data: string) returns (r: string)
    ensures r == Strip(data)
  {
    var right := RStripSv(data);
    r := LStripSv(right);
  }

  // ---------------------------------------------------------------- concat

  function TotalLength(parts: seq<string>): nat
  {
    if |parts| == 0 then 0 else TotalLength(parts[..|parts| - 1]) + |parts[|parts| - 1]|
  }

  /** `u8concat`: the parts appended one after another. */
  function Concat(parts: seq<string>): string
  {
    if |parts| == 0 then "" else Concat(parts[..|parts| - 1]) + parts[|parts| - 1]
  }

  /** The concatenation is as long as all parts together and holds part `k` at the sum of the lengths before it. */
  lemma {:induction false} ConcatLayout(parts: seq<string>, k: nat)
    requires k < |parts|
    ensures |Concat(parts)| == TotalLength(parts)
    ensures var at := TotalLength(parts[..k]);
      at + |parts[k]| <= |Concat(parts)| && Concat(parts)[at..at + |parts[k]|] == parts[k]
    decreases |parts|
  {
    var n := |parts|;
    ConcatLength(parts);
    if k < n - 1 {
      var init := parts[..n - 1];
      ConcatLayout(init, k);
      assert init[..k] == parts[..k];
      assert init[k] == parts[k];
    } else {
      assert parts[..k] == parts[..n - 1];
      ConcatLength(parts[..n - 1]);
    }
  }

  lemma {:induction false} ConcatLength(parts: seq<string>)
    ensures |Concat(parts)| == TotalLength(parts)
    decreases |parts|
  {
    if |parts| > 0 { ConcatLength(parts[..|parts| - 1]); }
  }
}
