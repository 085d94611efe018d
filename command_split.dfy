// `command::command_line_split`: a command whose arguments were read as
// whole strings from a compiler's configuration is split at white space
// into separate arguments, honouring single and double quotes and, inside
// double quotes, backslash escapes. Arguments that are not plain text
// (variables, named references) are passed through unchanged and in order.
//
// The readers work on the text that is left (`t` is always a suffix of the
// argument being split), so that the loop in `CommandLineSplit`, which
// walks an index through the string, can say how much is still to come.

module CommandSplit {
  import opened Utils
  import opened Generator
  import opened EnvPath

  /** `command`: a tool and its templated arguments. */
  datatype Command = Command(tool: Tool, args: TemplatedString)

  predicate IsQuote(c: char)
  {
    c == '\'' || c == '"'
  }

  /** Whether an unescaped `ch` ends the argument: its own closing quote, or white space or any quote outside quotes. */
  predicate Stops(ch: char, quote: char, quoted: bool)
  {
    if quoted then ch == quote else IsSpace(ch) || IsQuote(ch)
  }

  // ---------------------------------------------------------------------
  // As written: the escape flag is never cleared and the closing quote is
  // left in the text.

  /**
   * The inner loop as written: the argument read from `t` and how many
   * characters it took. Once a backslash has been seen inside double
   * quotes, nothing ends the argument any more.
   */
  function ReadArgAsWritten(t: string, quote: char, quoted: bool, escaped: bool): (r: (string, nat))
    ensures r.1 <= |t|
    ensures r.1 == 0 ==> |t| == 0 || (!escaped && Stops(t[0], quote, quoted))
  {
    if |t| == 0 then ("", 0)
    else if !escaped && Stops(t[0], quote, quoted) then ("", 0)
    else if !escaped && t[0] == '\\' && quote == '"' then
      var x := ReadArgAsWritten(t[1..], quote, quoted, true);
      (x.0, x.1 + 1)
    else
      var x := ReadArgAsWritten(t[1..], quote, quoted, escaped);
      ([t[0]] + x.0, x.1 + 1)
  }

  /**
   * One argument taken off the front as written: the words it gives and
   * how many characters it used. A closing quote is not among them.
   */
  function TakenAsWritten(t: string): (r: (seq<string>, nat))
    requires |t| > 0 && !IsSpace(t[0])
    ensures 0 < r.1 <= |t|
  {
    var quoted := IsQuote(t[0]);
    var body := if quoted then t[1..] else t;
    var x := ReadArgAsWritten(body, t[0], quoted, false);
    (if |x.0| > 0 || quoted then [x.0] else [], if quoted then x.1 + 1 else x.1)
  }

  /** The outer loop as written: white space skipped, then one argument after another. */
  function ArgsOfAsWritten(t: string): seq<string>
    decreases |t|
  {
    if |t| == 0 then []
    else if IsSpace(t[0]) then ArgsOfAsWritten(t[1..])
    else
      var x := TakenAsWritten(t);
      x.0 + ArgsOfAsWritten(t[x.1..])
  }

  /** A quoted word comes back followed by an empty word: its closing quote opened another argument. */
  lemma ClosingQuoteReopens()
    ensures ArgsOfAsWritten("\"x\"") == ["x", ""]
    ensures ArgsOf("\"x\"") == ["x"]
  {
    var t, b, q := "\"x\"", "x\"", "\"";
    assert t[0] == '"' && t[1..] == b && t[2..] == q && t[3..] == [];
    assert b[0] == 'x' && b[1..] == q;
    assert q[0] == '"' && q[1..] == [];
    assert ReadArgAsWritten(b, '"', true, false).0 == "x";
    assert TakenAsWritten(q).0 == [""] && TakenAsWritten(q).1 == 1;
    assert ArgsOfAsWritten(q) == [""];
    assert TakenAsWritten(t).0 == ["x"] && TakenAsWritten(t).1 == 2;
    assert ReadArg(b, '"', true, false).0 == "x" && ReadArg(b, '"', true, false).1 == 1;
    assert Taken(t).0 == ["x"] && Taken(t).1 == 3;
  }

  /** After one escape the rest of the line, closing quote and spaces included, is a single argument. */
  lemma EscapeNeverEnds()
    ensures ArgsOfAsWritten("\"\\x\" y") == ["x\" y"]
  {
    var t, b := "\"\\x\" y", "\\x\" y";
    assert t[0] == '"' && t[1..] == b && t[6..] == [];
    EscapeReadsOn();
    assert TakenAsWritten(t).0 == ["x\" y"] && TakenAsWritten(t).1 == 6;
  }

  /** As written, the reading after the escape never leaves the escaped state, so it runs to the end of the line. */
  lemma EscapeReadsOn()
    ensures ReadArgAsWritten("\\x\" y", '"', true, false) == ("x\" y", 5)
  {
    var b := "\\x\" y";
    assert b[0] == '\\' && b[1] == 'x' && b[2] == '"' && b[3] == ' ' && b[4] == 'y';
    assert b[1..] == "x\" y" && b[2..] == "\" y" && b[3..] == " y" && b[4..] == "y" && b[5..] == [];
    assert ReadArgAsWritten(b[4..], '"', true, true).0 == "y" && ReadArgAsWritten(b[4..], '"', true, true).1 == 1;
    assert ReadArgAsWritten(b[3..], '"', true, true).0 == " y" && ReadArgAsWritten(b[3..], '"', true, true).1 == 2;
    assert ReadArgAsWritten(b[2..], '"', true, true).0 == "\" y" && ReadArgAsWritten(b[2..], '"', true, true).1 == 3;
    assert ReadArgAsWritten(b[1..], '"', true, true).0 == "x\" y" && ReadArgAsWritten(b[1..], '"', true, true).1 == 4;
  }

  /** Corrected, the escape covers the one character after it and the closing quote ends the argument. */
  lemma EscapeEndsAtQuote()
    ensures ArgsOf("\"\\x\" y") == ["x", "y"]
  {
    var t, b := "\"\\x\" y", "\\x\" y";
    assert t[0] == '"' && t[1..] == b;
    assert b[0] == '\\' && b[1] == 'x' && b[2] == '"';
    assert b[1..] == "x\" y" && b[2..] == "\" y";
    assert ReadArg(b[2..], '"', true, false).0 == "" && ReadArg(b[2..], '"', true, false).1 == 0;
    assert ReadArg(b[1..], '"', true, true).0 == "x" && ReadArg(b[1..], '"', true, true).1 == 1;
    assert ReadArg(b, '"', true, false).0 == "x" && ReadArg(b, '"', true, false).1 == 2;
    assert Taken(t).0 == ["x"] && Taken(t).1 == 4;
    assert t[4..] == " y";
    SpaceThenWord();
  }

  /** Leading white space is skipped and an unquoted word is taken whole. */
  lemma SpaceThenWord()
    ensures ArgsOf(" y") == ["y"]
  {
    var y := "y";
    assert y[0] == 'y' && y[1..] == [];
    assert ReadArg(y, 'y', false, false).0 == "y" && ReadArg(y, 'y', false, false).1 == 1;
    assert Taken(y).0 == ["y"] && Taken(y).1 == 1;
    assert ArgsOf(y) == ["y"];
    assert " y"[1..] == y;
  }

  // ---------------------------------------------------------------------
  // Corrected: an escape covers one character, and the closing quote is
  // consumed with its argument.

  /** The argument read from `t` and how many characters it took, the closing quote not included. */
  function ReadArg(t: string, quote: char, quoted: bool, escaped: bool): (r: (string, nat))
    ensures r.1 <= |t|
    ensures r.1 == 0 ==> |t| == 0 || (!escaped && Stops(t[0], quote, quoted))
  {
    if |t| == 0 then ("", 0)
    else if !escaped && Stops(t[0], quote, quoted) then ("", 0)
    else if !escaped && t[0] == '\\' && quote == '"' then
      var x := ReadArg(t[1..], quote, quoted, true);
      (x.0, x.1 + 1)
    else
      var x := ReadArg(t[1..], quote, quoted, false);
      ([t[0]] + x.0, x.1 + 1)
  }

  /** One argument taken off the front: the words it gives and how many characters it used, its closing quote included. */
  function Taken(t: string): (r: (seq<string>, nat))
    requires |t| > 0 && !IsSpace(t[0])
    ensures 0 < r.1 <= |t|
  {
    var quoted := IsQuote(t[0]);
    var body := if quoted then t[1..] else t;
    var x := ReadArg(body, t[0], quoted, false);
    (if |x.0| > 0 || quoted then [x.0] else [], if quoted && x.1 < |body| then x.1 + 2 else if quoted then x.1 + 1 else x.1)
  }

  /** The arguments `t` splits into: white space skipped, then one argument after another. */
  function ArgsOf(t: string): seq<string>
    decreases |t|
  {
    if |t| == 0 then []
    else if IsSpace(t[0]) then ArgsOf(t[1..])
    else
      var x := Taken(t);
      x.0 + ArgsOf(t[x.1..])
  }

  /**
   * Outside quotes an argument runs up to the first white space or quote
   * and is taken as it stands: no character of it is white space or a
   * quote, and backslashes are kept.
   */
  lemma {:induction false} UnquotedArg(t: string, quote: char)
    requires !IsQuote(quote)
    ensures var r := ReadArg(t, quote, false, false);
      r.0 == t[..r.1]
      && (forall i :: 0 <= i < r.1 ==> !IsSpace(t[i]) && !IsQuote(t[i]))
      && (r.1 == |t| || IsSpace(t[r.1]) || IsQuote(t[r.1]))
    decreases |t|
  {
    if |t| > 0 && !Stops(t[0], quote, false) {
      UnquotedArg(t[1..], quote);
      var x := ReadArg(t[1..], quote, false, false);
      assert t[..x.1 + 1] == [t[0]] + t[1..][..x.1];
    }
  }

  /**
   * Inside single quotes nothing is escaped: the argument is the text up
   * to the next single quote, backslashes included.
   */
  lemma {:induction false} SingleQuotedArg(t: string)
    ensures var r := ReadArg(t, '\'', true, false);
      r.0 == t[..r.1]
      && (forall i :: 0 <= i < r.1 ==> t[i] != '\'')
      && (r.1 == |t| || t[r.1] == '\'')
    decreases |t|
  {
    if |t| > 0 && t[0] != '\'' {
      SingleQuotedArg(t[1..]);
      var x := ReadArg(t[1..], '\'', true, false);
      assert t[..x.1 + 1] == [t[0]] + t[1..][..x.1];
    }
  }

  /** The text that reads back as `w` inside double quotes: each `"` and `\` gets a backslash in front. */
  function Escape(w: string): (e: string)
    ensures |e| >= |w|
  {
    if |w| == 0 then ""
    else (if w[0] == '"' || w[0] == '\\' then ['\\', w[0]] else [w[0]]) + Escape(w[1..])
  }

  /** `w` escaped and in double quotes. */
  function Quote(w: string): string
  {
    "\"" + Escape(w) + "\""
  }

  /** Each word quoted and followed by a space. */
  function QuoteAll(ws: seq<string>): string
  {
    if |ws| == 0 then "" else Quote(ws[0]) + " " + QuoteAll(ws[1..])
  }

  /** Inside double quotes an escaped word reads back as itself, up to the closing quote. */
  lemma {:induction false} ReadEscaped(w: string, tail: string)
    ensures ReadArg(Escape(w) + "\"" + tail, '"', true, false) == (w, |Escape(w)|)
    decreases |w|
  {
    var t := Escape(w) + "\"" + tail;
    if |w| == 0 {
      assert t[0] == '"';
    } else {
      var c := w[0];
      var rest := Escape(w[1..]) + "\"" + tail;
      ReadEscaped(w[1..], tail);
      if c == '"' || c == '\\' {
        assert t == ['\\', c] + rest;
        assert t[1..] == [c] + rest && t[1..][1..] == rest;
        assert ReadArg(t[1..], '"', true, true) == ([c] + w[1..], |Escape(w[1..])| + 1);
      } else {
        assert t == [c] + rest;
        assert t[1..] == rest;
      }
      assert [c] + w[1..] == w;
    }
  }

  /** Splitting reads quoted words back: `QuoteAll` is a right inverse of `ArgsOf`, empty words included. */
  lemma {:induction false} QuotedRoundTrip(ws: seq<string>)
    ensures ArgsOf(QuoteAll(ws)) == ws
  {
    if |ws| > 0 {
      var w := ws[0];
      var r := QuoteAll(ws[1..]);
      var t := QuoteAll(ws);
      var body := Escape(w) + "\"" + (" " + r);
      assert t == "\"" + body;
      assert t[1..] == body;
      ReadEscaped(w, " " + r);
      var n := |Escape(w)|;
      assert Taken(t) == ([w], n + 2);
      assert ArgsOf(t) == [w] + ArgsOf(t[n + 2..]);
      assert t[n + 2..] == " " + r;
      assert ArgsOf(" " + r) == ArgsOf(r) by {
        assert (" " + r)[1..] == r;
      }
      QuotedRoundTrip(ws[1..]);
      assert ws == [w] + ws[1..];
    }
  }

  // ---------------------------------------------------------------------
  // The whole command.

  /** Words as text arguments. */
  function Texts(ws: seq<string>): (r: TemplatedString)
    ensures |r| == |ws| && forall i :: 0 <= i < |ws| ==> r[i] == Str(ws[i])
  {
    seq(|ws|, i requires 0 <= i < |ws| => Str(ws[i]))
  }

  /** What one argument becomes: a text is split, anything else kept. */
  function Expand(a: Arg): TemplatedString
  {
    if a.Str? then Texts(ArgsOf(a.text)) else [a]
  }

  /** Every argument expanded, in order. */
  function SplitAll(args: TemplatedString): TemplatedString
  {
    if |args| == 0 then [] else SplitAll(args[..|args| - 1]) + Expand(args[|args| - 1])
  }

  /** The command with its text arguments split. */
  function CommandLineSplitOf(cmd: Command): Command
  {
    Command(cmd.tool, SplitAll(cmd.args))
  }

  /** The arguments that are not text, in order. */
  function Others(args: TemplatedString): (r: TemplatedString)
    ensures forall a :: a in r ==> !a.Str?
  {
    if |args| == 0 then []
    else Others(args[..|args| - 1]) + (if args[|args| - 1].Str? then [] else [args[|args| - 1]])
  }

  lemma {:induction false} OthersAppend(a: TemplatedString, b: TemplatedString)
    ensures Others(a + b) == Others(a) + Others(b)
    decreases |b|
  {
    if |b| > 0 {
      assert (a + b)[..|a + b| - 1] == a + b[..|b| - 1];
      OthersAppend(a, b[..|b| - 1]);
    } else {
      assert a + b == a;
    }
  }

  lemma {:induction false} OthersOfTexts(ws: seq<string>)
    ensures Others(Texts(ws)) == []
    decreases |ws|
  {
    if |ws| > 0 {
      assert Texts(ws)[..|ws| - 1] == Texts(ws[..|ws| - 1]);
      OthersOfTexts(ws[..|ws| - 1]);
    }
  }

  /** Splitting keeps every non-text argument, in order, and adds none. */
  lemma {:induction false} SplitKeepsOthers(args: TemplatedString)
    ensures Others(SplitAll(args)) == Others(args)
    decreases |args|
  {
    if |args| > 0 {
      var a := args[|args| - 1];
      SplitKeepsOthers(args[..|args| - 1]);
      OthersAppend(SplitAll(args[..|args| - 1]), Expand(a));
      if a.Str? {
        OthersOfTexts(ArgsOf(a.text));
      } else {
        assert Others([a]) == [a] by {
          assert [a][..0] == [];
        }
      }
    }
  }

  /** Splitting distributes over concatenation, so each argument is split on its own. */
  lemma {:induction false} SplitAllAppend(a: TemplatedString, b: TemplatedString)
    ensures SplitAll(a + b) == SplitAll(a) + SplitAll(b)
    decreases |b|
  {
    if |b| > 0 {
      assert (a + b)[..|a + b| - 1] == a + b[..|b| - 1];
      SplitAllAppend(a, b[..|b| - 1]);
    } else {
      assert a + b == a;
    }
  }

  // ---------------------------------------------------------------------
  // The loops.

  /** The inner `for` loop: read one argument of `s` from `start`, returning it and the index it stopped at. */
  method ReadArgAt(s: string, start: nat, quote: char, quoted: bool) returns (arg: string, e: nat)
    requires start <= |s|
    ensures start <= e <= |s|
    ensures arg == ReadArg(s[start..], quote, quoted, false).0
    ensures e - start == ReadArg(s[start..], quote, quoted, false).1
  {
    arg := "";
    e := start;
    var escaped := false;
    ghost var whole := ReadArg(s[start..], quote, quoted, false);
    assert "" + whole.0 == whole.0;
    assert whole == Prepend(whole, "", 0);
    while e < |s|
      invariant start <= e <= |s|
      invariant whole == Prepend(ReadArg(s[e..], quote, quoted, escaped), arg, e - start)
      decreases |s| - e
    {
      var stop, escaped', out := ReadStep(s, e, quote, quoted, escaped);
      if stop {
        break;
      }
      PrependTwice(ReadArg(s[e + 1..], quote, quoted, escaped'), out, arg, e - start);
      arg := arg + out;
      escaped := escaped';
      e := e + 1;
    }
    assert arg + "" == arg;
  }

  /** The outcome `r` of reading the rest, after `arg` was read from `n` characters. */
  function Prepend(r: (string, nat), arg: string, n: nat): (string, nat)
  {
    (arg + r.0, n + r.1)
  }

  lemma PrependTwice(r: (string, nat), out: string, arg: string, n: nat)
    ensures Prepend(Prepend(r, out, 1), arg, n) == Prepend(r, arg + out, n + 1)
  {
    assert arg + (out + r.0) == (arg + out) + r.0;
  }

  /** One character of the reading loop: whether it ends the argument, and otherwise what it adds and the escape state after it. */
  method ReadStep(s: string, e: nat, quote: char, quoted: bool, escaped: bool)
    returns (stop: bool, escaped': bool, out: string)
    requires e < |s|
    ensures stop ==> ReadArg(s[e..], quote, quoted, escaped) == ("", 0)
    ensures !stop ==> ReadArg(s[e..], quote, quoted, escaped)
                      == Prepend(ReadArg(s[e + 1..], quote, quoted, escaped'), out, 1)
  {
    var ch := s[e];
    ReadArgStep(s, e, quote, quoted, escaped);
    stop, escaped', out := false, false, [ch];
    if !escaped {
      if Stops(ch, quote, quoted) {
        stop := true;
      } else if ch == '\\' && quote == '"' {
        escaped', out := true, "";
        assert "" + ReadArg(s[e + 1..], quote, quoted, true).0 == ReadArg(s[e + 1..], quote, quoted, true).0;
      }
    }
  }

  /** One character of the reading loop, stated on the remaining text. */
  lemma ReadArgStep(s: string, e: nat, quote: char, quoted: bool, escaped: bool)
    requires e < |s|
    ensures var ch := s[e];
      var x := ReadArg(s[e + 1..], quote, quoted, false);
      var y := ReadArg(s[e + 1..], quote, quoted, true);
      ReadArg(s[e..], quote, quoted, escaped)
        == if !escaped && Stops(ch, quote, quoted) then ("", 0)
           else if !escaped && ch == '\\' && quote == '"' then (y.0, y.1 + 1)
           else ([ch] + x.0, x.1 + 1)
  {
    assert s[e..][0] == s[e] && s[e..][1..] == s[e + 1..];
  }

  /** One pass of the outer loop: skip white space, then read the argument there and step past its closing quote. */
  method NextArg(s: string, i: nat, words: seq<string>) returns (i': nat, words': seq<string>)
    requires i <= |s| && words + ArgsOf(s[i..]) == ArgsOf(s)
    ensures i < i' <= |s| || i' == i == |s|
    ensures words' + ArgsOf(s[i'..]) == ArgsOf(s)
  {
    words' := words;
    i' := SkipSpaces(s, i);
    if i' == |s| {
      return;
    }
    var taken, after := TakeArg(s, i');
    assert words' + (taken + ArgsOf(s[after..])) == (words' + taken) + ArgsOf(s[after..]);
    words' := words' + taken;
    i' := after;
  }

  /** The white space loop: the index of the first character at or after `i` that is not white space. */
  method SkipSpaces(s: string, i: nat) returns (j: nat)
    requires i <= |s|
    ensures i <= j <= |s| && (j < |s| ==> !IsSpace(s[j]))
    ensures forall k :: i <= k < j ==> IsSpace(s[k])
    ensures ArgsOf(s[j..]) == ArgsOf(s[i..])
  {
    j := i;
    while j < |s| && IsSpace(s[j])
      invariant i <= j <= |s|
      invariant forall k :: i <= k < j ==> IsSpace(s[k])
      decreases |s| - j
    {
      j := j + 1;
    }
    SpacesSkipped(s, i, j);
  }

  /** The argument that starts at `i`, none for an empty unquoted one, and the index after it and its closing quote. */
  method TakeArg(s: string, i: nat) returns (taken: seq<string>, after: nat)
    requires i < |s| && !IsSpace(s[i])
    ensures i < after <= |s|
    ensures ArgsOf(s[i..]) == taken + ArgsOf(s[after..])
  {
    var quote := s[i];
    var quoted := IsQuote(quote);
    var start := if quoted then i + 1 else i;
    var arg, e := ReadArgAt(s, start, quote, quoted);
    taken := if |arg| > 0 || quoted then [arg] else [];
    after := if quoted && e < |s| then e + 1 else e;
    ArgsStep(s, i, arg, e);
  }

  /** A run of white space in front changes nothing. */
  lemma {:induction false} SpacesSkipped(s: string, i: nat, j: nat)
    requires i <= j <= |s|
    requires forall k :: i <= k < j ==> IsSpace(s[k])
    ensures ArgsOf(s[j..]) == ArgsOf(s[i..])
    decreases j - i
  {
    if i < j {
      SkipSpace(s, i);
      SpacesSkipped(s, i + 1, j);
    }
  }

  /** White space in front changes nothing. */
  lemma SkipSpace(s: string, i: nat)
    requires i < |s| && IsSpace(s[i])
    ensures ArgsOf(s[i..]) == ArgsOf(s[i + 1..])
  {
    assert s[i..][1..] == s[i + 1..];
  }

  /** The arguments from `i` on are the ones taken there followed by the rest. */
  lemma ArgsTaken(s: string, i: nat)
    requires i < |s| && !IsSpace(s[i])
    ensures i + Taken(s[i..]).1 <= |s|
    ensures ArgsOf(s[i..]) == Taken(s[i..]).0 + ArgsOf(s[i + Taken(s[i..]).1..])
  {
    assert s[i..][Taken(s[i..]).1..] == s[i + Taken(s[i..]).1..];
  }

  /** What one pass of the outer loop takes: the argument read and the characters up to the index after it. */
  lemma ArgsStep(s: string, i: nat, arg: string, e: nat)
    requires i < |s| && !IsSpace(s[i])
    requires var start := if IsQuote(s[i]) then i + 1 else i;
      start <= e <= |s| && arg == ReadArg(s[start..], s[i], IsQuote(s[i]), false).0
      && e - start == ReadArg(s[start..], s[i], IsQuote(s[i]), false).1
    ensures var quoted := IsQuote(s[i]);
      var after := if quoted && e < |s| then e + 1 else e;
      i < after <= |s| && ArgsOf(s[i..]) == (if |arg| > 0 || quoted then [arg] else []) + ArgsOf(s[after..])
  {
    TakenAt(s, i, arg, e);
    ArgsTaken(s, i);
  }

  /** The argument `Taken` finds at `i` is the one read from the start of its text. */
  lemma TakenAt(s: string, i: nat, arg: string, e: nat)
    requires i < |s| && !IsSpace(s[i])
    requires var start := if IsQuote(s[i]) then i + 1 else i;
      start <= e <= |s| && arg == ReadArg(s[start..], s[i], IsQuote(s[i]), false).0
      && e - start == ReadArg(s[start..], s[i], IsQuote(s[i]), false).1
    ensures var quoted := IsQuote(s[i]);
      var after := if quoted && e < |s| then e + 1 else e;
      Taken(s[i..]).1 == after - i
      && Taken(s[i..]).0 == if |arg| > 0 || quoted then [arg] else []
  {
    var t := s[i..];
    assert t[0] == s[i];
    if IsQuote(s[i]) {
      assert t[1..] == s[i + 1..];
      var x := ReadArg(t[1..], t[0], true, false);
      assert x.0 == arg && x.1 == e - i - 1;
    } else {
      var x := ReadArg(t, t[0], false, false);
      assert x.0 == arg && x.1 == e - i;
    }
  }

  /** The outer loop over one text: the words it splits into. */
  method SplitText(s: string) returns (words: seq<string>)
    ensures words == ArgsOf(s)
  {
    words := [];
    var i := 0;
    while i < |s|
      invariant i <= |s| && words + ArgsOf(s[i..]) == ArgsOf(s)
      decreases |s| - i
    {
      i, words := NextArg(s, i, words);
    }
    assert s[i..] == [];
  }

  /** `command::command_line_split`: text arguments split in place of themselves, others kept, the tool unchanged. */
  method CommandLineSplit(cmd: Command) returns (result: Command)
    ensures result == CommandLineSplitOf(cmd)
    ensures result.tool == cmd.tool && Others(result.args) == Others(cmd.args)
  {
    var args: TemplatedString := [];
    for k := 0 to |cmd.args|
      invariant args == SplitAll(cmd.args[..k])
    {
      var a := cmd.args[k];
      assert cmd.args[..k + 1][..k] == cmd.args[..k];
      if !a.Str? {
        args := args + [a];
        continue;
      }
      var words := SplitText(a.text);
      args := args + Texts(words);
    }
    assert cmd.args[..|cmd.args|] == cmd.args;
    result := Command(cmd.tool, args);
    SplitKeepsOthers(cmd.args);
  }
}
