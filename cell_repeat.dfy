/**
 * The repetition operators of the `cell` library: `*p`, `+p`, `-p`,
 * `repeat(n)(p)`, `repeat(n, inf)(p)` and `repeat(lo, hi)(p)`.
 *
 * None of them puts the position back when they fail: a failed attempt of the
 * subject leaves the position wherever that attempt left it.
 */
module CellRepeat {
  import opened Cell

  /**
   * `zero_or_more`: the subject again and again until it fails. The library
   * loops forever on a subject that succeeds without consuming input, so the
   * method below asks for a progressive subject; the function stops there.
   */
  function Star(p: Parser, s: string, i: nat, on: bool): (r: Step)
    decreases |s| - i
  {
    var st := p(s, i, on);
    if st.ok && i < st.pos <= |s| then
      var rest := Star(p, s, st.pos, on);
      Step(true, rest.pos, st.out + rest.out)
    else Step(true, st.pos, st.out)
  }

  method ZeroOrMore(p: Parser, s: string, first: nat, on: bool) returns (r: Step)
    requires first <= |s| && Forward(p) && Progressive(p)
    ensures r.ok && first <= r.pos <= |s|
    ensures r == Star(p, s, first, on)
  {
    var pos := first;
    var out: seq<Emit> := [];
    var st := p(s, pos, on);
    while st.ok
      invariant first <= pos <= |s|
      invariant st == p(s, pos, on)
      invariant Star(p, s, first, on) == After(out, Star(p, s, pos, on))
      decreases |s| - pos
    {
      Advances(p, s, pos, on);
      StarStep(p, s, pos, on);
      AfterTwice(out, st.out, Star(p, s, st.pos, on));
      out := out + st.out;
      pos := st.pos;
      st := p(s, pos, on);
    }
    Forwards(p, s, pos, on);
    return Step(true, st.pos, out + st.out);
  }

  /** A successful outcome whose reports are preceded by `out`. */
  function After(out: seq<Emit>, r: Step): Step
  {
    Step(true, r.pos, out + r.out)
  }

  lemma AfterTwice(a: seq<Emit>, b: seq<Emit>, r: Step)
    ensures After(a, After(b, r)) == After(a + b, r)
  {
    assert a + (b + r.out) == (a + b) + r.out;
  }

  lemma Forwards(p: Parser, s: string, i: nat, on: bool)
    requires i <= |s| && Forward(p)
    ensures i <= p(s, i, on).pos <= |s|
  {
  }

  lemma Advances(p: Parser, s: string, i: nat, on: bool)
    requires i <= |s| && Forward(p) && Progressive(p) && p(s, i, on).ok
    ensures i < p(s, i, on).pos <= |s|
  {
  }

  lemma StarStep(p: Parser, s: string, i: nat, on: bool)
    requires i < p(s, i, on).pos <= |s| && p(s, i, on).ok
    ensures var st := p(s, i, on);
      Star(p, s, i, on) == After(st.out, Star(p, s, st.pos, on))
  {
  }

  /** `one_or_more`: one attempt that must succeed, then as `zero_or_more`. */
  function Plus(p: Parser, s: string, i: nat, on: bool): Step
  {
    var st := p(s, i, on);
    if !st.ok then st
    else
      var rest := Star(p, s, st.pos, on);
      Step(true, rest.pos, st.out + rest.out)
  }

  method OneOrMore(p: Parser, s: string, first: nat, on: bool) returns (r: Step)
    requires first <= |s| && Forward(p) && Progressive(p)
    ensures r.ok <==> p(s, first, on).ok
    ensures r == Plus(p, s, first, on)
  {
    var st := p(s, first, on);
    if !st.ok {
      return st;
    }
    var rest := ZeroOrMore(p, s, st.pos, on);
    return Step(true, rest.pos, st.out + rest.out);
  }

  /** `zero_or_one`: one attempt, whose failure is ignored (but whose movement is kept). */
  function Opt(p: Parser, s: string, i: nat, on: bool): Step
  {
    var st := p(s, i, on);
    Step(true, st.pos, st.out)
  }

  /** `exactly(n)`: the subject `n` times in a row; the first failure fails the whole. */
  function Exactly(p: Parser, n: nat, s: string, i: nat, on: bool): Step
    decreases n
  {
    if n == 0 then Step(true, i, [])
    else
      var st := p(s, i, on);
      if !st.ok then st
      else
        var rest := Exactly(p, n - 1, s, st.pos, on);
        Step(rest.ok, rest.pos, st.out + rest.out)
  }

  method ExactlyN(p: Parser, count: nat, s: string, first: nat, on: bool) returns (r: Step)
    ensures r == Exactly(p, count, s, first, on)
  {
    var pos := first;
    var out: seq<Emit> := [];
    for n := 0 to count
      invariant Exactly(p, count, s, first, on) == Step(Exactly(p, count - n, s, pos, on).ok, Exactly(p, count - n, s, pos, on).pos, out + Exactly(p, count - n, s, pos, on).out)
    {
      var st := p(s, pos, on);
      if !st.ok {
        return Step(false, st.pos, out + st.out);
      }
      ghost var before := out;
      out := out + st.out;
      pos := st.pos;
      assert before + (st.out + Exactly(p, count - n - 1, s, pos, on).out) == out + Exactly(p, count - n - 1, s, pos, on).out;
    }
    assert out + [] == out;
    return Step(true, pos, out);
  }

  /** Running `a` then `b` repetitions is running `a + b` of them. */
  lemma {:induction false} ExactlyAdd(p: Parser, a: nat, b: nat, s: string, i: nat, on: bool)
    ensures var x := Exactly(p, a, s, i, on);
      Exactly(p, a + b, s, i, on)
        == if x.ok then
             var y := Exactly(p, b, s, x.pos, on);
             Step(y.ok, y.pos, x.out + y.out)
           else x
    decreases a
  {
    if a > 0 {
      var st := p(s, i, on);
      if st.ok {
        ExactlyAdd(p, a - 1, b, s, st.pos, on);
        var x := Exactly(p, a - 1, s, st.pos, on);
        if x.ok {
          var y := Exactly(p, b, s, x.pos, on);
          assert st.out + (x.out + y.out) == (st.out + x.out) + y.out;
        }
      }
    } else {
      assert [] + Exactly(p, b, s, i, on).out == Exactly(p, b, s, i, on).out;
    }
  }

  /** A successful `exactly(n)` of a progressive subject consumed at least `n` characters. */
  lemma {:induction false} ExactlyConsumes(p: Parser, n: nat, s: string, i: nat, on: bool)
    requires i <= |s| && Forward(p) && Progressive(p)
    ensures var r := Exactly(p, n, s, i, on);
      r.ok ==> i + n <= r.pos <= |s|
    decreases n
  {
    if n > 0 {
      var st := p(s, i, on);
      if st.ok {
        ExactlyConsumes(p, n - 1, s, st.pos, on);
      }
    }
  }

  /** `at_least(n)` (`repeat(n, inf)`): `n` required repetitions, then as many more as succeed. */
  function AtLeast(p: Parser, n: nat, s: string, i: nat, on: bool): Step
  {
    var e := Exactly(p, n, s, i, on);
    if !e.ok then e
    else
      var rest := Star(p, s, e.pos, on);
      Step(true, rest.pos, e.out + rest.out)
  }

  method AtLeastN(p: Parser, count: nat, s: string, first: nat, on: bool) returns (r: Step)
    requires first <= |s| && Forward(p) && Progressive(p)
    ensures r.ok <==> Exactly(p, count, s, first, on).ok
    ensures r == AtLeast(p, count, s, first, on)
  {
    var e := ExactlyN(p, count, s, first, on);
    if !e.ok {
      return e;
    }
    ExactlyConsumes(p, count, s, first, on);
    var rest := ZeroOrMore(p, s, e.pos, on);
    return Step(true, rest.pos, e.out + rest.out);
  }

  /** `*p` is `repeat(0, inf)(p)` and `+p` is `repeat(1, inf)(p)`. */
  lemma StarPlusAreAtLeast(p: Parser, s: string, i: nat, on: bool)
    ensures AtLeast(p, 0, s, i, on) == Star(p, s, i, on)
    ensures AtLeast(p, 1, s, i, on) == Plus(p, s, i, on)
  {
    assert [] + Star(p, s, i, on).out == Star(p, s, i, on).out;
    var st := p(s, i, on);
    if st.ok {
      assert Exactly(p, 0, s, st.pos, on) == Step(true, st.pos, []);
      assert st.out + [] == st.out;
    }
  }

  /** The optional part of `between`: up to `m` more attempts, stopping quietly at the first failure. */
  function UpTo(p: Parser, m: nat, s: string, i: nat, on: bool): Step
    decreases m
  {
    if m == 0 then Step(true, i, [])
    else
      var st := p(s, i, on);
      if !st.ok then Step(true, st.pos, st.out)
      else
        var rest := UpTo(p, m - 1, s, st.pos, on);
        Step(true, rest.pos, st.out + rest.out)
  }

  /** `between` (`repeat(lo, hi)`): `lo` required repetitions, then up to `hi` in all. */
  function Between(p: Parser, lower: nat, upper: nat, s: string, i: nat, on: bool): Step
  {
    var e := Exactly(p, lower, s, i, on);
    if !e.ok then e
    else
      var rest := UpTo(p, if upper > lower then upper - lower else 0, s, e.pos, on);
      Step(true, rest.pos, e.out + rest.out)
  }

  method BetweenN(p: Parser, lower: nat, upper: nat, s: string, first: nat, on: bool) returns (r: Step)
    ensures r.ok <==> Exactly(p, lower, s, first, on).ok
    ensures r == Between(p, lower, upper, s, first, on)
  {
    var e := ExactlyN(p, lower, s, first, on);
    if !e.ok {
      return e;
    }
    var pos := e.pos;
    var out := e.out;
    var m := if upper > lower then upper - lower else 0;
    var n := lower;
    while n < upper
      invariant lower <= n && n - lower <= m
      invariant Between(p, lower, upper, s, first, on) == Step(true, UpTo(p, m - (n - lower), s, pos, on).pos, out + UpTo(p, m - (n - lower), s, pos, on).out)
    {
      var st := p(s, pos, on);
      if !st.ok {
        pos := st.pos;
        out := out + st.out;
        return Step(true, pos, out);
      }
      ghost var before := out;
      out := out + st.out;
      pos := st.pos;
      assert before + (st.out + UpTo(p, m - (n - lower) - 1, s, pos, on).out) == out + UpTo(p, m - (n - lower) - 1, s, pos, on).out;
      n := n + 1;
    }
    assert out + [] == out;
    return Step(true, pos, out);
  }

  /** `repeat(n, n)` is `repeat(n)`, and `repeat(0, 1)` is `-p`. */
  lemma BetweenSpecialCases(p: Parser, n: nat, s: string, i: nat, on: bool)
    ensures Between(p, n, n, s, i, on) == Exactly(p, n, s, i, on)
    ensures Between(p, 0, 1, s, i, on) == Opt(p, s, i, on)
  {
    var e := Exactly(p, n, s, i, on);
    if e.ok {
      assert e.out + [] == e.out;
    }
    var st := p(s, i, on);
    assert [] + UpTo(p, 1, s, i, on).out == UpTo(p, 1, s, i, on).out;
    if st.ok {
      assert st.out + [] == st.out;
    }
  }

  /** `repeat(2)(ch('a'))` over "ab" fails with the position left after the one 'a' it matched. */
  lemma ExactlyDoesNotRestore(skip: Parser)
    requires forall s: string, j: nat, o: bool :: !skip(s, j, o).ok
    ensures var a := (s: string, i: nat, on: bool) => LitChar('a', skip, s, i, on);
      var r := Exactly(a, 2, "ab", 0, true);
      !r.ok && r.pos == 1
  {
    assert Filtered(skip, "ab", 0, true).0 == 0;
    assert Filtered(skip, "ab", 1, true).0 == 1;
  }
}
