/**
 * The combining operators of the `cell` library: alternative (`a | b`),
 * sequence (`a >> b`), difference (`a - b`) and negation (`!a`).
 *
 * The operand packs of `alternative` and `sequence` are sequences of parsers
 * here; the fold expressions over the pack become loops over the sequence.
 */
module CellOperators {
  import opened Cell

  // ---------------------------------------------------------- alternative

  /** `alternative`: operands are tried in turn, each from wherever the previous failure left the position. */
  function Alt(ps: seq<Parser>, s: string, i: nat, on: bool): Step
    decreases |ps|
  {
    if |ps| == 0 then Step(false, i, [])
    else
      var st := ps[0](s, i, on);
      if st.ok then st
      else
        var rest := Alt(ps[1..], s, st.pos, on);
        Step(rest.ok, rest.pos, st.out + rest.out)
  }

  method Alternative(ps: seq<Parser>, s: string, first: nat, on: bool) returns (r: Step)
    ensures r == Alt(ps, s, first, on)
  {
    var pos := first;
    var out: seq<Emit> := [];
    for k := 0 to |ps|
      invariant Alt(ps, s, first, on) == Prefixed(out, Alt(ps[k..], s, pos, on))
    {
      var st := ps[k](s, pos, on);
      AltStep(ps, k, s, pos, on);
      if st.ok {
        return Step(true, st.pos, out + st.out);
      }
      PrefixedTwice(out, st.out, Alt(ps[k + 1..], s, st.pos, on));
      out := out + st.out;
      pos := st.pos;
    }
    assert out + [] == out;
    return Step(false, pos, out);
  }

  /** Trying operand `k` of the pack: its success ends the alternative, its failure hands over to the rest of the pack. */
  lemma AltStep(ps: seq<Parser>, k: nat, s: string, i: nat, on: bool)
    requires k < |ps|
    ensures var st := ps[k](s, i, on);
      Alt(ps[k..], s, i, on) == if st.ok then st else Prefixed(st.out, Alt(ps[k + 1..], s, st.pos, on))
  {
    assert ps[k..][1..] == ps[k + 1..];
  }

  /**
   * When no operand moves the position on failure, an alternative succeeds
   * exactly when one of its operands does, and then ends where the first
   * successful operand ends.
   */
  lemma {:induction false} AltOfRestoring(ps: seq<Parser>, s: string, i: nat, on: bool)
    requires i <= |s|
    requires forall k :: 0 <= k < |ps| ==> Restoring(ps[k])
    ensures Alt(ps, s, i, on).ok <==> exists k :: 0 <= k < |ps| && ps[k](s, i, on).ok
    ensures forall k :: 0 <= k < |ps| && ps[k](s, i, on).ok && (forall j :: 0 <= j < k ==> !ps[j](s, i, on).ok)
              ==> Alt(ps, s, i, on).pos == ps[k](s, i, on).pos
    decreases |ps|
  {
    if |ps| > 0 {
      var st := ps[0](s, i, on);
      if !st.ok {
        assert Restoring(ps[0]);
        assert st.pos == i;
        AltOfRestoring(ps[1..], s, i, on);
        forall k | 0 <= k < |ps| && ps[k](s, i, on).ok && (forall j :: 0 <= j < k ==> !ps[j](s, i, on).ok)
          ensures Alt(ps, s, i, on).pos == ps[k](s, i, on).pos
        {
          assert k > 0 && ps[1..][k - 1] == ps[k];
          assert forall j :: 0 <= j < k - 1 ==> ps[1..][j] == ps[j + 1];
        }
        if exists k :: 0 <= k < |ps| && ps[k](s, i, on).ok {
          var k :| 0 <= k < |ps| && ps[k](s, i, on).ok;
          assert ps[1..][k - 1] == ps[k];
        }
      }
    }
  }

  // ------------------------------------------------------------ sequence

  /** The operands of a sequence from `cur` on; any failure sends the position back to `save`. */
  function SeqFrom(ps: seq<Parser>, save: nat, s: string, cur: nat, on: bool): Step
    decreases |ps|
  {
    if |ps| == 0 then Step(true, cur, [])
    else
      var st := ps[0](s, cur, on);
      if !st.ok then Step(false, save, st.out)
      else
        var rest := SeqFrom(ps[1..], save, s, st.pos, on);
        Step(rest.ok, rest.pos, st.out + rest.out)
  }

  /** `sequence`: every operand in turn, each from where the previous one ended. */
  function Seq(ps: seq<Parser>, s: string, i: nat, on: bool): Step
  {
    SeqFrom(ps, i, s, i, on)
  }

  method Sequence(ps: seq<Parser>, s: string, first: nat, on: bool) returns (r: Step)
    ensures r == Seq(ps, s, first, on)
  {
    var save := first;
    var pos := first;
    var out: seq<Emit> := [];
    for k := 0 to |ps|
      invariant Seq(ps, s, first, on) == Step(SeqFrom(ps[k..], save, s, pos, on).ok, SeqFrom(ps[k..], save, s, pos, on).pos, out + SeqFrom(ps[k..], save, s, pos, on).out)
    {
      assert ps[k..][1..] == ps[k + 1..];
      var st := ps[k](s, pos, on);
      if !st.ok {
        return Step(false, save, out + st.out);
      }
      ghost var before := out;
      out := out + st.out;
      pos := st.pos;
      assert before + (st.out + SeqFrom(ps[k + 1..], save, s, pos, on).out) == out + SeqFrom(ps[k + 1..], save, s, pos, on).out;
    }
    assert out + [] == out;
    return Step(true, pos, out);
  }

  /** A failed sequence always puts the position back where it started. */
  lemma {:induction false} SeqFromRestores(ps: seq<Parser>, save: nat, s: string, cur: nat, on: bool)
    ensures !SeqFrom(ps, save, s, cur, on).ok ==> SeqFrom(ps, save, s, cur, on).pos == save
    decreases |ps|
  {
    if |ps| > 0 {
      var st := ps[0](s, cur, on);
      if st.ok { SeqFromRestores(ps[1..], save, s, st.pos, on); }
    }
  }

  /** A successful sequence of forward parsers ends no earlier than it started and within the text. */
  lemma {:induction false} SeqFromForward(ps: seq<Parser>, save: nat, s: string, cur: nat, on: bool)
    requires cur <= |s| && forall k :: 0 <= k < |ps| ==> Forward(ps[k])
    ensures SeqFrom(ps, save, s, cur, on).ok ==> cur <= SeqFrom(ps, save, s, cur, on).pos <= |s|
    decreases |ps|
  {
    if |ps| > 0 {
      assert Forward(ps[0]);
      var st := ps[0](s, cur, on);
      if st.ok {
        SeqFromForward(ps[1..], save, s, st.pos, on);
      }
    }
  }

  /** A sequence is Restoring whatever its operands, so it may stand in an alternative that relies on that. */
  lemma SeqRestoring(ps: seq<Parser>)
    ensures Restoring((s: string, i: nat, on: bool) => Seq(ps, s, i, on))
  {
    forall s: string, i: nat, on: bool | i <= |s| && !Seq(ps, s, i, on).ok
      ensures Seq(ps, s, i, on).pos == i
    {
      SeqFromRestores(ps, i, s, i, on);
    }
  }

  // ---------------------------------------------------------- difference

  /** `difference`: if the right side matches, fail where we started; otherwise parse the left side from where the right side gave up. */
  function Diff(left: Parser, right: Parser, s: string, i: nat, on: bool): (r: Step)
  {
    var rt := right(s, i, on);
    if rt.ok then Step(false, i, rt.out)
    else
      var lt := left(s, rt.pos, on);
      Step(lt.ok, lt.pos, rt.out + lt.out)
  }

  /** With a right side that does not move on failure, `left - right` is `left` wherever `right` does not match, and fails in place elsewhere. */
  lemma DiffMeaning(left: Parser, right: Parser, s: string, i: nat, on: bool)
    requires i <= |s| && Restoring(right)
    ensures var r := Diff(left, right, s, i, on);
      (right(s, i, on).ok ==> !r.ok && r.pos == i)
      && (!right(s, i, on).ok ==> r.ok == left(s, i, on).ok && r.pos == left(s, i, on).pos)
  {
  }

  // ------------------------------------------------------------- negation

  /** `not_parser`: the subject's outcome inverted; the position stays wherever the subject left it. */
  function Not(p: Parser, s: string, i: nat, on: bool): Step
  {
    var st := p(s, i, on);
    Step(!st.ok, st.pos, st.out)
  }

  /** Negating twice gives the subject back. */
  lemma NotNot(p: Parser, s: string, i: nat, on: bool)
    ensures Not((s': string, i': nat, on': bool) => Not(p, s', i', on'), s, i, on) == p(s, i, on)
  {
  }
}
