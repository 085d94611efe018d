/**
 * The Graphviz back end: `dependencies.dot`, a node per target that is not
 * a directory, and edges to the nodes of its inputs.
 */
module Dot {
  import opened Wrappers
  import opened Strings
  import opened Generator
  import Ninja

  // ---------------------------------------------------------- nodes

  /** `name2shape`: the node shape of a rule; empty for the default shape. */
  function Shape(name: RuleName): string
  {
    match name
    case Unnamed => "house"
    case Custom(_) => ""
    case Builtin(t) =>
      match t
      case Mkdir => ""
      case Compile => ""
      case EmitBmi => "hexagon"
      case EmitInclude => ""
      case LinkStatic => "septagon"
      case LinkSo => "pentagon"
      case LinkMod => "octagon"
      case LinkExecutable => "rect"
  }

  /**
   * Module interfaces are hexagons, archives septagons, shared libraries
   * pentagons, module libraries octagons, executables rectangles and
   * unnamed rules houses; everything else keeps the default shape.
   */
  lemma ShapeMeaning(name: RuleName)
    ensures Shape(Builtin(EmitBmi)) == "hexagon" && Shape(Builtin(Archive)) == "septagon"
    ensures Shape(Builtin(LinkSo)) == "pentagon" && Shape(Builtin(LinkMod)) == "octagon"
    ensures Shape(Builtin(LinkExecutable)) == "rect" && Shape(Unnamed) == "house"
    ensures Shape(name) == "" <==>
      name.Custom? || name == Builtin(Mkdir) || name == Builtin(Compile) || name == Builtin(EmitInclude)
  {
  }

  /** The identifier of the `n`th node: "node" and the number in decimal. */
  function NodeId(n: nat): string
  {
    "node" + NatToString(n)
  }

  /** Different numbers give different identifiers. */
  lemma NodeIdsDistinct(n: nat, m: nat)
    requires n != m
    ensures NodeId(n) != NodeId(m)
  {
    if NodeId(n) == NodeId(m) {
      assert NodeId(n)[4..] == NatToString(n);
      assert NodeId(m)[4..] == NatToString(m);
      DecimalRoundTrip(n);
      DecimalRoundTrip(m);
    }
  }

  /** How many nodes the targets give: one per target that is not ignorable. */
  function NodeCount(targets: seq<Target>): nat
  {
    if |targets| == 0 then 0
    else NodeCount(targets[..|targets| - 1]) + (if Ninja.Ignorable(targets[|targets| - 1].rule) then 0 else 1)
  }

  /** `nodeIds`: each main output with the number of the last target that made it a node. */
  function Nodes(targets: seq<Target>): map<Artifact, nat>
  {
    if |targets| == 0 then map[]
    else
      var t := targets[|targets| - 1];
      if Ninja.Ignorable(t.rule) then Nodes(targets[..|targets| - 1])
      else Nodes(targets[..|targets| - 1])[t.mainOutput := NodeCount(targets)]
  }

  /**
   * An artifact has a node exactly when a target that is not ignorable
   * outputs it; its number is that of the last such target.
   */
  lemma {:induction false} NodesMeaning(targets: seq<Target>, a: Artifact)
    ensures a in Nodes(targets) <==>
      exists i :: 0 <= i < |targets| && !Ninja.Ignorable(targets[i].rule) && targets[i].mainOutput == a
    ensures a in Nodes(targets) ==>
      exists i :: 0 <= i < |targets| && !Ninja.Ignorable(targets[i].rule) && targets[i].mainOutput == a
        && Nodes(targets)[a] == NodeCount(targets[..i + 1])
        && forall j :: i < j < |targets| && !Ninja.Ignorable(targets[j].rule) ==> targets[j].mainOutput != a
  {
    NodesHas(targets, a);
    if a in Nodes(targets) {
      NodesNumber(targets, a);
      var i :| LastOutput(targets, a, i) && Nodes(targets)[a] == NodeCount(targets[..i + 1]);
    }
  }

  /** An artifact has a node exactly when a target that is not ignorable outputs it. */
  lemma {:induction false} NodesHas(targets: seq<Target>, a: Artifact)
    ensures a in Nodes(targets) <==>
      exists i :: 0 <= i < |targets| && !Ninja.Ignorable(targets[i].rule) && targets[i].mainOutput == a
  {
    if |targets| > 0 {
      var n := |targets|;
      var init := targets[..n - 1];
      NodesHas(init, a);
      forall i | 0 <= i < n - 1
        ensures init[i] == targets[i]
      {
      }
    }
  }

  /** `targets[i]` is the last target that is not ignorable and outputs `a`. */
  predicate LastOutput(targets: seq<Target>, a: Artifact, i: nat)
  {
    i < |targets| && !Ninja.Ignorable(targets[i].rule) && targets[i].mainOutput == a
    && forall j :: i < j < |targets| && !Ninja.Ignorable(targets[j].rule) ==> targets[j].mainOutput != a
  }

  /** The node's number is the count up to the last target that outputs the artifact. */
  lemma {:induction false} NodesNumber(targets: seq<Target>, a: Artifact)
    requires a in Nodes(targets)
    ensures exists i :: LastOutput(targets, a, i) && Nodes(targets)[a] == NodeCount(targets[..i + 1])
  {
    var n := |targets|;
    var init := targets[..n - 1];
    var t := targets[n - 1];
    if !Ninja.Ignorable(t.rule) && t.mainOutput == a {
      assert targets[..n] == targets;
      assert LastOutput(targets, a, n - 1);
    } else {
      assert a in Nodes(init) && Nodes(targets)[a] == Nodes(init)[a];
      NodesNumber(init, a);
      var i :| LastOutput(init, a, i) && Nodes(init)[a] == NodeCount(init[..i + 1]);
      assert init[..i + 1] == targets[..i + 1];
      LastOutputKept(targets, a, i);
    }
  }

  /** A last target before one more that does not output the artifact stays the last. */
  lemma LastOutputKept(targets: seq<Target>, a: Artifact, i: nat)
    requires |targets| > 0 && LastOutput(targets[..|targets| - 1], a, i)
    requires Ninja.Ignorable(targets[|targets| - 1].rule) || targets[|targets| - 1].mainOutput != a
    ensures LastOutput(targets, a, i)
  {
    var init := targets[..|targets| - 1];
    forall j | i < j < |targets| && !Ninja.Ignorable(targets[j].rule)
      ensures targets[j].mainOutput != a
    {
      if j < |targets| - 1 {
        assert init[j] == targets[j];
      }
    }
  }

  /** Counting over one more target. */
  lemma NodeCountStep(targets: seq<Target>, i: nat)
    requires i < |targets|
    ensures NodeCount(targets[..i + 1]) == NodeCount(targets[..i]) + (if Ninja.Ignorable(targets[i].rule) then 0 else 1)
  {
    assert targets[..i + 1][..i] == targets[..i];
  }

  /** The count never drops along the list. */
  lemma {:induction false} NodeCountGrows(targets: seq<Target>, i: nat, j: nat)
    requires i <= j <= |targets|
    ensures NodeCount(targets[..i]) <= NodeCount(targets[..j])
    decreases j - i
  {
    if i < j {
      NodeCountStep(targets, j - 1);
      NodeCountGrows(targets, i, j - 1);
    }
  }

  /**
   * Nodes are numbered 1, 2, … in the order of the targets that are not
   * ignorable: each such target's number is one more than the count before
   * it, and a later one has a larger number.
   */
  lemma NodeNumbersInOrder(targets: seq<Target>, i: nat, j: nat)
    requires i < j < |targets|
    requires !Ninja.Ignorable(targets[i].rule) && !Ninja.Ignorable(targets[j].rule)
    ensures NodeCount(targets[..i + 1]) == NodeCount(targets[..i]) + 1
    ensures NodeCount(targets[..i + 1]) < NodeCount(targets[..j + 1])
  {
    NodeCountStep(targets, i);
    NodeCountStep(targets, j);
    NodeCountGrows(targets, i + 1, j);
  }

  /** The `shape` attribute, when the rule has a shape. */
  function ShapeAttr(name: RuleName): string
  {
    if Shape(name) == "" then "" else "\" shape=\"" + Shape(name)
  }

  /** The node line of a target: its number, its main output as label, its shape. */
  function NodeLine(t: Target, n: nat): string
  {
    "    " + NodeId(n) + " [label=\"" + t.mainOutput.Path() + ShapeAttr(t.rule) + "\"]\n"
  }

  /** The node lines of the first target loop. */
  function NodeLines(targets: seq<Target>): string
  {
    if |targets| == 0 then ""
    else
      var t := targets[|targets| - 1];
      NodeLines(targets[..|targets| - 1]) + (if Ninja.Ignorable(t.rule) then "" else NodeLine(t, NodeCount(targets)))
  }

  /** One turn of the first target loop. */
  method NodeStep(t: Target, ignored0: set<Artifact>, nodes0: map<Artifact, nat>, counter0: nat)
    returns (line: string, ignored: set<Artifact>, nodes: map<Artifact, nat>, counter: nat)
    ensures Ninja.Ignorable(t.rule) ==>
      line == "" && ignored == ignored0 + Ninja.OutputsOf(t) && nodes == nodes0 && counter == counter0
    ensures !Ninja.Ignorable(t.rule) ==>
      line == NodeLine(t, counter0 + 1) && ignored == ignored0 && nodes == nodes0[t.mainOutput := counter0 + 1] && counter == counter0 + 1
  {
    ignored, nodes, counter := ignored0, nodes0, counter0;
    if Ninja.Ignorable(t.rule) {
      ignored := ignored + {t.mainOutput};
      ignored := ignored + (set a | a in t.outputs.expl);
      ignored := ignored + (set a | a in t.outputs.impl);
      ignored := ignored + (set a | a in t.outputs.order);
      return "", ignored, nodes, counter;
    }
    counter := counter + 1;
    var nodeId := "node" + NatToString(counter);
    line := "    " + nodeId + " [label=\"" + t.mainOutput.Path();
    var shape := Shape(t.rule);
    if shape != "" {
      line := line + "\" shape=\"" + shape;
    }
    line := line + "\"]\n";
    nodes := nodes[t.mainOutput := counter];
  }

  /** The first target loop of `dot::generate`: node lines, the `ignored` set and `nodeIds`. */
  method WriteNodes(targets: seq<Target>) returns (text: string, ignored: set<Artifact>, nodes: map<Artifact, nat>)
    ensures text == NodeLines(targets) && ignored == Ninja.Ignored(targets) && nodes == Nodes(targets)
  {
    text, ignored, nodes := "", {}, map[];
    var counter := 0;
    for k := 0 to |targets|
      invariant text == NodeLines(targets[..k]) && ignored == Ninja.Ignored(targets[..k])
      invariant nodes == Nodes(targets[..k]) && counter == NodeCount(targets[..k])
    {
      assert targets[..k + 1][..k] == targets[..k];
      var line;
      line, ignored, nodes, counter := NodeStep(targets[k], ignored, nodes, counter);
      text := text + line;
    }
    assert targets[..|targets|] == targets;
  }

  // ---------------------------------------------------------- edges

  /** The node identifiers, each after a space. */
  function Ids(ns: seq<nat>): string
  {
    if |ns| == 0 then "" else Ids(ns[..|ns| - 1]) + " " + NodeId(ns[|ns| - 1])
  }

  /** The start of an edge line and its destinations, or nothing while there is no destination. */
  function Opened(head: string, ns: seq<nat>): string
  {
    if |ns| == 0 then "" else head + Ids(ns)
  }

  /** The destinations of the solid edges: the inputs that are not ignored and have a node. */
  function SolidDests(xs: seq<Artifact>, ignored: set<Artifact>, nodes: map<Artifact, nat>): seq<nat>
  {
    if |xs| == 0 then []
    else
      var x := xs[|xs| - 1];
      SolidDests(xs[..|xs| - 1], ignored, nodes) + (if x in ignored || x !in nodes then [] else [nodes[x]])
  }

  /** A number is a solid destination exactly when some input that is not ignored has it as its node. */
  lemma {:induction false} SolidDestsMeaning(xs: seq<Artifact>, ignored: set<Artifact>, nodes: map<Artifact, nat>)
    ensures forall n :: n in SolidDests(xs, ignored, nodes) <==>
      exists x :: x in xs && x !in ignored && x in nodes && nodes[x] == n
  {
    if |xs| > 0 {
      var init := xs[..|xs| - 1];
      SolidDestsMeaning(init, ignored, nodes);
      assert xs == init + [xs[|xs| - 1]];
    }
  }

  /** Does the target output `x`, in any of its lists? */
  predicate Produces(t: Target, x: Artifact)
  {
    t.mainOutput == x || x in t.outputs.impl || x in t.outputs.order || x in t.outputs.expl
  }

  /** The search of the order-only loop: the first target producing `x`. */
  function FirstProducer(targets: seq<Target>, x: Artifact): Option<Target>
  {
    if |targets| == 0 then None
    else if Produces(targets[0], x) then Some(targets[0])
    else FirstProducer(targets[1..], x)
  }

  /** The search finds the earliest producer, or nothing when no target produces `x`. */
  lemma {:induction false} FirstProducerMeaning(targets: seq<Target>, x: Artifact)
    ensures FirstProducer(targets, x).None? <==> forall i :: 0 <= i < |targets| ==> !Produces(targets[i], x)
    ensures FirstProducer(targets, x).Some? ==>
      exists j :: 0 <= j < |targets| && targets[j] == FirstProducer(targets, x).value && Produces(targets[j], x)
        && forall i :: 0 <= i < j ==> !Produces(targets[i], x)
  {
    if |targets| > 0 && !Produces(targets[0], x) {
      FirstProducerMeaning(targets[1..], x);
      if FirstProducer(targets, x).Some? {
        var j :| 0 <= j < |targets| - 1 && targets[1..][j] == FirstProducer(targets, x).value && Produces(targets[1..][j], x)
          && forall i :: 0 <= i < j ==> !Produces(targets[1..][i], x);
        assert targets[j + 1] == targets[1..][j];
        forall i | 0 <= i < j + 1
          ensures !Produces(targets[i], x)
        {
          if i > 0 {
            assert targets[i] == targets[1..][i - 1];
          }
        }
      } else {
        forall i | 0 <= i < |targets|
          ensures !Produces(targets[i], x)
        {
          if i > 0 {
            assert targets[i] == targets[1..][i - 1];
          }
        }
      }
    }
  }

  /** The node an order-only input stands for: its own, else that of the first target producing it. */
  function Resolve(targets: seq<Target>, nodes: map<Artifact, nat>, x: Artifact): Option<nat>
  {
    if x in nodes then Some(nodes[x])
    else match FirstProducer(targets, x)
      case None => None
      case Some(other) => if other.mainOutput in nodes then Some(nodes[other.mainOutput]) else None
  }

  /**
   * An input with a node resolves to it; one without resolves to the node
   * of the first target producing it, and to nothing when that target has
   * no node or no target produces it.
   */
  lemma ResolveMeaning(targets: seq<Target>, nodes: map<Artifact, nat>, x: Artifact)
    ensures x in nodes ==> Resolve(targets, nodes, x) == Some(nodes[x])
    ensures x !in nodes && Resolve(targets, nodes, x).Some? ==>
      exists j :: 0 <= j < |targets| && Produces(targets[j], x) && (forall i :: 0 <= i < j ==> !Produces(targets[i], x))
        && targets[j].mainOutput in nodes && Resolve(targets, nodes, x) == Some(nodes[targets[j].mainOutput])
    ensures x !in nodes && (forall i :: 0 <= i < |targets| ==> !Produces(targets[i], x)) ==> Resolve(targets, nodes, x).None?
  {
    FirstProducerMeaning(targets, x);
  }

  /** The destinations of the dashed edges: the order-only inputs that are not ignored and resolve. */
  function OrderDests(targets: seq<Target>, xs: seq<Artifact>, ignored: set<Artifact>, nodes: map<Artifact, nat>): seq<nat>
  {
    if |xs| == 0 then []
    else
      var x := xs[|xs| - 1];
      OrderDests(targets, xs[..|xs| - 1], ignored, nodes)
      + (if x in ignored || Resolve(targets, nodes, x).None? then [] else [Resolve(targets, nodes, x).value])
  }

  /** The solid edge line: written only when some destination resolves, with the edge text as label. */
  function SolidLine(src: nat, dests: seq<nat>, edge: string): string
  {
    if |dests| == 0 then ""
    else "    " + NodeId(src) + " -> {" + Ids(dests) + " }" + (if edge == "" then "" else " [label=\"" + edge + "\"]") + "\n"
  }

  /** The dashed edge line of the order-only inputs. */
  function DashedLine(src: nat, dests: seq<nat>): string
  {
    if |dests| == 0 then "" else "    " + NodeId(src) + " -> {" + Ids(dests) + " } [style=dashed]\n"
  }

  /** The edges of one target, from its node; none for an ignorable target or one without a node. */
  function EdgeLines(targets: seq<Target>, ignored: set<Artifact>, nodes: map<Artifact, nat>, t: Target): string
  {
    if Ninja.Ignorable(t.rule) || t.mainOutput !in nodes then ""
    else
      var src := nodes[t.mainOutput];
      SolidLine(src, SolidDests(t.inputs.expl + t.inputs.impl, ignored, nodes), t.edge)
      + DashedLine(src, OrderDests(targets, t.inputs.order, ignored, nodes))
  }

  /**
   * A solid edge line is written exactly when some explicit or implicit
   * input is neither ignored nor without a node; a dashed one exactly when
   * some order-only input survives and resolves, and it is marked dashed.
   */
  lemma EdgeLinesMeaning(targets: seq<Target>, ignored: set<Artifact>, nodes: map<Artifact, nat>, src: nat, t: Target)
    ensures SolidLine(src, SolidDests(t.inputs.expl + t.inputs.impl, ignored, nodes), t.edge) == "" <==>
      forall x :: x in t.inputs.expl + t.inputs.impl ==> x in ignored || x !in nodes
    ensures var line := DashedLine(src, OrderDests(targets, t.inputs.order, ignored, nodes));
      line != "" ==> |line| >= 18 && line[|line| - 18..] == " } [style=dashed]\n"
  {
    var xs := t.inputs.expl + t.inputs.impl;
    var dests := SolidDests(xs, ignored, nodes);
    SolidDestsMeaning(xs, ignored, nodes);
    forall x | x in xs && x !in ignored && x in nodes
      ensures nodes[x] in dests
    {
    }
    if |dests| > 0 {
      assert dests[0] in dests;
    }
    var order := OrderDests(targets, t.inputs.order, ignored, nodes);
    if |order| > 0 {
      var line := DashedLine(src, order);
      var head := "    " + NodeId(src) + " -> {" + Ids(order);
      assert line == head + " } [style=dashed]\n";
      assert line[|head|..] == " } [style=dashed]\n";
    }
  }

  /** Keeping the next input's destination. */
  lemma SolidStep(base: seq<Artifact>, xs: seq<Artifact>, k: nat, ignored: set<Artifact>, nodes: map<Artifact, nat>)
    requires k < |xs|
    ensures xs[k] in ignored || xs[k] !in nodes ==>
      SolidDests(base + xs[..k + 1], ignored, nodes) == SolidDests(base + xs[..k], ignored, nodes)
    ensures xs[k] !in ignored && xs[k] in nodes ==>
      SolidDests(base + xs[..k + 1], ignored, nodes) == SolidDests(base + xs[..k], ignored, nodes) + [nodes[xs[k]]]
  {
    assert (base + xs[..k + 1])[..|base| + k] == base + xs[..k];
    assert (base + xs[..k + 1])[|base| + k] == xs[k];
    assert SolidDests(base + xs[..k], ignored, nodes) + [] == SolidDests(base + xs[..k], ignored, nodes);
  }

  /** Naming one more destination. */
  lemma OpenedSnoc(head: string, ns: seq<nat>, n: nat)
    ensures Opened(head, ns + [n]) == (if |ns| == 0 then head else Opened(head, ns)) + " " + NodeId(n)
  {
    assert (ns + [n])[..|ns|] == ns;
    assert Ids(ns + [n]) == Ids(ns) + " " + NodeId(n);
    if |ns| == 0 {
      assert Ids(ns + [n]) == " " + NodeId(n);
    }
  }

  /** One solid-edge input loop, continuing the line the previous loop opened. */
  method ExtendSolid(head: string, base: seq<Artifact>, xs: seq<Artifact>, ignored: set<Artifact>, nodes: map<Artifact, nat>,
                     text0: string, first0: bool)
    returns (text: string, first: bool)
    requires text0 == Opened(head, SolidDests(base, ignored, nodes))
    requires first0 <==> |SolidDests(base, ignored, nodes)| == 0
    ensures text == Opened(head, SolidDests(base + xs, ignored, nodes))
    ensures first <==> |SolidDests(base + xs, ignored, nodes)| == 0
  {
    text, first := text0, first0;
    assert base + xs[..0] == base;
    for k := 0 to |xs|
      invariant text == Opened(head, SolidDests(base + xs[..k], ignored, nodes))
      invariant first <==> |SolidDests(base + xs[..k], ignored, nodes)| == 0
    {
      SolidStep(base, xs, k, ignored, nodes);
      var x := xs[k];
      if x in ignored || x !in nodes {
        continue;
      }
      OpenedSnoc(head, SolidDests(base + xs[..k], ignored, nodes), nodes[x]);
      if first {
        first := false;
        text := text + head;
      }
      text := text + " " + NodeId(nodes[x]);
    }
    assert xs[..|xs|] == xs;
  }

  /** The explicit and implicit input loops and the line's end. */
  method WriteSolid(src: nat, t: Target, ignored: set<Artifact>, nodes: map<Artifact, nat>) returns (text: string)
    ensures text == SolidLine(src, SolidDests(t.inputs.expl + t.inputs.impl, ignored, nodes), t.edge)
  {
    var head := "    " + NodeId(src) + " -> {";
    var first;
    assert [] + t.inputs.expl == t.inputs.expl;
    text, first := ExtendSolid(head, [], t.inputs.expl, ignored, nodes, "", true);
    text, first := ExtendSolid(head, t.inputs.expl, t.inputs.impl, ignored, nodes, text, first);
    if !first {
      text := text + " }";
      if t.edge != "" {
        text := text + " [label=\"" + t.edge + "\"]";
      }
      text := text + "\n";
    }
  }

  /** Does `x` occur in `xs`? A search loop that stops at the first hit. */
  method Contains(xs: seq<Artifact>, x: Artifact) returns (found: bool)
    ensures found <==> x in xs
  {
    found := false;
    for k := 0 to |xs|
      invariant !found <==> x !in xs[..k]
    {
      if xs[k] == x {
        found := true;
        break;
      }
    }
    if !found {
      assert xs[..|xs|] == xs;
    }
  }

  /** The search for the target producing an order-only input. */
  method FindProducer(targets: seq<Target>, x: Artifact) returns (r: Option<Target>)
    ensures r == FirstProducer(targets, x)
  {
    for k := 0 to |targets|
      invariant FirstProducer(targets[k..], x) == FirstProducer(targets, x)
    {
      var other := targets[k];
      var found := other.mainOutput == x;
      if !found {
        found := Contains(other.outputs.impl, x);
      }
      if !found {
        found := Contains(other.outputs.order, x);
      }
      if !found {
        found := Contains(other.outputs.expl, x);
      }
      assert targets[k..][1..] == targets[k + 1..];
      if found {
        return Some(other);
      }
    }
    return None;
  }

  /** One order-only input: its node, or the node of its producer. */
  method ResolveInput(targets: seq<Target>, nodes: map<Artifact, nat>, x: Artifact) returns (r: Option<nat>)
    ensures r == Resolve(targets, nodes, x)
  {
    if x in nodes {
      return Some(nodes[x]);
    }
    var other := FindProducer(targets, x);
    if other.Some? && other.value.mainOutput in nodes {
      return Some(nodes[other.value.mainOutput]);
    }
    return None;
  }

  /** Keeping the next order-only destination. */
  lemma OrderStep(targets: seq<Target>, xs: seq<Artifact>, k: nat, ignored: set<Artifact>, nodes: map<Artifact, nat>)
    requires k < |xs|
    ensures xs[k] in ignored || Resolve(targets, nodes, xs[k]).None? ==>
      OrderDests(targets, xs[..k + 1], ignored, nodes) == OrderDests(targets, xs[..k], ignored, nodes)
    ensures xs[k] !in ignored && Resolve(targets, nodes, xs[k]).Some? ==>
      OrderDests(targets, xs[..k + 1], ignored, nodes) == OrderDests(targets, xs[..k], ignored, nodes) + [Resolve(targets, nodes, xs[k]).value]
  {
    assert xs[..k + 1][..k] == xs[..k];
    assert OrderDests(targets, xs[..k], ignored, nodes) + [] == OrderDests(targets, xs[..k], ignored, nodes);
  }

  /** The order-only input loop and the dashed line's end. */
  method WriteDashed(src: nat, targets: seq<Target>, xs: seq<Artifact>, ignored: set<Artifact>, nodes: map<Artifact, nat>)
    returns (text: string)
    ensures text == DashedLine(src, OrderDests(targets, xs, ignored, nodes))
  {
    var head := "    " + NodeId(src) + " -> {";
    text := "";
    var first := true;
    for k := 0 to |xs|
      invariant text == Opened(head, OrderDests(targets, xs[..k], ignored, nodes))
      invariant first <==> |OrderDests(targets, xs[..k], ignored, nodes)| == 0
    {
      text, first := DashedStep(head, targets, xs, k, ignored, nodes, text, first);
    }
    assert xs[..|xs|] == xs;
    if !first {
      text := text + " } [style=dashed]\n";
    }
  }

  /** One turn of the order-only input loop: a resolved input adds its node to the open line. */
  method DashedStep(head: string, targets: seq<Target>, xs: seq<Artifact>, k: nat, ignored: set<Artifact>,
                    nodes: map<Artifact, nat>, text0: string, first0: bool)
    returns (text: string, first: bool)
    requires k < |xs|
    requires text0 == Opened(head, OrderDests(targets, xs[..k], ignored, nodes))
    requires first0 <==> |OrderDests(targets, xs[..k], ignored, nodes)| == 0
    ensures text == Opened(head, OrderDests(targets, xs[..k + 1], ignored, nodes))
    ensures first <==> |OrderDests(targets, xs[..k + 1], ignored, nodes)| == 0
  {
    ghost var before := OrderDests(targets, xs[..k], ignored, nodes);
    ghost var after := OrderDests(targets, xs[..k + 1], ignored, nodes);
    OrderStep(targets, xs, k, ignored, nodes);
    if xs[k] in ignored {
      assert after == before;
      return text0, first0;
    }
    var name := ResolveInput(targets, nodes, xs[k]);
    if name.None? {
      assert after == before;
      return text0, first0;
    }
    assert after == before + [name.value];
    OpenedSnoc(head, before, name.value);
    var line := if first0 then head else text0;
    text := line + " " + NodeId(name.value);
    first := false;
  }

  /** One turn of the second target loop. */
  method WriteEdges(targets: seq<Target>, ignored: set<Artifact>, nodes: map<Artifact, nat>, t: Target) returns (text: string)
    ensures text == EdgeLines(targets, ignored, nodes, t)
  {
    if Ninja.Ignorable(t.rule) || t.mainOutput !in nodes {
      return "";
    }
    var src := nodes[t.mainOutput];
    var solid := WriteSolid(src, t, ignored, nodes);
    var dashed := WriteDashed(src, targets, t.inputs.order, ignored, nodes);
    text := solid + dashed;
  }

  function AllEdges(targets: seq<Target>, ignored: set<Artifact>, nodes: map<Artifact, nat>, ts: seq<Target>): string
  {
    if |ts| == 0 then "" else AllEdges(targets, ignored, nodes, ts[..|ts| - 1]) + EdgeLines(targets, ignored, nodes, ts[|ts| - 1])
  }

  /** The second target loop of `dot::generate`. */
  method WriteAllEdges(targets: seq<Target>, ignored: set<Artifact>, nodes: map<Artifact, nat>) returns (text: string)
    ensures text == AllEdges(targets, ignored, nodes, targets)
  {
    text := "";
    for k := 0 to |targets|
      invariant text == AllEdges(targets, ignored, nodes, targets[..k])
    {
      assert targets[..k + 1][..k] == targets[..k];
      var lines := WriteEdges(targets, ignored, nodes, targets[k]);
      text := text + lines;
    }
    assert targets[..|targets|] == targets;
  }

  const Preamble: string :=
    "digraph {\n    node [fontname=\"Atkinson Hyperlegible\"]\n    edge [fontname=\"Atkinson Hyperlegible\"]\n\n"

  /**
   * `dot::generate`: the graph's preamble, a node per target that is not
   * ignorable, then the edges of each node to the nodes of its inputs.
   */
  method Generate(g: BuildGenerator) returns (text: string)
    ensures text == Preamble + NodeLines(g.targets)
      + AllEdges(g.targets, Ninja.Ignored(g.targets), Nodes(g.targets), g.targets) + "}\n"
  {
    var nodeLines, ignored, nodes := WriteNodes(g.targets);
    var edges := WriteAllEdges(g.targets, ignored, nodes);
    text := Preamble + nodeLines + edges + "}\n";
  }
}
