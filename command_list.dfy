/**
 * `command_list`: for every rule, the commands a build runs, each with its
 * tool resolved to a path.
 */
module CommandList {
  import opened Wrappers
  import opened SortedSets
  import opened Generator
  import opened EnvPath
  import opened CommandSplit

  /** `simplify` of one command: the resolved tool as the first argument, then the command's own arguments. */
  function Simplified(p: ToolPaths, cmd: Command, exists_: string -> bool, env: Option<string>, isRegular: string -> bool)
    : (r: TemplatedString)
    ensures |r| == |cmd.args| + 1
    ensures r[0] == Str(WhichOf(p, cmd.tool, exists_, env, isRegular)) && r[1..] == cmd.args
  {
    [Str(WhichOf(p, cmd.tool, exists_, env, isRegular))] + cmd.args
  }

  /** `simplify` of an edge: every command simplified, in order. */
  function SimplifiedAll(p: ToolPaths, cmds: seq<Command>, exists_: string -> bool, env: Option<string>, isRegular: string -> bool)
    : (r: seq<TemplatedString>)
  {
    if |cmds| == 0 then []
    else SimplifiedAll(p, cmds[..|cmds| - 1], exists_, env, isRegular) + [Simplified(p, cmds[|cmds| - 1], exists_, env, isRegular)]
  }

  /** An edge keeps its number of commands and their order; each becomes its resolved tool followed by its arguments. */
  lemma {:induction false} SimplifiedAllMeaning(p: ToolPaths, cmds: seq<Command>, exists_: string -> bool, env: Option<string>, isRegular: string -> bool)
    ensures |SimplifiedAll(p, cmds, exists_, env, isRegular)| == |cmds|
    ensures forall i :: 0 <= i < |cmds| ==>
      var s := SimplifiedAll(p, cmds, exists_, env, isRegular)[i];
      |s| == |cmds[i].args| + 1 && s[0] == Str(WhichOf(p, cmds[i].tool, exists_, env, isRegular)) && s[1..] == cmds[i].args
  {
    if |cmds| > 0 {
      var init := cmds[..|cmds| - 1];
      SimplifiedAllMeaning(p, init, exists_, env, isRegular);
      forall i | 0 <= i < |init|
        ensures SimplifiedAll(p, cmds, exists_, env, isRegular)[i] == SimplifiedAll(p, init, exists_, env, isRegular)[i]
      {
      }
    }
  }

  /** The `std::transform` loop of `simplify`. */
  method Simplify(p: ToolPaths, edge: seq<Command>, exists_: string -> bool, env: Option<string>, isRegular: string -> bool)
    returns (result: seq<TemplatedString>)
    ensures result == SimplifiedAll(p, edge, exists_, env, isRegular)
  {
    result := [];
    for k := 0 to |edge|
      invariant result == SimplifiedAll(p, edge[..k], exists_, env, isRegular)
    {
      var tool := Which(p, edge[k].tool, exists_, env, isRegular);
      result := result + [[Str(tool)] + edge[k].args];
      assert edge[..k + 1][..k] == edge[..k];
    }
    assert edge[..|edge|] == edge;
  }

  /** `static_cast<size_t>(rule)` orders the keys of the edge map. */
  const IndexOrder: (nat, nat) -> bool := (a: nat, b: nat) => a < b

  /**
   * The commands of the slot `index` after the constructor's loop: those of
   * the last edge filed under `index`, none if no edge is.
   */
  function Slot(p: ToolPaths, edges: seq<(nat, seq<Command>)>, index: nat, exists_: string -> bool, env: Option<string>, isRegular: string -> bool)
    : seq<TemplatedString>
  {
    if |edges| == 0 then []
    else if edges[|edges| - 1].0 == index then SimplifiedAll(p, edges[|edges| - 1].1, exists_, env, isRegular)
    else Slot(p, edges[..|edges| - 1], index, exists_, env, isRegular)
  }

  /** A lookup in a list extended at its end finds the old entry first, then the new one. */
  lemma {:induction false} LookupSnoc<K, V>(m: seq<(K, V)>, e: (K, V), k: K)
    ensures Lookup(m + [e], k) == if Lookup(m, k).Some? then Lookup(m, k) else if e.0 == k then Some(e.1) else None
  {
    if |m| > 0 {
      assert (m + [e])[1..] == m[1..] + [e];
      LookupSnoc(m[1..], e, k);
    }
  }

  /** On an edge map, a slot holds the simplified commands of the rule's entry, and nothing for a rule with no entry. */
  lemma {:induction false} SlotMeaning(p: ToolPaths, edges: seq<(nat, seq<Command>)>, index: nat, exists_: string -> bool, env: Option<string>, isRegular: string -> bool)
    requires KeysAscending(edges, IndexOrder)
    ensures Slot(p, edges, index, exists_, env, isRegular) ==
      match Lookup(edges, index)
      case Some(cmds) => SimplifiedAll(p, cmds, exists_, env, isRegular)
      case None => []
  {
    if |edges| > 0 {
      var init := edges[..|edges| - 1];
      var last := edges[|edges| - 1];
      assert edges == init + [last];
      LookupSnoc(init, last, index);
      SlotMeaning(p, init, index, exists_, env, isRegular);
      if last.0 == index {
        forall i | 0 <= i < |init|
          ensures init[i].0 != index
        {
          assert IndexOrder(edges[i].0, edges[|edges| - 1].0);
        }
      }
    }
  }

  /** `command_list` */
  class CommandList {
    /** `commands_`: one slot per rule. */
    const commands: array<seq<TemplatedString>>

    /**
     * Fills the slot of each rule named by `edges`, skipping keys at or
     * beyond the rule count.
     */
    constructor (p: ToolPaths, edges: seq<(nat, seq<Command>)>, exists_: string -> bool, env: Option<string>, isRegular: string -> bool)
      ensures commands.Length == RuleCount && fresh(commands)
      ensures forall i :: 0 <= i < RuleCount ==> commands[i] == Slot(p, edges, i, exists_, env, isRegular)
    {
      var slots := new seq<TemplatedString>[RuleCount](_ => []);
      for k := 0 to |edges|
        invariant forall i :: 0 <= i < RuleCount ==> slots[i] == Slot(p, edges[..k], i, exists_, env, isRegular)
      {
        assert edges[..k + 1][..k] == edges[..k];
        var index := edges[k].0;
        if index >= slots.Length {
          continue;
        }
        var simplified := Simplify(p, edges[k].1, exists_, env, isRegular);
        slots[index] := simplified;
      }
      assert edges[..|edges|] == edges;
      commands := slots;
    }

    /** `get`: the slot of a rule, and no commands for an index out of range. */
    function Get(index: nat): (r: seq<TemplatedString>)
      reads this, commands
      ensures index >= commands.Length ==> r == []
      ensures index < commands.Length ==> r == commands[index]
    {
      if index >= commands.Length then [] else commands[index]
    }
  }

  /** What `get` answers on a list built from an edge map: the rule's simplified commands, or none. */
  lemma BuiltGet(p: ToolPaths, edges: seq<(nat, seq<Command>)>, index: nat, exists_: string -> bool, env: Option<string>, isRegular: string -> bool, list: CommandList)
    requires KeysAscending(edges, IndexOrder)
    requires list.commands.Length == RuleCount
    requires forall i :: 0 <= i < RuleCount ==> list.commands[i] == Slot(p, edges, i, exists_, env, isRegular)
    ensures list.Get(index) ==
      if index >= RuleCount then []
      else match Lookup(edges, index)
        case Some(cmds) => SimplifiedAll(p, cmds, exists_, env, isRegular)
        case None => []
  {
    if index < RuleCount {
      SlotMeaning(p, edges, index, exists_, env, isRegular);
    }
  }
}
