/** What `strip_identity_nodes` leaves of a graph, node by node. */
module StripLaws {
  import opened Base
  import opened IdentityStrip

  /** Node `i` hands its one input on as its one output. */
  ghost predicate PassesOn(nodes: seq<Node>, i: int) {
    0 <= i < |nodes| && nodes[i].op == "Identity" && |nodes[i].inputs| == 1 && |nodes[i].outputs| == 1
  }

  /** How many of the first `n` nodes are not Identity. */
  ghost function Others(nodes: seq<Node>, n: nat): nat
    requires n <= |nodes|
  {
    if n == 0 then 0 else Others(nodes, n - 1) + if nodes[n - 1].op == "Identity" then 0 else 1
  }

  lemma {:induction false} KeptAt(nodes: seq<Node>, n: nat, j: nat)
    requires n <= |nodes|
    ensures |Kept(nodes, n)| == Others(nodes, n)
    ensures j < n && nodes[j].op != "Identity" ==>
              Others(nodes, j) < Others(nodes, n) && Kept(nodes, n)[Others(nodes, j)] == nodes[j]
    ensures forall i :: 0 <= i < |Kept(nodes, n)| ==> Kept(nodes, n)[i].op != "Identity"
  {
    if n > 0 {
      KeptAt(nodes, n - 1, j);
    }
  }

  lemma {:induction false} ReplacedIff(nodes: seq<Node>, n: nat, x: Name)
    requires n <= |nodes|
    ensures x in Replacements(nodes, n) <==> exists i :: 0 <= i < n && PassesOn(nodes, i) && nodes[i].outputs[0] == x
  {
    if n > 0 {
      ReplacedIff(nodes, n - 1, x);
      assert PassesOn(nodes, n - 1) <==> IsForwarding(nodes[n - 1]);
    }
  }

  lemma {:induction false} ReplacedBy(nodes: seq<Node>, n: nat, i: nat)
    requires i < n <= |nodes| && PassesOn(nodes, i)
    requires forall k :: i < k < n && PassesOn(nodes, k) ==> nodes[k].outputs[0] != nodes[i].outputs[0]
    ensures var x := nodes[i].outputs[0]; x in Replacements(nodes, n) && Replacements(nodes, n)[x] == nodes[i].inputs[0]
  {
    if i < n - 1 {
      ReplacedBy(nodes, n - 1, i);
      assert PassesOn(nodes, n - 1) <==> IsForwarding(nodes[n - 1]);
    }
  }

  /** Where a name ends up: it stays if no node passes it on; otherwise it ends where the input of the
      last node that does ends, which is a name no node passes on. */
  ghost predicate EndsAt(nodes: seq<Node>, repl: Repl, x: Name)
    requires Halts(repl, x)
  {
    && (forall i :: PassesOn(nodes, i) ==> nodes[i].outputs[0] != Target(repl, x))
    && ((forall i :: PassesOn(nodes, i) ==> nodes[i].outputs[0] != x) ==> Target(repl, x) == x)
    && forall i :: PassesOn(nodes, i) && nodes[i].outputs[0] == x && Last(nodes, i) ==>
         Halts(repl, nodes[i].inputs[0]) && Target(repl, x) == Target(repl, nodes[i].inputs[0])
  }

  /** No later node passes on under the same name. */
  ghost predicate Last(nodes: seq<Node>, i: int)
    requires PassesOn(nodes, i)
  {
    forall k :: i < k && PassesOn(nodes, k) ==> nodes[k].outputs[0] != nodes[i].outputs[0]
  }

  lemma {:induction false} WalkLeaves(repl: Repl, x: Name, n: nat)
    requires Ends(repl, x, n)
    ensures Walk(repl, x, n) !in repl
    decreases n
  {
    if x in repl {
      WalkLeaves(repl, repl[x], n - 1);
    }
  }

  lemma NameEnds(nodes: seq<Node>, repl: Repl, x: Name)
    requires repl == Replacements(nodes, |nodes|) && Halts(repl, x)
    ensures EndsAt(nodes, repl, x)
  {
    var n: nat :| Ends(repl, x, n);
    TargetIs(repl, x, n);
    WalkLeaves(repl, x, n);
    ReplacedIff(nodes, |nodes|, Target(repl, x));
    ReplacedIff(nodes, |nodes|, x);
    forall i | PassesOn(nodes, i) && nodes[i].outputs[0] == x && Last(nodes, i)
      ensures Halts(repl, nodes[i].inputs[0]) && Target(repl, x) == Target(repl, nodes[i].inputs[0])
    {
      ReplacedBy(nodes, |nodes|, i);
      TargetIs(repl, repl[x], n - 1);
    }
  }

  /** If some node passes a value on, exactly the nodes that are not Identity are left, in order, each
      with its operator, attributes and outputs, and with every input at the end of its chain. */
  lemma StripLaw(nodes: seq<Node>, outputs: seq<Name>, nodes': seq<Node>, outputs': seq<Name>, j: nat, a: nat)
    requires CanStrip(nodes, outputs) && IsStripOf(nodes, outputs, nodes', outputs')
    requires exists i :: PassesOn(nodes, i)
    requires j < |nodes| && nodes[j].op != "Identity" && a < |nodes[j].inputs|
    ensures var repl := Replacements(nodes, |nodes|);
            && |nodes'| == Others(nodes, |nodes|) && (forall i :: 0 <= i < |nodes'| ==> nodes'[i].op != "Identity")
            && Others(nodes, j) < |nodes'|
            && var now, x := nodes'[Others(nodes, j)], nodes[j].inputs[a];
            && now.op == nodes[j].op && now.attrs == nodes[j].attrs && now.outputs == nodes[j].outputs
            && |now.inputs| == |nodes[j].inputs| && Halts(repl, x)
            && now.inputs[a] == Target(repl, x) && EndsAt(nodes, repl, x)
  {
    var repl, k := Replacements(nodes, |nodes|), Others(nodes, j);
    SomethingReplaced(nodes);
    KeptAt(nodes, |nodes|, j);
    forall i | 0 <= i < |nodes'|
      ensures nodes'[i].op != "Identity"
    {
      assert nodes'[i] == Redirect(repl, Kept(nodes, |nodes|)[i]);
    }
    assert nodes'[k] == Redirect(repl, Kept(nodes, |nodes|)[k]);
    assert AllHalt(repl, Kept(nodes, |nodes|)[k].inputs);
    NameEnds(nodes, repl, nodes[j].inputs[a]);
  }

  lemma SomethingReplaced(nodes: seq<Node>)
    requires exists i :: PassesOn(nodes, i)
    ensures Replacements(nodes, |nodes|) != map[]
  {
    var i :| PassesOn(nodes, i);
    ReplacedIff(nodes, |nodes|, nodes[i].outputs[0]);
  }

  /** Every output likewise; and if no node passes a value on, nothing changes. */
  lemma OutputLaw(nodes: seq<Node>, outputs: seq<Name>, nodes': seq<Node>, outputs': seq<Name>, a: nat)
    requires CanStrip(nodes, outputs) && IsStripOf(nodes, outputs, nodes', outputs')
    ensures (forall i :: !PassesOn(nodes, i)) ==> nodes' == nodes && outputs' == outputs
    ensures |outputs'| == |outputs|
    ensures (exists i :: PassesOn(nodes, i)) && a < |outputs| ==>
              var repl := Replacements(nodes, |nodes|);
              Halts(repl, outputs[a]) && outputs'[a] == Target(repl, outputs[a]) && EndsAt(nodes, repl, outputs[a])
  {
    var repl := Replacements(nodes, |nodes|);
    if exists i :: PassesOn(nodes, i) {
      SomethingReplaced(nodes);
      if a < |outputs| {
        NameEnds(nodes, repl, outputs[a]);
      }
    } else {
      forall x
        ensures x !in repl
      {
        ReplacedIff(nodes, |nodes|, x);
      }
      assert repl == map[];
    }
  }
}
