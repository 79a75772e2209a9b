/** `strip_identity_nodes`: removing Identity nodes from a graph without changing what it computes. */
module IdentityStrip {
  import opened Base

  type Name = string

  /** Attributes are kept as one opaque string. The empty name stands for an omitted slot. */
  datatype Node = Node(op: string, attrs: string, inputs: seq<Name>, outputs: seq<Name>)

  predicate IsIdentity(node: Node) {
    node.op == "Identity"
  }

  /** The condition of the dictionary comprehension. */
  predicate IsForwarding(node: Node) {
    node.op == "Identity" && |node.inputs| == |node.outputs| == 1
  }

  // ----- What a graph computes -----

  type Env<V> = map<Name, V>

  /** Any interpretation of the other operators: operator, attributes, arguments, output position. */
  type Sem<!V> = (string, string, seq<Option<V>>, nat) -> V

  ghost function Lookup<V>(env: Env<V>, name: Name): Option<V> {
    if name in env then Some(env[name]) else None
  }

  ghost function Args<V>(env: Env<V>, names: seq<Name>): (args: seq<Option<V>>)
    ensures |args| == |names| && forall i :: 0 <= i < |names| ==> args[i] == Lookup(env, names[i])
  {
    seq(|names|, i requires 0 <= i < |names| => Lookup(env, names[i]))
  }

  /** The first position of a name. */
  ghost function IndexOf(names: seq<Name>, name: Name): (i: nat)
    ensures i <= |names| && name !in names[..i]
    ensures name in names ==> i < |names| && names[i] == name
  {
    if names == [] || names[0] == name then 0 else 1 + IndexOf(names[1..], name)
  }

  ghost function Bindings<V>(sem: Sem<V>, node: Node, args: seq<Option<V>>): Env<V> {
    map o | o in node.outputs && o != "" :: sem(node.op, node.attrs, args, IndexOf(node.outputs, o))
  }

  ghost function EvalNode<V>(sem: Sem<V>, env: Env<V>, node: Node): Env<V> {
    if IsForwarding(node) then
      if node.inputs[0] in env then env[node.outputs[0] := env[node.inputs[0]]] else env
    else env + Bindings(sem, node, Args(env, node.inputs))
  }

  ghost function Eval<V>(sem: Sem<V>, env: Env<V>, nodes: seq<Node>, n: nat): Env<V>
    requires n <= |nodes|
  {
    if n == 0 then env else EvalNode(sem, Eval(sem, env, nodes, n - 1), nodes[n - 1])
  }

  // ----- Well-formed graphs -----

  /** `x` is omitted, given, or produced by one of the first `n` nodes. */
  ghost predicate Known(given: set<Name>, nodes: seq<Node>, n: nat, x: Name)
    requires n <= |nodes|
  {
    x == "" || x in given || exists j :: 0 <= j < n && x in nodes[j].outputs
  }

  /** Topologically sorted, every name produced once, Identity as its operator signature has it. */
  ghost predicate WellFormed(given: set<Name>, nodes: seq<Node>) {
    && "" !in given
    && (forall i, x :: 0 <= i < |nodes| && x in nodes[i].inputs ==> Known(given, nodes, i, x))
    && (forall i, x :: 0 <= i < |nodes| && x in nodes[i].outputs ==> x !in given)
    && (forall i, j, x :: 0 <= i < j < |nodes| && x in nodes[i].outputs && x in nodes[j].outputs ==> x == "")
    && (forall i :: 0 <= i < |nodes| && IsIdentity(nodes[i]) ==>
          IsForwarding(nodes[i]) && nodes[i].inputs[0] != "" && nodes[i].outputs[0] != "")
  }

  // ----- Following replacements -----

  /** The last of the first `n` nodes that forwards to `x`, or -1. */
  function Forwarder(nodes: seq<Node>, n: nat, x: Name): (j: int)
    requires n <= |nodes|
    ensures -1 <= j < n
    ensures j >= 0 ==> IsForwarding(nodes[j]) && nodes[j].outputs[0] == x && x in nodes[j].outputs
    ensures j == -1 ==> forall i :: 0 <= i < n && IsForwarding(nodes[i]) ==> nodes[i].outputs[0] != x
  {
    if n == 0 then -1
    else if IsForwarding(nodes[n - 1]) && nodes[n - 1].outputs[0] == x then n - 1
    else Forwarder(nodes, n - 1, x)
  }

  /** The name a chain of Identity nodes starts from. */
  function Resolve(nodes: seq<Node>, n: nat, x: Name): Name
    requires n <= |nodes|
    decreases n
  {
    var j := Forwarder(nodes, n, x);
    if j < 0 then x else Resolve(nodes, j, nodes[j].inputs[0])
  }

  ghost function ResolveAll(nodes: seq<Node>, names: seq<Name>): (r: seq<Name>)
    ensures |r| == |names| && forall i :: 0 <= i < |names| ==> r[i] == Resolve(nodes, |nodes|, names[i])
  {
    seq(|names|, i requires 0 <= i < |names| => Resolve(nodes, |nodes|, names[i]))
  }

  /** The first `n` nodes without Identity, their inputs resolved. */
  ghost function Stripped(nodes: seq<Node>, n: nat): seq<Node>
    requires n <= |nodes|
  {
    if n == 0 then []
    else if IsIdentity(nodes[n - 1]) then Stripped(nodes, n - 1)
    else Stripped(nodes, n - 1) + [nodes[n - 1].(inputs := ResolveAll(nodes, nodes[n - 1].inputs))]
  }

  /** A name's forwarder comes no later than any node that may read the name. */
  lemma ForwarderIsEarly(given: set<Name>, nodes: seq<Node>, n: nat, x: Name)
    requires WellFormed(given, nodes) && n <= |nodes| && Known(given, nodes, n, x)
    ensures Forwarder(nodes, |nodes|, x) == Forwarder(nodes, n, x)
  {
    var j := Forwarder(nodes, |nodes|, x);
    if 0 <= j < n {
      ForwarderUnique(given, nodes, n, j, x);
    }
  }

  lemma {:induction false} ForwarderUnique(given: set<Name>, nodes: seq<Node>, n: nat, j: nat, x: Name)
    requires WellFormed(given, nodes) && j < n <= |nodes| && IsForwarding(nodes[j]) && nodes[j].outputs[0] == x
    ensures Forwarder(nodes, n, x) == j
  {
    assert nodes[j].outputs[0] in nodes[j].outputs && IsIdentity(nodes[j]);
  }

  /** One step of the `while name in replacements` loop. */
  lemma ResolveStep(given: set<Name>, nodes: seq<Node>, x: Name)
    requires WellFormed(given, nodes)
    ensures var j := Forwarder(nodes, |nodes|, x);
            j >= 0 ==> Resolve(nodes, |nodes|, x) == Resolve(nodes, |nodes|, nodes[j].inputs[0]) &&
                       Forwarder(nodes, |nodes|, nodes[j].inputs[0]) < j
  {
    var j := Forwarder(nodes, |nodes|, x);
    if j >= 0 {
      var y := nodes[j].inputs[0];
      assert y in nodes[j].inputs;
      ForwarderIsEarly(given, nodes, j, y);
    }
  }

  // ----- Meaning is preserved -----

  /** Resolving a known name gives a known name that no node forwards to. */
  lemma {:induction false} ResolveKnown(given: set<Name>, nodes: seq<Node>, n: nat, x: Name)
    requires WellFormed(given, nodes) && n <= |nodes| && Known(given, nodes, n, x)
    ensures Known(given, nodes, n, Resolve(nodes, |nodes|, x))
    ensures Forwarder(nodes, |nodes|, Resolve(nodes, |nodes|, x)) == -1
    ensures x == "" ==> Resolve(nodes, |nodes|, x) == ""
    decreases n
  {
    var j := Forwarder(nodes, |nodes|, x);
    ForwarderIsEarly(given, nodes, n, x);
    ResolveStep(given, nodes, x);
    if j >= 0 {
      var y := nodes[j].inputs[0];
      assert y in nodes[j].inputs && Known(given, nodes, j, y);
      ResolveKnown(given, nodes, j, y);
      KnownLater(given, nodes, j, n, Resolve(nodes, |nodes|, y));
    }
  }

  lemma KnownLater(given: set<Name>, nodes: seq<Node>, m: nat, n: nat, x: Name)
    requires m <= n <= |nodes| && Known(given, nodes, m, x)
    ensures Known(given, nodes, n, x)
  {
  }

  /** Evaluation has bound exactly the known names. */
  ghost predicate Bound<V>(given: set<Name>, nodes: seq<Node>, n: nat, env: Env<V>)
    requires n <= |nodes|
  {
    forall x :: x in env <==> x != "" && Known(given, nodes, n, x)
  }

  lemma BoundStep<V>(given: set<Name>, nodes: seq<Node>, sem: Sem<V>, n: nat, env: Env<V>)
    requires WellFormed(given, nodes) && n < |nodes| && Bound(given, nodes, n, env)
    ensures Bound(given, nodes, n + 1, EvalNode(sem, env, nodes[n]))
  {
    var node, after := nodes[n], EvalNode(sem, env, nodes[n]);
    forall x
      ensures x in after <==> x != "" && Known(given, nodes, n + 1, x)
    {
      assert x in env <==> x != "" && Known(given, nodes, n, x);
      assert Known(given, nodes, n + 1, x) <==> Known(given, nodes, n, x) || x in node.outputs;
      if IsForwarding(node) {
        assert node.inputs[0] in node.inputs && node.outputs == [node.outputs[0]];
        assert Known(given, nodes, n, node.inputs[0]);
      }
    }
  }

  /** The stripped prefix computes at the resolved name what the original computes at the name. */
  ghost predicate Agree<V>(nodes: seq<Node>, before: Env<V>, after: Env<V>, x: Name) {
    Lookup(before, x) == Lookup(after, Resolve(nodes, |nodes|, x))
  }

  ghost predicate AgreeOnKnown<V>(given: set<Name>, nodes: seq<Node>, n: nat, before: Env<V>, after: Env<V>)
    requires n <= |nodes|
  {
    forall x :: Known(given, nodes, n, x) ==> Agree(nodes, before, after, x)
  }

  lemma IdentityAgrees<V>(given: set<Name>, nodes: seq<Node>, sem: Sem<V>, n: nat, before: Env<V>, after: Env<V>,
                          x: Name)
    requires WellFormed(given, nodes) && n < |nodes| && IsIdentity(nodes[n]) && Bound(given, nodes, n, before)
    requires AgreeOnKnown(given, nodes, n, before, after) && Known(given, nodes, n + 1, x)
    ensures Agree(nodes, EvalNode(sem, before, nodes[n]), after, x)
  {
    var node := nodes[n];
    var out, inp := node.outputs[0], node.inputs[0];
    assert out in node.outputs && inp in node.inputs && node.outputs == [out];
    assert Known(given, nodes, n, inp) && Agree(nodes, before, after, inp);
    if x == out {
      ForwarderUnique(given, nodes, |nodes|, n, x);
      ResolveStep(given, nodes, x);
    } else {
      assert Known(given, nodes, n, x);
      assert Agree(nodes, before, after, x);
    }
  }

  lemma ArgsAgree<V>(given: set<Name>, nodes: seq<Node>, n: nat, before: Env<V>, after: Env<V>)
    requires WellFormed(given, nodes) && n < |nodes| && AgreeOnKnown(given, nodes, n, before, after)
    ensures Args(before, nodes[n].inputs) == Args(after, ResolveAll(nodes, nodes[n].inputs))
  {
    var names := nodes[n].inputs;
    forall i | 0 <= i < |names|
      ensures Lookup(before, names[i]) == Lookup(after, Resolve(nodes, |nodes|, names[i]))
    {
      assert names[i] in names;
      assert Agree(nodes, before, after, names[i]);
    }
  }

  /** A produced name is not forwarded, unless an Identity node produces it. */
  lemma OutputIsItsOwn(given: set<Name>, nodes: seq<Node>, n: nat, x: Name)
    requires WellFormed(given, nodes) && n < |nodes| && !IsIdentity(nodes[n]) && x in nodes[n].outputs && x != ""
    ensures Resolve(nodes, |nodes|, x) == x
  {
    assert Forwarder(nodes, |nodes|, x) == -1;
  }

  lemma OperatorAgrees<V>(given: set<Name>, nodes: seq<Node>, sem: Sem<V>, n: nat, before: Env<V>, after: Env<V>,
                          x: Name)
    requires WellFormed(given, nodes) && n < |nodes| && !IsIdentity(nodes[n])
    requires AgreeOnKnown(given, nodes, n, before, after) && Known(given, nodes, n + 1, x)
    ensures var node' := nodes[n].(inputs := ResolveAll(nodes, nodes[n].inputs));
            Agree(nodes, EvalNode(sem, before, nodes[n]), EvalNode(sem, after, node'), x)
  {
    var node := nodes[n];
    ArgsAgree(given, nodes, n, before, after);
    var args := Args(before, node.inputs);
    var node' := node.(inputs := ResolveAll(nodes, node.inputs));
    assert Bindings(sem, node, args) == Bindings(sem, node', args);
    if x in node.outputs && x != "" {
      OutputIsItsOwn(given, nodes, n, x);
    } else {
      assert Known(given, nodes, n, x) && Agree(nodes, before, after, x);
      ResolveKnown(given, nodes, n, x);
      NotProducedAgain(given, nodes, n, x);
      NotProducedAgain(given, nodes, n, Resolve(nodes, |nodes|, x));
    }
  }

  lemma NotProducedAgain(given: set<Name>, nodes: seq<Node>, n: nat, x: Name)
    requires WellFormed(given, nodes) && n < |nodes| && Known(given, nodes, n, x)
    ensures x == "" || x !in nodes[n].outputs
  {
  }

  lemma AgreeStep<V>(given: set<Name>, nodes: seq<Node>, sem: Sem<V>, n: nat, before: Env<V>, after: Env<V>)
    requires WellFormed(given, nodes) && n < |nodes| && Bound(given, nodes, n, before)
    requires AgreeOnKnown(given, nodes, n, before, after)
    ensures var node' := nodes[n].(inputs := ResolveAll(nodes, nodes[n].inputs));
            AgreeOnKnown(given, nodes, n + 1, EvalNode(sem, before, nodes[n]),
                         if IsIdentity(nodes[n]) then after else EvalNode(sem, after, node'))
  {
    var node' := nodes[n].(inputs := ResolveAll(nodes, nodes[n].inputs));
    var now := EvalNode(sem, before, nodes[n]);
    var next := if IsIdentity(nodes[n]) then after else EvalNode(sem, after, node');
    forall x | Known(given, nodes, n + 1, x)
      ensures Agree(nodes, now, next, x)
    {
      if IsIdentity(nodes[n]) {
        IdentityAgrees(given, nodes, sem, n, before, after, x);
      } else {
        OperatorAgrees(given, nodes, sem, n, before, after, x);
      }
    }
  }

  lemma StrippedEval<V>(nodes: seq<Node>, sem: Sem<V>, env: Env<V>, n: nat)
    requires n < |nodes|
    ensures var node' := nodes[n].(inputs := ResolveAll(nodes, nodes[n].inputs));
            var after := Eval(sem, env, Stripped(nodes, n), |Stripped(nodes, n)|);
            Eval(sem, env, Stripped(nodes, n + 1), |Stripped(nodes, n + 1)|) ==
            if IsIdentity(nodes[n]) then after else EvalNode(sem, after, node')
  {
    var kept := Stripped(nodes, n);
    EvalIgnoresTail(sem, env, kept, [nodes[n].(inputs := ResolveAll(nodes, nodes[n].inputs))], |kept|);
  }

  lemma StartAgrees<V>(given: set<Name>, nodes: seq<Node>, env: Env<V>)
    requires WellFormed(given, nodes) && env.Keys == given
    ensures Bound(given, nodes, 0, env) && AgreeOnKnown(given, nodes, 0, env, env)
  {
    forall x | Known(given, nodes, 0, x)
      ensures Agree(nodes, env, env, x)
    {
      GivenIsItsOwn(given, nodes, x);
    }
  }

  /** The environments of the original prefix and of the stripped prefix. */
  ghost predicate InStep<V>(given: set<Name>, nodes: seq<Node>, n: nat, before: Env<V>, after: Env<V>)
    requires n <= |nodes|
  {
    Bound(given, nodes, n, before) && AgreeOnKnown(given, nodes, n, before, after)
  }

  lemma StepAgrees<V>(given: set<Name>, nodes: seq<Node>, sem: Sem<V>, env: Env<V>, n: nat, before: Env<V>,
                      after: Env<V>)
    requires WellFormed(given, nodes) && n < |nodes| && InStep(given, nodes, n, before, after)
    requires after == Eval(sem, env, Stripped(nodes, n), |Stripped(nodes, n)|)
    ensures InStep(given, nodes, n + 1, EvalNode(sem, before, nodes[n]),
                   Eval(sem, env, Stripped(nodes, n + 1), |Stripped(nodes, n + 1)|))
  {
    BoundStep(given, nodes, sem, n, before);
    AgreeStep(given, nodes, sem, n, before, after);
    StrippedEval(nodes, sem, env, n);
  }

  /** The two evaluations, taken as far as node `n`, are in step. */
  ghost predicate AgreesAt<V>(given: set<Name>, nodes: seq<Node>, sem: Sem<V>, env: Env<V>, n: nat)
    requires n <= |nodes|
  {
    InStep(given, nodes, n, Eval(sem, env, nodes, n), Eval(sem, env, Stripped(nodes, n), |Stripped(nodes, n)|))
  }

  lemma NextAgrees<V>(given: set<Name>, nodes: seq<Node>, sem: Sem<V>, env: Env<V>, n: nat, m: nat)
    requires WellFormed(given, nodes) && m == n + 1 <= |nodes| && AgreesAt(given, nodes, sem, env, n)
    ensures AgreesAt(given, nodes, sem, env, m)
  {
    var kept := Stripped(nodes, n);
    StepAgrees(given, nodes, sem, env, n, Eval(sem, env, nodes, n), Eval(sem, env, kept, |kept|));
  }

  lemma FirstAgrees<V>(given: set<Name>, nodes: seq<Node>, sem: Sem<V>, env: Env<V>, n: nat)
    requires WellFormed(given, nodes) && env.Keys == given && n == 0
    ensures AgreesAt(given, nodes, sem, env, n)
  {
    StartAgrees(given, nodes, env);
  }

  lemma EvalAgrees<V>(given: set<Name>, nodes: seq<Node>, sem: Sem<V>, env: Env<V>)
    requires WellFormed(given, nodes) && env.Keys == given
    ensures AgreesAt(given, nodes, sem, env, |nodes|)
  {
    FirstAgrees(given, nodes, sem, env, 0);
    for n := 0 to |nodes|
      invariant AgreesAt(given, nodes, sem, env, n)
    {
      NextAgrees(given, nodes, sem, env, n, n + 1);
    }
  }

  lemma GivenIsItsOwn(given: set<Name>, nodes: seq<Node>, x: Name)
    requires WellFormed(given, nodes) && (x == "" || x in given)
    ensures Resolve(nodes, |nodes|, x) == x
  {
    assert Forwarder(nodes, |nodes|, x) == -1;
  }

  lemma {:induction false} EvalIgnoresTail<V>(sem: Sem<V>, env: Env<V>, a: seq<Node>, b: seq<Node>, n: nat)
    requires n <= |a|
    ensures Eval(sem, env, a + b, n) == Eval(sem, env, a, n)
  {
    if n > 0 {
      EvalIgnoresTail(sem, env, a, b, n - 1);
    }
  }

  /** Every output of the stripped graph evaluates to what it did before, position by position,
      for any interpretation of the operators and any values of the given names. */
  lemma ResolvingPreservesMeaning<V>(given: set<Name>, nodes: seq<Node>, outputs: seq<Name>, sem: Sem<V>, env: Env<V>)
    requires WellFormed(given, nodes) && env.Keys == given
    ensures var stripped := Stripped(nodes, |nodes|);
            Args(Eval(sem, env, nodes, |nodes|), outputs) ==
            Args(Eval(sem, env, stripped, |stripped|), ResolveAll(nodes, outputs))
  {
    EvalAgrees(given, nodes, sem, env);
    var stripped := Stripped(nodes, |nodes|);
    var before, after := Eval(sem, env, nodes, |nodes|), Eval(sem, env, stripped, |stripped|);
    forall i | 0 <= i < |outputs|
      ensures Lookup(before, outputs[i]) == Lookup(after, Resolve(nodes, |nodes|, outputs[i]))
    {
      var x := outputs[i];
      if Known(given, nodes, |nodes|, x) {
        assert Agree(nodes, before, after, x);
      } else {
        UnknownStaysUnbound(given, nodes, sem, env, x);
        assert Forwarder(nodes, |nodes|, x) == -1;
      }
    }
  }

  /** No Identity node is left. */
  lemma {:induction false} NoIdentityLeft(nodes: seq<Node>, n: nat)
    requires n <= |nodes|
    ensures forall i :: 0 <= i < |Stripped(nodes, n)| ==> !IsIdentity(Stripped(nodes, n)[i])
  {
    if n > 0 {
      NoIdentityLeft(nodes, n - 1);
    }
  }

  lemma {:induction false} BoundIsProduced<V>(sem: Sem<V>, env: Env<V>, s: seq<Node>, n: nat, x: Name)
    requires n <= |s| && x in Eval(sem, env, s, n)
    ensures x in env || exists j :: 0 <= j < n && x in s[j].outputs
  {
    if n > 0 && x !in s[n - 1].outputs {
      BoundIsProduced(sem, env, s, n - 1, x);
    }
  }

  lemma {:induction false} StrippedOutputs(nodes: seq<Node>, n: nat, x: Name, i: nat)
    requires n <= |nodes| && i < |Stripped(nodes, n)| && x in Stripped(nodes, n)[i].outputs
    ensures exists k :: 0 <= k < n && x in nodes[k].outputs
  {
    if i == |Stripped(nodes, n)| - 1 && !IsIdentity(nodes[n - 1]) {
      assert x in nodes[n - 1].outputs;
    } else {
      StrippedOutputs(nodes, n - 1, x, i);
    }
  }

  lemma UnknownStaysUnbound<V>(given: set<Name>, nodes: seq<Node>, sem: Sem<V>, env: Env<V>, x: Name)
    requires env.Keys == given && !Known(given, nodes, |nodes|, x)
    ensures var stripped := Stripped(nodes, |nodes|);
            x !in Eval(sem, env, stripped, |stripped|)
  {
    var stripped := Stripped(nodes, |nodes|);
    if x in Eval(sem, env, stripped, |stripped|) {
      BoundIsProduced(sem, env, stripped, |stripped|, x);
      var j :| 0 <= j < |stripped| && x in stripped[j].outputs;
      StrippedOutputs(nodes, |nodes|, x, j);
      assert false;
    }
  }

  // ----- The stripped graph is well formed -----

  lemma KnownInLonger(given: set<Name>, s: seq<Node>, node: Node, i: nat, x: Name)
    requires i <= |s| && Known(given, s, i, x)
    ensures Known(given, s + [node], i, x)
  {
    if x != "" && x !in given {
      var j :| 0 <= j < i && x in s[j].outputs;
      assert (s + [node])[j] == s[j];
    }
  }

  /** A known name that no Identity node produces is known to the stripped prefix. */
  lemma {:induction false} KnownAfterStripping(given: set<Name>, nodes: seq<Node>, n: nat, x: Name)
    requires WellFormed(given, nodes) && n <= |nodes| && Known(given, nodes, n, x) && Forwarder(nodes, |nodes|, x) == -1
    ensures Known(given, Stripped(nodes, n), |Stripped(nodes, n)|, x)
  {
    if n > 0 && x != "" && x !in given {
      var node, front := nodes[n - 1], Stripped(nodes, n - 1);
      if x in node.outputs {
        assert !IsIdentity(node);
        assert Stripped(nodes, n)[|front|].outputs == node.outputs;
      } else {
        KnownAfterStripping(given, nodes, n - 1, x);
        if !IsIdentity(node) {
          var last := Stripped(nodes, n)[|front|];
          KnownInLonger(given, front, last, |front|, x);
          KnownLater(given, Stripped(nodes, n), |front|, |front| + 1, x);
        }
      }
    }
  }

  lemma AppendKeepsWellFormed(given: set<Name>, s: seq<Node>, node: Node)
    requires WellFormed(given, s) && !IsIdentity(node)
    requires forall x :: x in node.inputs ==> Known(given, s, |s|, x)
    requires forall x :: x in node.outputs ==> x !in given
    requires forall i, x :: 0 <= i < |s| && x in s[i].outputs && x in node.outputs ==> x == ""
    ensures WellFormed(given, s + [node])
  {
    var t := s + [node];
    forall i, x | 0 <= i < |t| && x in t[i].inputs
      ensures Known(given, t, i, x)
    {
      KnownInLonger(given, s, node, i, x);
    }
  }

  /** The stripped graph is sorted, names every value once and has no Identity node. */
  lemma {:induction false} StrippedIsWellFormed(given: set<Name>, nodes: seq<Node>, n: nat)
    requires WellFormed(given, nodes) && n <= |nodes|
    ensures WellFormed(given, Stripped(nodes, n))
  {
    if n > 0 {
      StrippedIsWellFormed(given, nodes, n - 1);
      var m, node, front := n - 1, nodes[n - 1], Stripped(nodes, n - 1);
      if !IsIdentity(node) {
        var node' := node.(inputs := ResolveAll(nodes, node.inputs));
        forall x | x in node'.inputs
          ensures Known(given, front, |front|, x)
        {
          InputStaysKnown(given, nodes, m, x);
        }
        forall i, x | 0 <= i < |front| && x in front[i].outputs && x in node'.outputs
          ensures x == ""
        {
          StrippedOutputs(nodes, m, x, i);
        }
        AppendKeepsWellFormed(given, front, node');
      }
    }
  }

  lemma InputStaysKnown(given: set<Name>, nodes: seq<Node>, n: nat, x: Name)
    requires WellFormed(given, nodes) && n < |nodes| && x in ResolveAll(nodes, nodes[n].inputs)
    ensures Known(given, Stripped(nodes, n), |Stripped(nodes, n)|, x)
  {
    var names := nodes[n].inputs;
    var i :| 0 <= i < |names| && Resolve(nodes, |nodes|, names[i]) == x;
    assert names[i] in names;
    ResolveKnown(given, nodes, n, names[i]);
    KnownAfterStripping(given, nodes, n, x);
  }

  // ----- The transformation -----

  type Repl = map<Name, Name>

  /** The `replacements` dictionary: a later entry for a name replaces an earlier one. */
  function Replacements(nodes: seq<Node>, n: nat): Repl
    requires n <= |nodes|
  {
    if n == 0 then map[] else
      var repl, node := Replacements(nodes, n - 1), nodes[n - 1];
      if IsForwarding(node) then repl[node.outputs[0] := node.inputs[0]] else repl
  }

  ghost predicate IsReplacements(nodes: seq<Node>, n: nat, repl: Repl)
    requires n <= |nodes|
  {
    forall x :: var j := Forwarder(nodes, n, x);
      (x in repl <==> j >= 0) && (j >= 0 ==> repl[x] == nodes[j].inputs[0])
  }

  /** Each name maps to the input of the last Identity node that forwards to it. */
  lemma {:induction false} ReplacementsMeaning(nodes: seq<Node>, n: nat)
    requires n <= |nodes|
    ensures IsReplacements(nodes, n, Replacements(nodes, n))
  {
    if n > 0 {
      ReplacementsMeaning(nodes, n - 1);
    }
  }

  method BuildReplacements(nodes: seq<Node>) returns (repl: Repl)
    ensures repl == Replacements(nodes, |nodes|) && IsReplacements(nodes, |nodes|, repl)
  {
    repl := map[];
    for n := 0 to |nodes|
      invariant repl == Replacements(nodes, n)
    {
      if IsForwarding(nodes[n]) {
        repl := repl[nodes[n].outputs[0] := nodes[n].inputs[0]];
      }
    }
    ReplacementsMeaning(nodes, |nodes|);
  }

  /** Following replacements from `x` leaves the dictionary within `n` steps. */
  ghost predicate Ends(repl: Repl, x: Name, n: nat)
    decreases n
  {
    x !in repl || (n > 0 && Ends(repl, repl[x], n - 1))
  }

  ghost function Walk(repl: Repl, x: Name, n: nat): Name
    requires Ends(repl, x, n)
    decreases n
  {
    if x !in repl then x else Walk(repl, repl[x], n - 1)
  }

  lemma {:induction false} WalkUnique(repl: Repl, x: Name, n: nat, m: nat)
    requires Ends(repl, x, n) && Ends(repl, x, m)
    ensures Walk(repl, x, n) == Walk(repl, x, m)
    decreases n
  {
    if x in repl {
      WalkUnique(repl, repl[x], n - 1, m - 1);
    }
  }

  /** Following replacements from `x` comes to an end; on a cycle the script would not. */
  ghost predicate Halts(repl: Repl, x: Name) {
    exists n: nat :: Ends(repl, x, n)
  }

  ghost function Target(repl: Repl, x: Name): Name
    requires Halts(repl, x)
  {
    var n: nat :| Ends(repl, x, n);
    Walk(repl, x, n)
  }

  lemma TargetIs(repl: Repl, x: Name, n: nat)
    requires Ends(repl, x, n)
    ensures Halts(repl, x) && Target(repl, x) == Walk(repl, x, n)
  {
    var m: nat :| Ends(repl, x, m) && Target(repl, x) == Walk(repl, x, m);
    WalkUnique(repl, x, n, m);
  }

  ghost predicate AllHalt(repl: Repl, names: seq<Name>) {
    forall i :: 0 <= i < |names| ==> Halts(repl, names[i])
  }

  ghost function Targets(repl: Repl, names: seq<Name>): (r: seq<Name>)
    requires AllHalt(repl, names)
    ensures |r| == |names| && forall i :: 0 <= i < |names| ==> r[i] == Target(repl, names[i])
  {
    seq(|names|, i requires 0 <= i < |names| => Target(repl, names[i]))
  }

  /** The `while name in replacements` loop. */
  method Follow(repl: Repl, start: Name) returns (name: Name)
    requires Halts(repl, start)
    ensures name == Target(repl, start) && name !in repl
  {
    ghost var n: nat :| Ends(repl, start, n);
    TargetIs(repl, start, n);
    name := start;
    while name in repl
      invariant Ends(repl, name, n) && Walk(repl, name, n) == Target(repl, start)
      decreases n
    {
      name := repl[name];
      n := n - 1;
    }
  }

  method FollowAll(repl: Repl, names: seq<Name>) returns (r: seq<Name>)
    requires AllHalt(repl, names)
    ensures r == Targets(repl, names)
  {
    r := names;
    for i := 0 to |names|
      invariant |r| == |names|
      invariant forall j :: 0 <= j < i ==> r[j] == Target(repl, names[j])
      invariant forall j :: i <= j < |names| ==> r[j] == names[j]
    {
      var name := Follow(repl, r[i]);
      r := r[i := name];
    }
  }

  function Kept(nodes: seq<Node>, n: nat): seq<Node>
    requires n <= |nodes|
  {
    if n == 0 then []
    else if IsIdentity(nodes[n - 1]) then Kept(nodes, n - 1)
    else Kept(nodes, n - 1) + [nodes[n - 1]]
  }

  ghost predicate InputsHalt(repl: Repl, nodes: seq<Node>) {
    forall i :: 0 <= i < |nodes| ==> AllHalt(repl, nodes[i].inputs)
  }

  ghost function Redirect(repl: Repl, node: Node): Node
    requires AllHalt(repl, node.inputs)
  {
    node.(inputs := Targets(repl, node.inputs))
  }

  /** Every chain of replacements the script follows comes to an end. */
  ghost predicate CanStrip(nodes: seq<Node>, outputs: seq<Name>) {
    var repl := Replacements(nodes, |nodes|);
    InputsHalt(repl, Kept(nodes, |nodes|)) && AllHalt(repl, outputs)
  }

  /** The graph the script leaves. */
  ghost predicate IsStripOf(nodes: seq<Node>, outputs: seq<Name>, nodes': seq<Node>, outputs': seq<Name>)
    requires CanStrip(nodes, outputs)
  {
    var repl, kept := Replacements(nodes, |nodes|), Kept(nodes, |nodes|);
    if repl == map[] then nodes' == nodes && outputs' == outputs
    else
      && |nodes'| == |kept| && (forall i :: 0 <= i < |kept| ==> nodes'[i] == Redirect(repl, kept[i]))
      && outputs' == Targets(repl, outputs)
  }

  /** The part of a model the transformation edits in place. */
  class Graph {
    var nodes: seq<Node>
    var outputs: seq<Name>

    constructor (nodes: seq<Node>, outputs: seq<Name>)
      ensures this.nodes == nodes && this.outputs == outputs
    {
      this.nodes, this.outputs := nodes, outputs;
    }

    method StripIdentityNodes()
      requires CanStrip(nodes, outputs)
      modifies this
      ensures IsStripOf(old(nodes), old(outputs), nodes, outputs)
    {
      var original := nodes;
      var repl := BuildReplacements(original);
      if repl == map[] {
        return;
      }
      var kept := Kept(original, |original|);
      nodes := kept;
      for i := 0 to |nodes|
        invariant outputs == old(outputs) && |nodes| == |kept|
        invariant forall j :: 0 <= j < i ==> nodes[j] == Redirect(repl, kept[j])
        invariant forall j :: i <= j < |nodes| ==> nodes[j] == kept[j]
      {
        var inputs := FollowAll(repl, nodes[i].inputs);
        nodes := nodes[i := nodes[i].(inputs := inputs)];
      }
      outputs := FollowAll(repl, outputs);
    }
  }

  // ----- On well-formed graphs -----

  /** On a sorted graph every chain ends, at the name the chain of Identity nodes starts from. */
  lemma {:induction false} SortedHalts(given: set<Name>, nodes: seq<Node>, x: Name)
    requires WellFormed(given, nodes)
    ensures var repl, n := Replacements(nodes, |nodes|), Forwarder(nodes, |nodes|, x) + 1;
            Ends(repl, x, n) && Walk(repl, x, n) == Resolve(nodes, |nodes|, x)
    decreases Forwarder(nodes, |nodes|, x) + 1
  {
    ReplacementsMeaning(nodes, |nodes|);
    var repl, j := Replacements(nodes, |nodes|), Forwarder(nodes, |nodes|, x);
    if j >= 0 {
      var y := nodes[j].inputs[0];
      ResolveStep(given, nodes, x);
      SortedHalts(given, nodes, y);
      EndsLonger(repl, y, Forwarder(nodes, |nodes|, y) + 1, j);
    }
  }

  lemma {:induction false} EndsLonger(repl: Repl, x: Name, n: nat, m: nat)
    requires Ends(repl, x, n) && n <= m
    ensures Ends(repl, x, m) && Walk(repl, x, m) == Walk(repl, x, n)
    decreases n
  {
    if x in repl {
      EndsLonger(repl, repl[x], n - 1, m - 1);
    }
  }

  lemma SortedTarget(given: set<Name>, nodes: seq<Node>, x: Name)
    requires WellFormed(given, nodes)
    ensures var repl := Replacements(nodes, |nodes|);
            Halts(repl, x) && Target(repl, x) == Resolve(nodes, |nodes|, x)
  {
    SortedHalts(given, nodes, x);
    TargetIs(Replacements(nodes, |nodes|), x, Forwarder(nodes, |nodes|, x) + 1);
  }

  lemma SortedTargets(given: set<Name>, nodes: seq<Node>, names: seq<Name>)
    requires WellFormed(given, nodes)
    ensures var repl := Replacements(nodes, |nodes|);
            AllHalt(repl, names) && Targets(repl, names) == ResolveAll(nodes, names)
  {
    forall i | 0 <= i < |names|
      ensures var repl := Replacements(nodes, |nodes|);
              Halts(repl, names[i]) && Target(repl, names[i]) == Resolve(nodes, |nodes|, names[i])
    {
      SortedTarget(given, nodes, names[i]);
    }
  }

  /** So the script ends on every sorted graph. */
  lemma SortedCanStrip(given: set<Name>, nodes: seq<Node>, outputs: seq<Name>)
    requires WellFormed(given, nodes)
    ensures CanStrip(nodes, outputs)
  {
    var kept := Kept(nodes, |nodes|);
    forall i | 0 <= i < |kept|
      ensures AllHalt(Replacements(nodes, |nodes|), kept[i].inputs)
    {
      SortedTargets(given, nodes, kept[i].inputs);
    }
    SortedTargets(given, nodes, outputs);
  }

  lemma {:induction false} StrippedIsKept(nodes: seq<Node>, n: nat)
    requires n <= |nodes|
    ensures |Stripped(nodes, n)| == |Kept(nodes, n)|
    ensures forall i :: 0 <= i < |Kept(nodes, n)| ==>
              Stripped(nodes, n)[i] == Kept(nodes, n)[i].(inputs := ResolveAll(nodes, Kept(nodes, n)[i].inputs))
  {
    if n > 0 {
      StrippedIsKept(nodes, n - 1);
    }
  }

  lemma {:induction false} NothingToStrip(nodes: seq<Node>, n: nat)
    requires n <= |nodes| && forall i :: 0 <= i < |nodes| ==> !IsIdentity(nodes[i])
    ensures Stripped(nodes, n) == nodes[..n]
  {
    if n > 0 {
      NothingToStrip(nodes, n - 1);
      assert ResolveAll(nodes, nodes[n - 1].inputs) == nodes[n - 1].inputs;
      assert nodes[..n] == nodes[..n - 1] + [nodes[n - 1]];
    }
  }

  lemma EmptyMeansUntouched(given: set<Name>, nodes: seq<Node>, outputs: seq<Name>)
    requires WellFormed(given, nodes) && IsReplacements(nodes, |nodes|, map[])
    ensures Stripped(nodes, |nodes|) == nodes && ResolveAll(nodes, outputs) == outputs
  {
    forall i | 0 <= i < |nodes|
      ensures !IsIdentity(nodes[i])
    {
      assert IsForwarding(nodes[i]) ==> Forwarder(nodes, |nodes|, nodes[i].outputs[0]) >= 0;
    }
    NothingToStrip(nodes, |nodes|);
    assert nodes[..|nodes|] == nodes;
  }

  lemma StripIsStripped(given: set<Name>, nodes: seq<Node>, outputs: seq<Name>, nodes': seq<Node>, outputs': seq<Name>)
    requires WellFormed(given, nodes) && CanStrip(nodes, outputs) && IsStripOf(nodes, outputs, nodes', outputs')
    ensures nodes' == Stripped(nodes, |nodes|) && outputs' == ResolveAll(nodes, outputs)
  {
    var repl, kept := Replacements(nodes, |nodes|), Kept(nodes, |nodes|);
    ReplacementsMeaning(nodes, |nodes|);
    if repl == map[] {
      EmptyMeansUntouched(given, nodes, outputs);
    } else {
      StrippedIsKept(nodes, |nodes|);
      forall i | 0 <= i < |kept|
        ensures nodes'[i] == Stripped(nodes, |nodes|)[i]
      {
        SortedTargets(given, nodes, kept[i].inputs);
      }
      SortedTargets(given, nodes, outputs);
    }
  }

  /** The script leaves a well-formed graph without Identity nodes whose outputs evaluate, position by
      position, to what they did before. */
  lemma StripPreservesMeaning<V>(given: set<Name>, nodes: seq<Node>, outputs: seq<Name>,
                                 nodes': seq<Node>, outputs': seq<Name>, sem: Sem<V>, env: Env<V>)
    requires WellFormed(given, nodes) && env.Keys == given
    requires CanStrip(nodes, outputs) && IsStripOf(nodes, outputs, nodes', outputs')
    ensures WellFormed(given, nodes') && forall i :: 0 <= i < |nodes'| ==> !IsIdentity(nodes'[i])
    ensures Args(Eval(sem, env, nodes, |nodes|), outputs) == Args(Eval(sem, env, nodes', |nodes'|), outputs')
  {
    StripIsStripped(given, nodes, outputs, nodes', outputs');
    StrippedIsWellFormed(given, nodes, |nodes|);
    NoIdentityLeft(nodes, |nodes|);
    ResolvingPreservesMeaning(given, nodes, outputs, sem, env);
  }
}
