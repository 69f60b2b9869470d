/** The check that identity relationships form no cycle: a topological traversal with a
    stack, over a table from each declared node to the list of its children. */
module Graph {

  type Node = string
  type Edges = map<Node, seq<Node>>

  datatype Verdict = Acyclic | Undeclared | Cyclic

  predicate Declared(edges: Edges) {
    forall n :: n in edges ==> forall i :: 0 <= i < |edges[n]| ==> edges[n][i] in edges
  }

  predicate Edge(edges: Edges, a: Node, b: Node) { a in edges && b in edges[a] }

  predicate Path(edges: Edges, p: seq<Node>) { forall i :: 0 <= i < |p| - 1 ==> Edge(edges, p[i], p[i + 1]) }

  predicate Cycle(edges: Edges, p: seq<Node>) { |p| >= 2 && p[0] == p[|p| - 1] && Path(edges, p) }

  predicate Distinct(s: seq<Node>) { forall i, j :: 0 <= i < j < |s| ==> s[i] != s[j] }

  function Elements(s: seq<Node>): set<Node> { set n | n in s }

  /** Every node once, each after all nodes that lead to it. */
  ghost predicate Topological(edges: Edges, order: seq<Node>) {
    Distinct(order) && Elements(order) == edges.Keys && Grounded(edges, order)
  }

  /** Whatever leads to a node of the sequence stands before it. */
  ghost predicate Grounded(edges: Edges, order: seq<Node>) {
    forall j :: 0 <= j < |order| ==> forall a :: Edge(edges, a, order[j]) ==> a in order[..j]
  }

  // ----- Counting the edges still to be removed -----

  function Count(children: seq<Node>, c: Node): nat {
    if children == [] then 0 else (if children[0] == c then 1 else 0) + Count(children[1..], c)
  }

  /** Edges into `c` from the listed nodes that are not done, with multiplicity. */
  function Incoming(nodes: seq<Node>, edges: Edges, done: set<Node>, c: Node): nat
    requires Elements(nodes) <= edges.Keys
  {
    if nodes == [] then 0
    else
      assert nodes[0] in Elements(nodes);
      (if nodes[0] in done then 0 else Count(edges[nodes[0]], c)) + Incoming(nodes[1..], edges, done, c)
  }

  lemma {:induction false} CountMember(children: seq<Node>, c: Node)
    ensures Count(children, c) > 0 <==> c in children
  {
    if children != [] { CountMember(children[1..], c); }
  }

  lemma {:induction false} IncomingMember(nodes: seq<Node>, edges: Edges, done: set<Node>, c: Node)
    requires Elements(nodes) <= edges.Keys
    ensures Incoming(nodes, edges, done, c) > 0 <==> exists n :: n in nodes && n !in done && Edge(edges, n, c)
  {
    if nodes != [] {
      assert nodes[0] in Elements(nodes);
      CountMember(edges[nodes[0]], c);
      IncomingMember(nodes[1..], edges, done, c);
      assert forall n :: n in nodes <==> n == nodes[0] || n in nodes[1..];
    }
  }

  /** Finishing a node removes its own edges from the count. */
  lemma {:induction false} IncomingDone(nodes: seq<Node>, edges: Edges, done: set<Node>, node: Node, c: Node)
    requires Elements(nodes) <= edges.Keys && Distinct(nodes) && node !in done && node in edges
    ensures Incoming(nodes, edges, done, c) ==
            Incoming(nodes, edges, done + {node}, c) + (if node in nodes then Count(edges[node], c) else 0)
  {
    if nodes != [] {
      assert nodes[0] in Elements(nodes);
      IncomingDone(nodes[1..], edges, done, node, c);
      assert node in nodes <==> node == nodes[0] || node in nodes[1..];
    }
  }

  /** The same edges counted node by node from the front, as the first loop does. */
  function Seen(nodes: seq<Node>, edges: Edges, k: nat, c: Node): nat
    requires Elements(nodes) <= edges.Keys && k <= |nodes|
  {
    if k == 0 then 0
    else
      assert nodes[k - 1] in Elements(nodes);
      Seen(nodes, edges, k - 1, c) + Count(edges[nodes[k - 1]], c)
  }

  lemma {:induction false} SeenAll(nodes: seq<Node>, edges: Edges, k: nat, c: Node)
    requires Elements(nodes) <= edges.Keys && k <= |nodes|
    ensures Seen(nodes, edges, k, c) + Incoming(nodes[k..], edges, {}, c) == Incoming(nodes, edges, {}, c)
  {
    if k == 0 {
      assert nodes[0..] == nodes;
    } else {
      SeenAll(nodes, edges, k - 1, c);
      assert nodes[k - 1..][1..] == nodes[k..];
      assert nodes[k - 1] in Elements(nodes);
    }
  }

  // ----- The state of the traversal -----

  /** `incoming` counts the edges from nodes not done, and `rest`, the edges of the current
      node still to be removed. */
  ghost predicate Balanced(nodes: seq<Node>, edges: Edges, incoming: map<Node, nat>, done: set<Node>, rest: seq<Node>)
    requires Elements(nodes) <= edges.Keys
  {
    incoming.Keys == edges.Keys &&
    forall c :: c in edges ==> incoming[c] == Incoming(nodes, edges, done, c) + Count(rest, c)
  }

  /** The stack holds, once each, the nodes not done that nothing leads to any more. */
  ghost predicate Waiting(edges: Edges, incoming: map<Node, nat>, ready: seq<Node>, done: set<Node>) {
    Distinct(ready) && incoming.Keys == edges.Keys &&
    forall n :: n in ready <==> n in edges && n !in done && incoming[n] == 0
  }

  ghost predicate Lists(nodes: seq<Node>, edges: Edges) { Distinct(nodes) && Elements(nodes) == edges.Keys }

  lemma {:induction false} DistinctSize(s: seq<Node>)
    requires Distinct(s)
    ensures |Elements(s)| == |s|
  {
    if s != [] {
      var init := s[..|s| - 1];
      DistinctSize(init);
      assert Elements(s) == Elements(init) + {s[|s| - 1]};
      assert s[|s| - 1] !in Elements(init);
    }
  }

  lemma PopGrounds(nodes: seq<Node>, edges: Edges, incoming: map<Node, nat>, order: seq<Node>, node: Node)
    requires Lists(nodes, edges) && Balanced(nodes, edges, incoming, Elements(order), [])
    requires Grounded(edges, order) && node in edges && incoming[node] == 0
    ensures Grounded(edges, order + [node])
  {
    IncomingMember(nodes, edges, Elements(order), node);
    var next := order + [node];
    forall j, a | 0 <= j < |next| && Edge(edges, a, next[j]) ensures a in next[..j] {
      if j < |order| {
        assert next[..j] == order[..j];
        assert Edge(edges, a, order[j]);
      } else {
        assert next[..j] == order;
        assert a in Elements(nodes);
      }
    }
  }

  lemma PopBalances(nodes: seq<Node>, edges: Edges, incoming: map<Node, nat>, done: set<Node>, node: Node)
    requires Lists(nodes, edges) && Balanced(nodes, edges, incoming, done, []) && node in edges && node !in done
    ensures Balanced(nodes, edges, incoming, done + {node}, edges[node])
  {
    assert node in Elements(nodes);
    forall c | c in edges ensures incoming[c] == Incoming(nodes, edges, done + {node}, c) + Count(edges[node], c) {
      IncomingDone(nodes, edges, done, node, c);
    }
  }

  /** A child of the node being finished is not done yet. */
  lemma ChildPending(edges: Edges, order: seq<Node>, node: Node, child: Node)
    requires Grounded(edges, order + [node]) && node !in order && Edge(edges, node, child)
    ensures child !in order + [node]
  {
    var next := order + [node];
    forall j | 0 <= j < |next| ensures next[j] != child {
      assert node !in next[..j];
      assert !Edge(edges, node, next[j]);
    }
  }

  lemma DropBalances(nodes: seq<Node>, edges: Edges, incoming: map<Node, nat>, done: set<Node>, rest: seq<Node>)
    requires Lists(nodes, edges) && Balanced(nodes, edges, incoming, done, rest) && rest != [] && rest[0] in edges
    ensures incoming[rest[0]] > 0
    ensures Balanced(nodes, edges, incoming[rest[0] := incoming[rest[0]] - 1], done, rest[1..])
  {
  }

  lemma DropWaits(edges: Edges, incoming: map<Node, nat>, ready: seq<Node>, done: set<Node>, child: Node, value: nat)
    requires Waiting(edges, incoming, ready, done) && child in edges && child !in done && incoming[child] == value + 1
    ensures Waiting(edges, incoming[child := value], if value == 0 then ready + [child] else ready, done)
  {
    assert child !in ready;
  }

  lemma PopWaits(edges: Edges, incoming: map<Node, nat>, ready: seq<Node>, done: set<Node>)
    requires Waiting(edges, incoming, ready, done) && ready != []
    ensures ready[|ready| - 1] in edges && ready[|ready| - 1] !in done && incoming[ready[|ready| - 1]] == 0
    ensures Waiting(edges, incoming, ready[..|ready| - 1], done + {ready[|ready| - 1]})
  {
    var node, init := ready[|ready| - 1], ready[..|ready| - 1];
    assert node in ready;
    forall n ensures n in init <==> n in edges && n !in done + {node} && incoming[n] == 0 {
      assert n in ready <==> n in init || n == node;
    }
  }

  // ----- What the end of the traversal means -----

  /** A path follows a topological order, so it never comes back. */
  lemma {:induction false} OrderAdvances(edges: Edges, order: seq<Node>, p: seq<Node>, k: nat, j: nat)
    requires Topological(edges, order) && Path(edges, p) && 0 < k < |p| && j < |order| && order[j] == p[k]
    ensures exists i :: 0 <= i < j && order[i] == p[0]
    decreases k
  {
    assert Edge(edges, p[k - 1], p[k]);
    assert Edge(edges, p[k - 1], order[j]);
    var i :| 0 <= i < j && order[i] == p[k - 1];
    if k > 1 { OrderAdvances(edges, order, p, k - 1, i); }
  }

  lemma OrderForbidsCycles(edges: Edges, order: seq<Node>, p: seq<Node>)
    requires Topological(edges, order) && Declared(edges)
    ensures !Cycle(edges, p)
  {
    if Cycle(edges, p) {
      var last := |p| - 1;
      assert Edge(edges, p[last - 1], p[last]);
      assert p[last] in Elements(order);
      var j :| 0 <= j < |order| && order[j] == p[last];
      OrderAdvances(edges, order, p, last, j);
    }
  }

  /** Walking backwards through nodes that are not done, as far as one likes. */
  lemma {:induction false} WalkBack(nodes: seq<Node>, edges: Edges, done: set<Node>, n: Node, k: nat)
    returns (p: seq<Node>)
    requires Lists(nodes, edges) && n in edges && n !in done
    requires forall c :: c in edges && c !in done ==> Incoming(nodes, edges, done, c) > 0
    ensures |p| == k + 1 && p[k] == n && Path(edges, p) && forall i :: 0 <= i < |p| ==> p[i] in edges
    decreases k
  {
    if k == 0 {
      p := [n];
    } else {
      IncomingMember(nodes, edges, done, n);
      var before :| before in nodes && before !in done && Edge(edges, before, n);
      var q := WalkBack(nodes, edges, done, before, k - 1);
      p := q + [n];
    }
  }

  lemma StuckHasCycle(nodes: seq<Node>, edges: Edges, done: set<Node>, n: Node) returns (p: seq<Node>)
    requires Lists(nodes, edges) && n in edges && n !in done
    requires forall c :: c in edges && c !in done ==> Incoming(nodes, edges, done, c) > 0
    ensures Cycle(edges, p)
  {
    var walk := WalkBack(nodes, edges, done, n, |edges.Keys|);
    if Distinct(walk) {
      DistinctSize(walk);
      assert Elements(walk) <= edges.Keys;
      Smaller(Elements(walk), edges.Keys);
      assert false;
    }
    var i, j :| 0 <= i < j < |walk| && walk[i] == walk[j];
    p := walk[i..j + 1];
  }

  lemma {:induction false} Smaller(a: set<Node>, b: set<Node>)
    requires a <= b
    ensures |a| <= |b| && (|a| == |b| ==> a == b)
  {
    if a != {} {
      var x :| x in a;
      Smaller(a - {x}, b - {x});
    }
  }

  lemma NothingDone(edges: Edges)
    ensures Elements([]) == {} && Distinct([]) && Grounded(edges, [])
  {
  }

  lemma OrderGrows(edges: Edges, order: seq<Node>, node: Node)
    requires Distinct(order) && Elements(order) <= edges.Keys && node in edges && node !in Elements(order)
    ensures Distinct(order + [node]) && Elements(order + [node]) == Elements(order) + {node}
    ensures Elements(order + [node]) <= edges.Keys && |order| + 1 <= |edges|
  {
    DistinctSize(order + [node]);
    assert node in edges.Keys;
    Smaller(Elements(order + [node]), edges.Keys);
  }

  lemma ChildWaits(edges: Edges, order: seq<Node>, node: Node, k: nat)
    requires Declared(edges) && node in edges && k < |edges[node]|
    requires Grounded(edges, order + [node]) && node !in Elements(order)
    ensures edges[node][k] in edges && edges[node][k] !in Elements(order) + {node}
  {
    ChildPending(edges, order, node, edges[node][k]);
  }

  lemma Conclude(nodes: seq<Node>, edges: Edges, incoming: map<Node, nat>, order: seq<Node>)
    requires Lists(nodes, edges) && Declared(edges)
    requires Balanced(nodes, edges, incoming, Elements(order), []) && Waiting(edges, incoming, [], Elements(order))
    requires Distinct(order) && Elements(order) <= edges.Keys && Grounded(edges, order)
    ensures |order| == |edges| ==> Topological(edges, order) && forall p :: !Cycle(edges, p)
    ensures |order| != |edges| ==> exists p :: Cycle(edges, p)
  {
    hide Incoming;
    hide Cycle;
    hide Grounded;
    DistinctSize(order);
    Smaller(Elements(order), edges.Keys);
    if |order| == |edges| {
      forall p ensures !Cycle(edges, p) { OrderForbidsCycles(edges, order, p); }
    } else {
      assert Elements(order) != edges.Keys;
      var n :| n in edges.Keys && n !in Elements(order);
      forall c | c in edges && c !in Elements(order) ensures Incoming(nodes, edges, Elements(order), c) > 0 {
        assert c !in [];
      }
      var p := StuckHasCycle(nodes, edges, Elements(order), n);
    }
  }

  // ----- The two loops before the traversal -----

  /** The children seen so far are declared and counted, but for `rest`. */
  ghost predicate Counting(nodes: seq<Node>, edges: Edges, incoming: map<Node, nat>, i: nat, rest: seq<Node>)
    requires Elements(nodes) <= edges.Keys && i <= |nodes|
  {
    incoming.Keys == edges.Keys && forall c :: c in edges ==> incoming[c] + Count(rest, c) == Seen(nodes, edges, i, c)
  }

  predicate AllDeclared(children: seq<Node>, edges: Edges) { forall i :: 0 <= i < |children| ==> children[i] in edges }

  lemma CountingNext(nodes: seq<Node>, edges: Edges, incoming: map<Node, nat>, i: nat)
    requires Lists(nodes, edges) && i < |nodes| && Counting(nodes, edges, incoming, i, [])
    ensures nodes[i] in edges && Counting(nodes, edges, incoming, i + 1, edges[nodes[i]])
  {
    assert nodes[i] in Elements(nodes);
  }

  lemma CountingDrop(nodes: seq<Node>, edges: Edges, incoming: map<Node, nat>, i: nat, rest: seq<Node>)
    requires Lists(nodes, edges) && i <= |nodes| && Counting(nodes, edges, incoming, i, rest)
    requires rest != [] && rest[0] in edges
    ensures Counting(nodes, edges, incoming[rest[0] := incoming[rest[0]] + 1], i, rest[1..])
  {
  }

  lemma CountedAll(nodes: seq<Node>, edges: Edges, incoming: map<Node, nat>)
    requires Lists(nodes, edges) && Counting(nodes, edges, incoming, |nodes|, [])
    ensures Balanced(nodes, edges, incoming, {}, [])
  {
    forall c | c in edges ensures incoming[c] == Incoming(nodes, edges, {}, c) + Count([], c) {
      SeenAll(nodes, edges, |nodes|, c);
      assert nodes[|nodes|..] == [];
    }
  }

  lemma Listed(nodes: seq<Node>, edges: Edges)
    requires Lists(nodes, edges)
    ensures forall n :: n in edges ==> n in nodes
  {
    assert forall n :: n in edges ==> n in Elements(nodes);
  }

  method CountIncoming(nodes: seq<Node>, edges: Edges) returns (declared: bool, incoming: map<Node, nat>)
    requires Lists(nodes, edges)
    ensures declared <==> Declared(edges)
    ensures declared ==> incoming.Keys == edges.Keys && Balanced(nodes, edges, incoming, {}, [])
  {
    hide Incoming;
    hide Count;
    hide Seen;
    hide Balanced;
    hide Distinct;
    hide Elements;
    hide Counting;
    incoming := map n | n in edges :: 0;
    var i := 0;
    assert Counting(nodes, edges, incoming, 0, []) by { CountingStarts(nodes, edges, incoming); }
    while i < |nodes|
      invariant 0 <= i <= |nodes| && incoming.Keys == edges.Keys
      invariant Counting(nodes, edges, incoming, i, [])
      invariant forall j :: 0 <= j < i ==> nodes[j] in edges && AllDeclared(edges[nodes[j]], edges)
    {
      CountingNext(nodes, edges, incoming, i);
      var children := edges[nodes[i]];
      var k := 0;
      while k < |children|
        invariant 0 <= k <= |children| && incoming.Keys == edges.Keys
        invariant Counting(nodes, edges, incoming, i + 1, children[k..])
        invariant forall j :: 0 <= j < k ==> children[j] in edges
      {
        if children[k] !in incoming { return false, incoming; }
        CountingDrop(nodes, edges, incoming, i + 1, children[k..]);
        assert children[k..][1..] == children[k + 1..];
        incoming := incoming[children[k] := incoming[children[k]] + 1];
        k := k + 1;
      }
      assert children[k..] == [];
      i := i + 1;
    }
    CountedAll(nodes, edges, incoming);
    Listed(nodes, edges);
    declared := true;
  }

  lemma CountingStarts(nodes: seq<Node>, edges: Edges, incoming: map<Node, nat>)
    requires Lists(nodes, edges) && incoming.Keys == edges.Keys && forall n :: n in edges ==> incoming[n] == 0
    ensures Counting(nodes, edges, incoming, 0, [])
  {
  }

  method Unreferenced(nodes: seq<Node>, edges: Edges, incoming: map<Node, nat>) returns (ready: seq<Node>)
    requires Lists(nodes, edges) && incoming.Keys == edges.Keys
    ensures Waiting(edges, incoming, ready, {})
  {
    ready := [];
    var i := 0;
    while i < |nodes|
      invariant 0 <= i <= |nodes| && Distinct(ready)
      invariant forall n :: n in ready <==> n in nodes[..i] && n in edges && incoming[n] == 0
    {
      assert nodes[i] in Elements(nodes);
      assert forall n :: n in nodes[..i + 1] <==> n in nodes[..i] || n == nodes[i];
      assert nodes[i] !in nodes[..i];
      if incoming[nodes[i]] == 0 { ready := ready + [nodes[i]]; }
      i := i + 1;
    }
    assert nodes[..i] == nodes;
    assert forall n :: n in edges ==> n in Elements(nodes);
  }

  // ----- The traversal -----

  /** Accepts exactly the graphs whose children are all declared and that have no cycle. An
      accepted graph has a topological order and a rejected declared one a cycle. */
  method CheckAcyclic(nodes: seq<Node>, edges: Edges) returns (verdict: Verdict)
    requires Lists(nodes, edges)
    ensures verdict.Undeclared? <==> !Declared(edges)
    ensures verdict.Acyclic? ==> (exists order :: Topological(edges, order)) && forall p :: !Cycle(edges, p)
    ensures verdict.Cyclic? ==> exists p :: Cycle(edges, p)
  {
    hide Incoming;
    hide Topological;
    hide Cycle;
    hide Edge;
    hide Declared;
    hide Count;
    hide Seen;
    hide Balanced;
    hide Waiting;
    hide Grounded;
    hide Distinct;
    hide Elements;
    var declared, incoming := CountIncoming(nodes, edges);
    if !declared { return Undeclared; }
    var ready := Unreferenced(nodes, edges, incoming);
    ghost var order: seq<Node> := [];
    var visited := 0;
    NothingDone(edges);
    while ready != []
      invariant incoming.Keys == edges.Keys && Balanced(nodes, edges, incoming, Elements(order), [])
      invariant Waiting(edges, incoming, ready, Elements(order))
      invariant Distinct(order) && Elements(order) <= edges.Keys && Grounded(edges, order) && visited == |order|
      decreases |edges| - |order|
    {
      PopWaits(edges, incoming, ready, Elements(order));
      var node := ready[|ready| - 1];
      ready := ready[..|ready| - 1];
      PopGrounds(nodes, edges, incoming, order, node);
      PopBalances(nodes, edges, incoming, Elements(order), node);
      OrderGrows(edges, order, node);
      ghost var done := Elements(order) + {node};
      visited := visited + 1;
      var k := 0;
      while k < |edges[node]|
        invariant 0 <= k <= |edges[node]| && incoming.Keys == edges.Keys
        invariant Balanced(nodes, edges, incoming, done, edges[node][k..])
        invariant Waiting(edges, incoming, ready, done)
      {
        var child := edges[node][k];
        ChildWaits(edges, order, node, k);
        DropBalances(nodes, edges, incoming, done, edges[node][k..]);
        assert edges[node][k..][1..] == edges[node][k + 1..];
        DropWaits(edges, incoming, ready, done, child, incoming[child] - 1);
        incoming := incoming[child := incoming[child] - 1];
        if incoming[child] == 0 { ready := ready + [child]; }
        k := k + 1;
      }
      assert edges[node][k..] == [];
      order := order + [node];
    }
    verdict := if visited != |edges| then Cyclic else Acyclic;
    Conclude(nodes, edges, incoming, order);
  }
}
