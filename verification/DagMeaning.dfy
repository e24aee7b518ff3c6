/** What a finished graph says about its log: reachability, roots, and comparison (history/dag.go). */
module DagMeaning {
  import opened Identifiers
  import opened Clocks
  import opened Operations
  import opened OperationLog
  import opened Convergence
  import opened TextSequence
  import opened OperationNames
  import opened CausalDag
  import opened DagLayers
  import opened DagGraphs

  /** The lists of a node of the finished graph. */
  lemma FinishedNode(ops: Log, g: Drawing, op: WootOperation)
    requires Graph(ops, g) && op in ops
    ensures Name(op.id) in g.nodes
    ensures g.nodes[Name(op.id)] == DAGNode(op, ParentRows(ops, op, |ops|), ChildRows(ops, op, |ops|))
    ensures EdgesFrom(g.edges, Name(op.id)) == FirstOnly(NamesOf(ChildRows(ops, op, |ops|)))
  {
    hide Name, ParentRows, ChildRows, NamesOf, FirstOnly, DagLog;
    assert NodeAt(ops, g.nodes, g.edges, op, |ops|, 0);
  }

  /** The edges of a node lead to its direct effects, each once, however often the log lists them. */
  lemma NodeEdges(ops: Log, g: Drawing, op: WootOperation)
    requires Graph(ops, g) && op in ops
    ensures Name(op.id) in g.nodes && g.nodes[Name(op.id)].operation == op
    ensures NoRepeats(EdgesFrom(g.edges, Name(op.id)))
    ensures forall b :: b in ops ==> (Name(b.id) in EdgesFrom(g.edges, Name(op.id)) <==> Direct(Elements(ops), op, b))
    ensures forall y :: y in EdgesFrom(g.edges, Name(op.id)) ==> y in g.nodes
  {
    hide Name, Direct, DagLog, NamesOf, FirstOnly, ChildRows, Times, NameSet;
    FinishedNode(ops, g, op);
    var names := NamesOf(ChildRows(ops, op, |ops|));
    FirstOnlyMeaning(names);
    AllTimes(ops, op);
    ChildRowsCount(ops, op, |ops|, op);
    forall b | b in ops ensures Name(b.id) in names <==> Direct(Elements(ops), op, b) {
      AllTimes(ops, b);
      ChildRowsCount(ops, op, |ops|, b);
      PositiveProduct(Times(ops, b, |ops|), Times(ops, op, |ops|));
      assert Name(b.id) in names <==> multiset(names)[Name(b.id)] > 0;
    }
  }

  /** How often a graph notes the edge from `a` to `b`. */
  ghost function Noted(ops: Log, a: WootOperation, b: WootOperation): nat {
    if Direct(Elements(ops), a, b) then multiset(ops)[b] * multiset(ops)[a] else 0
  }

  /**
   * A node lists each direct cause as a parent, and each direct effect as a child, once for each
   * pair of their entries in the log, and nothing else.
   */
  lemma NodeMeaning(ops: Log, g: Drawing, op: WootOperation)
    requires Graph(ops, g) && op in ops
    ensures Name(op.id) in g.nodes && g.nodes[Name(op.id)].operation == op
    ensures var n := g.nodes[Name(op.id)];
            && LogNames(ops, NamesOf(n.parents)) && LogNames(ops, NamesOf(n.children))
            && forall b :: b in ops ==>
                 && multiset(NamesOf(n.parents))[Name(b.id)] == Noted(ops, b, op)
                 && multiset(NamesOf(n.children))[Name(b.id)] == Noted(ops, op, b)
  {
    hide Name, Direct, DagLog, NamesOf, ParentRows, ChildRows, Times, LogNames;
    FinishedNode(ops, g, op);
    AllTimes(ops, op);
    ParentRowsCount(ops, op, |ops|, op);
    ChildRowsCount(ops, op, |ops|, op);
    forall b | b in ops
      ensures multiset(NamesOf(ParentRows(ops, op, |ops|)))[Name(b.id)] == Noted(ops, b, op)
      ensures multiset(NamesOf(ChildRows(ops, op, |ops|)))[Name(b.id)] == Noted(ops, op, b)
    {
      AllTimes(ops, b);
      ParentRowsCount(ops, op, |ops|, b);
      ChildRowsCount(ops, op, |ops|, b);
    }
  }

  /** So where nothing is listed twice, it lists each of them once, and its edges are its children. */
  lemma PlainNode(ops: Log, g: Drawing, op: WootOperation)
    requires Graph(ops, g) && NoDuplicates(ops) && op in ops
    ensures Name(op.id) in g.nodes
    ensures var n := g.nodes[Name(op.id)];
            && NoRepeats(NamesOf(n.parents)) && NoRepeats(NamesOf(n.children))
            && EdgesFrom(g.edges, Name(op.id)) == NamesOf(n.children)
            && forall b :: b in ops ==>
                 && (Name(b.id) in NamesOf(n.parents) <==> Direct(Elements(ops), b, op))
                 && (Name(b.id) in NamesOf(n.children) <==> Direct(Elements(ops), op, b))
  {
    hide Name, Direct, Graph, NamesOf, FirstOnly, ParentRows, ChildRows;
    FinishedNode(ops, g, op);
    NodeMeaning(ops, g, op);
    var n := g.nodes[Name(op.id)];
    forall b | b in ops ensures multiset(ops)[b] == 1 {
      ListedOnceOnly(ops, b);
    }
    NotedOnce(ops, NamesOf(n.parents));
    NotedOnce(ops, NamesOf(n.children));
    FirstOnlyMeaning(NamesOf(n.children));
    forall b | b in ops
      ensures Name(b.id) in NamesOf(n.parents) <==> Direct(Elements(ops), b, op)
      ensures Name(b.id) in NamesOf(n.children) <==> Direct(Elements(ops), op, b)
    {
      assert Name(b.id) in NamesOf(n.parents) <==> multiset(NamesOf(n.parents))[Name(b.id)] > 0;
      assert Name(b.id) in NamesOf(n.children) <==> multiset(NamesOf(n.children))[Name(b.id)] > 0;
    }
  }

  // ---------------------------------------------------------------- the order of parents and children

  /** Somewhere in the first `n` entries of the log `a` is listed, and later `b`. */
  ghost predicate ListedInOrder(ops: Log, a: LogicalId, b: LogicalId, n: nat)
    requires n <= |ops|
  {
    exists s, t :: 0 <= s < t < n && ops[s].id == a && ops[t].id == b
  }

  ghost predicate ListedWithin(ops: Log, a: LogicalId, n: nat)
    requires n <= |ops|
  {
    exists s :: 0 <= s < n && ops[s].id == a
  }

  /** The list follows the order of the log. */
  ghost predicate Follows(ops: Log, ids: seq<LogicalId>, n: nat)
    requires n <= |ops|
  {
    && (forall i :: 0 <= i < |ids| ==> ListedWithin(ops, ids[i], n))
    && (forall i, j :: 0 <= i < j < |ids| ==> ListedInOrder(ops, ids[i], ids[j], n))
  }

  lemma FollowsOn(ops: Log, ids: seq<LogicalId>, n: nat)
    requires n < |ops| && Follows(ops, ids, n)
    ensures Follows(ops, ids, n + 1) && Follows(ops, ids + [ops[n].id], n + 1)
  {
    var longer := ids + [ops[n].id];
    forall i | 0 <= i < |longer| ensures ListedWithin(ops, longer[i], n + 1) {
      if i < |ids| {
        assert longer[i] == ids[i] && ListedWithin(ops, ids[i], n);
        ListedStays(ops, ids[i], ids[i], n);
      } else {
        assert ops[n].id == longer[i];
      }
    }
    assert forall i :: 0 <= i < |ids| ==> ids[i] == longer[i];
    forall i, j | 0 <= i < j < |longer| ensures ListedInOrder(ops, longer[i], longer[j], n + 1) {
      assert longer[i] == ids[i] && ListedWithin(ops, ids[i], n);
      if j < |ids| {
        assert longer[j] == ids[j] && ListedInOrder(ops, ids[i], ids[j], n);
      }
      ListedStays(ops, longer[i], longer[j], n);
    }
  }

  /** What is listed stays listed, and the next entry comes after it. */
  lemma ListedStays(ops: Log, a: LogicalId, b: LogicalId, n: nat)
    requires n < |ops| && ListedWithin(ops, a, n)
    ensures ListedWithin(ops, a, n + 1) && ListedInOrder(ops, a, ops[n].id, n + 1)
    ensures ListedInOrder(ops, a, b, n) ==> ListedInOrder(ops, a, b, n + 1)
  {
    var s :| 0 <= s < n && ops[s].id == a;
    assert ops[n].id == ops[n].id;
  }

  lemma {:induction false} ParentsFollow(ops: Log, b: WootOperation, n: nat)
    requires n <= |ops|
    ensures Follows(ops, ParentsUp(ops, b, n), n)
  {
    hide Direct, Follows;
    if n > 0 {
      ParentsFollow(ops, b, n - 1);
      FollowsOn(ops, ParentsUp(ops, b, n - 1), n - 1);
      assert ParentsUp(ops, b, n - 1) + [] == ParentsUp(ops, b, n - 1);
    } else {
      NothingFollows(ops);
    }
  }

  lemma NothingFollows(ops: Log)
    ensures Follows(ops, [], 0)
  {
  }

  /** Without repeats there is one row for each operation. */
  lemma {:induction false} OneRow(ops: Log, b: WootOperation, j: nat)
    requires NoDuplicates(ops) && j <= |ops|
    ensures ParentRows(ops, b, j) == if b in ops[..j] then ParentsUp(ops, b, |ops|) else []
  {
    hide ParentsUp;
    if j > 0 {
      OneRow(ops, b, j - 1);
      assert ops[..j] == ops[..j - 1] + [ops[j - 1]];
      if ops[j - 1] == b {
        assert b !in ops[..j - 1];
      }
    }
  }

  /** And one entry in it for each. */
  lemma {:induction false} OneEntry(ops: Log, a: WootOperation, j: nat, i: nat)
    requires NoDuplicates(ops) && j < |ops| && i <= |ops|
    ensures ChildrenUp(ops, a, j, i) ==
            if a in ops[..i] && Direct(Elements(ops), a, ops[j]) then [ops[j].id] else []
  {
    hide Direct;
    if i > 0 {
      OneEntry(ops, a, j, i - 1);
      assert ops[..i] == ops[..i - 1] + [ops[i - 1]];
      if ops[i - 1] == a {
        assert a !in ops[..i - 1];
      }
    }
  }

  lemma {:induction false} ChildrenFollow(ops: Log, a: WootOperation, j: nat)
    requires NoDuplicates(ops) && j <= |ops|
    ensures Follows(ops, ChildRows(ops, a, j), j)
  {
    hide Direct, Follows, ChildrenUp;
    if j > 0 {
      ChildrenFollow(ops, a, j - 1);
      FollowsOn(ops, ChildRows(ops, a, j - 1), j - 1);
      OneEntry(ops, a, j - 1, |ops|);
      assert ChildRows(ops, a, j - 1) + [] == ChildRows(ops, a, j - 1);
    } else {
      NothingFollows(ops);
    }
  }

  /** Without repeats parents and children are listed in the order of the log. */
  lemma PlainNodeIsInOrder(ops: Log, g: Drawing, op: WootOperation)
    requires Graph(ops, g) && NoDuplicates(ops) && op in ops
    ensures Name(op.id) in g.nodes
    ensures Follows(ops, g.nodes[Name(op.id)].parents, |ops|) && Follows(ops, g.nodes[Name(op.id)].children, |ops|)
  {
    hide Name, Direct, Graph, ParentRows, ChildRows, ParentsUp, Follows;
    FinishedNode(ops, g, op);
    assert ops[..|ops|] == ops;
    OneRow(ops, op, |ops|);
    ParentsFollow(ops, op, |ops|);
    ChildrenFollow(ops, op, |ops|);
  }

  lemma {:induction false} ListedOnceOnly(ops: Log, b: WootOperation)
    requires NoDuplicates(ops)
    ensures multiset(ops)[b] == if b in ops then 1 else 0
    decreases |ops|
  {
    if ops != [] {
      var n := |ops| - 1;
      assert ops == ops[..n] + [ops[n]];
      ListedOnceOnly(ops[..n], b);
    }
  }

  lemma NotedOnce(ops: Log, names: seq<string>)
    requires LogNames(ops, names) && forall b :: b in ops ==> multiset(names)[Name(b.id)] <= 1
    ensures NoRepeats(names)
  {
    hide Name;
    forall x ensures multiset(names)[x] <= 1 {
      if x in names {
        var b :| b in Elements(ops) && Name(b.id) == x;
        assert b in ops;
      }
    }
    CountsForbidRepeats(names);
  }

  /** Each name in the graph is that of one logged operation. */
  lemma NameMeaning(ops: Log, g: Drawing, x: string) returns (op: WootOperation)
    requires Graph(ops, g) && x in g.nodes
    ensures op in ops && Name(op.id) == x && g.nodes[x].operation == op
  {
    assert x in NameSet(Elements(ops));
    op :| op in Elements(ops) && Name(op.id) == x;
    NodeEdges(ops, g, op);
  }

  /** The roots are the nodes on the lowest level. */
  lemma RootsMeaning(ops: Log, g: Drawing)
    requires Graph(ops, g)
    ensures g.roots <= g.nodes.Keys
    ensures forall op {:trigger Name(op.id)} :: op in ops ==>
              (Name(op.id) in g.roots <==> Level(Elements(ops), op) == 0)
  {
    hide Name, Level, Direct, DagLog, ParentsUp;
    var u := Elements(ops);
    forall t: nat | t < |ops| ensures ParentsUp(ops, ops[t], |ops|) == [] <==> Level(u, ops[t]) == 0 {
      RootIsLowest(ops, ops[t]);
    }
    forall op | op in ops ensures Name(op.id) in g.roots <==> Level(u, op) == 0 {
      forall t: nat | t < |ops| && Name(ops[t].id) == Name(op.id) ensures ops[t] == op {
        assert ops[t] in u && op in u;
        ApartInLog(ops, ops[t], op);
      }
      var s :| 0 <= s < |ops| && ops[s] == op;
    }
    forall x | x in g.roots ensures x in g.nodes {
      var t :| 0 <= t < |ops| && Name(ops[t].id) == x;
      assert ops[t] in u;
    }
  }

  lemma RootIsLowest(ops: Log, b: WootOperation)
    requires DagLog(ops) && b in ops
    ensures ParentsUp(ops, b, |ops|) == [] <==> Level(Elements(ops), b) == 0
  {
    hide Level, Direct, Name, Times, NamesOf, DagNodes;
    var u, names := Elements(ops), NamesOf(ParentsUp(ops, b, |ops|));
    assert b in u;
    RootsHaveNoParent(u, b);
    forall a | a in u ensures Direct(u, a, b) <==> Name(a.id) in names {
      AllTimes(ops, a);
      ParentsUpCount(ops, b, |ops|, a);
      assert Name(a.id) in names <==> multiset(names)[Name(a.id)] > 0;
    }
    ParentsUpCount(ops, b, |ops|, b);
    NamesOfNone(ParentsUp(ops, b, |ops|));
    if names != [] {
      assert names[0] in names;
      var a :| a in u && Name(a.id) == names[0];
    }
  }

  lemma NamesOfNone(ids: seq<LogicalId>)
    ensures NamesOf(ids) == [] <==> ids == []
  {
  }

  // ---------------------------------------------------------------- reachability along drawn edges

  /** A walk of at least one drawn edge, by name. */
  ghost predicate DrawnPath(edges: EdgeMap, p: seq<string>, x: string, y: string) {
    && |p| >= 2 && p[0] == x && p[|p| - 1] == y
    && forall i {:trigger p[i]} :: 0 <= i < |p| - 1 ==> p[i + 1] in EdgesFrom(edges, p[i])
  }

  lemma {:induction false} PathStaysInGraph(ops: Log, g: Drawing, p: seq<string>, x: string, y: string, i: nat)
    requires Graph(ops, g) && x in g.nodes && DrawnPath(g.edges, p, x, y) && i < |p|
    ensures p[i] in g.nodes
  {
    hide Name, Graph;
    if i > 0 {
      PathStaysInGraph(ops, g, p, x, y, i - 1);
      var a := NameMeaning(ops, g, p[i - 1]);
      NodeEdges(ops, g, a);
      assert p[i - 1 + 1] in EdgesFrom(g.edges, p[i - 1]);
    }
  }

  /** A drawn path is a path of direct edges between the operations named. */
  lemma PathOfOperations(ops: Log, g: Drawing, p: seq<string>, x: string, y: string)
    returns (q: seq<WootOperation>)
    requires Graph(ops, g) && x in g.nodes && y in g.nodes && DrawnPath(g.edges, p, x, y)
    ensures EdgePathBetween(Elements(ops), q, g.nodes[x].operation, g.nodes[y].operation) && |q| == |p|
    ensures forall i :: 0 <= i < |p| ==> Name(q[i].id) == p[i]
  {
    hide Name, Direct, Graph;
    forall i | 0 <= i < |p| ensures p[i] in g.nodes {
      PathStaysInGraph(ops, g, p, x, y, i);
    }
    q := seq(|p|, i requires 0 <= i < |p| => g.nodes[p[i]].operation);
    forall i | 0 <= i < |p| ensures q[i] in ops && Name(q[i].id) == p[i] {
      var a := NameMeaning(ops, g, p[i]);
    }
    forall i | 0 <= i < |p| - 1 ensures Direct(Elements(ops), q[i], q[i + 1]) {
      NodeEdges(ops, g, q[i]);
      assert p[i + 1] in EdgesFrom(g.edges, p[i]);
    }
  }

  lemma PathOfNames(ops: Log, g: Drawing, q: seq<WootOperation>) returns (p: seq<string>)
    requires Graph(ops, g) && |q| >= 2 && EdgePath(Elements(ops), q)
    ensures DrawnPath(g.edges, p, Name(q[0].id), Name(q[|q| - 1].id))
  {
    hide Name, Direct, Graph;
    p := seq(|q|, i requires 0 <= i < |q| => Name(q[i].id));
    forall i | 0 <= i < |p| - 1 ensures p[i + 1] in EdgesFrom(g.edges, p[i]) {
      assert Direct(Elements(ops), q[i], q[i + 1]);
      assert q[i] in Elements(ops) && q[i + 1] in Elements(ops);
      NodeEdges(ops, g, q[i]);
    }
  }

  /** `HasPath` reads clocks only, and still it answers whether drawn edges lead from one node to the other. */
  lemma DrawnEdgesReachExactlyCausality(ops: Log, g: Drawing, x: string, y: string)
    requires Graph(ops, g) && x in g.nodes && y in g.nodes
    ensures Earlier(g.nodes[x].operation, g.nodes[y].operation) <==> exists p :: DrawnPath(g.edges, p, x, y)
  {
    hide Name, Direct, Graph, Earlier;
    var a := NameMeaning(ops, g, x);
    var b := NameMeaning(ops, g, y);
    assert DagNodes(Elements(ops)) by { GraphHasDagNodes(ops, g); }
    EdgesReachExactlyCausality(Elements(ops), a, b);
    if Earlier(a, b) {
      var q :| EdgePathBetween(Elements(ops), q, a, b);
      var p := PathOfNames(ops, g, q);
    }
    forall p | DrawnPath(g.edges, p, x, y) ensures Earlier(a, b) {
      var q := PathOfOperations(ops, g, p, x, y);
    }
  }

  /** No drawn edge can be dropped: the only drawn path between its ends is the edge itself. */
  lemma DrawnEdgesAreNeeded(ops: Log, g: Drawing, x: string, y: string, p: seq<string>)
    requires Graph(ops, g) && x in g.nodes && y in EdgesFrom(g.edges, x) && DrawnPath(g.edges, p, x, y)
    ensures p == [x, y]
  {
    hide Name, Direct, Graph;
    var a := NameMeaning(ops, g, x);
    NodeEdges(ops, g, a);
    var b := NameMeaning(ops, g, y);
    GraphHasDagNodes(ops, g);
    var q := PathOfOperations(ops, g, p, x, y);
    EveryEdgeIsNeeded(Elements(ops), a, b, q);
  }

  lemma GraphHasDagNodes(ops: Log, g: Drawing)
    requires Graph(ops, g)
    ensures DagLog(ops) && DagNodes(Elements(ops)) && g.nodes.Keys == NameSet(Elements(ops))
    ensures forall x :: x in g.edges ==> x in g.nodes && g.edges[x] != []
  {
  }

  // ---------------------------------------------------------------- comparison

  ghost predicate SameTargets(edges: EdgeMap, other: EdgeMap, x: string)
    requires x in edges
  {
    x in other && multiset(edges[x]) == multiset(other[x])
  }

  /** What `Equals` looks at: the same nodes, and the edges of the first graph in the second. */
  ghost predicate SameGraph(g: Drawing, other: Drawing) {
    && g.nodes.Keys == other.nodes.Keys
    && forall x {:trigger SameTargets(g.edges, other.edges, x)} ::
         x in g.edges ==> SameTargets(g.edges, other.edges, x)
  }

  /** Two nodes hold the same operation, and list the same parents and children up to order. */
  ghost predicate SameNode(a: DAGNode, b: DAGNode) {
    && a.operation == b.operation
    && multiset(NamesOf(a.parents)) == multiset(NamesOf(b.parents))
    && multiset(NamesOf(a.children)) == multiset(NamesOf(b.children))
  }

  /** Graphs of the same operations have the same roots and edges, whatever the order of the logs and their repeats. */
  lemma GraphIgnoresLogOrder(ops: Log, g1: Drawing, other: Log, g2: Drawing)
    requires Graph(ops, g1) && Graph(other, g2) && Elements(ops) == Elements(other)
    ensures g1.roots == g2.roots && SameGraph(g1, g2) && g1.edges.Keys == g2.edges.Keys
    ensures multiset(ops) == multiset(other) ==>
              forall x :: x in g1.nodes ==> x in g2.nodes && SameNode(g1.nodes[x], g2.nodes[x])
  {
    hide Name, Direct, Graph, Level, DagNodes, SameNode;
    GraphHasDagNodes(ops, g1);
    GraphHasDagNodes(other, g2);
    forall x | x in g1.nodes
      ensures multiset(EdgesFrom(g1.edges, x)) == multiset(EdgesFrom(g2.edges, x))
      ensures x in g1.roots <==> x in g2.roots
      ensures multiset(ops) == multiset(other) ==> SameNode(g1.nodes[x], g2.nodes[x])
    {
      var op := NameMeaning(ops, g1, x);
      SameEdges(ops, g1, other, g2, op);
      if multiset(ops) == multiset(other) {
        SameNodes(ops, g1, other, g2, op);
      }
    }
    RootsMeaning(ops, g1);
    RootsMeaning(other, g2);
    forall x | x in g1.edges ensures SameTargets(g1.edges, g2.edges, x) {
      assert EdgesFrom(g1.edges, x)[0] in multiset(EdgesFrom(g2.edges, x));
    }
    forall x | x in g2.edges ensures x in g1.edges {
      assert EdgesFrom(g2.edges, x)[0] in multiset(EdgesFrom(g1.edges, x));
    }
  }

  lemma SameEdges(ops: Log, g1: Drawing, other: Log, g2: Drawing, op: WootOperation)
    requires Graph(ops, g1) && Graph(other, g2) && Elements(ops) == Elements(other) && op in ops
    ensures Name(op.id) in g2.nodes
    ensures multiset(EdgesFrom(g1.edges, Name(op.id))) == multiset(EdgesFrom(g2.edges, Name(op.id)))
    ensures Name(op.id) in g1.roots <==> Name(op.id) in g2.roots
  {
    hide Name, Direct, Graph, Level;
    assert op in Elements(other);
    NodeEdges(ops, g1, op);
    NodeEdges(other, g2, op);
    forall c | c in ops ensures c in other {
      assert c in Elements(ops);
    }
    RootsMeaning(ops, g1);
    RootsMeaning(other, g2);
    SameListed(ops, g1, other, g2, EdgesFrom(g1.edges, Name(op.id)), EdgesFrom(g2.edges, Name(op.id)));
  }

  /** Repeat-free lists of names of logged operations that agree on every operation agree up to order. */
  lemma SameListed(ops: Log, g1: Drawing, other: Log, g2: Drawing, a: seq<string>, b: seq<string>)
    requires Graph(ops, g1) && Graph(other, g2) && Elements(ops) == Elements(other)
    requires NoRepeats(a) && NoRepeats(b)
    requires (forall y :: y in a ==> y in g1.nodes) && (forall y :: y in b ==> y in g2.nodes)
    requires forall c :: c in ops ==> (Name(c.id) in a <==> Name(c.id) in b)
    ensures multiset(a) == multiset(b)
  {
    hide Name, Graph;
    forall y ensures y in a <==> y in b {
      if y in a {
        var c := NameMeaning(ops, g1, y);
      }
      if y in b {
        var c := NameMeaning(other, g2, y);
        assert c in Elements(ops);
      }
    }
    SameNamesSortAlike(a, b);
  }

  lemma SameNodes(ops: Log, g1: Drawing, other: Log, g2: Drawing, op: WootOperation)
    requires Graph(ops, g1) && Graph(other, g2) && multiset(ops) == multiset(other) && op in ops
    ensures Name(op.id) in g1.nodes && Name(op.id) in g2.nodes
    ensures SameNode(g1.nodes[Name(op.id)], g2.nodes[Name(op.id)])
  {
    hide Name, Graph, NamesOf, Noted;
    PermutedElements(ops, other);
    NodeMeaning(ops, g1, op);
    NodeMeaning(other, g2, op);
    var n1, n2 := g1.nodes[Name(op.id)], g2.nodes[Name(op.id)];
    forall b | b in ops
      ensures multiset(NamesOf(n1.parents))[Name(b.id)] == multiset(NamesOf(n2.parents))[Name(b.id)]
      ensures multiset(NamesOf(n1.children))[Name(b.id)] == multiset(NamesOf(n2.children))[Name(b.id)]
    {
      SameNoted(ops, other, op, b);
      SameNoted(ops, other, b, op);
    }
    SameCounts(ops, other, NamesOf(n1.parents), NamesOf(n2.parents));
    SameCounts(ops, other, NamesOf(n1.children), NamesOf(n2.children));
  }

  lemma PermutedElements(ops: Log, other: Log)
    requires multiset(ops) == multiset(other)
    ensures Elements(ops) == Elements(other) && forall op :: op in ops <==> op in other
  {
    forall op ensures op in ops <==> op in other {
      assert op in multiset(ops) <==> op in multiset(other);
    }
  }

  lemma SameNoted(ops: Log, other: Log, a: WootOperation, b: WootOperation)
    requires multiset(ops) == multiset(other)
    ensures Noted(ops, a, b) == Noted(other, a, b)
  {
    PermutedElements(ops, other);
  }

  lemma SameCounts(ops: Log, other: Log, a: seq<string>, b: seq<string>)
    requires Elements(ops) == Elements(other) && LogNames(ops, a) && LogNames(other, b)
    requires forall op :: op in ops ==> multiset(a)[Name(op.id)] == multiset(b)[Name(op.id)]
    ensures multiset(a) == multiset(b)
  {
    hide Name;
    forall x ensures multiset(a)[x] == multiset(b)[x] {
      if x in a || x in b {
        var op :| op in Elements(ops) && Name(op.id) == x;
        assert op in ops;
      }
    }
    assert multiset(a) == multiset(b);
  }

  /**
   * On logs of one run, in which a name stands for one operation, `Equals` decides
   * whether the two logs hold the same operations; so there it is symmetric.
   */
  lemma EqualsDecidesOperations(ops: Log, g1: Drawing, other: Log, g2: Drawing)
    requires Graph(ops, g1) && Graph(other, g2) && DagNodes(Elements(ops) + Elements(other))
    ensures SameGraph(g1, g2) <==> Elements(ops) == Elements(other)
  {
    hide Name, Direct, Graph, DagNodes;
    if Elements(ops) == Elements(other) {
      GraphIgnoresLogOrder(ops, g1, other, g2);
    }
    if g1.nodes.Keys == g2.nodes.Keys {
      forall op ensures op in Elements(ops) <==> op in Elements(other) {
        if op in Elements(ops) {
          NodeEdges(ops, g1, op);
          var o := NameMeaning(other, g2, Name(op.id));
          DistinctNames(Elements(ops) + Elements(other), op, o);
        }
        if op in Elements(other) {
          NodeEdges(other, g2, op);
          var o := NameMeaning(ops, g1, Name(op.id));
          DistinctNames(Elements(ops) + Elements(other), op, o);
        }
      }
    }
  }

  /** `Equals` scans one side's edges only: it answers alike both ways exactly when the same nodes have edges. */
  lemma EqualsIsSymmetricExactly(g1: Drawing, g2: Drawing)
    requires SameGraph(g1, g2)
    ensures SameGraph(g2, g1) <==> g1.edges.Keys == g2.edges.Keys
  {
    SameGraphKeys(g1, g2);
    if g1.edges.Keys == g2.edges.Keys {
      forall x | x in g2.edges ensures SameTargets(g2.edges, g1.edges, x) {
        assert x in g1.edges.Keys;
        assert SameTargets(g1.edges, g2.edges, x);
      }
    }
    if SameGraph(g2, g1) {
      SameGraphKeys(g2, g1);
    }
  }

  lemma SameGraphKeys(g1: Drawing, g2: Drawing)
    requires SameGraph(g1, g2)
    ensures g1.edges.Keys <= g2.edges.Keys
  {
    forall x | x in g1.edges ensures x in g2.edges {
      assert SameTargets(g1.edges, g2.edges, x);
    }
  }

  /**
   * `Equals` compares edges, not only which nodes have some: it is true exactly when the names agree
   * and every node of the first graph that has an edge leads to the same nodes in both.
   */
  lemma EqualsComparesEdges(ops: Log, g1: Drawing, other: Log, g2: Drawing)
    requires Graph(ops, g1) && Graph(other, g2)
    ensures SameGraph(g1, g2) <==>
            && g1.nodes.Keys == g2.nodes.Keys
            && forall x :: x in g1.nodes && EdgesFrom(g1.edges, x) != [] ==>
                 forall y :: y in EdgesFrom(g1.edges, x) <==> y in EdgesFrom(g2.edges, x)
  {
    hide Name, Graph;
    GraphHasDagNodes(ops, g1);
    GraphHasDagNodes(other, g2);
    if g1.nodes.Keys == g2.nodes.Keys {
      forall x | x in g1.edges
        ensures SameTargets(g1.edges, g2.edges, x) <==>
                forall y :: y in EdgesFrom(g1.edges, x) <==> y in EdgesFrom(g2.edges, x)
      {
        EdgesHaveNoRepeats(ops, g1, x);
        EdgesHaveNoRepeats(other, g2, x);
        SameTargetsMeaning(g1, g2, x);
      }
    }
  }

  lemma EdgesHaveNoRepeats(ops: Log, g: Drawing, x: string)
    requires Graph(ops, g)
    ensures NoRepeats(EdgesFrom(g.edges, x))
  {
    hide Name, Graph;
    GraphHasDagNodes(ops, g);
    if x in g.nodes {
      var op := NameMeaning(ops, g, x);
      NodeEdges(ops, g, op);
    }
  }

  lemma SameTargetsMeaning(g1: Drawing, g2: Drawing, x: string)
    requires x in g1.edges && g1.edges[x] != []
    requires NoRepeats(EdgesFrom(g1.edges, x)) && NoRepeats(EdgesFrom(g2.edges, x))
    ensures SameTargets(g1.edges, g2.edges, x) <==>
            forall y :: y in EdgesFrom(g1.edges, x) <==> y in EdgesFrom(g2.edges, x)
  {
    var a, b := EdgesFrom(g1.edges, x), EdgesFrom(g2.edges, x);
    if SameTargets(g1.edges, g2.edges, x) {
      forall y ensures y in a <==> y in b {
        assert y in multiset(a) <==> y in multiset(b);
      }
    }
    if forall y :: y in a <==> y in b {
      assert a[0] in b;
      SameNamesSortAlike(a, b);
    }
  }

  ghost predicate SameReachability(g1: Drawing, g2: Drawing) {
    forall x, y {:trigger Reaches(g1, x, y)} {:trigger Reaches(g2, x, y)} :: Reaches(g1, x, y) <==> Reaches(g2, x, y)
  }

  ghost predicate Reaches(g: Drawing, x: string, y: string) {
    exists p :: DrawnPath(g.edges, p, x, y)
  }

  /** Graphs are equal from both sides exactly when their names agree and the same nodes reach each other. */
  lemma EqualsIsSameReachability(ops: Log, g1: Drawing, other: Log, g2: Drawing)
    requires Graph(ops, g1) && Graph(other, g2)
    ensures SameGraph(g1, g2) && SameGraph(g2, g1) <==> g1.nodes.Keys == g2.nodes.Keys && SameReachability(g1, g2)
  {
    hide Name, Graph, SameGraph, DrawnPath, Reaches;
    EqualsComparesEdges(ops, g1, other, g2);
    EqualsComparesEdges(other, g2, ops, g1);
    if SameGraph(g1, g2) && SameGraph(g2, g1) {
      SameEdgesEverywhere(ops, g1, other, g2);
      forall x, y ensures Reaches(g1, x, y) <==> Reaches(g2, x, y) {
        PathsCarryOver(g1, g2, x, y);
        PathsCarryOver(g2, g1, x, y);
      }
    }
    if g1.nodes.Keys == g2.nodes.Keys && SameReachability(g1, g2) {
      forall x, y ensures y in EdgesFrom(g1.edges, x) <==> y in EdgesFrom(g2.edges, x) {
        EdgeCarriesOver(ops, g1, other, g2, x, y);
        EdgeCarriesOver(other, g2, ops, g1, x, y);
      }
    }
  }

  lemma SameEdgesEverywhere(ops: Log, g1: Drawing, other: Log, g2: Drawing)
    requires Graph(ops, g1) && Graph(other, g2) && SameGraph(g1, g2) && SameGraph(g2, g1)
    ensures forall x, y :: y in EdgesFrom(g1.edges, x) <==> y in EdgesFrom(g2.edges, x)
  {
    hide Name, Graph, SameGraph;
    EqualsComparesEdges(ops, g1, other, g2);
    EqualsComparesEdges(other, g2, ops, g1);
    GraphHasDagNodes(ops, g1);
    GraphHasDagNodes(other, g2);
  }

  lemma PathsCarryOver(g1: Drawing, g2: Drawing, x: string, y: string)
    requires forall a, b :: b in EdgesFrom(g1.edges, a) ==> b in EdgesFrom(g2.edges, a)
    ensures Reaches(g1, x, y) ==> Reaches(g2, x, y)
  {
    if Reaches(g1, x, y) {
      var p :| DrawnPath(g1.edges, p, x, y);
      assert DrawnPath(g2.edges, p, x, y);
    }
  }

  lemma JoinDrawnPaths(edges: EdgeMap, p: seq<string>, q: seq<string>, x: string, z: string, y: string)
    requires DrawnPath(edges, p, x, z) && DrawnPath(edges, q, z, y)
    ensures DrawnPath(edges, p + q[1..], x, y) && |p + q[1..]| > 2
  {
    var r := p + q[1..];
    forall i | 0 <= i < |r| - 1 ensures r[i + 1] in EdgesFrom(edges, r[i]) {
      if i < |p| - 1 {
        assert p[i + 1] in EdgesFrom(edges, p[i]);
      } else {
        var j := i - |p| + 1;
        assert q[j + 1] in EdgesFrom(edges, q[j]);
      }
    }
  }

  /** A drawn edge is drawn in every graph in which the same nodes reach each other. */
  lemma EdgeCarriesOver(ops: Log, g1: Drawing, other: Log, g2: Drawing, x: string, y: string)
    requires Graph(ops, g1) && Graph(other, g2) && SameReachability(g1, g2)
    ensures y in EdgesFrom(g1.edges, x) ==> y in EdgesFrom(g2.edges, x)
  {
    hide Name, Graph;
    GraphHasDagNodes(ops, g1);
    if y in EdgesFrom(g1.edges, x) {
      assert DrawnPath(g1.edges, [x, y], x, y);
      assert Reaches(g1, x, y);
      assert Reaches(g2, x, y);
      var p :| DrawnPath(g2.edges, p, x, y);
      if |p| > 2 {
        var z := p[1];
        assert DrawnPath(g2.edges, [x, z], x, z) && Reaches(g2, x, z);
        TailIsPath(g2.edges, p, x, y);
        assert Reaches(g2, z, y);
        assert Reaches(g1, x, z) && Reaches(g1, z, y);
        var a :| DrawnPath(g1.edges, a, x, z);
        var b :| DrawnPath(g1.edges, b, z, y);
        JoinDrawnPaths(g1.edges, a, b, x, z, y);
        DrawnEdgesAreNeeded(ops, g1, x, y, a + b[1..]);
      }
      assert p[1] in EdgesFrom(g2.edges, p[0]);
    }
  }

  lemma TailIsPath(edges: EdgeMap, p: seq<string>, x: string, y: string)
    requires DrawnPath(edges, p, x, y) && |p| > 2
    ensures DrawnPath(edges, p[1..], p[1], y)
  {
    var q := p[1..];
    forall i | 0 <= i < |q| - 1 ensures q[i + 1] in EdgesFrom(edges, q[i]) {
      assert p[i + 1 + 1] in EdgesFrom(edges, p[i + 1]);
    }
  }

  /** A concurrent pair has no edges. */
  lemma ConcurrentPair(x: WootOperation, y: WootOperation, g: Drawing)
    requires Graph([x, y], g) && !Earlier(x, y) && !Earlier(y, x)
    ensures g.edges == map[]
  {
    hide Name, Graph, Earlier, DagNodes;
    var ops := [x, y];
    GraphHasDagNodes(ops, g);
    forall c | c in g.edges ensures false {
      var a := NameMeaning(ops, g, c);
      NodeEdges(ops, g, a);
      assert g.edges[c][0] in EdgesFrom(g.edges, c);
      var b := NameMeaning(ops, g, g.edges[c][0]);
      assert Direct(Elements(ops), a, b);
      EarlierOrder(Elements(ops), a, a, a);
    }
  }

  /** A causal pair has an edge. */
  lemma CausalPair(x: WootOperation, z: WootOperation, g: Drawing)
    requires Graph([x, z], g) && Earlier(x, z)
    ensures Name(x.id) in g.edges
  {
    hide Name, Graph, Earlier, DagNodes;
    var u := Elements([x, z]);
    GraphHasDagNodes([x, z], g);
    assert x in u && z in u;
    EarlierOrder(u, x, z, x);
    EarlierOrder(u, z, z, z);
    forall c | c in u ensures !Between(x, c, z) {
      assert c == x || c == z;
    }
    assert Direct(u, x, z);
    NodeEdges([x, z], g, x);
  }

  /** The first insertion of a site into the empty document. */
  function Sample(site: string, clock: map<string, int>): WootOperation {
    var c := WCharacterData(CharId(site, 1), "a", true, CharId(site, START_CLOCK), CharId(site, END_CLOCK));
    WootOperation(LogicalId(site, clock), Insertion, c)
  }

  lemma SampleFacts(x: WootOperation, y: WootOperation, z: WootOperation)
    requires x == Sample("a", map["a" := 1]) && y == Sample("b", map["b" := 1])
    requires z == Sample("b", map["a" := 1, "b" := 1])
    ensures !Earlier(x, y) && !Earlier(y, x) && Earlier(x, z) && Name(y.id) == Name(z.id)
  {
    assert "a" in x.id.clock && x.id.clock["a"] == 1 && "a" !in y.id.clock;
    assert "b" in y.id.clock && y.id.clock["b"] == 1 && "b" !in x.id.clock;
    assert "b" in z.id.clock && z.id.clock["b"] == 1 && Get(z.id.clock, "a") == 1;
    forall site | site in x.id.clock ensures x.id.clock[site] <= Get(z.id.clock, site) {
      assert site == "a";
    }
    assert y.id.LogicalClock() == 1 == z.id.LogicalClock();
  }

  /** Logs of two runs, one pair concurrent and the other causal, that `Equals` tells apart from one side only. */
  lemma UnrelatedRunsCompareOneWay(g1: Drawing, g2: Drawing)
    requires Graph([Sample("a", map["a" := 1]), Sample("b", map["b" := 1])], g1)
    requires Graph([Sample("a", map["a" := 1]), Sample("b", map["a" := 1, "b" := 1])], g2)
    ensures SameGraph(g1, g2) && !SameGraph(g2, g1)
  {
    hide Name, Graph, Earlier, Sample;
    var x, y, z := Sample("a", map["a" := 1]), Sample("b", map["b" := 1]), Sample("b", map["a" := 1, "b" := 1]);
    SampleFacts(x, y, z);
    ConcurrentPair(x, y, g1);
    CausalPair(x, z, g2);
    GraphHasDagNodes([x, y], g1);
    GraphHasDagNodes([x, z], g2);
    assert NameSet(Elements([x, y])) == {Name(x.id), Name(y.id)} by { PairNames(x, y); }
    assert NameSet(Elements([x, z])) == {Name(x.id), Name(z.id)} by { PairNames(x, z); }
    EqualsIsSymmetricExactly(g1, g2);
  }

  lemma PairNames(x: WootOperation, y: WootOperation)
    ensures NameSet(Elements([x, y])) == {Name(x.id), Name(y.id)}
  {
    hide Name;
    assert Elements([x, y]) == {x, y};
  }
}
