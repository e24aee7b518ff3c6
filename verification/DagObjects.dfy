/** Building, comparing and layering the causal graph of a log (history/dag.go). */
module DagObjects {
  import opened Identifiers
  import opened Operations
  import opened OperationLog
  import opened OperationNames
  import opened CausalDag
  import opened DagLayers
  import opened DagGraphs
  import opened DagMeaning
  import opened DagLayering

  class OperationDAG {
    var Roots: set<string>
    var Nodes: NodeMap
    var Edges: EdgeMap

    ghost function Value(): Drawing
      reads this
    {
      Drawing(Roots, Nodes, Edges)
    }

    /** The graph of a log. */
    ghost predicate Represents(ops: Log)
      reads this
    {
      Graph(ops, Value())
    }

    /** `BuildDAG`. */
    constructor (state: Log)
      requires DagLog(state)
      ensures Represents(state)
    {
      Roots, Nodes, Edges := {}, map[], map[];
      new;
      InitNodes(state);
      InitEdges(state);
    }

    method InitNodes(ops: Log)
      requires DagLog(ops) && Nodes == map[] && Edges == map[]
      modifies this`Nodes
      ensures Drawn(ops, Nodes, Edges, 0, 0)
    {
      hide DagLog, Name;
      for n := 0 to |ops|
        invariant NodesUpTo(ops, Nodes, n)
      {
        NodeAdded(ops, Nodes, n);
        Nodes := Nodes[Name(ops[n].id) := DAGNode(ops[n], [], [])];
      }
      NothingDrawn(ops, Nodes, Edges);
    }

    method InitEdges(ops: Log)
      requires DagLog(ops) && Drawn(ops, Nodes, Edges, 0, 0) && Roots == {}
      modifies this
      ensures Represents(ops)
    {
      hide DagLog, Name, Drawn, ParentsUp;
      for j := 0 to |ops|
        invariant Drawn(ops, Nodes, Edges, j, 0) && Roots == RootNames(ops, j)
      {
        for i := 0 to |ops|
          invariant Drawn(ops, Nodes, Edges, j, i) && Roots == RootNames(ops, j)
        {
          Consider(ops, j, i);
        }
        var bId := Name(ops[j].id);
        NextRow(ops, Nodes, Edges, j);
        RowIsComplete(ops, Nodes, Edges, j);
        if |Nodes[bId].parents| == 0 {
          Roots := Roots + {bId};
        }
      }
    }

    /** The body of the nested loops: the pair of `ops[i]` and `ops[j]`. */
    method Consider(ops: Log, j: nat, i: nat)
      requires DagLog(ops) && j < |ops| && i < |ops| && Drawn(ops, Nodes, Edges, j, i)
      modifies this`Nodes, this`Edges
      ensures Drawn(ops, Nodes, Edges, j, i + 1)
    {
      hide DagLog, Name, HappenedBefore, Drawn;
      var opA, opB := ops[i], ops[j];
      var aId, bId := Name(opA.id), Name(opB.id);
      ApartInLog(ops, opA, opB);
      NotBeforeItself(ops, i);
      var isDirect := false;
      if aId != bId && HappenedBefore(opA.id, opB.id) {
        isDirect := IsDirect(ops, i, j);
      }
      if isDirect {
        LinkAdvances(ops, Nodes, Edges, j, i);
        NodesPresent(ops, Nodes, Edges, j, i);
        AddEdge(aId, bId);
        Nodes := Nodes[bId := Nodes[bId].(parents := Nodes[bId].parents + [opA.id])];
        Nodes := Nodes[aId := Nodes[aId].(children := Nodes[aId].children + [opB.id])];
      } else {
        NoLink(ops, Nodes, Edges, j, i);
      }
    }

    /** The innermost loop: whether no operation lies causally between `ops[i]` and `ops[j]`. */
    method IsDirect(ops: Log, i: nat, j: nat) returns (r: bool)
      requires DagLog(ops) && i < |ops| && j < |ops| && Earlier(ops[i], ops[j])
      ensures r == Direct(Elements(ops), ops[i], ops[j])
    {
      hide HappenedBefore, Name;
      var a, b := ops[i], ops[j];
      assert a in Elements(ops) && b in Elements(ops);
      for k := 0 to |ops|
        invariant forall n :: 0 <= n < k ==> !Between(a, ops[n], b)
      {
        var c := ops[k];
        assert c in Elements(ops);
        if Name(c.id) == Name(a.id) || Name(c.id) == Name(b.id) {
          DistinctNames(Elements(ops), c, a);
          DistinctNames(Elements(ops), c, b);
          EarlierOrder(Elements(ops), a, b, a);
          EarlierOrder(Elements(ops), b, a, b);
        } else if HappenedBefore(a.id, c.id) && HappenedBefore(c.id, b.id) {
          assert Between(a, c, b);
          return false;
        }
      }
      forall c | c in Elements(ops) ensures !Between(a, c, b) {
        var n :| 0 <= n < |ops| && ops[n] == c;
      }
      return true;
    }

    /** Adds an edge unless it is there. */
    method AddEdge(from: string, to: string)
      modifies this`Edges
      ensures Edges == WithEdge(old(Edges), from, to)
    {
      var present := EdgesFrom(Edges, from);
      for k := 0 to |present|
        invariant to !in present[..k]
      {
        if present[k] == to {
          return;
        }
      }
      assert present[..|present|] == present;
      Edges := Edges[from := present + [to]];
    }

    // -------------------------------------------------------------- queries

    predicate HasPath(x: string, y: string)
      requires x in Nodes && y in Nodes
      reads this
    {
      HappenedBefore(Nodes[x].operation.id, Nodes[y].operation.id)
    }

    predicate IsConcurrent(x: string, y: string)
      requires x in Nodes && y in Nodes
      reads this
    {
      x != y && !HasPath(x, y) && !HasPath(y, x)
    }

    /** The loops that compare two graphs. */
    method Equals(other: OperationDAG) returns (r: bool)
      ensures r <==> SameGraph(Value(), other.Value())
    {
      if |Nodes| != |other.Nodes| {
        return false;
      }
      var todo := Nodes.Keys;
      while todo != {}
        invariant todo <= Nodes.Keys
        invariant forall x :: x in Nodes && x !in todo ==> x in other.Nodes
        decreases |todo|
      {
        var x :| x in todo;
        if x !in other.Nodes {
          return false;
        }
        todo := todo - {x};
      }
      SubsetOfSameSize(Nodes.Keys, other.Nodes.Keys);
      todo := Edges.Keys;
      while todo != {}
        invariant todo <= Edges.Keys
        invariant forall x {:trigger SameTargets(Edges, other.Edges, x)} ::
                    x in Edges && x !in todo ==> SameTargets(Edges, other.Edges, x)
        decreases |todo|
      {
        var from :| from in todo;
        if from !in other.Edges {
          assert !SameTargets(Edges, other.Edges, from);
          return false;
        }
        var a, b := SortNames(Edges[from]), SortNames(other.Edges[from]);
        SortIgnoresOrder(Edges[from], other.Edges[from]);
        if a != b {
          assert !SameTargets(Edges, other.Edges, from);
          return false;
        }
        todo := todo - {from};
      }
      return true;
    }

    /** Both queries answer from clocks alone what the drawn edges say. */
    lemma QueriesFollowEdges(ops: Log, x: string, y: string)
      requires Represents(ops) && x in Nodes && y in Nodes
      ensures HasPath(x, y) <==> exists p :: DrawnPath(Edges, p, x, y)
      ensures IsConcurrent(x, y) <==>
              x != y && !(exists p :: DrawnPath(Edges, p, x, y)) && !(exists p :: DrawnPath(Edges, p, y, x))
    {
      hide Name, Graph, DrawnPath;
      DrawnEdgesReachExactlyCausality(ops, Value(), x, y);
      DrawnEdgesReachExactlyCausality(ops, Value(), y, x);
    }

    // -------------------------------------------------------------- layers

    /** Every node's count of parents. */
    method StartCounts(ghost ops: Log) returns (indegree: Counts)
      requires Represents(ops)
      ensures AllCounted(ops, {}, indegree)
    {
      hide Graph, Name, Direct, Waiting, ParentRows;
      indegree := map[];
      var todo := Nodes.Keys;
      while todo != {}
        invariant todo <= Nodes.Keys
        invariant forall x :: x in Nodes && x !in todo ==> x in indegree && indegree[x] == |Nodes[x].parents|
        decreases |todo|
      {
        var x :| x in todo;
        indegree := indegree[x := |Nodes[x].parents|];
        todo := todo - {x};
      }
      forall op | op in ops ensures Counted(ops, op, {}, indegree) {
        FinishedNode(ops, Value(), op);
      }
    }

    /** The roots, sorted. */
    method StartLayer(ghost ops: Log) returns (current: seq<string>)
      requires Represents(ops)
      ensures current == RoundNames(ops, 0)
    {
      hide Graph, Name, Level;
      current := [];
      var todo := Roots;
      while todo != {}
        invariant todo <= Roots && NoRepeats(current)
        invariant forall x :: x in current <==> x in Roots && x !in todo
        decreases |todo|
      {
        var x :| x in todo;
        AppendNew(current, x);
        current := current + [x];
        todo := todo - {x};
      }
      RootsAreDue(ops, Value(), current);
      current := SortNames(current);
    }

    /** Counts one processed node down at each of its children. */
    method Unlock(ghost ops: Log, ghost start: set<string>, ghost done: set<string>, id: string,
                  indegree0: Counts, next0: seq<string>)
      returns (indegree: Counts, next: seq<string>)
      requires Represents(ops) && id in Nodes && id !in done && id !in start
      requires Ready(ops, start, done, indegree0, next0)
      ensures Ready(ops, start, done + {id}, indegree, next)
    {
      hide Graph, Name, Direct, Unlocking, Ready, DagNodes;
      ghost var a := NameMeaning(ops, Value(), id);
      NodeEdges(ops, Value(), a);
      GraphHasDagNodes(ops, Value());
      SortKeepsNames(EdgesFrom(Edges, id));
      indegree, next := indegree0, next0;
      var children := SortNames(EdgesFrom(Edges, id));
      StartUnlocking(ops, start, done, id, indegree, next);
      for c := 0 to |children|
        invariant Unlocking(ops, start, done, id, children[..c], indegree, next)
      {
        var child := children[c];
        assert child in EdgesFrom(Edges, id);
        ghost var b := NameMeaning(ops, Value(), child);
        UnlockChild(ops, start, done, a, b, children[..c], indegree, next);
        assert children[..c + 1] == children[..c] + [child];
        indegree := indegree[child := indegree[child] - 1];
        if indegree[child] == 0 {
          next := next + [child];
        }
      }
      assert children[..|children|] == children;
      EndUnlocking(ops, start, done, a, children, indegree, next);
    }

    /** One round of the outer loop: emits what is due and unlocks the next. */
    method ProcessLayer(ghost ops: Log, ghost k: nat, current: seq<string>, indegree0: Counts, processed0: nat)
      returns (layer: seq<LogicalId>, indegree: Counts, next: seq<string>, processed: nat)
      requires Represents(ops) && current == RoundNames(ops, k)
      requires AllCounted(ops, Rounds(ops, k), indegree0)
      ensures LayerIs(ops, RoundNames(ops, k), layer) && SortNames(next) == RoundNames(ops, k + 1)
      ensures AllCounted(ops, Rounds(ops, k + 1), indegree)
      ensures processed == processed0 + |current|
    {
      hide Graph, Name, Direct, Ready, AllCounted, DagNodes, RoundNames, Rounds, DoneWithin, LayerStart, NameSet;
      GraphHasDagNodes(ops, Value());
      StartRound(ops, k, indegree0);
      RoundBounds(ops, k);
      NothingEmitted(ops, current);
      layer, indegree, next, processed := [], indegree0, [], processed0;
      for c := 0 to |current|
        invariant |layer| == c && processed == processed0 + c && LayerStart(ops, current, layer)
        invariant Ready(ops, Rounds(ops, k), DoneWithin(ops, k, c), indegree, next)
      {
        var id := current[c];
        OneMoreDone(ops, k, c);
        ghost var op := NameMeaning(ops, Value(), id);
        LayerGrows(ops, current, layer, op);
        layer := layer + [Nodes[id].operation.id];
        processed := processed + 1;
        indegree, next := Unlock(ops, Rounds(ops, k), DoneWithin(ops, k, c), id, indegree, next);
      }
      EndRound(ops, k, indegree, next);
    }

    /**
     * Kahn's algorithm. It always ends; it finds the graph inconsistent (`None`, where the source
     * panics) exactly when a repeated operation has a direct cause or effect, and otherwise lists
     * the sorted levels.
     */
    method GetTopologicalLayers(ghost ops: Log) returns (r: Option<seq<seq<LogicalId>>>)
      requires Represents(ops)
      ensures r.None? <==> RepeatsNeighbour(ops)
      ensures r.Some? ==> Layering(ops, r.value)
    {
      hide Graph, Name, AllCounted, DagNodes, RoundNames, Rounds, LayerIs, RoundsUpTo, Layering, RepeatsNeighbour;
      hide SortNames, NameSet;
      GraphHasDagNodes(ops, Value());
      if |Nodes| == 0 {
        NoLayers(ops);
        return Some([]);
      }
      var indegree := StartCounts(ops);
      var current := StartLayer(ops);
      var processed := 0;
      var layers: seq<seq<LogicalId>> := [];
      NothingProcessed(ops);
      while |current| > 0
        invariant current == RoundNames(ops, |layers|)
        invariant AllCounted(ops, Rounds(ops, |layers|), indegree)
        invariant processed == |Rounds(ops, |layers|)|
        invariant RoundsUpTo(ops, layers)
        decreases |Nodes| - processed
      {
        RoundsGrow(ops, |layers|);
        RoundsArePart(ops, |layers| + 1);
        var layer, next;
        layer, indegree, next, processed := ProcessLayer(ops, |layers|, current, indegree, processed);
        AnotherRound(ops, layers, layer);
        layers := layers + [layer];
        current := SortNames(next);
      }
      RoundsArePart(ops, |layers|);
      RoundsEnd(ops, |layers|);
      if processed != |Nodes| {
        return None;
      }
      SubsetOfSameSize(Rounds(ops, |layers|), Nodes.Keys);
      AllLayers(ops, layers);
      r := Some(layers);
    }
  }

  /** After its row an operation has a parent exactly if it has a direct cause. */
  lemma RowIsComplete(ops: Log, nodes: NodeMap, edges: EdgeMap, j: nat)
    requires j < |ops| && Drawn(ops, nodes, edges, j + 1, 0)
    ensures Name(ops[j].id) in nodes
    ensures nodes[Name(ops[j].id)].parents == [] <==> ParentsUp(ops, ops[j], |ops|) == []
    ensures RootNames(ops, j + 1) ==
            RootNames(ops, j) + (if ParentsUp(ops, ops[j], |ops|) == [] then {Name(ops[j].id)} else {})
  {
    hide Name, ParentsUp, ChildrenUp, ChildRows, ParentRows, NamesOf, FirstOnly, NameSet;
    var row := j + 1;
    LoggedName(ops, j);
    assert NodeAt(ops, nodes, edges, ops[j], row, 0);
    assert ParentsSeen(ops, ops[j], row, 0) == ParentRows(ops, ops[j], row) by { NoneSeenYet(ops, ops[j], row); }
    RowsOfNone(ops, ops[j], row);
    RowsOfNone(ops, ops[j], j);
    OneMoreRoot(ops, j);
  }

  lemma NoneSeenYet(ops: Log, op: WootOperation, j: nat)
    requires j <= |ops|
    ensures ParentsSeen(ops, op, j, 0) == ParentRows(ops, op, j)
  {
  }

  lemma OneMoreRoot(ops: Log, j: nat)
    requires j < |ops|
    ensures RootNames(ops, j + 1) ==
            RootNames(ops, j) + (if ParentsUp(ops, ops[j], |ops|) == [] then {Name(ops[j].id)} else {})
  {
    hide Name, ParentsUp;
  }

  lemma {:induction false} RowsOfNone(ops: Log, op: WootOperation, j: nat)
    requires j <= |ops|
    ensures ParentsUp(ops, op, |ops|) == [] ==> ParentRows(ops, op, j) == []
    ensures j < |ops| && ops[j] == op ==> ParentRows(ops, op, j + 1) == ParentRows(ops, op, j) + ParentsUp(ops, op, |ops|)
  {
    hide ParentsUp;
    if j > 0 {
      RowsOfNone(ops, op, j - 1);
    }
  }

  lemma NodesPresent(ops: Log, nodes: NodeMap, edges: EdgeMap, j: nat, i: nat)
    requires j < |ops| && i < |ops| && Drawn(ops, nodes, edges, j, i)
    ensures Name(ops[j].id) in nodes && Name(ops[i].id) in nodes
  {
    hide Name;
    LoggedName(ops, j);
    LoggedName(ops, i);
  }

  /** Before the first round nothing is processed. */
  lemma NothingProcessed(ops: Log)
    ensures RoundsUpTo(ops, []) && Rounds(ops, 0) == {}
  {
  }

  lemma NothingEmitted(ops: Log, names: seq<string>)
    ensures LayerStart(ops, names, [])
  {
  }

  /** At first the roots are due. */
  lemma RootsAreDue(ops: Log, g: Drawing, names: seq<string>)
    requires Graph(ops, g) && NoRepeats(names) && forall x :: x in names <==> x in g.roots
    ensures SortNames(names) == RoundNames(ops, 0)
  {
    hide Name, Level, Graph, DagNodes, Waiting, Surplus, DueAt, ListOf;
    var u := Elements(ops);
    GraphHasDagNodes(ops, g);
    RootsMeaning(ops, g);
    forall op | op in ops ensures Name(op.id) in names <==> Name(op.id) in DueAt(ops, {}) {
      DueMeaning(ops, op, {});
      RootIsDue(ops, op);
    }
    assert LogNames(ops, names);
    DueListIs(ops, {}, names);
  }

  lemma RootIsDue(ops: Log, op: WootOperation)
    requires DagLog(ops) && op in ops
    ensures IsDue(ops, op, {}) <==> Level(Elements(ops), op) == 0
  {
    hide Name, Level, DagNodes, Direct, Surplus;
    var u := Elements(ops);
    assert op in u;
    RootsHaveNoParent(u, op);
    SurplusMeaning(ops, op);
    if Waiting(u, op, {}) == {} {
      forall a | a in u ensures !Direct(u, a, op) {
        assert a !in Waiting(u, op, {});
      }
    } else {
      var a :| a in Waiting(u, op, {});
    }
    forall a | Direct(u, a, op) ensures a in u {
      DirectIsEarlier(u, a, op);
    }
  }

  lemma NotBeforeItself(ops: Log, i: nat)
    requires DagLog(ops) && i < |ops|
    ensures !Direct(Elements(ops), ops[i], ops[i])
  {
    assert ops[i] in Elements(ops);
    EarlierOrder(Elements(ops), ops[i], ops[i], ops[i]);
  }

  lemma SubsetOfSameSize(a: set<string>, b: set<string>)
    requires |a| == |b|
    ensures a <= b <==> a == b
  {
    if a <= b {
      assert b == a + (b - a);
    }
  }

  lemma AppendNew(s: seq<string>, x: string)
    requires NoRepeats(s) && x !in s
    ensures NoRepeats(s + [x]) && forall y :: y in s + [x] <==> y in s || y == x
  {
  }
}
