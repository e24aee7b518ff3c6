/** The maps a graph is stored in, and how far the nested loops of history/dag.go have filled them. */
module DagGraphs {
  import opened Operations
  import opened OperationLog
  import opened OperationNames
  import opened CausalDag
  import opened DagLayers

  datatype DAGNode = DAGNode(operation: WootOperation, parents: seq<LogicalId>, children: seq<LogicalId>)

  type NodeMap = map<string, DAGNode>
  type EdgeMap = map<string, seq<string>>

  /** The three maps of a graph. */
  datatype Drawing = Drawing(roots: set<string>, nodes: NodeMap, edges: EdgeMap)

  function EdgesFrom(edges: EdgeMap, x: string): seq<string> {
    if x in edges then edges[x] else []
  }

  function WithEdge(edges: EdgeMap, from: string, to: string): EdgeMap {
    if to in EdgesFrom(edges, from) then edges else edges[from := EdgesFrom(edges, from) + [to]]
  }

  function WithParent(nodes: NodeMap, x: string, id: LogicalId): NodeMap {
    if x in nodes then nodes[x := nodes[x].(parents := nodes[x].parents + [id])] else nodes
  }

  function WithChild(nodes: NodeMap, x: string, id: LogicalId): NodeMap {
    if x in nodes then nodes[x := nodes[x].(children := nodes[x].children + [id])] else nodes
  }

  // ---------------------------------------------------------------- progress of the loops

  /** The parents of `op` noted when the loops stand at row `j`, entry `i`. */
  ghost function ParentsSeen(ops: Log, op: WootOperation, j: nat, i: nat): seq<LogicalId>
    requires j <= |ops| && i <= |ops|
  {
    ParentRows(ops, op, j) + (if j < |ops| && ops[j] == op then ParentsUp(ops, op, i) else [])
  }

  /** The children of `op` noted by then. */
  ghost function ChildrenSeen(ops: Log, op: WootOperation, j: nat, i: nat): seq<LogicalId>
    requires j <= |ops| && i <= |ops|
  {
    ChildRows(ops, op, j) + (if j < |ops| then ChildrenUp(ops, op, j, i) else [])
  }

  /** The node of an operation, and the edges from it: to each child once. */
  ghost predicate NodeAt(ops: Log, nodes: NodeMap, edges: EdgeMap, op: WootOperation, j: nat, i: nat)
    requires j <= |ops| && i <= |ops|
  {
    var x := Name(op.id);
    && x in nodes
    && nodes[x] == DAGNode(op, ParentsSeen(ops, op, j, i), ChildrenSeen(ops, op, j, i))
    && EdgesFrom(edges, x) == FirstOnly(NamesOf(ChildrenSeen(ops, op, j, i)))
  }

  /** Every pair of entries before (`j`, `i`), in the order of the nested loops, has been considered. */
  ghost predicate Drawn(ops: Log, nodes: NodeMap, edges: EdgeMap, j: nat, i: nat)
    requires j <= |ops| && i <= |ops|
  {
    && nodes.Keys == NameSet(Elements(ops))
    && (forall op {:trigger NodeAt(ops, nodes, edges, op, j, i)} :: op in ops ==> NodeAt(ops, nodes, edges, op, j, i))
    && (forall x :: x in edges ==> x in nodes && edges[x] != [])
  }

  /** The parentless operations among the first `j` entries. */
  ghost function RootNames(ops: Log, j: nat): set<string>
    requires j <= |ops|
  {
    set t | 0 <= t < j && ParentsUp(ops, ops[t], |ops|) == [] :: Name(ops[t].id)
  }

  /** The finished graph of a log. */
  ghost predicate Graph(ops: Log, g: Drawing) {
    DagLog(ops) && Drawn(ops, g.nodes, g.edges, |ops|, 0) && g.roots == RootNames(ops, |ops|)
  }

  /** The operations of the first `n` entries have their nodes, without edges. */
  ghost predicate NodesUpTo(ops: Log, nodes: NodeMap, n: nat)
    requires n <= |ops|
  {
    && nodes.Keys == NameSet(Elements(ops[..n]))
    && forall t: nat {:trigger ops[t]} :: t < n ==>
         Name(ops[t].id) in nodes && nodes[Name(ops[t].id)] == DAGNode(ops[t], [], [])
  }

  lemma NodeAdded(ops: Log, nodes: NodeMap, n: nat)
    requires DagLog(ops) && n < |ops| && NodesUpTo(ops, nodes, n)
    ensures NodesUpTo(ops, nodes[Name(ops[n].id) := DAGNode(ops[n], [], [])], n + 1)
  {
    hide DagLog, Name, NameSet;
    forall t: nat | t < n ensures Name(ops[t].id) == Name(ops[n].id) ==> ops[t] == ops[n] {
      ApartInLog(ops, ops[t], ops[n]);
    }
    OneMoreName(ops, n);
  }

  lemma OneMoreName(ops: Log, n: nat)
    requires n < |ops|
    ensures NameSet(Elements(ops[..n + 1])) == NameSet(Elements(ops[..n])) + {Name(ops[n].id)}
  {
    hide Name;
    assert ops[..n + 1] == ops[..n] + [ops[n]];
    assert Elements(ops[..n + 1]) == Elements(ops[..n]) + {ops[n]};
  }

  lemma NothingDrawn(ops: Log, nodes: NodeMap, edges: EdgeMap)
    requires NodesUpTo(ops, nodes, |ops|) && edges == map[]
    ensures Drawn(ops, nodes, edges, 0, 0)
  {
    hide Name, Direct;
    assert ops[..|ops|] == ops;
    forall op | op in ops ensures NodeAt(ops, nodes, edges, op, 0, 0) {
      var t: nat :| t < |ops| && ops[t] == op;
      assert NamesOf([]) == [];
      assert ParentsSeen(ops, op, 0, 0) == [] == ChildrenSeen(ops, op, 0, 0);
    }
  }

  /** The end of one row of pairs is the start of the next. */
  lemma NextRow(ops: Log, nodes: NodeMap, edges: EdgeMap, j: nat)
    requires j < |ops| && Drawn(ops, nodes, edges, j, |ops|)
    ensures Drawn(ops, nodes, edges, j + 1, 0)
  {
    hide Name, Direct;
    var row := j + 1;
    forall op | op in ops ensures NodeAt(ops, nodes, edges, op, row, 0) {
      assert NodeAt(ops, nodes, edges, op, j, |ops|);
      RowEnds(ops, op, j);
    }
  }

  lemma RowEnds(ops: Log, op: WootOperation, j: nat)
    requires j < |ops|
    ensures ParentsSeen(ops, op, j, |ops|) == ParentsSeen(ops, op, j + 1, 0)
    ensures ChildrenSeen(ops, op, j, |ops|) == ChildrenSeen(ops, op, j + 1, 0)
  {
  }

  /** What one pair adds to the lists of an operation. */
  lemma PairAdds(ops: Log, op: WootOperation, j: nat, i: nat)
    requires j < |ops| && i < |ops|
    ensures var direct := Direct(Elements(ops), ops[i], ops[j]);
            && ParentsSeen(ops, op, j, i + 1) ==
                 ParentsSeen(ops, op, j, i) + (if direct && ops[j] == op then [ops[i].id] else [])
            && ChildrenSeen(ops, op, j, i + 1) ==
                 ChildrenSeen(ops, op, j, i) + (if direct && ops[i] == op then [ops[j].id] else [])
  {
    hide Direct;
  }

  /** A pair without an edge leaves the maps as they are. */
  lemma NoLink(ops: Log, nodes: NodeMap, edges: EdgeMap, j: nat, i: nat)
    requires j < |ops| && i < |ops| && Drawn(ops, nodes, edges, j, i)
    requires !Direct(Elements(ops), ops[i], ops[j])
    ensures Drawn(ops, nodes, edges, j, i + 1)
  {
    hide Name, Direct, ParentsSeen, ChildrenSeen;
    var pair := i + 1;
    forall op | op in ops ensures NodeAt(ops, nodes, edges, op, j, pair) {
      assert NodeAt(ops, nodes, edges, op, j, i);
      PairAdds(ops, op, j, i);
      assert ParentsSeen(ops, op, j, i) + [] == ParentsSeen(ops, op, j, i);
      assert ChildrenSeen(ops, op, j, i) + [] == ChildrenSeen(ops, op, j, i);
    }
  }

  /** Noting one more child adds an edge unless it is there. */
  lemma EdgeOfChild(ids: seq<LogicalId>, id: LogicalId)
    ensures FirstOnly(NamesOf(ids + [id])) ==
            if Name(id) in FirstOnly(NamesOf(ids)) then FirstOnly(NamesOf(ids)) else FirstOnly(NamesOf(ids)) + [Name(id)]
  {
    var names := NamesOf(ids + [id]);
    assert names[..|names| - 1] == NamesOf(ids);
  }

  /** Drawing a direct edge brings the maps to the next pair. */
  lemma LinkAdvances(ops: Log, nodes: NodeMap, edges: EdgeMap, j: nat, i: nat)
    requires DagLog(ops) && j < |ops| && i < |ops| && Drawn(ops, nodes, edges, j, i)
    requires Direct(Elements(ops), ops[i], ops[j])
    ensures Drawn(ops, WithChild(WithParent(nodes, Name(ops[j].id), ops[i].id), Name(ops[i].id), ops[j].id),
                  WithEdge(edges, Name(ops[i].id), Name(ops[j].id)), j, i + 1)
  {
    hide Name, Direct, DagLog, ParentsSeen, ChildrenSeen, NamesOf, FirstOnly, NameSet;
    var a, b, pair := ops[i], ops[j], i + 1;
    var nodes2 := WithChild(WithParent(nodes, Name(b.id), a.id), Name(a.id), b.id);
    var edges2 := WithEdge(edges, Name(a.id), Name(b.id));
    EndsDiffer(ops, i, j);
    assert NodeAt(ops, nodes, edges, a, j, i) && NodeAt(ops, nodes, edges, b, j, i);
    forall op | op in ops ensures NodeAt(ops, nodes2, edges2, op, j, pair) {
      assert NodeAt(ops, nodes, edges, op, j, i);
      ApartInLog(ops, op, a);
      ApartInLog(ops, op, b);
      PairAdds(ops, op, j, i);
      assert ParentsSeen(ops, op, j, i) + [] == ParentsSeen(ops, op, j, i);
      assert ChildrenSeen(ops, op, j, i) + [] == ChildrenSeen(ops, op, j, i);
      EdgeOfChild(ChildrenSeen(ops, op, j, i), b.id);
    }
    assert nodes2.Keys == nodes.Keys;
  }

  lemma EndsDiffer(ops: Log, i: nat, j: nat)
    requires DagLog(ops) && i < |ops| && j < |ops| && Direct(Elements(ops), ops[i], ops[j])
    ensures Name(ops[i].id) != Name(ops[j].id)
  {
    EarlierOrder(Elements(ops), ops[i], ops[j], ops[i]);
    ApartInLog(ops, ops[i], ops[j]);
  }
}
