/** The counting behind `GetTopologicalLayers`, and what its result is worth (history/dag.go:151-211). */
module DagLayering {
  import opened Identifiers
  import opened Operations
  import opened OperationLog
  import opened OperationNames
  import opened CausalDag
  import opened DagLayers

  type Counts = map<string, int>

  // ---------------------------------------------------------------- the state of the loops

  /** With `done` processed, the node of `op` is due: it is not processed, and its count has reached 0. */
  ghost predicate IsDue(ops: Log, op: WootOperation, done: set<string>) {
    Name(op.id) !in done && Waiting(Elements(ops), op, done) == {} && Surplus(ops, op) == 0
  }

  ghost function DueAt(ops: Log, done: set<string>): set<string> {
    set op | op in Elements(ops) && IsDue(ops, op, done) :: Name(op.id)
  }

  /** What is processed after `k` rounds of the outer loop. */
  ghost function Rounds(ops: Log, k: nat): set<string> {
    if k == 0 then {} else Rounds(ops, k - 1) + DueAt(ops, Rounds(ops, k - 1))
  }

  /** The names processed in round `k`, sorted. */
  ghost function RoundNames(ops: Log, k: nat): seq<string> {
    ListOf(ops, DueAt(ops, Rounds(ops, k)))
  }

  /**
   * In a round that began with `start` processed: `op` counts its causes outside `done`, and what
   * was counted too much, and is in `next` when the count has just reached 0.
   */
  ghost predicate Tracked(ops: Log, start: set<string>, op: WootOperation, done: set<string>,
                          indegree: Counts, next: seq<string>)
  {
    var x, u := Name(op.id), Elements(ops);
    && x in indegree
    && indegree[x] == |Waiting(u, op, done)| + Surplus(ops, op)
    && (x in next <==> Surplus(ops, op) == 0 && Waiting(u, op, done) == {} && Waiting(u, op, start) != {})
  }

  ghost predicate NextIs(ops: Log, next: seq<string>) {
    NoRepeats(next) && LogNames(ops, next)
  }

  ghost predicate Ready(ops: Log, start: set<string>, done: set<string>, indegree: Counts, next: seq<string>) {
    NextIs(ops, next) && forall op :: op in ops ==> Tracked(ops, start, op, done, indegree, next)
  }

  /** What is done from the viewpoint of `op`, when the children in `handled` have been told about `x`. */
  ghost function Told(op: WootOperation, done: set<string>, x: string, handled: seq<string>): set<string> {
    if Name(op.id) in handled then done + {x} else done
  }

  ghost predicate Unlocking(ops: Log, start: set<string>, done: set<string>, x: string, handled: seq<string>,
                            indegree: Counts, next: seq<string>)
  {
    && NextIs(ops, next)
    && forall op :: op in ops ==> Tracked(ops, start, op, Told(op, done, x, handled), indegree, next)
  }

  lemma StartUnlocking(ops: Log, start: set<string>, done: set<string>, x: string, indegree: Counts, next: seq<string>)
    requires Ready(ops, start, done, indegree, next)
    ensures Unlocking(ops, start, done, x, [], indegree, next)
  {
    hide Tracked;
    forall op | op in ops ensures Tracked(ops, start, op, Told(op, done, x, []), indegree, next) {
      assert Told(op, done, x, []) == done;
    }
  }

  /** Telling a child about its processed parent. */
  lemma UnlockChild(ops: Log, start: set<string>, done: set<string>, a: WootOperation, b: WootOperation,
                    handled: seq<string>, indegree: Counts, next: seq<string>)
    requires DagLog(ops) && a in ops && b in ops && Direct(Elements(ops), a, b)
    requires Name(a.id) !in done && Name(a.id) !in start && Name(b.id) !in handled
    requires Unlocking(ops, start, done, Name(a.id), handled, indegree, next)
    ensures Name(b.id) in indegree
    ensures var left := indegree[Name(b.id)] - 1;
            Unlocking(ops, start, done, Name(a.id), handled + [Name(b.id)], indegree[Name(b.id) := left],
                      if left == 0 then next + [Name(b.id)] else next)
  {
    hide Name, Direct, DagNodes, Waiting, Surplus;
    var x, y := Name(a.id), Name(b.id);
    assert Tracked(ops, start, b, done, indegree, next);
    var left := indegree[y] - 1;
    var indegree2, next2 := indegree[y := left], if left == 0 then next + [y] else next;
    CountDown(ops, start, done, a, b, indegree, next);
    forall op | op in ops ensures Tracked(ops, start, op, Told(op, done, x, handled + [y]), indegree2, next2) {
      assert Tracked(ops, start, op, Told(op, done, x, handled), indegree, next);
      ApartInLog(ops, op, b);
      assert Told(op, done, x, handled + [y]) == if op == b then done + {x} else Told(op, done, x, handled);
    }
    assert b in Elements(ops);
  }

  lemma CountDown(ops: Log, start: set<string>, done: set<string>, a: WootOperation, b: WootOperation,
                  indegree: Counts, next: seq<string>)
    requires DagLog(ops) && a in ops && b in ops && Direct(Elements(ops), a, b)
    requires Name(a.id) !in done && Name(a.id) !in start
    requires Tracked(ops, start, b, done, indegree, next)
    ensures Name(b.id) !in next
    ensures var left := indegree[Name(b.id)] - 1;
            Tracked(ops, start, b, done + {Name(a.id)}, indegree[Name(b.id) := left],
                    if left == 0 then next + [Name(b.id)] else next)
  {
    hide Name, Direct, DagNodes, Surplus;
    var u := Elements(ops);
    assert a in u && b in u;
    SurplusMeaning(ops, b);
    WaitingShrinks(u, a, b, done);
    assert a in Waiting(u, b, done) && a in Waiting(u, b, start);
  }

  /** Once every child has been told, the parent is done. */
  lemma EndUnlocking(ops: Log, start: set<string>, done: set<string>, a: WootOperation, handled: seq<string>,
                     indegree: Counts, next: seq<string>)
    requires DagLog(ops) && a in ops
    requires forall b :: b in ops ==> (Name(b.id) in handled <==> Direct(Elements(ops), a, b))
    requires Unlocking(ops, start, done, Name(a.id), handled, indegree, next)
    ensures Ready(ops, start, done + {Name(a.id)}, indegree, next)
  {
    hide Name, Direct, DagNodes, Waiting, Surplus;
    var u, x := Elements(ops), Name(a.id);
    forall op | op in ops ensures Tracked(ops, start, op, done + {x}, indegree, next) {
      assert Tracked(ops, start, op, Told(op, done, x, handled), indegree, next);
      if Name(op.id) !in handled {
        WaitingStays(u, a, op, done);
      }
    }
  }

  ghost predicate AllCounted(ops: Log, done: set<string>, indegree: Counts) {
    forall op :: op in ops ==> Counted(ops, op, done, indegree)
  }

  ghost predicate Counted(ops: Log, op: WootOperation, done: set<string>, indegree: Counts) {
    Name(op.id) in indegree && indegree[Name(op.id)] == |Waiting(Elements(ops), op, done)| + Surplus(ops, op)
  }

  /** When a round starts, nothing has become ready yet. */
  lemma StartRound(ops: Log, k: nat, indegree: Counts)
    requires AllCounted(ops, Rounds(ops, k), indegree)
    ensures Ready(ops, Rounds(ops, k), Rounds(ops, k), indegree, [])
  {
    hide Name, Rounds, Waiting, Surplus;
    forall op | op in ops ensures Tracked(ops, Rounds(ops, k), op, Rounds(ops, k), indegree, []) {
      assert Counted(ops, op, Rounds(ops, k), indegree);
    }
  }

  lemma DueMeaning(ops: Log, op: WootOperation, done: set<string>)
    requires DagLog(ops) && op in ops
    ensures Name(op.id) in DueAt(ops, done) <==> IsDue(ops, op, done)
  {
    hide Name, DagLog, IsDue;
    assert op in Elements(ops);
    forall o | o in Elements(ops) && Name(o.id) == Name(op.id) ensures o == op {
      ApartInLog(ops, o, op);
    }
  }

  /** What is processed waits for nothing and was not counted too much. */
  lemma {:induction false} RoundsAreSettled(ops: Log, k: nat, op: WootOperation)
    requires DagLog(ops) && op in ops && Name(op.id) in Rounds(ops, k)
    ensures Waiting(Elements(ops), op, Rounds(ops, k)) == {} && Surplus(ops, op) == 0
  {
    hide Name, Direct, DagNodes, Surplus, DueAt;
    if k > 0 {
      if Name(op.id) in Rounds(ops, k - 1) {
        RoundsAreSettled(ops, k - 1, op);
      } else {
        DueMeaning(ops, op, Rounds(ops, k - 1));
      }
      forall a ensures a !in Waiting(Elements(ops), op, Rounds(ops, k)) {
        assert a !in Waiting(Elements(ops), op, Rounds(ops, k - 1));
      }
    }
  }

  /** When a round ends, its names are processed, and what became ready is due next. */
  lemma EndRound(ops: Log, k: nat, indegree: Counts, next: seq<string>)
    requires DagLog(ops) && Ready(ops, Rounds(ops, k), Rounds(ops, k + 1), indegree, next)
    ensures AllCounted(ops, Rounds(ops, k + 1), indegree)
    ensures SortNames(next) == RoundNames(ops, k + 1)
  {
    hide Name, Waiting, DagNodes, Surplus, Rounds, DueAt;
    forall op | op in ops
      ensures Counted(ops, op, Rounds(ops, k + 1), indegree)
      ensures Name(op.id) in next <==> Name(op.id) in DueAt(ops, Rounds(ops, k + 1))
    {
      assert Tracked(ops, Rounds(ops, k), op, Rounds(ops, k + 1), indegree, next);
      DueMeaning(ops, op, Rounds(ops, k + 1));
      if Surplus(ops, op) == 0 && Waiting(Elements(ops), op, Rounds(ops, k + 1)) == {} {
        JustReady(ops, k, op);
      }
    }
    DueListIs(ops, Rounds(ops, k + 1), next);
  }

  lemma JustReady(ops: Log, k: nat, op: WootOperation)
    requires DagLog(ops) && op in ops && Surplus(ops, op) == 0
    requires Waiting(Elements(ops), op, Rounds(ops, k + 1)) == {}
    ensures Waiting(Elements(ops), op, Rounds(ops, k)) != {} <==> Name(op.id) !in Rounds(ops, k + 1)
  {
    hide Name, Waiting, DagNodes, Surplus, DueAt;
    DueMeaning(ops, op, Rounds(ops, k));
    if Name(op.id) in Rounds(ops, k) {
      RoundsAreSettled(ops, k, op);
    }
  }

  /** A repeat-free list of exactly the due names sorts to the list of the round. */
  lemma DueListIs(ops: Log, done: set<string>, names: seq<string>)
    requires DagLog(ops) && NextIs(ops, names)
    requires forall op :: op in ops ==> (Name(op.id) in names <==> Name(op.id) in DueAt(ops, done))
    ensures SortNames(names) == ListOf(ops, DueAt(ops, done))
  {
    hide Name, DagNodes, IsDue;
    var u := Elements(ops);
    forall x ensures x in names <==> x in DueAt(ops, done) && x in NameSet(u) {
      if x in NameSet(u) {
        var op :| op in u && Name(op.id) == x;
        assert op in ops;
      }
    }
    SortsToListOf(ops, DueAt(ops, done), names);
  }

  // ---------------------------------------------------------------- what is processed

  ghost function Names(s: seq<string>): set<string> {
    set x | x in s
  }

  lemma RoundsGrow(ops: Log, k: nat)
    ensures Rounds(ops, k + 1) == Rounds(ops, k) + Names(RoundNames(ops, k))
    ensures Rounds(ops, k) !! Names(RoundNames(ops, k)) && NoRepeats(RoundNames(ops, k))
    ensures |Rounds(ops, k + 1)| == |Rounds(ops, k)| + |RoundNames(ops, k)|
    ensures LogNames(ops, RoundNames(ops, k))
  {
    hide Name, Waiting, Surplus, ListOf;
    var due, list := DueAt(ops, Rounds(ops, k)), RoundNames(ops, k);
    ListOfMeaning(ops, due);
    NamesInList(list);
    assert due <= NameSet(Elements(ops));
    assert due == Names(list);
    assert Rounds(ops, k) !! due;
    assert |Rounds(ops, k) + due| == |Rounds(ops, k)| + |due|;
  }

  lemma {:induction false} RoundsArePart(ops: Log, k: nat)
    ensures Rounds(ops, k) <= NameSet(Elements(ops)) && |Rounds(ops, k)| <= |NameSet(Elements(ops))|
  {
    hide Name, IsDue;
    if k > 0 {
      RoundsArePart(ops, k - 1);
    }
    Cardinality(Rounds(ops, k), NameSet(Elements(ops)));
  }

  ghost function DoneWithin(ops: Log, k: nat, c: nat): set<string>
    requires c <= |RoundNames(ops, k)|
  {
    Rounds(ops, k) + Names(RoundNames(ops, k)[..c])
  }

  /** Within a round, names are processed one by one. */
  lemma OneMoreDone(ops: Log, k: nat, c: nat)
    requires c < |RoundNames(ops, k)|
    ensures var x := RoundNames(ops, k)[c];
            && x in NameSet(Elements(ops)) && x !in Rounds(ops, k) && x !in DoneWithin(ops, k, c)
            && DoneWithin(ops, k, c) + {x} == DoneWithin(ops, k, c + 1)
  {
    hide Name, RoundNames, Rounds, NameSet;
    RoundsGrow(ops, k);
    NextName(Rounds(ops, k), RoundNames(ops, k), c);
  }

  lemma NextName(done: set<string>, s: seq<string>, c: nat)
    requires NoRepeats(s) && done !! Names(s) && c < |s|
    ensures s[c] !in done && s[c] !in done + Names(s[..c])
    ensures done + Names(s[..c]) + {s[c]} == done + Names(s[..c + 1])
  {
    assert s[..c + 1] == s[..c] + [s[c]];
    assert s[c] in Names(s);
  }

  lemma RoundBounds(ops: Log, k: nat)
    ensures DoneWithin(ops, k, 0) == Rounds(ops, k)
    ensures DoneWithin(ops, k, |RoundNames(ops, k)|) == Rounds(ops, k + 1)
  {
    hide Name, RoundNames, Rounds;
    RoundsGrow(ops, k);
    var s := RoundNames(ops, k);
    assert s[..|s|] == s && s[..0] == [];
  }

  // ---------------------------------------------------------------- rounds and levels

  /** If no repeated operation has a direct cause or effect, each round processes one level. */
  lemma {:induction false} RoundsAreLevels(ops: Log, k: nat)
    requires DagLog(ops) && !RepeatsNeighbour(ops)
    ensures Rounds(ops, k) == Done(Elements(ops), k) && RoundNames(ops, k) == LayerNames(ops, k)
  {
    hide Name, Level, DagNodes, Direct, Surplus, Waiting, ListOf;
    var u := Elements(ops);
    if k == 0 {
      assert Done(u, 0) == {};
    } else {
      RoundsAreLevels(ops, k - 1);
      DueIsLevel(ops, k - 1);
      assert Done(u, k) == Done(u, k - 1) + LevelSet(u, k - 1);
    }
    DueIsLevel(ops, k);
  }

  lemma DueIsLevel(ops: Log, k: nat)
    requires DagLog(ops) && !RepeatsNeighbour(ops)
    ensures DueAt(ops, Done(Elements(ops), k)) == LevelSet(Elements(ops), k)
  {
    hide Name, Level, DagNodes, Direct, Waiting, Done, Surplus, ListedOnce;
    var u := Elements(ops);
    forall op | op in u ensures IsDue(ops, op, Done(u, k)) <==> Level(u, op) == k {
      WaitingBelow(u, op, k);
      SurplusMeaning(ops, op);
    }
  }

  /** Levels have no gaps. */
  lemma {:induction false} LevelsAreFilled(u: Ops, b: WootOperation, k: nat)
    requires DagNodes(u) && b in u && k <= Level(u, b)
    ensures exists a :: a in u && Level(u, a) == k
    decreases Level(u, b)
  {
    hide Level, Direct, DagNodes;
    if k < Level(u, b) {
      var a := SomeParentIsNext(u, b);
      DirectIsEarlier(u, a, b);
      LevelsAreFilled(u, a, k);
    }
  }

  /** An empty layer is the end: everything is done. */
  lemma EmptyLayerIsEnd(ops: Log, k: nat)
    requires DagLog(ops) && LayerNames(ops, k) == []
    ensures forall op :: op in ops ==> Level(Elements(ops), op) < k
    ensures Done(Elements(ops), k) == NameSet(Elements(ops))
  {
    hide Name, Level, DagNodes, LayerNames;
    var u := Elements(ops);
    LayerMeaning(ops, k);
    forall op | op in ops ensures Level(u, op) != k {
      assert Name(op.id) !in LayerNames(ops, k);
    }
    forall op | op in ops ensures Level(u, op) < k {
      if k <= Level(u, op) {
        LevelsAreFilled(u, op, k);
      }
    }
    assert forall op :: op in u ==> op in ops;
  }

  /** When nothing more is due, everything is processed exactly if no repeated operation has a direct cause or effect. */
  lemma RoundsEnd(ops: Log, k: nat)
    requires DagLog(ops) && RoundNames(ops, k) == []
    ensures Rounds(ops, k) == NameSet(Elements(ops)) <==> !RepeatsNeighbour(ops)
  {
    hide Name, Level, DagNodes, Direct, Surplus, Waiting, LayerNames, RoundNames, Rounds, ListedOnce;
    if !RepeatsNeighbour(ops) {
      RoundsAreLevels(ops, k);
      EmptyLayerIsEnd(ops, k);
    }
    if Rounds(ops, k) == NameSet(Elements(ops)) {
      forall a, b | Direct(Elements(ops), a, b) ensures ListedOnce(ops, a, b) {
        DirectIsEarlier(Elements(ops), a, b);
        assert b in Elements(ops) && b in ops;
        RoundsAreSettled(ops, k, b);
        SurplusMeaning(ops, b);
      }
    }
  }

  // ---------------------------------------------------------------- the result

  /** The `i`th of the listed names is that of the operation with this identifier. */
  ghost predicate Listed(ops: Log, names: seq<string>, i: nat, id: LogicalId) {
    i < |names| && exists op :: op in ops && op.id == id && Name(id) == names[i]
  }

  ghost predicate LayerStart(ops: Log, names: seq<string>, layer: seq<LogicalId>) {
    forall i: nat :: i < |layer| ==> Listed(ops, names, i, layer[i])
  }

  ghost predicate LayerIs(ops: Log, names: seq<string>, layer: seq<LogicalId>) {
    |layer| == |names| && LayerStart(ops, names, layer)
  }

  lemma LayerGrows(ops: Log, names: seq<string>, layer: seq<LogicalId>, op: WootOperation)
    requires LayerStart(ops, names, layer) && op in ops && |layer| < |names| && Name(op.id) == names[|layer|]
    ensures LayerStart(ops, names, layer + [op.id])
  {
    hide Name;
    var longer := layer + [op.id];
    forall i: nat | i < |longer| ensures Listed(ops, names, i, longer[i]) {
      if i < |layer| {
        assert Listed(ops, names, i, layer[i]);
      }
    }
  }

  /** Layer by layer what the rounds have processed. */
  ghost predicate RoundsUpTo(ops: Log, layers: seq<seq<LogicalId>>) {
    forall k: nat :: k < |layers| ==> layers[k] != [] && LayerIs(ops, RoundNames(ops, k), layers[k])
  }

  lemma AnotherRound(ops: Log, layers: seq<seq<LogicalId>>, layer: seq<LogicalId>)
    requires RoundsUpTo(ops, layers) && LayerIs(ops, RoundNames(ops, |layers|), layer) && RoundNames(ops, |layers|) != []
    ensures RoundsUpTo(ops, layers + [layer])
  {
    hide Listed, RoundNames;
  }

  ghost predicate LayersUpTo(ops: Log, layers: seq<seq<LogicalId>>) {
    forall k: nat :: k < |layers| ==> layers[k] != [] && LayerIs(ops, LayerNames(ops, k), layers[k])
  }

  /** Layer by layer the sorted levels, none empty, and no operation left out. */
  ghost predicate Layering(ops: Log, layers: seq<seq<LogicalId>>) {
    && LayersUpTo(ops, layers)
    && (forall op :: op in ops ==> Level(Elements(ops), op) < |layers|)
  }

  /** When nothing more is due, the layers are complete if no repeated operation has a direct cause or effect. */
  lemma AllLayers(ops: Log, layers: seq<seq<LogicalId>>)
    requires DagLog(ops) && !RepeatsNeighbour(ops) && RoundsUpTo(ops, layers) && RoundNames(ops, |layers|) == []
    ensures Layering(ops, layers)
  {
    hide Level, LayerIs, RepeatsNeighbour, Rounds, LayerNames, RoundNames, DagNodes;
    forall k: nat | k < |layers| ensures layers[k] != [] && LayerIs(ops, LayerNames(ops, k), layers[k]) {
      RoundsAreLevels(ops, k);
    }
    RoundsAreLevels(ops, |layers|);
    EmptyLayerIsEnd(ops, |layers|);
  }

  /** A graph without nodes has no layers. */
  lemma NoLayers(ops: Log)
    requires |NameSet(Elements(ops))| == 0
    ensures Layering(ops, []) && !RepeatsNeighbour(ops)
  {
    hide Name;
    if ops != [] {
      LoggedName(ops, 0);
    }
  }

  /** An operation is in a layer exactly when its longest path from a root has that many edges. */
  lemma LayerIsLevel(ops: Log, layers: seq<seq<LogicalId>>, op: WootOperation, k: nat)
    requires DagLog(ops) && Layering(ops, layers) && op in ops && k < |layers|
    ensures op.id in layers[k] <==> Level(Elements(ops), op) == k
  {
    hide Name, Level, DagNodes;
    LayerMeaning(ops, k);
    assert LayerIs(ops, LayerNames(ops, k), layers[k]);
    if op.id in layers[k] {
      var i: nat :| i < |layers[k]| && layers[k][i] == op.id;
      assert Listed(ops, LayerNames(ops, k), i, op.id);
    }
    if Level(Elements(ops), op) == k {
      var i: nat :| i < |LayerNames(ops, k)| && LayerNames(ops, k)[i] == Name(op.id);
      assert Listed(ops, LayerNames(ops, k), i, layers[k][i]);
      var o :| o in ops && o.id == layers[k][i] && Name(o.id) == Name(op.id);
      ApartInLog(ops, o, op);
    }
  }

  /** Within a layer the names ascend in alphabetical order. */
  lemma LayersAreSorted(ops: Log, layers: seq<seq<LogicalId>>, k: nat, i: nat, j: nat)
    requires DagLog(ops) && Layering(ops, layers) && k < |layers| && i < j < |layers[k]|
    ensures Precedes(Name(layers[k][i]), Name(layers[k][j]))
  {
    hide Name, Level, Layering, Precedes, SortNames, PickNames, DagNodes;
    var a := EmittedIsLogged(ops, layers, k, i);
    var b := EmittedIsLogged(ops, layers, k, j);
    LayerMeaning(ops, k);
    SortIsAlphabetical(PickNames(ops, LevelSet(Elements(ops), k), |ops|));
  }

  /** Every logged operation is emitted, and no identifier is emitted twice. */
  lemma EachOperationOnce(ops: Log, layers: seq<seq<LogicalId>>)
    requires DagLog(ops) && Layering(ops, layers)
    ensures forall op :: op in ops ==> exists k: nat :: k < |layers| && op.id in layers[k]
    ensures forall k: nat, i: nat, l: nat, j: nat ::
              k < |layers| && i < |layers[k]| && l < |layers| && j < |layers[l]| && layers[k][i] == layers[l][j] ==>
                k == l && i == j
  {
    hide Name, Level, DagNodes, DagLog, Layering;
    forall op | op in ops ensures exists k: nat :: k < |layers| && op.id in layers[k] {
      LayeringCovers(ops, layers, op);
      LayerIsLevel(ops, layers, op, Level(Elements(ops), op));
    }
    forall k: nat, i: nat, l: nat, j: nat |
      k < |layers| && i < |layers[k]| && l < |layers| && j < |layers[l]| && layers[k][i] == layers[l][j]
      ensures k == l && i == j
    {
      var op := EmittedIsLogged(ops, layers, k, i);
      var o := EmittedIsLogged(ops, layers, l, j);
      LayerIsLevel(ops, layers, op, k);
      LayerIsLevel(ops, layers, op, l);
      LayerMeaning(ops, k);
    }
  }

  lemma LayeringCovers(ops: Log, layers: seq<seq<LogicalId>>, op: WootOperation)
    requires Layering(ops, layers) && op in ops
    ensures Level(Elements(ops), op) < |layers|
  {
  }

  lemma EmittedIsLogged(ops: Log, layers: seq<seq<LogicalId>>, k: nat, i: nat) returns (op: WootOperation)
    requires Layering(ops, layers) && k < |layers| && i < |layers[k]|
    ensures op in ops && op.id == layers[k][i]
    ensures i < |LayerNames(ops, k)| && Name(op.id) == LayerNames(ops, k)[i]
  {
    hide Name, Level, LayerNames;
    assert LayerIs(ops, LayerNames(ops, k), layers[k]);
    assert Listed(ops, LayerNames(ops, k), i, layers[k][i]);
    op :| op in ops && op.id == layers[k][i] && Name(op.id) == LayerNames(ops, k)[i];
  }

  /** A layer is an antichain. */
  lemma LayersAreConcurrent(ops: Log, layers: seq<seq<LogicalId>>, k: nat, i: nat, j: nat)
    requires DagLog(ops) && Layering(ops, layers) && k < |layers| && i < |layers[k]| && j < |layers[k]|
    ensures Concurrent(layers[k][i], layers[k][j])
  {
    hide Name, Level, Layering;
    var a := EmittedIsLogged(ops, layers, k, i);
    var b := EmittedIsLogged(ops, layers, k, j);
    LayerIsLevel(ops, layers, a, k);
    LayerIsLevel(ops, layers, b, k);
    LevelsAreAntichains(Elements(ops), a, b);
  }

  /** Two logs of the same operations have the same layer lists. */
  lemma LayeringIgnoresLogOrder(ops: Log, layers: seq<seq<LogicalId>>, other: Log, otherLayers: seq<seq<LogicalId>>)
    requires DagLog(ops) && DagLog(other) && Elements(ops) == Elements(other)
    requires Layering(ops, layers) && Layering(other, otherLayers)
    ensures layers == otherLayers
  {
    hide Name, Level, DagNodes, Layering, LayerNames;
    NoLonger(ops, layers, other, otherLayers);
    NoLonger(other, otherLayers, ops, layers);
    forall k: nat | k < |layers| ensures layers[k] == otherLayers[k] {
      LayersIgnoreLogOrder(ops, other, k);
      LayersOf(ops, layers, k);
      LayersOf(other, otherLayers, k);
      forall i: nat | i < |layers[k]| ensures layers[k][i] == otherLayers[k][i] {
        var a := EmittedIsLogged(ops, layers, k, i);
        var b := EmittedIsLogged(other, otherLayers, k, i);
        assert b in Elements(ops);
        DistinctNames(Elements(ops), a, b);
      }
    }
  }

  lemma LayersOf(ops: Log, layers: seq<seq<LogicalId>>, k: nat)
    requires Layering(ops, layers) && k < |layers|
    ensures layers[k] != [] && LayerIs(ops, LayerNames(ops, k), layers[k])
  {
  }

  lemma NoLonger(ops: Log, layers: seq<seq<LogicalId>>, other: Log, otherLayers: seq<seq<LogicalId>>)
    requires DagLog(ops) && DagLog(other) && Elements(ops) == Elements(other)
    requires Layering(ops, layers) && Layering(other, otherLayers)
    ensures |layers| <= |otherLayers|
  {
    hide Name, Level, DagNodes, Layering;
    if |layers| > |otherLayers| {
      var k := |otherLayers|;
      LayersOf(ops, layers, k);
      var a := EmittedIsLogged(ops, layers, k, 0);
      LayerIsLevel(ops, layers, a, k);
      assert a in Elements(other);
      LayeringCovers(other, otherLayers, a);
    }
  }
}
