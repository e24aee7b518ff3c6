/** The lists a log's graph is drawn with, and the counting behind its layers (history/dag.go). */
module DagLayers {
  import opened Operations
  import opened OperationLog
  import opened OperationNames
  import opened CausalDag

  /** A log that a graph is built from: valid operations of distinct names, in any order, listed any number of times. */
  ghost predicate DagLog(ops: Log) {
    DagNodes(Elements(ops))
  }

  /** Among the first `n` entries, the direct causes of `b`, in log order. */
  ghost function ParentsUp(ops: Log, b: WootOperation, n: nat): seq<LogicalId>
    requires n <= |ops|
  {
    if n == 0 then []
    else ParentsUp(ops, b, n - 1) + (if Direct(Elements(ops), ops[n - 1], b) then [ops[n - 1].id] else [])
  }

  /** The parents noted in the rows before the `j`th: all of them once more whenever `b` is listed. */
  ghost function ParentRows(ops: Log, b: WootOperation, j: nat): seq<LogicalId>
    requires j <= |ops|
  {
    if j == 0 then [] else ParentRows(ops, b, j - 1) + (if ops[j - 1] == b then ParentsUp(ops, b, |ops|) else [])
  }

  /** The children noted in row `j`, as far as its `i`th entry: `ops[j]` whenever `a` is listed, if it is an effect. */
  ghost function ChildrenUp(ops: Log, a: WootOperation, j: nat, i: nat): seq<LogicalId>
    requires j < |ops| && i <= |ops|
  {
    if i == 0 then []
    else
      ChildrenUp(ops, a, j, i - 1) +
      (if ops[i - 1] == a && Direct(Elements(ops), a, ops[j]) then [ops[j].id] else [])
  }

  /** The children noted in the rows before the `j`th. */
  ghost function ChildRows(ops: Log, a: WootOperation, j: nat): seq<LogicalId>
    requires j <= |ops|
  {
    if j == 0 then [] else ChildRows(ops, a, j - 1) + ChildrenUp(ops, a, j - 1, |ops|)
  }

  function NamesOf(ids: seq<LogicalId>): seq<string> {
    seq(|ids|, i requires 0 <= i < |ids| => Name(ids[i]))
  }

  ghost function NameSet(u: Ops): set<string> {
    set op | op in u :: Name(op.id)
  }

  lemma DistinctNames(u: Ops, a: WootOperation, b: WootOperation)
    requires DagNodes(u) && a in u && b in u
    ensures Name(a.id) == Name(b.id) <==> a == b
  {
    assert NamedApart(a, b);
    NameIdentifies(a.id, b.id);
  }

  lemma ApartInLog(ops: Log, a: WootOperation, b: WootOperation)
    requires DagLog(ops) && a in ops && b in ops
    ensures Name(a.id) == Name(b.id) <==> a == b
  {
    DistinctNames(Elements(ops), a, b);
  }

  // ---------------------------------------------------------------- lists without repeats

  predicate NoRepeats(s: seq<string>) {
    forall i, j :: 0 <= i < j < |s| ==> s[i] != s[j]
  }

  lemma {:induction false} NoRepeatsCounts(s: seq<string>, x: string)
    requires NoRepeats(s)
    ensures multiset(s)[x] == if x in s then 1 else 0
    decreases |s|
  {
    if s != [] {
      var n := |s| - 1;
      assert s == s[..n] + [s[n]];
      NoRepeatsCounts(s[..n], x);
    }
  }

  /** Repeat-free lists of the same names sort alike. */
  lemma SameNamesSortAlike(a: seq<string>, b: seq<string>)
    requires NoRepeats(a) && NoRepeats(b) && forall x :: x in a <==> x in b
    ensures multiset(a) == multiset(b) && SortNames(a) == SortNames(b)
  {
    forall x ensures multiset(a)[x] == multiset(b)[x] {
      NoRepeatsCounts(a, x);
      NoRepeatsCounts(b, x);
    }
    assert multiset(a) == multiset(b);
    SortIgnoresOrder(a, b);
  }

  lemma SortKeepsNames(a: seq<string>)
    requires NoRepeats(a)
    ensures NoRepeats(SortNames(a)) && |SortNames(a)| == |a| && forall x :: x in SortNames(a) <==> x in a
  {
    SortNamesSorts(a);
    var s := SortNames(a);
    assert |s| == |multiset(s)| == |multiset(a)| == |a|;
    forall x ensures x in s <==> x in a {
      assert x in multiset(s) <==> x in multiset(a);
    }
    forall x ensures multiset(s)[x] <= 1 {
      NoRepeatsCounts(a, x);
    }
    CountsForbidRepeats(s);
  }

  lemma {:induction false} CountsForbidRepeats(s: seq<string>)
    requires forall x :: multiset(s)[x] <= 1
    ensures NoRepeats(s)
    decreases |s|
  {
    if s != [] {
      var n := |s| - 1;
      assert s == s[..n] + [s[n]];
      forall x ensures multiset(s[..n])[x] <= 1 {
        assert multiset(s)[x] <= 1;
      }
      assert multiset(s)[s[n]] <= 1;
      assert s[n] !in s[..n];
      CountsForbidRepeats(s[..n]);
    }
  }

  /** The list with only the first of equal names. */
  function FirstOnly(s: seq<string>): seq<string> {
    if s == [] then []
    else
      var before, x := FirstOnly(s[..|s| - 1]), s[|s| - 1];
      if x in before then before else before + [x]
  }

  lemma {:induction false} FirstOnlyMeaning(s: seq<string>)
    ensures NoRepeats(FirstOnly(s)) && forall x :: x in FirstOnly(s) <==> x in s
    ensures NoRepeats(s) ==> FirstOnly(s) == s
    decreases |s|
  {
    if s != [] {
      var n := |s| - 1;
      assert s == s[..n] + [s[n]];
      FirstOnlyMeaning(s[..n]);
    }
  }

  /** A list has at least as many entries as there are names in it, and as many only without repeats. */
  lemma {:induction false} NamesInList(s: seq<string>)
    ensures |set x | x in s| <= |s|
    ensures |set x | x in s| == |s| <==> NoRepeats(s)
    decreases |s|
  {
    if s != [] {
      var n := |s| - 1;
      var t := s[..n];
      NamesInList(t);
      assert s == t + [s[n]];
      assert (set x | x in s) == (set x | x in t) + {s[n]};
      if NoRepeats(s) {
        assert forall i :: 0 <= i < n ==> s[i] != s[n];
        assert s[n] !in t;
      }
    }
  }

  lemma NamesOfParts(a: seq<LogicalId>, b: seq<LogicalId>)
    ensures NamesOf(a + b) == NamesOf(a) + NamesOf(b)
  {
  }

  lemma NamesOfSome(b: bool, id: LogicalId)
    ensures NamesOf(if b then [id] else []) == if b then [Name(id)] else []
  {
  }

  // ---------------------------------------------------------------- how often each name is listed

  /** How often the first `n` entries list the operation. */
  function Times(ops: Log, op: WootOperation, n: nat): nat
    requires n <= |ops|
  {
    if n == 0 then 0 else Times(ops, op, n - 1) + (if ops[n - 1] == op then 1 else 0)
  }

  lemma {:induction false} TimesCounts(ops: Log, op: WootOperation, n: nat)
    requires n <= |ops|
    ensures Times(ops, op, n) == multiset(ops[..n])[op]
  {
    if n > 0 {
      TimesCounts(ops, op, n - 1);
      assert ops[..n] == ops[..n - 1] + [ops[n - 1]];
    }
  }

  lemma AllTimes(ops: Log, op: WootOperation)
    ensures Times(ops, op, |ops|) == multiset(ops)[op]
    ensures op in ops <==> Times(ops, op, |ops|) > 0
  {
    TimesCounts(ops, op, |ops|);
    assert ops[..|ops|] == ops;
  }

  /** The list holds names of logged operations only. */
  ghost predicate LogNames(ops: Log, names: seq<string>) {
    forall x :: x in names ==> x in NameSet(Elements(ops))
  }

  lemma LoggedName(ops: Log, i: nat)
    requires i < |ops|
    ensures ops[i] in Elements(ops) && Name(ops[i].id) in NameSet(Elements(ops))
  {
    assert ops[i] in Elements(ops);
  }

  /** In one row a direct cause is noted as often as the log lists it. */
  lemma {:induction false} ParentsUpCount(ops: Log, b: WootOperation, n: nat, a: WootOperation)
    requires DagLog(ops) && b in ops && a in ops && n <= |ops|
    ensures multiset(NamesOf(ParentsUp(ops, b, n)))[Name(a.id)] ==
            if Direct(Elements(ops), a, b) then Times(ops, a, n) else 0
    ensures LogNames(ops, NamesOf(ParentsUp(ops, b, n)))
  {
    hide Direct, Name, NamesOf, NameSet, DagLog, Elements;
    if n > 0 {
      var direct := Direct(Elements(ops), ops[n - 1], b);
      ParentsUpCount(ops, b, n - 1, a);
      LoggedName(ops, n - 1);
      ApartInLog(ops, a, ops[n - 1]);
      NamesOfParts(ParentsUp(ops, b, n - 1), if direct then [ops[n - 1].id] else []);
      NamesOfSome(direct, ops[n - 1].id);
    } else {
      assert NamesOf([]) == [] by { NamesOfSome(false, b.id); }
    }
  }

  /** Over all rows it is noted once for each pair of listings. */
  lemma {:induction false} ParentRowsCount(ops: Log, b: WootOperation, j: nat, a: WootOperation)
    requires DagLog(ops) && b in ops && a in ops && j <= |ops|
    ensures multiset(NamesOf(ParentRows(ops, b, j)))[Name(a.id)] ==
            if Direct(Elements(ops), a, b) then Times(ops, b, j) * Times(ops, a, |ops|) else 0
    ensures LogNames(ops, NamesOf(ParentRows(ops, b, j)))
  {
    hide Direct, Name, NamesOf, NameSet, DagLog, ParentsUp;
    assert NamesOf([]) == [] by { NamesOfSome(false, b.id); }
    if j > 0 {
      ParentRowsCount(ops, b, j - 1, a);
      if ops[j - 1] == b {
        ParentsUpCount(ops, b, |ops|, a);
        NamesOfParts(ParentRows(ops, b, j - 1), ParentsUp(ops, b, |ops|));
        OneMoreTime(Times(ops, b, j - 1), Times(ops, a, |ops|));
      } else {
        assert ParentRows(ops, b, j) == ParentRows(ops, b, j - 1);
      }
    }
  }

  lemma OneMoreTime(m: nat, n: nat)
    ensures (m + 1) * n == m * n + n
  {
  }

  /** In one row the effect is noted as often as the log lists its cause. */
  lemma {:induction false} ChildrenUpCount(ops: Log, a: WootOperation, j: nat, i: nat, b: WootOperation)
    requires DagLog(ops) && a in ops && b in ops && j < |ops| && i <= |ops|
    ensures multiset(NamesOf(ChildrenUp(ops, a, j, i)))[Name(b.id)] ==
            if Direct(Elements(ops), a, b) && ops[j] == b then Times(ops, a, i) else 0
    ensures LogNames(ops, NamesOf(ChildrenUp(ops, a, j, i)))
  {
    hide Direct, Name, NamesOf, NameSet, DagNodes;
    if i > 0 {
      var direct := ops[i - 1] == a && Direct(Elements(ops), a, ops[j]);
      ChildrenUpCount(ops, a, j, i - 1, b);
      LoggedName(ops, j);
      ApartInLog(ops, b, ops[j]);
      NamesOfParts(ChildrenUp(ops, a, j, i - 1), if direct then [ops[j].id] else []);
      NamesOfSome(direct, ops[j].id);
    } else {
      assert NamesOf([]) == [] by { NamesOfSome(false, b.id); }
    }
  }

  lemma {:induction false} ChildRowsCount(ops: Log, a: WootOperation, j: nat, b: WootOperation)
    requires DagLog(ops) && a in ops && b in ops && j <= |ops|
    ensures multiset(NamesOf(ChildRows(ops, a, j)))[Name(b.id)] ==
            if Direct(Elements(ops), a, b) then Times(ops, b, j) * Times(ops, a, |ops|) else 0
    ensures LogNames(ops, NamesOf(ChildRows(ops, a, j)))
  {
    hide Direct, Name, NamesOf, NameSet, DagLog, ChildrenUp;
    if j > 0 {
      ChildRowsCount(ops, a, j - 1, b);
      ChildrenUpCount(ops, a, j - 1, |ops|, b);
      NamesOfParts(ChildRows(ops, a, j - 1), ChildrenUp(ops, a, j - 1, |ops|));
      OneMoreTime(Times(ops, b, j - 1), Times(ops, a, |ops|));
    } else {
      assert NamesOf([]) == [] by { NamesOfSome(false, b.id); }
    }
  }

  // ---------------------------------------------------------------- layers

  /** The wanted names, each once, in log order. */
  ghost function PickNames(ops: Log, wanted: set<string>, n: nat): seq<string>
    requires n <= |ops|
  {
    if n == 0 then []
    else
      var before, x := PickNames(ops, wanted, n - 1), Name(ops[n - 1].id);
      if x in wanted && x !in before then before + [x] else before
  }

  /** The wanted names of a log, sorted. */
  ghost function ListOf(ops: Log, wanted: set<string>): seq<string> {
    SortNames(PickNames(ops, wanted, |ops|))
  }

  lemma {:induction false} PickNamesMeaning(ops: Log, wanted: set<string>, n: nat)
    requires n <= |ops|
    ensures NoRepeats(PickNames(ops, wanted, n))
    ensures forall x :: x in PickNames(ops, wanted, n) <==> x in wanted && x in NameSet(Elements(ops[..n]))
  {
    hide Name;
    if n > 0 {
      PickNamesMeaning(ops, wanted, n - 1);
      assert ops[..n] == ops[..n - 1] + [ops[n - 1]];
      assert Elements(ops[..n]) == Elements(ops[..n - 1]) + {ops[n - 1]};
      assert NameSet(Elements(ops[..n])) == NameSet(Elements(ops[..n - 1])) + {Name(ops[n - 1].id)};
    }
  }

  lemma ListOfMeaning(ops: Log, wanted: set<string>)
    ensures NoRepeats(ListOf(ops, wanted))
    ensures forall x :: x in ListOf(ops, wanted) <==> x in wanted && x in NameSet(Elements(ops))
  {
    hide Name, NameSet;
    PickNamesMeaning(ops, wanted, |ops|);
    SortKeepsNames(PickNames(ops, wanted, |ops|));
    assert ops[..|ops|] == ops;
  }

  /** Any repeat-free list of the wanted names sorts to this one. */
  lemma SortsToListOf(ops: Log, wanted: set<string>, names: seq<string>)
    requires NoRepeats(names) && forall x :: x in names <==> x in wanted && x in NameSet(Elements(ops))
    ensures SortNames(names) == ListOf(ops, wanted)
  {
    PickNamesMeaning(ops, wanted, |ops|);
    assert ops[..|ops|] == ops;
    SameNamesSortAlike(names, PickNames(ops, wanted, |ops|));
  }

  ghost function LevelSet(u: Ops, k: nat): set<string> {
    set op | op in u && Level(u, op) == k :: Name(op.id)
  }

  /** The names on level `k`, sorted. */
  ghost function LayerNames(ops: Log, k: nat): seq<string> {
    ListOf(ops, LevelSet(Elements(ops), k))
  }

  /** The names on a level, as a list and as a set of operations. */
  lemma LayerMeaning(ops: Log, k: nat)
    requires DagLog(ops)
    ensures NoRepeats(LayerNames(ops, k))
    ensures forall op {:trigger Name(op.id)} :: op in ops ==>
              (Name(op.id) in LayerNames(ops, k) <==> Level(Elements(ops), op) == k)
    ensures forall x :: x in LayerNames(ops, k) ==> x in NameSet(Elements(ops))
  {
    hide Level, Name, DagNodes;
    var u := Elements(ops);
    ListOfMeaning(ops, LevelSet(u, k));
    forall op | op in ops ensures Name(op.id) in LayerNames(ops, k) <==> Level(u, op) == k {
      assert op in u;
      forall o | o in u && Name(o.id) == Name(op.id) ensures o == op {
        DistinctNames(u, o, op);
      }
    }
  }

  /** The layers do not depend on the order of the log, nor on how often it lists an operation. */
  lemma LayersIgnoreLogOrder(ops: Log, other: Log, k: nat)
    requires Elements(other) == Elements(ops)
    ensures LayerNames(other, k) == LayerNames(ops, k)
  {
    var wanted := LevelSet(Elements(ops), k);
    PickNamesMeaning(ops, wanted, |ops|);
    assert ops[..|ops|] == ops;
    SortsToListOf(other, wanted, PickNames(ops, wanted, |ops|));
  }

  // ---------------------------------------------------------------- the count of unprocessed parents

  /** The direct causes of `b` whose names are not in `done`. */
  ghost function Waiting(u: Ops, b: WootOperation, done: set<string>): Ops {
    set a | a in u && Direct(u, a, b) && Name(a.id) !in done
  }

  /** The names below level `k`. */
  ghost function Done(u: Ops, k: nat): set<string> {
    set op | op in u && Level(u, op) < k :: Name(op.id)
  }

  /** Processing a direct cause of `b` takes one off its count. */
  lemma WaitingShrinks(u: Ops, a: WootOperation, b: WootOperation, done: set<string>)
    requires DagNodes(u) && a in u && b in u && Direct(u, a, b) && Name(a.id) !in done
    ensures |Waiting(u, b, done + {Name(a.id)})| == |Waiting(u, b, done)| - 1
  {
    hide Direct, Name, DagNodes;
    forall x | x in u && Name(x.id) == Name(a.id) ensures x == a {
      DistinctNames(u, x, a);
    }
    assert Waiting(u, b, done + {Name(a.id)}) == Waiting(u, b, done) - {a};
  }

  /** Processing anything else leaves the count of `b` alone. */
  lemma WaitingStays(u: Ops, a: WootOperation, b: WootOperation, done: set<string>)
    requires DagNodes(u) && a in u && b in u && !Direct(u, a, b)
    ensures Waiting(u, b, done + {Name(a.id)}) == Waiting(u, b, done)
  {
    hide Direct, Name, DagNodes;
    forall x | x in u && Name(x.id) == Name(a.id) ensures x == a {
      DistinctNames(u, x, a);
    }
  }

  /** With everything below level `k` done, `b` waits for nothing exactly when it is on level `k` or below. */
  lemma WaitingBelow(u: Ops, b: WootOperation, k: nat)
    requires DagNodes(u) && b in u
    ensures Waiting(u, b, Done(u, k)) == {} <==> Level(u, b) <= k
    ensures Name(b.id) in Done(u, k) <==> Level(u, b) < k
  {
    hide Level, Name, DagNodes, Direct;
    forall a | a in u ensures Name(a.id) in Done(u, k) <==> Level(u, a) < k {
      forall x | x in u && Name(x.id) == Name(a.id) ensures x == a {
        DistinctNames(u, x, a);
      }
    }
    forall a | a in u && Direct(u, a, b) ensures Level(u, a) < Level(u, b) {
      DirectIsEarlier(u, a, b);
      CausesAreLower(u, a, b);
    }
    if Level(u, b) > k {
      var a := SomeParentIsNext(u, b);
      assert a in u by { DirectIsEarlier(u, a, b); }
      assert a in Waiting(u, b, Done(u, k));
    }
  }

  /** When level `k` has been processed, the nodes that became ready are those of level `k + 1`. */
  lemma ReadyIsNextLevel(u: Ops, b: WootOperation, k: nat)
    requires DagNodes(u) && b in u
    ensures Waiting(u, b, Done(u, k + 1)) == {} && Waiting(u, b, Done(u, k)) != {} <==> Level(u, b) == k + 1
  {
    hide Level, Done, Waiting, DagNodes;
    WaitingBelow(u, b, k);
    WaitingBelow(u, b, k + 1);
  }

  lemma DirectIsEarlier(u: Ops, a: WootOperation, b: WootOperation)
    requires Direct(u, a, b)
    ensures a in u && b in u && Earlier(a, b)
  {
  }

  // ---------------------------------------------------------------- counting too many parents

  /** How many of the listed parents of `b` are listed again. */
  ghost function Surplus(ops: Log, b: WootOperation): int {
    |ParentRows(ops, b, |ops|)| - |Waiting(Elements(ops), b, {})|
  }

  /** A repeated operation has a direct cause or effect. */
  ghost predicate RepeatsNeighbour(ops: Log) {
    exists a, b {:trigger Direct(Elements(ops), a, b)} ::
      Direct(Elements(ops), a, b) && !ListedOnce(ops, a, b)
  }

  ghost predicate ListedOnce(ops: Log, a: WootOperation, b: WootOperation) {
    Times(ops, a, |ops|) == 1 && Times(ops, b, |ops|) == 1
  }

  lemma NamesAreAsMany(u: Ops, w: Ops)
    requires DagNodes(u) && w <= u
    ensures |NameSet(w)| == |w|
    decreases w
  {
    hide Name, DagNodes;
    if w != {} {
      var a :| a in w;
      NamesAreAsMany(u, w - {a});
      forall x | x in w && Name(x.id) == Name(a.id) ensures x == a {
        DistinctNames(u, x, a);
      }
      assert NameSet(w) == NameSet(w - {a}) + {Name(a.id)};
      assert Name(a.id) !in NameSet(w - {a});
    } else {
      assert NameSet(w) == {};
    }
  }

  /** The listed parents of `b`, as a set, are its direct causes. */
  lemma ListedParents(ops: Log, b: WootOperation)
    requires DagLog(ops) && b in ops
    ensures (set x | x in NamesOf(ParentRows(ops, b, |ops|))) == NameSet(Waiting(Elements(ops), b, {}))
    ensures forall a :: a in ops ==>
              (Name(a.id) in NamesOf(ParentRows(ops, b, |ops|)) <==> Direct(Elements(ops), a, b))
  {
    hide Name, Direct, DagNodes, NamesOf, ParentRows, Times;
    var u, names := Elements(ops), NamesOf(ParentRows(ops, b, |ops|));
    assert b in u;
    AllTimes(ops, b);
    forall a | a in ops ensures Name(a.id) in names <==> Direct(u, a, b) {
      AllTimes(ops, a);
      ParentRowsCount(ops, b, |ops|, a);
      PositiveProduct(Times(ops, b, |ops|), Times(ops, a, |ops|));
      assert Name(a.id) in names <==> multiset(names)[Name(a.id)] > 0;
    }
    ParentRowsCount(ops, b, |ops|, b);
    forall x ensures x in names <==> x in NameSet(Waiting(u, b, {})) {
      if x in names {
        var a :| a in u && Name(a.id) == x;
        assert a in Waiting(u, b, {});
      }
    }
  }

  lemma PositiveProduct(m: nat, n: nat)
    requires m > 0 && n > 0
    ensures m * n > 0 && (m * n == 1 <==> m == 1 && n == 1)
  {
    if m > 1 {
      assert m * n == (m - 1) * n + n;
      assert (m - 1) * n >= 1;
    }
  }

  /** Too many parents are counted exactly when the operation or one of its direct causes is repeated. */
  lemma SurplusMeaning(ops: Log, b: WootOperation)
    requires DagLog(ops) && b in ops
    ensures Surplus(ops, b) >= 0
    ensures Surplus(ops, b) == 0 <==> forall a :: Direct(Elements(ops), a, b) ==> ListedOnce(ops, a, b)
    ensures Surplus(ops, b) == 0 <==> NoRepeats(NamesOf(ParentRows(ops, b, |ops|)))
  {
    hide Name, Direct, DagNodes, ParentRows, Times;
    var u, names := Elements(ops), NamesOf(ParentRows(ops, b, |ops|));
    ListedParents(ops, b);
    NamesInList(names);
    NamesAreAsMany(u, Waiting(u, b, {}));
    AllTimes(ops, b);
    forall a | Direct(u, a, b) ensures a in ops && (multiset(names)[Name(a.id)] <= 1 <==> ListedOnce(ops, a, b)) {
      DirectIsEarlier(u, a, b);
      AllTimes(ops, a);
      ParentRowsCount(ops, b, |ops|, a);
      PositiveProduct(Times(ops, b, |ops|), Times(ops, a, |ops|));
    }
    if NoRepeats(names) {
      forall a | Direct(u, a, b) ensures ListedOnce(ops, a, b) {
        NoRepeatsCounts(names, Name(a.id));
      }
    }
    if forall a :: Direct(u, a, b) ==> ListedOnce(ops, a, b) {
      forall x ensures multiset(names)[x] <= 1 {
        if x in names {
          assert x in NameSet(Waiting(u, b, {}));
          var a :| a in Waiting(u, b, {}) && Name(a.id) == x;
          assert Direct(u, a, b);
        }
      }
      CountsForbidRepeats(names);
    }
  }
}
