/** The operation log: a slice kept by binary search (cvrdt/state.go). */
module OperationLog {
  import opened Operations

  type Log = seq<WootOperation>
  type Ops = set<WootOperation>

  // ---------------------------------------------------------------- the operations

  /** Where the binary search ends when `left` and `right` remain, and whether it found `id`. */
  function Search(w: Log, id: LogicalId, left: nat, right: nat): (r: (nat, bool))
    requires left <= right <= |w|
    ensures left <= r.0 <= right
    ensures r.1 ==> r.0 < |w|
    decreases right - left
  {
    if left == right then (left, false)
    else
      var mid := left + (right - left) / 2;
      var cmp := Compare(w[mid].id, id);
      if cmp == 0 then (mid, true)
      else if cmp < 0 then Search(w, id, mid + 1, right)
      else Search(w, id, left, mid)
  }

  predicate ContainsOp(w: Log, id: LogicalId) {
    Search(w, id, 0, |w|).1
  }

  function InsertOp(w: Log, op: WootOperation): Log {
    var (idx, found) := Search(w, op.id, 0, |w|);
    if found then w else w[..idx] + [op] + w[idx..]
  }

  function Merge(w: Log, state: Log): Log
    decreases |state|
  {
    if state == [] then w
    else Merge(if ContainsOp(w, state[0].id) then w else InsertOp(w, state[0]), state[1..])
  }

  function FromOps(ops: Log): Log {
    if ops == [] then [] else InsertOp(FromOps(ops[..|ops| - 1]), ops[|ops| - 1])
  }

  method BinarySearch(w: Log, id: LogicalId) returns (idx: nat, found: bool)
    ensures (idx, found) == Search(w, id, 0, |w|)
  {
    var left, right := 0, |w|;
    while left < right
      invariant 0 <= left <= right <= |w|
      invariant Search(w, id, left, right) == Search(w, id, 0, |w|)
    {
      var mid := left + (right - left) / 2;
      var cmp := Compare(w[mid].id, id);
      if cmp == 0 {
        return mid, true;
      } else if cmp < 0 {
        left := mid + 1;
      } else {
        right := mid;
      }
    }
    return left, false;
  }

  method Insert(w: Log, op: WootOperation) returns (r: Log)
    ensures r == InsertOp(w, op)
  {
    var idx, found := BinarySearch(w, op.id);
    if found {
      return w;
    }
    r := w[..idx] + [op] + w[idx..];
  }

  method GetNewStateFromOp(ops: Log) returns (r: Log)
    ensures r == FromOps(ops)
  {
    r := [];
    for i := 0 to |ops|
      invariant r == FromOps(ops[..i])
    {
      assert ops[..i + 1][..i] == ops[..i];
      r := Insert(r, ops[i]);
    }
    assert ops[..|ops|] == ops;
  }

  method MergeLogs(w: Log, state: Log) returns (r: Log)
    ensures r == Merge(w, state)
  {
    r := w;
    for i := 0 to |state|
      invariant Merge(r, state[i..]) == Merge(w, state)
    {
      var _, found := BinarySearch(r, state[i].id);
      assert state[i..][0] == state[i] && state[i..][1..] == state[i + 1..];
      if !found {
        r := Insert(r, state[i]);
      }
    }
  }

  // ---------------------------------------------------------------- logs of one system

  ghost function IdsOf(ops: Ops): set<LogicalId> {
    set op | op in ops :: op.id
  }

  ghost function Elements(w: Log): Ops {
    set op | op in w
  }

  /** Operations issued in one system: coherent identifiers, each naming one operation. */
  ghost predicate CoherentOps(ops: Ops) {
    && Coherent(IdsOf(ops))
    && forall a, b {:trigger SameIdSameOp(a, b)} :: a in ops && b in ops ==> SameIdSameOp(a, b)
  }

  predicate SameIdSameOp(a: WootOperation, b: WootOperation) {
    a.id == b.id ==> a == b
  }

  ghost predicate LinearOps(ops: Ops) {
    CoherentOps(ops) && Linear(IdsOf(ops))
  }

  predicate Ordered(a: WootOperation, b: WootOperation) {
    Compare(a.id, b.id) < 0
  }

  predicate SortedLog(w: Log) {
    forall i, j :: 0 <= i < j < |w| ==> Ordered(w[i], w[j])
  }

  lemma OrderedLaws(ops: Ops, a: WootOperation, b: WootOperation, c: WootOperation)
    requires CoherentOps(ops) && a in ops && b in ops && c in ops
    ensures !Ordered(a, a) && !(Ordered(a, b) && Ordered(b, a))
    ensures a == b || Ordered(a, b) || Ordered(b, a)
    ensures Compare(a.id, b.id) == 0 <==> a == b
    ensures Compare(a.id, b.id) > 0 <==> Ordered(b, a)
    ensures HappenedBefore(a.id, b.id) ==> Ordered(a, b)
    ensures Linear(IdsOf(ops)) && Ordered(a, b) && Ordered(b, c) ==> Ordered(a, c)
  {
    assert SameIdSameOp(a, b);
    CompareTotal(IdsOf(ops), a.id, b.id);
    CompareTotal(IdsOf(ops), a.id, a.id);
    assert Linear(IdsOf(ops)) ==> TransitiveAt(a.id, b.id, c.id);
  }

  lemma AllBelow(ops: Ops, w: Log, op: WootOperation, mid: nat)
    requires LinearOps(ops) && Elements(w) <= ops && op in ops && SortedLog(w)
    requires mid < |w| && Ordered(w[mid], op)
    ensures forall i :: 0 <= i <= mid ==> Ordered(w[i], op)
  {
    forall i | 0 <= i <= mid ensures Ordered(w[i], op) {
      assert w[i] in Elements(w) && w[mid] in Elements(w);
      OrderedLaws(ops, w[i], w[mid], op);
    }
  }

  lemma AllAbove(ops: Ops, w: Log, op: WootOperation, mid: nat)
    requires LinearOps(ops) && Elements(w) <= ops && op in ops && SortedLog(w)
    requires mid < |w| && Ordered(op, w[mid])
    ensures forall i :: mid <= i < |w| ==> Ordered(op, w[i])
  {
    forall i | mid <= i < |w| ensures Ordered(op, w[i]) {
      assert w[i] in Elements(w) && w[mid] in Elements(w);
      OrderedLaws(ops, op, w[mid], w[i]);
    }
  }

  /** In a sorted log the search finds the operation, or else the place to insert it. */
  lemma {:induction false} SearchSorted(ops: Ops, w: Log, op: WootOperation, left: nat, right: nat)
    requires LinearOps(ops) && Elements(w) <= ops && op in ops && SortedLog(w)
    requires left <= right <= |w|
    requires forall i :: 0 <= i < left ==> Ordered(w[i], op)
    requires forall i :: right <= i < |w| ==> Ordered(op, w[i])
    ensures var r := Search(w, op.id, left, right);
            if r.1 then w[r.0] == op
            else (forall i :: 0 <= i < r.0 ==> Ordered(w[i], op)) &&
                 (forall i :: r.0 <= i < |w| ==> Ordered(op, w[i]))
    decreases right - left
  {
    hide Compare, CoherentOps, Linear, SortedLog;
    if left < right {
      var mid := left + (right - left) / 2;
      assert w[mid] in Elements(w);
      OrderedLaws(ops, w[mid], op, op);
      if Ordered(w[mid], op) {
        AllBelow(ops, w, op, mid);
        SearchSorted(ops, w, op, mid + 1, right);
      } else if w[mid] != op {
        AllAbove(ops, w, op, mid);
        SearchSorted(ops, w, op, left, mid);
      }
    }
  }

  /** Binary search decides membership of a sorted log. */
  lemma SearchDecides(ops: Ops, w: Log, op: WootOperation)
    requires LinearOps(ops) && Elements(w) <= ops && op in ops && SortedLog(w)
    ensures ContainsOp(w, op.id) <==> op in w
  {
    SearchSorted(ops, w, op, 0, |w|);
    OrderedLaws(ops, op, op, op);
  }

  lemma SortedInsertion(w: Log, op: WootOperation, idx: nat)
    requires SortedLog(w) && idx <= |w|
    requires forall i :: 0 <= i < idx ==> Ordered(w[i], op)
    requires forall i :: idx <= i < |w| ==> Ordered(op, w[i])
    ensures SortedLog(w[..idx] + [op] + w[idx..])
    ensures Elements(w[..idx] + [op] + w[idx..]) == Elements(w) + {op}
  {
    var t := w[..idx] + [op] + w[idx..];
    forall i, j | 0 <= i < j < |t| ensures Ordered(t[i], t[j]) {
      assert i < idx ==> t[i] == w[i];
      assert i > idx ==> t[i] == w[i - 1];
      assert j < idx ==> t[j] == w[j];
      assert j > idx ==> t[j] == w[j - 1];
    }
    assert w == w[..idx] + w[idx..];
  }

  /** Inserting keeps the log sorted and adds exactly the operation. */
  lemma InsertSorted(ops: Ops, w: Log, op: WootOperation)
    requires LinearOps(ops) && Elements(w) <= ops && op in ops && SortedLog(w)
    ensures SortedLog(InsertOp(w, op))
    ensures Elements(InsertOp(w, op)) == Elements(w) + {op}
    ensures ContainsOp(w, op.id) <==> op in w
  {
    SearchSorted(ops, w, op, 0, |w|);
    SearchDecides(ops, w, op);
    var r := Search(w, op.id, 0, |w|);
    if !r.1 {
      SortedInsertion(w, op, r.0);
    }
  }

  /** Merging a list of operations in any order is set union, sorted. */
  lemma {:induction false} MergeSorted(ops: Ops, w: Log, state: Log)
    requires LinearOps(ops) && Elements(w) <= ops && Elements(state) <= ops && SortedLog(w)
    ensures SortedLog(Merge(w, state))
    ensures Elements(Merge(w, state)) == Elements(w) + Elements(state)
    decreases |state|
  {
    if state != [] {
      assert state == [state[0]] + state[1..];
      assert state[0] in Elements(state);
      assert forall op :: op in state[1..] ==> op in Elements(state);
      InsertSorted(ops, w, state[0]);
      MergeSorted(ops, if ContainsOp(w, state[0].id) then w else InsertOp(w, state[0]), state[1..]);
    }
  }

  lemma {:induction false} FromOpsSorted(ops: Ops, list: Log)
    requires LinearOps(ops) && Elements(list) <= ops
    ensures SortedLog(FromOps(list)) && Elements(FromOps(list)) == Elements(list)
    decreases |list|
  {
    if list != [] {
      var n := |list| - 1;
      assert list == list[..n] + [list[n]];
      assert list[n] in Elements(list);
      assert forall op :: op in list[..n] ==> op in Elements(list);
      FromOpsSorted(ops, list[..n]);
      InsertSorted(ops, FromOps(list[..n]), list[n]);
    }
  }

  lemma HeadIsLeast(w: Log, op: WootOperation)
    requires SortedLog(w) && op in w
    ensures w[0] == op || Ordered(w[0], op)
  {
  }

  lemma EmptyHasNoElements(w: Log)
    ensures w == [] <==> Elements(w) == {}
  {
    if w != [] {
      assert w[0] in Elements(w);
    }
  }

  /** A sorted log is determined by its operations. */
  lemma {:induction false} SortedUnique(ops: Ops, v: Log, w: Log)
    requires CoherentOps(ops) && Elements(v) <= ops
    requires SortedLog(v) && SortedLog(w) && Elements(v) == Elements(w)
    ensures v == w
    decreases |v|
  {
    EmptyHasNoElements(v);
    EmptyHasNoElements(w);
    if v != [] {
      assert v[0] in Elements(v) && w[0] in Elements(w);
      HeadIsLeast(v, w[0]);
      HeadIsLeast(w, v[0]);
      OrderedLaws(ops, v[0], w[0], v[0]);
      TailElements(ops, v);
      TailElements(ops, w);
      SortedUnique(ops, v[1..], w[1..]);
      assert v == [v[0]] + v[1..] && w == [w[0]] + w[1..];
    }
  }

  lemma OrderedIsEarlier(ops: Ops, w: Log, i: nat, j: nat)
    requires CoherentOps(ops) && Elements(w) <= ops && SortedLog(w)
    requires i < |w| && j < |w| && Ordered(w[j], w[i])
    ensures j < i
  {
    assert w[i] in Elements(w) && w[j] in Elements(w);
    assert i < j ==> Ordered(w[i], w[j]);
    OrderedLaws(ops, w[i], w[j], w[i]);
  }

  lemma SortedHasNoRepeat(ops: Ops, w: Log, i: nat)
    requires CoherentOps(ops) && Elements(w) <= ops && SortedLog(w) && i < |w|
    ensures w[i] !in w[..i]
  {
    assert w[i] in Elements(w);
    forall j | 0 <= j < i ensures w[..i][j] != w[i] {
      assert Ordered(w[j], w[i]);
      OrderedLaws(ops, w[i], w[i], w[i]);
    }
  }

  lemma {:induction false} SearchFindsSame(w: Log, id: LogicalId, left: nat, right: nat)
    requires left <= right <= |w|
    ensures var r := Search(w, id, left, right); r.1 ==> SameOperation(w[r.0].id, id)
    decreases right - left
  {
    if left < right {
      var mid := left + (right - left) / 2;
      SearchFindsSame(w, id, mid + 1, right);
      SearchFindsSame(w, id, left, mid);
    }
  }

  lemma TailElements(ops: Ops, w: Log)
    requires CoherentOps(ops) && Elements(w) <= ops && SortedLog(w) && w != []
    ensures SortedLog(w[1..]) && Elements(w[1..]) == Elements(w) - {w[0]}
  {
    assert w == [w[0]] + w[1..];
    assert w[0] in Elements(w);
    forall i, j | 0 <= i < j < |w[1..]| ensures Ordered(w[1..][i], w[1..][j]) {
      assert Ordered(w[i + 1], w[j + 1]);
    }
    if w[0] in w[1..] {
      var i :| 0 <= i < |w[1..]| && w[1..][i] == w[0];
      assert Ordered(w[0], w[i + 1]);
      OrderedLaws(ops, w[0], w[0], w[0]);
      assert false;
    }
  }

  /** Any sorted list of the union is the merge. */
  lemma MergeIs(ops: Ops, a: Log, b: Log, r: Log)
    requires LinearOps(ops) && SortedLog(a) && Elements(a) <= ops && Elements(b) <= ops
    requires SortedLog(r) && Elements(r) == Elements(a) + Elements(b)
    ensures Merge(a, b) == r
  {
    MergeSorted(ops, a, b);
    SortedUnique(ops, Merge(a, b), r);
  }

  /** `Merge` is a join on sorted logs: commutative, associative and idempotent, as lists. */
  lemma MergeIsJoin(ops: Ops, a: Log, b: Log, c: Log)
    requires LinearOps(ops)
    requires SortedLog(a) && SortedLog(b) && SortedLog(c)
    requires Elements(a) <= ops && Elements(b) <= ops && Elements(c) <= ops
    ensures Merge(a, b) == Merge(b, a)
    ensures Merge(Merge(a, b), c) == Merge(a, Merge(b, c))
    ensures Merge(Merge(a, b), b) == Merge(a, b)
    ensures Elements(b) <= Elements(a) <==> Merge(a, b) == a
  {
    MergeSorted(ops, a, b);
    MergeSorted(ops, b, c);
    MergeSorted(ops, a, Merge(b, c));
    MergeIs(ops, b, a, Merge(a, b));
    MergeIs(ops, Merge(a, b), c, Merge(a, Merge(b, c)));
    MergeIs(ops, Merge(a, b), b, Merge(a, b));
    if Elements(b) <= Elements(a) {
      MergeIs(ops, a, b, a);
    }
  }

  // ---------------------------------------------------------------- logs in any order

  lemma PartIsCoherent(ops: Ops, part: Ops)
    requires CoherentOps(ops) && part <= ops
    ensures CoherentOps(part) && IdsOf(part) <= IdsOf(ops)
  {
    assert IdsOf(part) <= IdsOf(ops);
  }

  lemma PartHasNoInversion(ops: Ops, part: Ops)
    requires NoInversion(IdsOf(ops)) && part <= ops
    ensures NoInversion(IdsOf(part))
  {
    assert IdsOf(part) <= IdsOf(ops);
  }

  /** What the search finds is there, sorted log or not. */
  lemma FoundIsThere(ops: Ops, w: Log, op: WootOperation)
    requires CoherentOps(ops) && Elements(w) <= ops && op in ops
    ensures ContainsOp(w, op.id) ==> op in w
  {
    if ContainsOp(w, op.id) {
      SearchFindsSame(w, op.id, 0, |w|);
      var i := Search(w, op.id, 0, |w|).0;
      assert w[i] in Elements(w);
      assert w[i].id in IdsOf(ops) && op.id in IdsOf(ops);
      assert CausalAtSite(w[i].id, op.id) && SameIdSameOp(w[i], op);
    }
  }

  /** Inserting adds exactly the operation to any log; merging adds exactly the other log. */
  lemma InsertAdds(ops: Ops, w: Log, op: WootOperation)
    requires CoherentOps(ops) && Elements(w) <= ops && op in ops
    ensures Elements(InsertOp(w, op)) == Elements(w) + {op}
  {
    FoundIsThere(ops, w, op);
    var idx := Search(w, op.id, 0, |w|).0;
    assert w == w[..idx] + w[idx..];
  }

  lemma {:induction false} MergeAdds(ops: Ops, w: Log, state: Log)
    requires CoherentOps(ops) && Elements(w) <= ops && Elements(state) <= ops
    ensures Elements(Merge(w, state)) == Elements(w) + Elements(state)
    decreases |state|
  {
    hide CoherentOps;
    if state != [] {
      assert state == [state[0]] + state[1..];
      assert state[0] in Elements(state);
      assert Elements(state) == {state[0]} + Elements(state[1..]);
      FoundIsThere(ops, w, state[0]);
      InsertAdds(ops, w, state[0]);
      MergeAdds(ops, if ContainsOp(w, state[0].id) then w else InsertOp(w, state[0]), state[1..]);
    }
  }

  /** A sorted log is sorted by an order: no operation of it sits in an inversion. */
  lemma SortedIsLinear(ops: Ops, w: Log)
    requires CoherentOps(ops) && Elements(w) <= ops && SortedLog(w)
    ensures LinearOps(Elements(w)) && NoInversion(IdsOf(Elements(w)))
  {
    PartIsCoherent(ops, Elements(w));
    forall x, y, z | x in IdsOf(Elements(w)) && y in IdsOf(Elements(w)) && z in IdsOf(Elements(w))
      ensures TransitiveAt(x, y, z)
    {
      var a :| a in Elements(w) && a.id == x;
      var b :| b in Elements(w) && b.id == y;
      var c :| c in Elements(w) && c.id == z;
      SortedTriple(ops, w, a, b, c);
    }
    LinearExactlyWithoutInversion(IdsOf(Elements(w)));
  }

  lemma SortedTriple(ops: Ops, w: Log, a: WootOperation, b: WootOperation, c: WootOperation)
    requires CoherentOps(ops) && Elements(w) <= ops && SortedLog(w) && a in w && b in w && c in w
    ensures TransitiveAt(a.id, b.id, c.id)
  {
    hide CoherentOps;
    var i :| 0 <= i < |w| && w[i] == a;
    var j :| 0 <= j < |w| && w[j] == b;
    var k :| 0 <= k < |w| && w[k] == c;
    if Ordered(a, b) && Ordered(b, c) {
      OrderedIsEarlier(ops, w, j, i);
      OrderedIsEarlier(ops, w, k, j);
      assert Ordered(w[i], w[k]);
    }
  }

  // ---------------------------------------------------------------- when arrival order matters

  /** The log does not depend on the order in which operations arrive. */
  ghost predicate OrderInsensitive(ops: Ops) {
    forall p: Log, q: Log :: Elements(p) <= ops && Elements(p) == Elements(q) ==> FromOps(p) == FromOps(q)
  }

  /** Three operations in an ascending row, whatever the third makes of the first. */
  lemma AscendingTriple(a: WootOperation, b: WootOperation, c: WootOperation)
    requires Ordered(a, b) && Ordered(b, c)
    ensures FromOps([a, b, c]) == [a, b, c]
  {
    assert [a, b, c][..2] == [a, b] && [a, b][..1] == [a] && [a][..0] == [];
    assert FromOps([a]) == [a];
    assert Search([a], b.id, 0, 1) == Search([a], b.id, 1, 1) == (1, false);
    assert FromOps([a, b]) == [a, b];
    assert Search([a, b], c.id, 0, 2) == Search([a, b], c.id, 2, 2) == (2, false);
  }

  lemma CircleIsOrderSensitive(ops: Ops, a: WootOperation, b: WootOperation, c: WootOperation)
    requires a in ops && b in ops && c in ops && a != b
    requires Ordered(a, b) && Ordered(b, c) && Ordered(c, a)
    ensures !OrderInsensitive(ops)
  {
    var p, q := [a, b, c], [b, c, a];
    AscendingTriple(a, b, c);
    AscendingTriple(b, c, a);
    assert p[0] != q[0];
    assert forall x :: x in Elements(p) ==> x in p;
    assert Elements(p) == {a, b, c} == Elements(q);
  }

  /** The log is independent of arrival order exactly when no operation sits in an inversion. */
  lemma OrderInsensitiveExactlyWithoutInversion(ops: Ops)
    requires CoherentOps(ops)
    ensures OrderInsensitive(ops) <==> NoInversion(IdsOf(ops))
  {
    LinearExactlyWithoutInversion(IdsOf(ops));
    if NoInversion(IdsOf(ops)) {
      forall p: Log, q: Log | Elements(p) <= ops && Elements(p) == Elements(q) ensures FromOps(p) == FromOps(q) {
        FromOpsSorted(ops, p);
        FromOpsSorted(ops, q);
        SortedUnique(ops, FromOps(p), FromOps(q));
      }
    } else {
      var x, y, z :| x in IdsOf(ops) && y in IdsOf(ops) && z in IdsOf(ops) && Inversion(x, y, z);
      var a :| a in ops && a.id == x;
      var b :| b in ops && b.id == y;
      var c :| c in ops && c.id == z;
      CompareTotal(IdsOf(ops), x, y);
      CompareTotal(IdsOf(ops), y, z);
      CompareTotal(IdsOf(ops), z, x);
      InversionSites(x, y, z);
      CircleIsOrderSensitive(ops, a, b, c);
    }
  }

  /** An operation causally after the whole log lands last, sorted or not. */
  lemma LandsLast(w: Log, op: WootOperation)
    requires forall i :: 0 <= i < |w| ==> Ordered(w[i], op)
    ensures !ContainsOp(w, op.id) && InsertOp(w, op) == w + [op]
  {
    SearchPast(w, op, 0);
  }

  lemma {:induction false} SearchPast(w: Log, op: WootOperation, left: nat)
    requires left <= |w| && forall i :: 0 <= i < |w| ==> Ordered(w[i], op)
    ensures Search(w, op.id, left, |w|) == (|w|, false)
    decreases |w| - left
  {
    if left < |w| {
      var mid := left + (|w| - left) / 2;
      assert Ordered(w[mid], op);
      SearchPast(w, op, mid + 1);
    }
  }
}
