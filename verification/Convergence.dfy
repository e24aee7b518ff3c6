/**
 * Strong convergence of the WOOT text: sites that integrate the same operations, in any two
 * dependency-respecting orders, end with the same text (cvrdt/site.go).
 */
module Convergence {
  import opened Identifiers
  import opened SortKeys
  import opened TextSequence
  import opened Operations
  import opened OperationLog

  // ---------------------------------------------------------------- integrating operations

  /** One operation integrated in a text; `None` when it is not a valid next operation there. */
  function ApplyOp(s: Text, op: WootOperation): Option<Text> {
    match op.opType
    case Insertion => ApplyInsert(s, op.character)
    case Deletion => ApplyDelete(s, op.character.id)
  }

  function Replay(s: Text, ops: Log): Option<Text> {
    if ops == [] then Some(s)
    else
      match Replay(s, ops[..|ops| - 1])
      case None => None
      case Some(t) => ApplyOp(t, ops[|ops| - 1])
  }

  ghost function Inserted(ops: Ops): set<CharId> {
    set op | op in ops && op.opType == Insertion :: op.character.id
  }

  ghost function Removed(ops: Ops): set<CharId> {
    set op | op in ops && op.opType == Deletion :: op.character.id
  }

  /** The characters an operation refers to are limiters or among `ids`. */
  predicate DependsOnly(op: WootOperation, ids: set<CharId>) {
    match op.opType
    case Insertion =>
      && (IsLimiterId(op.character.previousId) || op.character.previousId in ids)
      && (IsLimiterId(op.character.nextId) || op.character.nextId in ids)
    case Deletion => op.character.id in ids
  }

  ghost predicate DependencyRespecting(ops: Log) {
    forall k :: 0 <= k < |ops| ==> DependsAt(ops, k)
  }

  /** The `k`th operation refers only to limiters and to characters inserted before it. */
  ghost predicate DependsAt(ops: Log, k: int)
    requires 0 <= k < |ops|
  {
    DependsOnly(ops[k], Inserted(Elements(ops[..k])))
  }

  predicate NoDuplicates(ops: Log) {
    forall i, j :: 0 <= i < j < |ops| ==> ops[i] != ops[j]
  }

  predicate InsertDifferent(a: WootOperation, b: WootOperation) {
    a.opType == Insertion && b.opType == Insertion ==> a.character.id != b.character.id
  }

  /** No character is inserted by two operations of the list. */
  predicate InsertsOnce(ops: Log) {
    forall i, j {:trigger InsertDifferent(ops[i], ops[j])} :: 0 <= i < j < |ops| ==> InsertDifferent(ops[i], ops[j])
  }

  /** The universe records an insertion exactly as it was made. */
  predicate LawfulOp(u: Universe, op: WootOperation) {
    op.opType == Insertion ==> Lawful(u, op.character) && u[op.character.id].made == op.character
  }

  /** Equal up to the site names carried by the two limiters. */
  predicate SameText(s: Text, t: Text) {
    |s| == |t| >= 2 && s[1..|s| - 1] == t[1..|t| - 1]
  }

  /** A valid operation turns the canonical text of `done` into that of `done` and itself. */
  lemma ApplyKeepsCanonical(u: Universe, s: Text, done: Ops, op: WootOperation)
    requires Canonical(u, s, Inserted(done), Removed(done)) && LawfulOp(u, op)
    requires DependsOnly(op, Inserted(done))
    requires op.opType == Insertion ==> op.character.id !in Inserted(done)
    ensures ApplyOp(s, op).Some?
    ensures Canonical(u, ApplyOp(s, op).value, Inserted(done + {op}), Removed(done + {op}))
  {
    match op.opType
    case Insertion =>
      InsertKeepsCanonical(u, s, Inserted(done), Removed(done), op.character);
      assert Inserted(done + {op}) == Inserted(done) + {op.character.id};
      assert Removed(done + {op}) == Removed(done);
    case Deletion =>
      DeleteKeepsCanonical(u, s, Inserted(done), Removed(done), op.character.id);
      assert Inserted(done + {op}) == Inserted(done);
      assert Removed(done + {op}) == Removed(done) + {op.character.id};
  }

  // ---------------------------------------------------------------- the universe of a history

  /** The universe that records the insertions of a history, in order of birth. */
  ghost function UniverseOf(ops: Log): Universe {
    if ops == [] then map[]
    else
      var u, op := UniverseOf(ops[..|ops| - 1]), ops[|ops| - 1];
      if op.opType == Insertion then Record(u, op.character, |ops| - 1) else u
  }

  ghost function Record(u: Universe, c: WCharacterData, birth: nat): Universe {
    u[c.id := Mark(Psi(KeyAt(u, c.previousId), KeyAt(u, c.nextId), c.id), birth, c)]
  }

  ghost predicate BornBefore(u: Universe, birth: nat) {
    forall id :: id in u ==> u[id].birth < birth
  }

  lemma RecordKeepsLawful(u: Universe, c: WCharacterData, birth: nat, d: WCharacterData)
    requires c.id !in u && Lawful(u, d)
    ensures Lawful(Record(u, c, birth), d) && Record(u, c, birth)[d.id] == u[d.id]
  {
  }

  lemma RecordKeepsWellFormed(u: Universe, c: WCharacterData, birth: nat, s: Text)
    requires c.id !in u && ProperId(c.id) && WellFormed(u, s)
    ensures WellFormed(Record(u, c, birth), s)
  {
    var v := Record(u, c, birth);
    forall i | 0 <= i < |s| ensures KeyAt(v, s[i].id) == KeyAt(u, s[i].id) {
      assert i == 0 || i == |s| - 1 || Inner(s, i);
    }
    forall i, j | 0 <= i < j < |s| ensures KeyBefore(v, s, i, j) {
      assert KeyBefore(u, s, i, j);
    }
    forall i | Inner(s, i)
      ensures Lawful(v, s[i]) && Contains(s, s[i].previousId) && Contains(s, s[i].nextId)
    {
      RecordKeepsLawful(u, c, birth, s[i]);
    }
  }

  lemma RecordKeepsCanonical(u: Universe, c: WCharacterData, birth: nat, s: Text, ids: set<CharId>, hidden: set<CharId>)
    requires c.id !in u && ProperId(c.id) && Canonical(u, s, ids, hidden)
    ensures Canonical(Record(u, c, birth), s, ids, hidden)
  {
    RecordKeepsWellFormed(u, c, birth, s);
    forall i | Inner(s, i)
      ensures s[i].id in ids && s[i].visible == (Record(u, c, birth)[s[i].id].made.visible && s[i].id !in hidden)
    {
      RecordKeepsLawful(u, c, birth, s[i]);
    }
  }

  /** A reference found in the text is known, and its position shows where its key is. */
  lemma ReferenceIsKnown(u: Universe, s: Text, id: CharId, birth: nat)
    requires WellFormed(u, s) && BornBefore(u, birth) && Contains(s, id)
    ensures KnownBefore(u, id, birth)
    ensures KeyAt(u, id) == KeyAt(u, s[PosOf(s, id)].id)
  {
    var p := PosOf(s, id);
    KeyAtEquals(u, s[p].id, id);
    assert p == 0 || p == |s| - 1 || Inner(s, p);
  }

  /** Recording an insertion that a well-formed text accepts makes it lawful. */
  lemma RecordIsLawful(u: Universe, s: Text, c: WCharacterData, birth: nat)
    requires WellFormed(u, s) && BornBefore(u, birth) && c.id !in u && ProperId(c.id)
    requires 0 <= PosOf(s, c.previousId) < PosOf(s, c.nextId)
    ensures Lawful(Record(u, c, birth), c) && BornBefore(Record(u, c, birth), birth + 1)
  {
    ReferenceIsKnown(u, s, c.previousId, birth);
    ReferenceIsKnown(u, s, c.nextId, birth);
    SortedPositions(u, s, PosOf(s, c.previousId), PosOf(s, c.nextId));
  }

  /** Every insertion of the history is lawful in its universe, and recorded once. */
  ghost predicate LawfulHistory(u: Universe, ops: Log) {
    && u.Keys == Inserted(Elements(ops))
    && BornBefore(u, |ops|)
    && (forall op :: op in ops ==> LawfulOp(u, op))
    && InsertsOnce(ops)
  }

  lemma {:induction false} HistoryIsLawful(site: string, ops: Log)
    requires Replay(EmptyText(site), ops).Some?
    ensures LawfulHistory(UniverseOf(ops), ops)
    ensures Canonical(UniverseOf(ops), Replay(EmptyText(site), ops).value,
                      Inserted(Elements(ops)), Removed(Elements(ops)))
    decreases |ops|
  {
    if ops == [] {
      EmptyIsCanonical(UniverseOf(ops), site);
      assert Inserted(Elements(ops)) == {} && Removed(Elements(ops)) == {};
    } else {
      hide Canonical, LawfulHistory, UniverseOf, ApplyOp, Inserted, Removed, Elements;
      assert ops == ops[..|ops| - 1] + [ops[|ops| - 1]];
      assert Replay(EmptyText(site), ops[..|ops| - 1]).Some?;
      hide Replay, EmptyText;
      HistoryIsLawful(site, ops[..|ops| - 1]);
      HistoryStep(site, ops[..|ops| - 1], ops[|ops| - 1]);
    }
  }

  lemma HistoryStep(site: string, before: Log, op: WootOperation)
    requires Replay(EmptyText(site), before + [op]).Some?
    requires Replay(EmptyText(site), before).Some?
    requires LawfulHistory(UniverseOf(before), before)
    requires Canonical(UniverseOf(before), Replay(EmptyText(site), before).value,
                       Inserted(Elements(before)), Removed(Elements(before)))
    ensures LawfulHistory(UniverseOf(before + [op]), before + [op])
    ensures Canonical(UniverseOf(before + [op]), Replay(EmptyText(site), before + [op]).value,
                      Inserted(Elements(before + [op])), Removed(Elements(before + [op])))
  {
    var ops, u, s := before + [op], UniverseOf(before), Replay(EmptyText(site), before).value;
    assert ops[..|ops| - 1] == before && Elements(ops) == Elements(before) + {op};
    assert Replay(EmptyText(site), ops) == ApplyOp(s, op);
    assert UniverseOf(ops) == if op.opType == Insertion then Record(u, op.character, |before|) else u;
    hide UniverseOf, ApplyOp, Canonical, Record, LawfulHistory;
    if op.opType == Insertion {
      InsertionExtends(u, s, before, op);
    } else {
      DeletionExtends(u, before, op);
      AcceptedDepends(u, s, Elements(before), op);
      ApplyKeepsCanonical(u, s, Elements(before), op);
    }
  }

  lemma DeletionExtends(u: Universe, before: Log, op: WootOperation)
    requires LawfulHistory(u, before) && op.opType == Deletion
    ensures LawfulHistory(u, before + [op])
  {
    var ops := before + [op];
    assert Elements(ops) == Elements(before) + {op};
    assert Inserted(Elements(ops)) == Inserted(Elements(before));
    forall i, j | 0 <= i < j < |ops| ensures InsertDifferent(ops[i], ops[j]) {
      assert j < |before| ==> InsertDifferent(before[i], before[j]);
    }
  }

  lemma InsertionExtends(u: Universe, s: Text, before: Log, op: WootOperation)
    requires LawfulHistory(u, before) && op.opType == Insertion && ApplyOp(s, op).Some?
    requires Canonical(u, s, Inserted(Elements(before)), Removed(Elements(before)))
    ensures var v := Record(u, op.character, |before|);
            && LawfulHistory(v, before + [op])
            && Canonical(v, ApplyOp(s, op).value, Inserted(Elements(before) + {op}), Removed(Elements(before) + {op}))
  {
    var done, c := Elements(before), op.character;
    var v := Record(u, c, |before|);
    AbsentUnlessIn(u, s, Inserted(done), Removed(done), c.id);
    RecordIsLawful(u, s, c, |before|);
    RecordKeepsCanonical(u, c, |before|, s, Inserted(done), Removed(done));
    RecordKeepsLawfulHistory(u, before, op, v);
    AcceptedDepends(v, s, done, op);
    ApplyKeepsCanonical(v, s, done, op);
  }

  lemma RecordKeepsLawfulHistory(u: Universe, before: Log, op: WootOperation, v: Universe)
    requires LawfulHistory(u, before) && op.opType == Insertion && op.character.id !in u
    requires v == Record(u, op.character, |before|) && Lawful(v, op.character) && BornBefore(v, |before| + 1)
    ensures LawfulHistory(v, before + [op])
  {
    var ops := before + [op];
    assert Elements(ops) == Elements(before) + {op};
    assert Inserted(Elements(ops)) == Inserted(Elements(before)) + {op.character.id};
    forall x | x in ops ensures LawfulOp(v, x) {
      if x != op && x.opType == Insertion {
        assert x in before;
        RecordKeepsLawful(u, op.character, |before|, x.character);
      }
    }
    forall i, j | 0 <= i < j < |ops| ensures InsertDifferent(ops[i], ops[j]) {
      if j < |before| {
        assert InsertDifferent(before[i], before[j]);
      } else {
        assert before[i] in Elements(before);
      }
    }
  }

  /** An accepted operation refers only to characters already in the text. */
  lemma AcceptedDepends(u: Universe, s: Text, done: Ops, op: WootOperation)
    requires Canonical(u, s, Inserted(done), Removed(done)) && ApplyOp(s, op).Some?
    ensures DependsOnly(op, Inserted(done))
  {
    var c := op.character;
    match op.opType
    case Insertion =>
      PresentIsLimiterOrIn(u, s, Inserted(done), Removed(done), c.previousId);
      PresentIsLimiterOrIn(u, s, Inserted(done), Removed(done), c.nextId);
    case Deletion =>
      PresentIsLimiterOrIn(u, s, Inserted(done), Removed(done), c.id);
  }

  lemma PresentIsLimiterOrIn(u: Universe, s: Text, ids: set<CharId>, hidden: set<CharId>, id: CharId)
    requires Canonical(u, s, ids, hidden) && Contains(s, id)
    ensures IsLimiterId(id) || id in ids
  {
    var p := PosOf(s, id);
    assert p == 0 || p == |s| - 1 || Inner(s, p);
  }

  // ---------------------------------------------------------------- the theorem

  lemma SameOpsInsertOnce(ops: Log, otherOps: Log)
    requires InsertsOnce(ops) && NoDuplicates(otherOps) && Elements(otherOps) == Elements(ops)
    ensures InsertsOnce(otherOps)
  {
    forall i, j | 0 <= i < j < |otherOps| ensures InsertDifferent(otherOps[i], otherOps[j]) {
      assert otherOps[i] in Elements(ops) && otherOps[j] in Elements(ops);
      var a :| 0 <= a < |ops| && ops[a] == otherOps[i];
      var b :| 0 <= b < |ops| && ops[b] == otherOps[j];
      assert InsertDifferent(ops[a], ops[b]) || InsertDifferent(ops[b], ops[a]);
    }
  }

  lemma PrefixRespects(ops: Log)
    requires ops != [] && DependencyRespecting(ops) && InsertsOnce(ops)
    ensures var before, op := ops[..|ops| - 1], ops[|ops| - 1];
            && DependencyRespecting(before) && InsertsOnce(before)
            && Elements(ops) == Elements(before) + {op}
            && DependsOnly(op, Inserted(Elements(before)))
            && (op.opType == Insertion ==> op.character.id !in Inserted(Elements(before)))
  {
    var n := |ops| - 1;
    var before, op := ops[..n], ops[n];
    assert ops == before + [op];
    forall k | 0 <= k < n ensures DependsAt(before, k) {
      assert DependsAt(ops, k) && before[..k] == ops[..k];
    }
    assert DependsAt(ops, n);
    forall i, j | 0 <= i < j < n ensures InsertDifferent(before[i], before[j]) {
      assert InsertDifferent(ops[i], ops[j]);
    }
    forall i | 0 <= i < n ensures InsertDifferent(ops[i], op) {
      assert InsertDifferent(ops[i], ops[n]);
    }
  }

  lemma {:induction false} ReplayIsCanonical(u: Universe, site: string, ops: Log)
    requires forall op :: op in ops ==> LawfulOp(u, op)
    requires DependencyRespecting(ops)
    requires InsertsOnce(ops)
    ensures Replay(EmptyText(site), ops).Some?
    ensures Canonical(u, Replay(EmptyText(site), ops).value, Inserted(Elements(ops)), Removed(Elements(ops)))
    decreases |ops|
  {
    if ops == [] {
      EmptyIsCanonical(u, site);
      assert Inserted(Elements(ops)) == {} && Removed(Elements(ops)) == {};
    } else {
      var before, op := ops[..|ops| - 1], ops[|ops| - 1];
      PrefixRespects(ops);
      ReplayIsCanonical(u, site, before);
      ApplyKeepsCanonical(u, Replay(EmptyText(site), before).value, Elements(before), op);
    }
  }

  /** A site accepts operations only in an order that respects their dependencies. */
  lemma {:induction false} AcceptedRespectsDependencies(site: string, ops: Log)
    requires Replay(EmptyText(site), ops).Some?
    ensures DependencyRespecting(ops)
    decreases |ops|
  {
    hide Replay, DependsOnly, DependsAt, Inserted, Elements;
    if ops != [] {
      hide DependencyRespecting;
      LastIsAccepted(site, ops);
      AcceptedRespectsDependencies(site, ops[..|ops| - 1]);
      RespectfulExtends(ops[..|ops| - 1], ops[|ops| - 1]);
      assert ops == ops[..|ops| - 1] + [ops[|ops| - 1]];
    }
  }

  lemma LastIsAccepted(site: string, ops: Log)
    requires ops != [] && Replay(EmptyText(site), ops).Some?
    ensures Replay(EmptyText(site), ops[..|ops| - 1]).Some?
    ensures DependsOnly(ops[|ops| - 1], Inserted(Elements(ops[..|ops| - 1])))
  {
    hide DependsOnly, Canonical, LawfulHistory, ApplyOp, UniverseOf, Inserted, Removed, Elements;
    var before := ops[..|ops| - 1];
    HistoryIsLawful(site, before);
    AcceptedDepends(UniverseOf(before), Replay(EmptyText(site), before).value, Elements(before), ops[|ops| - 1]);
  }

  lemma RespectfulExtends(before: Log, op: WootOperation)
    requires DependencyRespecting(before) && DependsOnly(op, Inserted(Elements(before)))
    ensures DependencyRespecting(before + [op])
  {
    hide DependsOnly, Inserted;
    var ops := before + [op];
    forall k | 0 <= k < |ops| ensures DependsAt(ops, k) {
      if k < |before| {
        assert DependsAt(before, k) && before[..k] == ops[..k];
      } else {
        assert ops[..k] == before;
      }
    }
  }

  /**
   * Strong convergence. Of the orders in which the operations one site accepted can arrive, any
   * other site accepts exactly those that respect dependencies; and both then hold the same
   * characters in the same sequence with the same tombstones.
   */
  lemma StrongConvergence(site: string, ops: Log, otherSite: string, otherOps: Log)
    requires Replay(EmptyText(site), ops).Some?
    requires Elements(ops) == Elements(otherOps) && NoDuplicates(otherOps)
    ensures Replay(EmptyText(otherSite), otherOps).Some? <==> DependencyRespecting(otherOps)
    ensures DependencyRespecting(otherOps) ==>
              SameText(Replay(EmptyText(site), ops).value, Replay(EmptyText(otherSite), otherOps).value)
  {
    hide DependencyRespecting, Canonical, SameText;
    if Replay(EmptyText(otherSite), otherOps).Some? {
      AcceptedRespectsDependencies(otherSite, otherOps);
    }
    if DependencyRespecting(otherOps) {
      RespectfulOrdersConverge(site, ops, otherSite, otherOps);
    }
  }

  lemma RespectfulOrdersConverge(site: string, ops: Log, otherSite: string, otherOps: Log)
    requires Replay(EmptyText(site), ops).Some?
    requires Elements(ops) == Elements(otherOps)
    requires NoDuplicates(otherOps) && DependencyRespecting(otherOps)
    ensures Replay(EmptyText(otherSite), otherOps).Some?
    ensures SameText(Replay(EmptyText(site), ops).value, Replay(EmptyText(otherSite), otherOps).value)
  {
    var u := UniverseOf(ops);
    HistoryIsLawful(site, ops);
    assert forall op :: op in otherOps ==> op in Elements(ops);
    SameOpsInsertOnce(ops, otherOps);
    ReplayIsCanonical(u, otherSite, otherOps);
    CanonicalUnique(u, Replay(EmptyText(site), ops).value, Replay(EmptyText(otherSite), otherOps).value,
                    Inserted(Elements(ops)), Removed(Elements(ops)));
  }
}
