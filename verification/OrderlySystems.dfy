/** Systems in good order, and exactly the deliveries that keep them so (cvrdt/state.go, cvrdt/site.go). */
module OrderlySystems {
  import opened Identifiers
  import opened TextSequence
  import opened Operations
  import opened OperationLog
  import opened Convergence
  import opened Replica
  import opened LocalEdits
  import opened PendingQueue
  import opened CausalHistory
  import opened Runs
  import opened Arrivals

  // ---------------------------------------------------------------- the invariant

  /** An operation refers to its past only; an insertion makes a visible character named after it. */
  ghost predicate Grounded(past: Past, op: WootOperation)
    requires op in past
  {
    && DependsOnly(op, Inserted(past[op])) && ProperId(op.character.id)
    && (op.opType == Insertion ==>
          op.character.id == CharId(op.id.siteId, op.id.LogicalClock())
          && op.character.visible && !op.character.IsSpecial())
  }

  /** Nothing in the log lacks its past, no insertion is logged twice, and without inversions the log is sorted. */
  ghost predicate LogHolds(past: Past, log: Log) {
    && CausallyClosed(past, Elements(log)) && InsertsOnce(log)
    && (NoInversion(IdsOf(Elements(log))) ==> SortedLog(log))
  }

  /** Nothing is pending, and the text is the one that the logged operations determine. */
  ghost predicate ReplicaHolds(past: Past, u: Universe, r: ReplicaState) {
    && r.site.pending == [] && LogHolds(past, r.log) && PlainText(r.site.text)
    && Canonical(u, r.site.text, Inserted(Elements(r.log)), Removed(Elements(r.log)))
  }

  ghost predicate TraceHolds(s: System) {
    && s.past.Keys == Elements(s.trace) && LawfulHistory(UniverseOf(s.trace), s.trace)
    && (forall op {:trigger Grounded(s.past, op)} :: op in s.past ==> Grounded(s.past, op))
    && forall op {:trigger CarriesNeighbours(UniverseOf(s.trace), op)} :: op in s.past ==>
         CarriesNeighbours(UniverseOf(s.trace), op)
  }

  ghost predicate Orderly(s: System) {
    && Sound(s) && TraceHolds(s)
    && (forall site {:trigger s.replicas[site]} :: site in s.replicas ==>
          ReplicaHolds(s.past, UniverseOf(s.trace), s.replicas[site]))
    && (forall k :: 0 <= k < |s.snapshots| ==> LogHolds(s.past, s.snapshots[k]))
  }

  lemma EmptyLogHolds(past: Past)
    ensures LogHolds(past, []) && Elements([]) == {} && Inserted({}) == {} && Removed({}) == {}
  {
  }

  lemma StartOrderly(sites: set<string>)
    ensures Orderly(Start(sites))
  {
    var s := Start(sites);
    StartSound(sites);
    EmptyLogHolds(s.past);
    hide Sound;
    forall site | site in s.replicas ensures ReplicaHolds(s.past, UniverseOf(s.trace), s.replicas[site]) {
      EmptyIsCanonical(UniverseOf(s.trace), site);
      assert PlainText(EmptyText(site));
    }
  }

  /** What an orderly system says about its operations. */
  lemma OrderlyOps(s: System)
    requires Orderly(s)
    ensures AllClocksOk(s.past) && CoherentOps(s.past.Keys)
    ensures forall op :: op in s.past ==> Proper(UniverseOf(s.trace), op)
    ensures OneInsertionEach(s.past.Keys)
  {
    assert AllClocksOk(s.past) by { assert HistoryOk(HistoryOf(s)); }
    IssuedIsCoherent(s.past);
    forall op | op in s.past ensures Proper(UniverseOf(s.trace), op) {
      assert op in Elements(s.trace) && CarriesNeighbours(UniverseOf(s.trace), op);
      assert Grounded(s.past, op);
    }
    forall a, b | a in s.past && b in s.past ensures SameInsertion(a, b) {
      CharactersDiffer(s.past, a, b);
    }
  }

  predicate SameInsertion(a: WootOperation, b: WootOperation) {
    a.opType == Insertion && b.opType == Insertion && a.character.id == b.character.id ==> a == b
  }

  /** A character is inserted by one operation. */
  ghost predicate OneInsertionEach(ops: Ops) {
    forall a, b {:trigger SameInsertion(a, b)} :: a in ops && b in ops ==> SameInsertion(a, b)
  }

  /** Insertions of different operations make different characters. */
  lemma CharactersDiffer(past: Past, a: WootOperation, b: WootOperation)
    requires AllClocksOk(past) && a in past && b in past
    requires forall op {:trigger Grounded(past, op)} :: op in past ==> Grounded(past, op)
    ensures SameInsertion(a, b)
  {
    assert Grounded(past, a) && Grounded(past, b);
    if a.opType == Insertion && b.opType == Insertion && a.character.id == b.character.id {
      SameSiteOrdered(past, a, b);
      SameSiteOrdered(past, b, a);
    }
  }

  lemma NotInserted(all: Ops, done: Ops, op: WootOperation)
    requires OneInsertionEach(all) && done <= all && op in all && op.opType == Insertion
    ensures op.character.id in Inserted(done) <==> op in done
  {
    if op.character.id in Inserted(done) {
      var a :| a in done && a.opType == Insertion && a.character.id == op.character.id;
      assert SameInsertion(a, op);
    }
  }

  // ---------------------------------------------------------------- a delivered log

  /** Binary search finds every insertion of the list that is in the log. */
  ghost predicate KnownFound(log: Log, w: Log) {
    forall op :: op in w && op.opType == Insertion && op in log ==> ContainsOp(log, op.id)
  }

  /** The search finds the insertions that are known, and what it does not find settles. */
  ghost predicate Absorbable(log: Log, w: Log) {
    KnownFound(log, w) && Settles(Elements(log), [], Unfound(log, w))
  }

  /** Dependency order is enough, if what is known is found. */
  lemma OrderedIsAbsorbable(all: Ops, log: Log, w: Log)
    requires CoherentOps(all) && Elements(log) <= all && Elements(w) <= all
    requires InDependencyOrder(Elements(log), w) && KnownFound(log, w)
    ensures Absorbable(log, w)
  {
    hide CoherentOps, ContainsOp, InDependencyOrder, Settles;
    forall op | op in w && ContainsOp(log, op.id) ensures op in Elements(log) {
      assert op in Elements(w);
      FoundIsThere(all, log, op);
    }
    UnfoundKeepsOrder(log, Elements(log), w);
    OrderedSettles(Elements(log), Unfound(log, w));
  }

  /** What is collected while a list is absorbed: part of the list, no insertion twice, none known before. */
  ghost predicate Collects(log: Log, w: Log, i: nat, collected: Log)
    requires i <= |w|
  {
    && Elements(collected) <= Elements(w[..i]) && InsertsOnce(collected)
    && forall op :: op in collected && op.opType == Insertion ==> op !in log
  }

  lemma InsertKeepsOnce(ops: Ops, w: Log, op: WootOperation)
    requires CoherentOps(ops) && Elements(w) <= ops && op in ops && InsertsOnce(w)
    requires op.opType == Insertion ==> op.character.id !in Inserted(Elements(w))
    ensures InsertsOnce(InsertOp(w, op)) && Elements(InsertOp(w, op)) == Elements(w) + {op}
  {
    InsertAdds(ops, w, op);
    var (idx, found) := Search(w, op.id, 0, |w|);
    if !found {
      var t := w[..idx] + [op] + w[idx..];
      forall i, j | 0 <= i < j < |t| ensures InsertDifferent(t[i], t[j]) {
        assert i != idx ==> t[i] in Elements(w);
        assert j != idx ==> t[j] in Elements(w);
        if i != idx && j != idx {
          assert InsertDifferent(w[if i < idx then i else i - 1], w[if j < idx then j else j - 1]);
        }
      }
    }
  }

  lemma CollectNext(all: Ops, log: Log, w: Log, i: nat, collected: Log)
    requires CoherentOps(all) && OneInsertionEach(all) && Elements(w) <= all && i < |w| && InsertsOnce(w)
    requires Collects(log, w, i, collected) && (w[i].opType == Insertion ==> w[i] !in log)
    ensures Collects(log, w, i + 1, InsertOp(collected, w[i])) && Collects(log, w, i + 1, collected)
  {
    hide CoherentOps, InsertOp;
    var op := w[i];
    assert w[..i + 1] == w[..i] + [op];
    assert Elements(w[..i + 1]) == Elements(w[..i]) + {op};
    assert op in Elements(w);
    assert Elements(w[..i]) <= Elements(w);
    if op.opType == Insertion {
      forall a | a in Elements(collected) ensures InsertDifferent(a, op) {
        var j :| 0 <= j < i && w[j] == a;
        assert InsertDifferent(w[j], w[i]);
      }
    }
    InsertKeepsOnce(all, collected, op);
    forall a | a in InsertOp(collected, op) && a.opType == Insertion ensures a !in log {
      assert a in Elements(InsertOp(collected, op));
      assert a != op ==> a in Elements(collected);
    }
  }

  lemma CollectsMore(log: Log, w: Log, i: nat, collected: Log)
    requires i < |w| && Collects(log, w, i, collected)
    ensures Collects(log, w, i + 1, collected)
  {
    assert w[..i + 1] == w[..i] + [w[i]];
  }

  lemma {:induction false} AbsorbCollects(all: Ops, log: Log, st: SiteState, collected: Log, w: Log, i: nat)
    requires CoherentOps(all) && OneInsertionEach(all) && Elements(w) <= all && InsertsOnce(w)
    requires KnownFound(log, w) && i <= |w| && Collects(log, w, i, collected)
    ensures var r := Absorb(log, st, collected, Wrap(w)[i..]);
            r.Some? ==> r.value.2 && Collects(log, w, |w|, r.value.1)
    decreases |w| - i
  {
    hide CoherentOps, OneInsertionEach, Collects, ContainsOp, Receive, InsertOp, InsertsOnce;
    if i < |w| {
      assert Wrap(w)[i..][0] == Woot(w[i]) && Wrap(w)[i..][1..] == Wrap(w)[i + 1..];
      assert w[i] in w;
      if ContainsOp(log, w[i].id) {
        CollectsMore(log, w, i, collected);
        AbsorbCollects(all, log, st, collected, w, i + 1);
      } else if Receive(st, w[i]).Some? {
        CollectNext(all, log, w, i, collected);
        AbsorbCollects(all, log, Receive(st, w[i]).value, InsertOp(collected, w[i]), w, i + 1);
      }
    }
  }

  lemma {:induction false} MergeKeepsOnce(all: Ops, w: Log, x: Log)
    requires CoherentOps(all) && OneInsertionEach(all) && Elements(w) <= all && Elements(x) <= all
    requires InsertsOnce(w) && InsertsOnce(x)
    requires forall op :: op in x && op.opType == Insertion ==> op !in w
    ensures InsertsOnce(Merge(w, x))
    decreases |x|
  {
    hide CoherentOps, OneInsertionEach, ContainsOp, InsertOp;
    if x != [] {
      var op, rest := x[0], x[1..];
      assert x == [op] + rest;
      assert op in Elements(x) && Elements(x) == {op} + Elements(rest);
      forall i, j | 0 <= i < j < |rest| ensures InsertDifferent(rest[i], rest[j]) {
        assert InsertDifferent(x[i + 1], x[j + 1]);
      }
      if op.opType == Insertion {
        NotInserted(all, Elements(w), op);
      }
      InsertKeepsOnce(all, w, op);
      var w2 := if ContainsOp(w, op.id) then w else InsertOp(w, op);
      forall a | a in rest && a.opType == Insertion ensures a !in w2 {
        var j :| 0 <= j < |rest| && rest[j] == a;
        assert InsertDifferent(x[0], x[j + 1]);
        assert a in w2 ==> a in Elements(w2);
      }
      MergeKeepsOnce(all, w2, rest);
    }
  }

  /** Merging keeps the log without inversions sorted. */
  lemma MergeSortedUnless(all: Ops, w: Log, x: Log)
    requires CoherentOps(all) && Elements(w) <= all && Elements(x) <= all
    requires NoInversion(IdsOf(Elements(w))) ==> SortedLog(w)
    ensures NoInversion(IdsOf(Elements(Merge(w, x)))) ==> SortedLog(Merge(w, x))
  {
    MergeAdds(all, w, x);
    var both := Elements(w) + Elements(x);
    if NoInversion(IdsOf(both)) {
      PartHasNoInversion(both, Elements(w));
      PartIsCoherent(all, both);
      LinearExactlyWithoutInversion(IdsOf(both));
      MergeSorted(both, w, x);
    }
  }

  lemma UnionClosed(past: Past, a: Ops, b: Ops)
    requires CausallyClosed(past, a) && CausallyClosed(past, b)
    ensures CausallyClosed(past, a + b)
  {
  }

  /** What the delivery of a held log starts from: the operations that the search does not find, in their order. */
  lemma DeliverySetting(s: System, site: string, w: Log)
    requires Orderly(s) && site in s.replicas && LogHolds(s.past, w)
    ensures var log := s.replicas[site].log;
            && Waiting(UniverseOf(s.trace), s.replicas[site].site, Elements(log), Unfound(log, w))
            && (FreshTo(Elements(log), Unfound(log, w)) <==> KnownFound(log, w))
            && Elements(log) + Elements(Unfound(log, w)) == Elements(log) + Elements(w)
  {
    var r := s.replicas[site];
    var done := Elements(r.log);
    OrderlyOps(s);
    assert ReplicaHolds(s.past, UniverseOf(s.trace), r);
    UnfoundIsPart(r.log, w);
    hide Sound, Canonical, PlainText, CoherentOps, OneInsertionEach, ContainsOp, Proper, DependsOnly;
    assert [] + Unfound(r.log, w) == Unfound(r.log, w);
    forall op | op in w ensures op in s.past && (ContainsOp(r.log, op.id) ==> op in done) {
      assert op in Elements(w);
      FoundIsThere(s.past.Keys, r.log, op);
    }
    forall op | op in w && op.opType == Insertion
      ensures op.character.id in Inserted(done) <==> op in r.log
      ensures op in r.log ==> DependsOnly(op, Inserted(done))
    {
      NotInserted(s.past.Keys, done, op);
      if op in r.log {
        KnownDepends(s, r.log, op);
      }
    }
  }

  /** What a closed log holds refers to what it holds. */
  lemma KnownDepends(s: System, log: Log, op: WootOperation)
    requires TraceHolds(s) && CausallyClosed(s.past, Elements(log)) && op in log
    ensures op in s.past && DependsOnly(op, Inserted(Elements(log)))
  {
    hide LawfulHistory;
    assert op in Elements(log);
    assert Grounded(s.past, op);
    assert Inserted(s.past[op]) <= Inserted(Elements(log));
  }

  /** The loop of `UpdateState` over a held log, in whatever order it lists its operations. */
  lemma DeliveryEndsWell(s: System, site: string, w: Log)
    requires Orderly(s) && site in s.replicas && LogHolds(s.past, w)
    ensures var r, all := s.replicas[site], Elements(s.replicas[site].log) + Elements(w);
            var a := Absorb(r.log, r.site, [], Wrap(w));
            && (EndsWell(a) <==> Absorbable(r.log, w)) && Ended(UniverseOf(s.trace), a, all)
            && (EndsWell(a) ==> a.value.2 && Collects(r.log, w, |w|, a.value.1))
  {
    var r, u := s.replicas[site], UniverseOf(s.trace);
    var w2, done := Unfound(r.log, w), Elements(r.log);
    DeliverySetting(s, site, w);
    OrderlyOps(s);
    assert r.site.pending == [] by { assert ReplicaHolds(s.past, u, r); }
    hide Sound, TraceHolds, OneInsertionEach, CoherentOps, Waiting, KnownFound, Settles, FreshTo, Ended, Absorb, ContainsOp, DistinctIds;
    UnfoundIsPart(r.log, w);
    FoundIsPassedOver(r.log, r.site, [], w);
    AbsorbSettlesExactly(u, r.log, r.site, [], done, w2);
    NothingToDepend(done);
    assert done + Elements([]) + Elements(w2) == done + Elements(w2);
    if Absorbable(r.log, w) {
      assert w[..0] == [] && Wrap(w)[0..] == Wrap(w);
      AbsorbCollects(s.past.Keys, r.log, r.site, [], w, 0);
    }
  }

  /** The receiving replica after a delivery it can absorb. */
  lemma DeliveredHolds(s: System, site: string, w: Log)
    requires Orderly(s) && site in s.replicas && LogHolds(s.past, w) && Absorbable(s.replicas[site].log, w)
    ensures UpdateState(s.replicas[site], Wrap(w)).Some?
    ensures var r2 := UpdateState(s.replicas[site], Wrap(w)).value.0;
            && Elements(r2.log) == Elements(s.replicas[site].log) + Elements(w)
            && ReplicaHolds(s.past, UniverseOf(s.trace), r2)
  {
    var r := s.replicas[site];
    DeliveryEndsWell(s, site, w);
    OrderlyOps(s);
    assert ReplicaHolds(s.past, UniverseOf(s.trace), r);
    assert Elements(w) <= s.past.Keys && Elements(r.log) <= s.past.Keys;
    hide Orderly, Canonical, PlainText, DistinctIds, Absorbable, Absorb;
    var a := Absorb(r.log, r.site, [], Wrap(w)).value;
    DeliveryTracks(s, site, w);
    assert w[..|w|] == w;
    MergeKeepsOnce(s.past.Keys, r.log, a.1);
    MergeSortedUnless(s.past.Keys, r.log, a.1);
    UnionClosed(s.past, Elements(r.log), Elements(w));
  }

  /**
   * A delivery leaves nothing pending and no character in the text twice exactly when the search
   * finds the insertions that are known and the rest of the log settles. The logs are then united,
   * the text is that of both, and the invariant holds.
   */
  lemma DeliveryIsSafeExactly(s: System, site: string, k: nat)
    requires Orderly(s) && Allowed(s, Deliver(site, k))
    ensures Absorbable(s.replicas[site].log, s.snapshots[k]) <==>
            var t := Next(s, Deliver(site, k));
            && t.Some? && t.value.replicas[site].site.pending == []
            && DistinctIds(t.value.replicas[site].site.text)
    ensures Absorbable(s.replicas[site].log, s.snapshots[k]) ==>
              var s2 := Next(s, Deliver(site, k)).value;
              && Orderly(s2) && s2.past == s.past && s2.replicas.Keys == s.replicas.Keys
              && Elements(s2.replicas[site].log) == Elements(s.replicas[site].log) + Elements(s.snapshots[k])
  {
    var r, w := s.replicas[site], s.snapshots[k];
    assert LogHolds(s.past, w);
    hide Orderly, LogHolds, Absorbable, DistinctIds, Next, Absorb, UpdateState;
    DeliveryOutcome(s, site, k);
    DeliveryEndsWell(s, site, w);
    if Absorbable(r.log, w) {
      DeliveredHolds(s, site, w);
      assert Sound(Next(s, Deliver(site, k)).value) by { OrderlyIsSound(s); DeliverSound(s, site, k); }
      hide Sound, ReplicaHolds;
      DeliveredIsOrderly(s, Next(s, Deliver(site, k)).value, site);
    }
  }

  /** What a delivery makes of its replica. */
  lemma DeliveryOutcome(s: System, site: string, k: nat)
    requires Allowed(s, Deliver(site, k))
    ensures var r, a := s.replicas[site], Absorb(s.replicas[site].log, s.replicas[site].site, [], Wrap(s.snapshots[k]));
            var r2 := UpdateState(r, Wrap(s.snapshots[k]));
            && (r2.Some? <==> a.Some?) && (r2.Some? ==> r2.value.0.site == a.value.0)
            && Next(s, Deliver(site, k)) ==
                 if r2.None? then None
                 else Some(s.(replicas := s.replicas[site := r2.value.0], snapshots := s.snapshots + [r2.value.0.log]))
  {
    hide Absorb, Merge;
  }

  lemma OrderlyIsSound(s: System)
    requires Orderly(s)
    ensures Sound(s)
  {
  }

  lemma DeliveredIsOrderly(s: System, s2: System, site: string)
    requires Orderly(s) && Sound(s2) && site in s.replicas && site in s2.replicas
    requires s2 == s.(replicas := s.replicas[site := s2.replicas[site]],
                      snapshots := s.snapshots + [s2.replicas[site].log])
    requires ReplicaHolds(s.past, UniverseOf(s.trace), s2.replicas[site])
    ensures Orderly(s2)
  {
    hide Sound, LogHolds;
    forall x | x in s2.replicas ensures ReplicaHolds(s2.past, UniverseOf(s2.trace), s2.replicas[x]) {
      assert x != site ==> ReplicaHolds(s.past, UniverseOf(s.trace), s.replicas[x]);
    }
  }

  // ---------------------------------------------------------------- logs in order

  /** In a sorted closed log, what an operation depends on stands before it. */
  lemma PastComesFirst(past: Past, w: Log, i: nat)
    requires AllClocksOk(past) && SortedLog(w) && CausallyClosed(past, Elements(w)) && i < |w|
    ensures past[w[i]] <= Elements(w[..i])
  {
    IssuedIsCoherent(past);
    assert w[i] in Elements(w);
    forall a | a in past[w[i]] ensures a in Elements(w[..i]) {
      assert a in Elements(w);
      var j :| 0 <= j < |w| && w[j] == a;
      HappenedBeforeIsPast(past, a, w[i]);
      OrderedLaws(past.Keys, a, w[i], a);
      OrderedIsEarlier(past.Keys, w, i, j);
      assert w[..i][j] == a;
    }
  }

  /** Between sorted logs a delivery is in dependency order and finds what is known, inversions or not. */
  lemma SortedDelivery(s: System, site: string, k: nat)
    requires Orderly(s) && Allowed(s, Deliver(site, k))
    requires SortedLog(s.replicas[site].log) && SortedLog(s.snapshots[k])
    ensures InDependencyOrder(Elements(s.replicas[site].log), s.snapshots[k])
    ensures Absorbable(s.replicas[site].log, s.snapshots[k])
    ensures forall op :: op in s.replicas[site].log ==> ContainsOp(s.replicas[site].log, op.id)
  {
    var log, w := s.replicas[site].log, s.snapshots[k];
    OrderlyOps(s);
    assert LogHolds(s.past, w);
    assert ReplicaHolds(s.past, UniverseOf(s.trace), s.replicas[site]);
    hide Sound, Canonical;
    forall i | 0 <= i < |w| ensures DependsAfter(Elements(log), w, i) {
      assert w[i] in Elements(w);
      assert Grounded(s.past, w[i]);
      PastComesFirst(s.past, w, i);
      assert Inserted(s.past[w[i]]) <= Inserted(Elements(log) + Elements(w[..i]));
    }
    SortedFindsAll(s.past.Keys, log);
    OrderedIsAbsorbable(s.past.Keys, log, w);
  }

  lemma SortedFindsAll(ops: Ops, log: Log)
    requires CoherentOps(ops) && Elements(log) <= ops && SortedLog(log)
    ensures forall op :: op in log ==> ContainsOp(log, op.id)
  {
    SortedIsLinear(ops, log);
    forall op | op in log ensures ContainsOp(log, op.id) {
      SearchDecides(Elements(log), log, op);
    }
  }
}
