/**
 * Which runs are safe, and what every safe run brings about (cvrdt/state.go, cvrdt/site.go):
 * replicas that converge, logs and texts that agree.
 */
module SafeRuns {
  import opened Identifiers
  import opened TextSequence
  import opened Operations
  import opened OperationLog
  import opened Convergence
  import opened Replica
  import opened LocalEdits
  import opened PendingQueue
  import opened CausalHistory
  import opened Runs
  import opened OrderlySystems
  import opened OrderlyEdits

  // ---------------------------------------------------------------- safe runs

  /** Edits of the document; deliveries that the receiver can absorb. */
  ghost predicate WellTaken(s: System, e: Event) {
    && Allowed(s, e)
    && match e
       case Edit(site, edit) => InDocument(s, site, edit)
       case Deliver(site, k) => Absorbable(s.replicas[site].log, s.snapshots[k])
  }

  ghost predicate Admissible(sites: set<string>, events: seq<Event>)
    decreases |events|
  {
    events == [] ||
    var before, e := events[..|events| - 1], events[|events| - 1];
    Admissible(sites, before) && (Execute(sites, before).Some? ==> WellTaken(Execute(sites, before).value, e))
  }

  /** A step returns and leaves the system in good order exactly when it is such an edit or delivery. */
  lemma StepIsSafeExactly(s: System, e: Event)
    requires Orderly(s) && Allowed(s, e)
    ensures WellTaken(s, e) <==> Next(s, e).Some? && Orderly(Next(s, e).value)
    ensures WellTaken(s, e) ==> Next(s, e).value.replicas.Keys == s.replicas.Keys
  {
    hide Orderly, Absorbable, Next, UpdateState, Absorb;
    match e
    case Edit(site, edit) =>
      EditIsSafeExactly(s, site, edit);
      OrderlyIsSound(s);
      StepSound(s, e);
    case Deliver(site, k) =>
      DeliveryOutcome(s, site, k);
      DeliveryIsSafeExactly(s, site, k);
      if Next(s, e).Some? && Orderly(Next(s, e).value) {
        OrderlyEndsWell(Next(s, e).value, site);
      }
  }

  lemma OrderlyEndsWell(s: System, site: string)
    requires Orderly(s) && site in s.replicas
    ensures s.replicas[site].site.pending == [] && DistinctIds(s.replicas[site].site.text)
  {
    var r := s.replicas[site];
    assert ReplicaHolds(s.past, UniverseOf(s.trace), r);
    CanonicalIsDistinct(UniverseOf(s.trace), r.site.text, Inserted(Elements(r.log)), Removed(Elements(r.log)));
  }

  /**
   * Safety of every admissible run: no step fails, recurses for ever or leaves an operation
   * pending, and every replica holds the text of its log.
   */
  lemma {:induction false} RunsAreSafe(sites: set<string>, events: seq<Event>)
    requires Admissible(sites, events)
    ensures Execute(sites, events).Some?
    ensures Orderly(Execute(sites, events).value) && Execute(sites, events).value.replicas.Keys == sites
    ensures forall site :: site in sites ==> Execute(sites, events).value.replicas[site].site.pending == []
    decreases |events|
  {
    hide Sound, WellTaken, Next, TraceHolds;
    if events == [] {
      StartOrderly(sites);
    } else {
      RunsAreSafe(sites, events[..|events| - 1]);
      TakenIsAllowed(Execute(sites, events[..|events| - 1]).value, events[|events| - 1]);
      StepIsSafeExactly(Execute(sites, events[..|events| - 1]).value, events[|events| - 1]);
    }
    var s := Execute(sites, events).value;
    forall site | site in sites ensures s.replicas[site].site.pending == [] {
      assert ReplicaHolds(s.past, UniverseOf(s.trace), s.replicas[site]);
    }
  }

  lemma TakenIsAllowed(s: System, e: Event)
    requires WellTaken(s, e)
    ensures Allowed(s, e)
  {
  }

  // ---------------------------------------------------------------- runs without inversions

  /** Edits of the document; deliveries between logs that together hold no inversion. */
  ghost predicate Straight(s: System, e: Event) {
    && Allowed(s, e)
    && match e
       case Edit(site, edit) => InDocument(s, site, edit)
       case Deliver(site, k) => NoInversion(IdsOf(Elements(s.replicas[site].log) + Elements(s.snapshots[k])))
  }

  ghost predicate AllStraight(sites: set<string>, events: seq<Event>)
    decreases |events|
  {
    events == [] ||
    var before, e := events[..|events| - 1], events[|events| - 1];
    AllStraight(sites, before) && (Execute(sites, before).Some? ==> Straight(Execute(sites, before).value, e))
  }

  /** Every log is sorted. */
  ghost predicate AllSorted(s: System) {
    && (forall site {:trigger s.replicas[site]} :: site in s.replicas ==> SortedLog(s.replicas[site].log))
    && forall k :: 0 <= k < |s.snapshots| ==> SortedLog(s.snapshots[k])
  }

  /** A delivery between sorted logs is always safe; the log it leaves is sorted exactly without an inversion. */
  lemma SortedDeliveryIsSafe(s: System, site: string, k: nat)
    requires Orderly(s) && Allowed(s, Deliver(site, k))
    requires SortedLog(s.replicas[site].log) && SortedLog(s.snapshots[k])
    ensures WellTaken(s, Deliver(site, k)) && Next(s, Deliver(site, k)).Some?
    ensures SortedLog(Next(s, Deliver(site, k)).value.replicas[site].log) <==>
            NoInversion(IdsOf(Elements(s.replicas[site].log) + Elements(s.snapshots[k])))
  {
    SortedDelivery(s, site, k);
    DeliveryIsSafeExactly(s, site, k);
    var s2 := Next(s, Deliver(site, k)).value;
    SortedExactly(s2, site);
  }

  /** In a system in good order a log is sorted exactly when no operation in it sits in an inversion. */
  lemma SortedExactly(s: System, site: string)
    requires Orderly(s) && site in s.replicas
    ensures SortedLog(s.replicas[site].log) <==> NoInversion(IdsOf(Elements(s.replicas[site].log)))
  {
    OrderlyOps(s);
    assert ReplicaHolds(s.past, UniverseOf(s.trace), s.replicas[site]);
    hide Sound, Canonical;
    if SortedLog(s.replicas[site].log) {
      SortedIsLinear(s.past.Keys, s.replicas[site].log);
    }
  }

  lemma StraightStep(s: System, e: Event)
    requires Orderly(s) && AllSorted(s) && Straight(s, e)
    ensures WellTaken(s, e) && Next(s, e).Some? && AllSorted(Next(s, e).value)
  {
    match e
    case Edit(site, edit) =>
      EditIsSafe(s, site, edit);
      EditKeepsSorted(s, site, edit);
    case Deliver(site, k) =>
      SortedDeliveryIsSafe(s, site, k);
      var s2 := Next(s, e).value;
      hide Orderly, NoInversion, SortedLog, WellTaken, UpdateState, AllSorted;
      SortedStays(s, s2, site, s2.replicas[site]);
  }

  lemma EditKeepsSorted(s: System, site: string, edit: LocalOperation)
    requires Orderly(s) && AllSorted(s) && Allowed(s, Edit(site, edit)) && InDocument(s, site, edit)
    ensures Next(s, Edit(site, edit)).Some? && AllSorted(Next(s, Edit(site, edit)).value)
  {
    EditIsSafe(s, site, edit);
    var r, g := s.replicas[site], Generate(s.replicas[site].site, edit);
    var s2 := Next(s, Edit(site, edit)).value;
    if g.Generated? {
      EditIssuesWell(s, site, edit);
      hide Orderly, UpdateState, Generate, Next, AllSorted, Executed, WithPasts;
      assert SortedLog(r.log) by { LogIsSorted(s, site); }
      AppendKeepsSorted(r.log, g.op);
      SortedStays(s, s2, site, ReplicaState(g.st, r.log + [g.op]));
    } else {
      hide Orderly, UpdateState, Generate, Next, AllSorted;
      LogIsSorted(s, site);
      SortedStays(s, s2, site, ReplicaState(g.st, r.log));
    }
  }

  lemma LogIsSorted(s: System, site: string)
    requires AllSorted(s) && site in s.replicas
    ensures SortedLog(s.replicas[site].log)
  {
  }

  lemma SortedStays(s: System, s2: System, site: string, r2: ReplicaState)
    requires AllSorted(s) && SortedLog(r2.log)
    requires s2.replicas == s.replicas[site := r2] && s2.snapshots == s.snapshots + [r2.log]
    ensures AllSorted(s2)
  {
    hide SortedLog;
  }

  /** A run is safe, and all its logs stay sorted, if no delivery brings an inversion together. */
  lemma {:induction false} StraightRunsAreSafe(sites: set<string>, events: seq<Event>)
    requires AllStraight(sites, events)
    ensures Admissible(sites, events) && Execute(sites, events).Some?
    ensures Orderly(Execute(sites, events).value) && AllSorted(Execute(sites, events).value)
    ensures Execute(sites, events).value.replicas.Keys == sites
    decreases |events|
  {
    hide Orderly, Straight, WellTaken, Next;
    if events != [] {
      StraightRunsAreSafe(sites, events[..|events| - 1]);
      StraightStep(Execute(sites, events[..|events| - 1]).value, events[|events| - 1]);
      TakenIsAllowed(Execute(sites, events[..|events| - 1]).value, events[|events| - 1]);
    }
    RunsAreSafe(sites, events);
  }

  /** Steps of the environment with nothing said about the order of operations. */
  ghost predicate AllInDocument(sites: set<string>, events: seq<Event>)
    decreases |events|
  {
    events == [] ||
    var before, e := events[..|events| - 1], events[|events| - 1];
    && AllInDocument(sites, before)
    && (Execute(sites, before).Some? ==>
          && Allowed(Execute(sites, before).value, e)
          && (e.Edit? ==> InDocument(Execute(sites, before).value, e.site, e.edit)))
  }

  /** Between two sites no inversion can arise, so every run is safe. */
  lemma {:induction false} TwoSiteRunsAreSafe(p: string, q: string, events: seq<Event>)
    requires AllInDocument({p, q}, events)
    ensures AllStraight({p, q}, events) && Admissible({p, q}, events)
    ensures Execute({p, q}, events).Some? && Orderly(Execute({p, q}, events).value)
    decreases |events|
  {
    if events != [] {
      TwoSiteRunsAreSafe(p, q, events[..|events| - 1]);
      RunsAreSafe({p, q}, events[..|events| - 1]);
      TwoSitesNoInversion(Execute({p, q}, events[..|events| - 1]).value, p, q);
    }
    StraightRunsAreSafe({p, q}, events);
  }

  lemma TwoSitesNoInversion(s: System, p: string, q: string)
    requires Orderly(s) && s.replicas.Keys == {p, q}
    ensures NoInversion(IdsOf(s.past.Keys))
    ensures forall site, k :: site in s.replicas && 0 <= k < |s.snapshots| ==>
              NoInversion(IdsOf(Elements(s.replicas[site].log) + Elements(s.snapshots[k])))
  {
    OrderlyOps(s);
    forall id | id in IdsOf(s.past.Keys) ensures id.siteId == p || id.siteId == q {
      var op :| op in s.past && op.id == id;
      IssuedAtSite(s, op);
    }
    TwoSitesAreLinear(IdsOf(s.past.Keys), p, q);
    forall site, k | site in s.replicas && 0 <= k < |s.snapshots|
      ensures NoInversion(IdsOf(Elements(s.replicas[site].log) + Elements(s.snapshots[k])))
    {
      LoggedIsValid(s, site);
      assert LogHolds(s.past, s.snapshots[k]);
      PartHasNoInversion(s.past.Keys, Elements(s.replicas[site].log) + Elements(s.snapshots[k]));
    }
  }

  lemma IssuedAtSite(s: System, op: WootOperation)
    requires Sound(s) && op in s.past
    ensures op.id.siteId in s.replicas
  {
    assert IssuedOk(HistoryOf(s), op);
  }

  // ---------------------------------------------------------------- what every safe run brings about

  ghost predicate Reachable(s: System) {
    exists sites, events :: Admissible(sites, events) && Execute(sites, events) == Some(s)
  }

  lemma ReachableIsOrderly(s: System)
    requires Reachable(s)
    ensures Orderly(s) && Arisen(s)
  {
    var sites, events :| Admissible(sites, events) && Execute(sites, events) == Some(s);
    RunsAreSafe(sites, events);
  }

  /** Every log holds the causes of what it holds; without inversions it lists each cause before its effects. */
  lemma LogsAreCausal(s: System, site: string, a: WootOperation, j: nat)
    requires Reachable(s) && site in s.replicas && a in s.past
    requires j < |s.replicas[site].log| && HappenedBefore(a.id, s.replicas[site].log[j].id)
    ensures a in s.replicas[site].log
    ensures NoInversion(IdsOf(Elements(s.replicas[site].log))) ==> a in s.replicas[site].log[..j]
  {
    var log := s.replicas[site].log;
    ReachableIsOrderly(s);
    OrderlyOps(s);
    assert ReplicaHolds(s.past, UniverseOf(s.trace), s.replicas[site]);
    hide Sound, Canonical, HappenedBefore, NoInversion;
    assert log[j] in Elements(log);
    HappenedBeforeIsPast(s.past, a, log[j]);
    assert a in Elements(log);
    if NoInversion(IdsOf(Elements(log))) {
      PastComesFirst(s.past, log, j);
      assert a in Elements(log[..j]);
    }
  }

  /** The text holds exactly the logged insertions, each once; hidden are the logged deletions' targets. */
  lemma LogAndTextAgree(s: System, site: string)
    requires Reachable(s) && site in s.replicas
    ensures var log, text := s.replicas[site].log, s.replicas[site].site.text;
            && Bounded(text) && DistinctIds(text) && InsertsOnce(log)
            && (forall op :: op in log && op.opType == Insertion ==> ShownInText(text, log, op.character))
            && (forall i {:trigger Inner(text, i)} :: Inner(text, i) ==> text[i].id in Inserted(Elements(log)))
  {
    ReachableIsOrderly(s);
    OrderlyOps(s);
    assert ReplicaHolds(s.past, UniverseOf(s.trace), s.replicas[site]);
    hide Sound, Canonical;
    TextShowsLog(s, s.replicas[site].log, s.replicas[site].site.text);
  }

  lemma TextShowsLog(s: System, log: Log, text: Text)
    requires Orderly(s) && LogHolds(s.past, log)
    requires Canonical(UniverseOf(s.trace), text, Inserted(Elements(log)), Removed(Elements(log)))
    ensures Bounded(text) && DistinctIds(text)
    ensures forall op :: op in log && op.opType == Insertion ==> ShownInText(text, log, op.character)
    ensures forall i {:trigger Inner(text, i)} :: Inner(text, i) ==> text[i].id in Inserted(Elements(log))
  {
    var u, ids, hidden := UniverseOf(s.trace), Inserted(Elements(log)), Removed(Elements(log));
    SortedIsDistinct(u, text);
    OrderlyOps(s);
    hide Sound;
    forall op | op in log && op.opType == Insertion ensures ShownInText(text, log, op.character) {
      assert op in Elements(log) && op.character.id in ids;
      AbsentUnlessIn(u, text, ids, hidden, op.character.id);
      var p := PosOf(text, op.character.id);
      assert Inner(text, p);
      assert Grounded(s.past, op) && LawfulOp(u, op);
      assert text[p] == op.character.(visible := op.character.id !in hidden);
    }
  }

  /** The character stands in the text as it was made, hidden exactly if a logged deletion targets it. */
  ghost predicate ShownInText(text: Text, log: Log, c: WCharacterData) {
    exists i {:trigger Inner(text, i)} ::
      Inner(text, i) && text[i] == c.(visible := c.id !in Removed(Elements(log)))
  }

  /** Replicas that hold the same operations hold the same document; without inversions also the same log. */
  lemma ReplicasConverge(s: System, x: string, y: string)
    requires Reachable(s) && x in s.replicas && y in s.replicas
    requires Elements(s.replicas[x].log) == Elements(s.replicas[y].log)
    ensures SameText(s.replicas[x].site.text, s.replicas[y].site.text)
    ensures Values(s.replicas[x].site.text) == Values(s.replicas[y].site.text)
    ensures NoInversion(IdsOf(Elements(s.replicas[x].log))) ==> s.replicas[x].log == s.replicas[y].log
  {
    var a, b := s.replicas[x], s.replicas[y];
    ReachableIsOrderly(s);
    OrderlyOps(s);
    assert ReplicaHolds(s.past, UniverseOf(s.trace), a) && ReplicaHolds(s.past, UniverseOf(s.trace), b);
    hide Sound, Canonical, NoInversion;
    if NoInversion(IdsOf(Elements(a.log))) {
      SortedUnique(s.past.Keys, a.log, b.log);
    }
    TextsConverge(UniverseOf(s.trace), a.site.text, b.site.text, Elements(a.log));
  }

  lemma TextsConverge(u: Universe, s: Text, t: Text, ops: Ops)
    requires Canonical(u, s, Inserted(ops), Removed(ops)) && Canonical(u, t, Inserted(ops), Removed(ops))
    requires PlainText(s) && PlainText(t)
    ensures SameText(s, t) && Values(s) == Values(t)
  {
    CanonicalUnique(u, s, t, Inserted(ops), Removed(ops));
    PicksOfPlainText(s);
    PicksOfPlainText(t);
  }

  /** A delivery that can be absorbed unites the logs; without inversions it merges them. */
  lemma DeliveryJoins(s: System, site: string, k: nat)
    requires Reachable(s) && WellTaken(s, Deliver(site, k))
    ensures Next(s, Deliver(site, k)).Some?
    ensures var r, w, s2 := s.replicas[site], s.snapshots[k], Next(s, Deliver(site, k)).value;
            && Orderly(s2) && s2.replicas[site].site.pending == []
            && Elements(s2.replicas[site].log) == Elements(r.log) + Elements(w)
            && (NoInversion(IdsOf(Elements(r.log) + Elements(w))) ==>
                  SortedLog(s2.replicas[site].log) && s2.replicas[site].log == Merge(r.log, w))
  {
    var r, w := s.replicas[site], s.snapshots[k];
    ReachableIsOrderly(s);
    DeliveryIsSafeExactly(s, site, k);
    var s2, both := Next(s, Deliver(site, k)).value, Elements(s.replicas[site].log) + Elements(s.snapshots[k]);
    assert ReplicaHolds(s2.past, UniverseOf(s2.trace), s2.replicas[site]);
    assert ReplicaHolds(s.past, UniverseOf(s.trace), r);
    SortedExactly(s2, site);
    OrderlyOps(s2);
    LoggedIsValid(s2, site);
    hide Orderly, Next, Canonical, NoInversion, Absorbable;
    if NoInversion(IdsOf(both)) {
      PartHasNoInversion(both, Elements(r.log));
      PartIsCoherent(s2.past.Keys, both);
      LinearExactlyWithoutInversion(IdsOf(both));
      MergeIs(both, r.log, w, s2.replicas[site].log);
    }
  }

  // ---------------------------------------------------------------- redelivery

  /** A list is absorbed without a trace exactly when the search finds all of it, on any replica. */
  lemma RedeliveryChangesNothingExactly(r: ReplicaState, w: Log)
    ensures UpdateState(r, Wrap(w)) == Some((r, true)) <==> forall op :: op in w ==> ContainsOp(r.log, op.id)
  {
    hide ContainsOp;
    assert Wrap(w)[0..] == Wrap(w);
    if forall op :: op in w ==> ContainsOp(r.log, op.id) {
      FoundIsSkipped(r.log, r.site, [], w, 0);
    } else {
      var j :| 0 <= j < |w| && !ContainsOp(r.log, w[j].id);
      UnfoundIsCollected(r.log, r.site, [], w, 0, j);
      var a := Absorb(r.log, r.site, [], Wrap(w));
      if a.Some? && a.value.2 {
        assert a.value.1[0] in a.value.1;
        InsertIsOneOf(r.log, a.value.1[0]);
        MergeNeverShrinks(if ContainsOp(r.log, a.value.1[0].id) then r.log else InsertOp(r.log, a.value.1[0]),
                          a.value.1[1..]);
      }
    }
  }

  lemma {:induction false} FoundIsSkipped(log: Log, st: SiteState, collected: Log, w: Log, i: nat)
    requires i <= |w| && forall op :: op in w ==> ContainsOp(log, op.id)
    ensures Absorb(log, st, collected, Wrap(w)[i..]) == Some((st, collected, true))
    decreases |w| - i
  {
    hide ContainsOp;
    if i < |w| {
      assert w[i] in w;
      assert Wrap(w)[i..][0] == Woot(w[i]) && Wrap(w)[i..][1..] == Wrap(w)[i + 1..];
      FoundIsSkipped(log, st, collected, w, i + 1);
    }
  }

  ghost predicate NoneFound(log: Log, collected: Log) {
    forall op :: op in collected ==> !ContainsOp(log, op.id)
  }

  lemma {:induction false} UnfoundIsCollected(log: Log, st: SiteState, collected: Log, w: Log, i: nat, j: nat)
    requires i <= |w| && NoneFound(log, collected)
    requires collected != [] || (i <= j < |w| && !ContainsOp(log, w[j].id))
    ensures var a := Absorb(log, st, collected, Wrap(w)[i..]);
            a.Some? ==> a.value.1 != [] && NoneFound(log, a.value.1)
    decreases |w| - i
  {
    hide ContainsOp, Receive;
    if i < |w| {
      assert Wrap(w)[i..][0] == Woot(w[i]) && Wrap(w)[i..][1..] == Wrap(w)[i + 1..];
      if ContainsOp(log, w[i].id) {
        UnfoundIsCollected(log, st, collected, w, i + 1, j);
      } else if Receive(st, w[i]).Some? {
        InsertIsOneOf(collected, w[i]);
        UnfoundIsCollected(log, Receive(st, w[i]).value, InsertOp(collected, w[i]), w, i + 1, j);
      }
    }
  }

  lemma InsertIsOneOf(w: Log, op: WootOperation)
    ensures |InsertOp(w, op)| >= |w| && InsertOp(w, op) != []
    ensures forall a :: a in InsertOp(w, op) ==> a in w || a == op
    ensures !ContainsOp(w, op.id) ==> |InsertOp(w, op)| == |w| + 1
  {
  }

  lemma {:induction false} MergeNeverShrinks(w: Log, x: Log)
    ensures |Merge(w, x)| >= |w|
    decreases |x|
  {
    hide ContainsOp, InsertOp;
    if x != [] {
      InsertIsOneOf(w, x[0]);
      MergeNeverShrinks(if ContainsOp(w, x[0].id) then w else InsertOp(w, x[0]), x[1..]);
    }
  }

  /** So in a safe run, while no inversion is in the log, nothing known changes anything when it comes again. */
  lemma RedeliveryChangesNothing(s: System, site: string, w: Log)
    requires Reachable(s) && site in s.replicas && Elements(w) <= Elements(s.replicas[site].log)
    requires NoInversion(IdsOf(Elements(s.replicas[site].log)))
    ensures UpdateState(s.replicas[site], Wrap(w)) == Some((s.replicas[site], true))
  {
    var log := s.replicas[site].log;
    ReachableIsOrderly(s);
    SortedExactly(s, site);
    LoggedIsValid(s, site);
    hide Orderly, NoInversion, UpdateState, ContainsOp, Reachable;
    SortedFindsAll(s.past.Keys, log);
    forall op | op in w ensures ContainsOp(log, op.id) {
      assert op in Elements(w);
    }
    RedeliveryChangesNothingExactly(s.replicas[site], w);
  }
}
