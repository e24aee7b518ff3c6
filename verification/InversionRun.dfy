/**
 * A run of three replicas in which redelivery does change something: an inversion has put the log
 * out of order, binary search misses a known insertion, and its character is inserted a second time
 * (cvrdt/operations.go, cvrdt/state.go).
 */
module InversionRun {
  import opened Identifiers
  import opened TextSequence
  import opened Clocks
  import opened Operations
  import opened OperationLog
  import opened Convergence
  import opened Integration
  import opened Replica
  import opened PendingQueue
  import opened CausalHistory
  import opened Runs
  import opened Arrivals
  import opened OrderlySystems
  import opened OrderlyEdits
  import opened SafeRuns

  lemma {:induction false} ExecuteMore(sites: set<string>, events: seq<Event>, e: Event)
    requires Admissible(sites, events) && Execute(sites, events).Some?
    requires WellTaken(Execute(sites, events).value, e)
    ensures Admissible(sites, events + [e])
    ensures Execute(sites, events + [e]) == Next(Execute(sites, events).value, e)
  {
    hide WellTaken, Next;
    TakenIsAllowed(Execute(sites, events).value, e);
    assert (events + [e])[..|events|] == events;
  }

  function InsertAtStart(site: string): Event {
    Edit(site, LocalOperation(Insertion, 0, "a", site))
  }

  /** What a step at `site` leaves alone. */
  ghost predicate StepAt(s: System, s2: System, site: string) {
    && site in s.replicas && site in s2.replicas
    && s2.replicas == s.replicas[site := s2.replicas[site]] && s2.snapshots == s.snapshots + [s2.replicas[site].log]
  }

  lemma InsertStep(s: System, site: string) returns (op: WootOperation, s2: System)
    requires Orderly(s) && site in s.replicas && Get(s.replicas[site].site.clock, site) < 10
    ensures WellTaken(s, InsertAtStart(site)) && Next(s, InsertAtStart(site)) == Some(s2) && Orderly(s2)
    ensures StepAt(s, s2, site) && s2.replicas[site].log == s.replicas[site].log + [op]
    ensures Generate(s.replicas[site].site, InsertAtStart(site).edit) == Generated(s2.replicas[site].site, op)
    ensures op.opType == Insertion && op.id == LogicalId(site, Tick(s.replicas[site].site.clock, site))
    ensures s2.replicas[site].site.clock == op.id.clock
    ensures forall a :: a in s.replicas[site].log ==> Ordered(a, op)
  {
    hide Orderly, Generate, Next, Executed, WithPasts, Ordered;
    var edit := InsertAtStart(site).edit;
    EditIsSafe(s, site, edit);
    StartIsGenerated(s, site);
    op, s2 := Generate(s.replicas[site].site, edit).op, Next(s, InsertAtStart(site)).value;
  }

  lemma StartIsGenerated(s: System, site: string)
    requires Orderly(s) && site in s.replicas && Get(s.replicas[site].site.clock, site) < 10
    ensures var r, g := s.replicas[site], Generate(s.replicas[site].site, InsertAtStart(site).edit);
            && g.Generated? && g.op.opType == Insertion && g.st.clock == g.op.id.clock
            && g.op.id == LogicalId(site, Tick(r.site.clock, site)) && forall a :: a in r.log ==> Ordered(a, g.op)
  {
    hide Orderly, Generate, Ordered, Canonical;
    var r, edit := s.replicas[site], InsertAtStart(site).edit;
    EditIsValid(s, site, edit);
    EditIssuesWell(s, site, edit);
    GeneratedShape(r.site, edit);
    OrderlyIsSound(s);
    LoggedIsValid(s, site);
    InsertionIsGenerated(r.site, edit);
  }

  /** What a site issues happens after all it has logged. */
  lemma FollowsLog(s: System, site: string)
    requires Orderly(s) && site in s.replicas && Get(s.replicas[site].site.clock, site) < 10
    requires Generate(s.replicas[site].site, InsertAtStart(site).edit).Generated?
    ensures forall a :: a in s.replicas[site].log ==>
              HappenedBefore(a.id, Generate(s.replicas[site].site, InsertAtStart(site).edit).op.id)
  {
    SettledReplica(s, site);
    OrderlyIsSound(s);
    GeneratedLandsLast(s, site, InsertAtStart(site).edit);
  }

  lemma InsertionIsGenerated(st: SiteState, edit: LocalOperation)
    requires edit.opType == Insertion && Generate(st, edit).Generated?
    ensures Generate(st, edit).op.opType == Insertion
  {
  }

  lemma {:induction false} ListIsCollected(log: Log, st: SiteState, w: Log, i: nat)
    requires i <= |w| && SortedLog(w) && forall op :: op in w ==> !ContainsOp(log, op.id)
    requires Absorb(log, st, w[..i], Wrap(w)[i..]).Some?
    ensures Absorb(log, st, w[..i], Wrap(w)[i..]).value.1 == w
    decreases |w| - i
  {
    hide ContainsOp, Receive, InsertOp, SortedLog;
    if i == |w| {
      assert w[..i] == w;
    } else {
      assert w[i] in w;
      assert Wrap(w)[i..][0] == Woot(w[i]) && Wrap(w)[i..][1..] == Wrap(w)[i + 1..];
      NextIsAppended(w, i);
      ListIsCollected(log, Receive(st, w[i]).value, w, i + 1);
    }
  }

  lemma NextIsAppended(w: Log, i: nat)
    requires SortedLog(w) && i < |w|
    ensures InsertOp(w[..i], w[i]) == w[..i + 1]
  {
    LandsLast(w[..i], w[i]);
    assert w[..i + 1] == w[..i] + [w[i]];
  }

  /** The delivery of a sorted log of news to a sorted log. */
  lemma DeliverStep(s: System, site: string, k: nat) returns (s2: System)
    requires Orderly(s) && Allowed(s, Deliver(site, k))
    requires SortedLog(s.replicas[site].log) && SortedLog(s.snapshots[k])
    requires forall op :: op in s.snapshots[k] ==> op !in s.replicas[site].log
    ensures WellTaken(s, Deliver(site, k)) && Next(s, Deliver(site, k)) == Some(s2) && Orderly(s2)
    ensures StepAt(s, s2, site) && s2.replicas[site].log == Merge(s.replicas[site].log, s.snapshots[k])
    ensures Get(s2.replicas[site].site.clock, site) <= Get(s.replicas[site].site.clock, site)
  {
    hide Orderly, SortedLog, WellTaken, ContainsOp, NoInversion, Absorbable, DistinctIds;
    var r, w := s.replicas[site], s.snapshots[k];
    SortedDeliveryIsSafe(s, site, k);
    StepIsSafeExactly(s, Deliver(site, k));
    s2 := Next(s, Deliver(site, k)).value;
    DeliveryNotAhead(s, site, k);
    NewsIsNotFound(s, site, k);
    NewsIsMerged(r, w);
  }

  lemma NewsIsMerged(r: ReplicaState, w: Log)
    requires SortedLog(w) && (forall op :: op in w ==> !ContainsOp(r.log, op.id)) && UpdateState(r, Wrap(w)).Some?
    ensures UpdateState(r, Wrap(w)).value.1 ==> UpdateState(r, Wrap(w)).value.0.log == Merge(r.log, w)
  {
    hide SortedLog, ContainsOp, Merge, Absorb;
    assert w[..0] == [] && Wrap(w)[0..] == Wrap(w);
    ListIsCollected(r.log, r.site, w, 0);
  }

  lemma NewsIsNotFound(s: System, site: string, k: nat)
    requires Orderly(s) && site in s.replicas && k < |s.snapshots|
    requires forall op :: op in s.snapshots[k] ==> op !in s.replicas[site].log
    ensures forall op :: op in s.snapshots[k] ==> !ContainsOp(s.replicas[site].log, op.id)
  {
    OrderlyOps(s);
    LoggedIsValid(s, site);
    assert LogHolds(s.past, s.snapshots[k]);
    hide Orderly, ContainsOp, CoherentOps;
    forall op | op in s.snapshots[k] ensures !ContainsOp(s.replicas[site].log, op.id) {
      assert op in Elements(s.snapshots[k]);
      FoundIsThere(s.past.Keys, s.replicas[site].log, op);
    }
  }

  lemma DeliveryNotAhead(s: System, site: string, k: nat)
    requires Orderly(s) && Allowed(s, Deliver(site, k)) && Next(s, Deliver(site, k)).Some?
    ensures UpdateState(s.replicas[site], Wrap(s.snapshots[k])).value.1
    ensures Get(Next(s, Deliver(site, k)).value.replicas[site].site.clock, site) <=
            Get(s.replicas[site].site.clock, site)
  {
    assert Elements(s.snapshots[k]) <= s.past.Keys by { HeldIsIssued(s, k); }
    OrderlyIsSound(s);
    hide Orderly, Sound, UpdateState, Next, Executed, SiteKnows;
    DeliveryOutcome(s, site, k);
    DeliveryTracks(s, site, s.snapshots[k]);
  }

  lemma HeldIsIssued(s: System, k: nat)
    requires Orderly(s) && k < |s.snapshots|
    ensures Elements(s.snapshots[k]) <= s.past.Keys
  {
  }

  /** To the clock, the delivery of one operation is one merge. */
  lemma DeliverOne(s: System, site: string, k: nat, op: WootOperation)
    requires Orderly(s) && Allowed(s, Deliver(site, k)) && s.snapshots[k] == [op] && op !in s.replicas[site].log
    requires SortedLog(s.replicas[site].log) && SortedLog([op])
    ensures Next(s, Deliver(site, k)).Some?
    ensures Next(s, Deliver(site, k)).value.replicas[site].site.clock ==
            Join(s.replicas[site].site.clock, op.id.clock)
  {
    hide Orderly, Absorbable, Next, Absorb, UpdateState, ContainsOp, SortedLog, DistinctIds;
    var r := s.replicas[site];
    SortedDelivery(s, site, k);
    DeliveryIsSafeExactly(s, site, k);
    DeliveryOutcome(s, site, k);
    NewsIsNotFound(s, site, k);
    OrderlyEndsWell(s, site);
    OneIsAbsorbed(r.log, r.site, op);
  }

  lemma OneIsAbsorbed(log: Log, st: SiteState, op: WootOperation)
    requires !ContainsOp(log, op.id) && st.pending == []
    ensures Absorb(log, st, [], Wrap([op])) ==
            match Receive(st, op)
            case None => None
            case Some(st1) => Some((st1, InsertOp([], op), true))
    ensures Receive(st, op).Some? && Receive(st, op).value.pending == [] ==>
              Receive(st, op).value.clock == Join(st.clock, op.id.clock)
  {
    hide ContainsOp, InsertOp, Integrate, Executable, Join;
    AbsorbFirst(log, st, [], [op]);
    assert [op][1..] == [];
    if Executable(st.text, op) && Integrate(st.text, op).Some? {
      DrainIs(st.(clock := Join(st.clock, op.id.clock), text := Integrate(st.text, op).value), 0);
    }
  }

  // ---------------------------------------------------------------- the run

  /** 2 writes z, 3 writes x, 1 learns x and writes y, 2 learns x and y and writes q. */
  function CircleRun(): seq<Event> {
    [InsertAtStart("2"), InsertAtStart("3"), Deliver("1", 1), InsertAtStart("1"), Deliver("2", 3), InsertAtStart("2")]
  }

  const THREE: set<string> := {"1", "2", "3"}

  ghost predicate CircleNames(x: WootOperation, y: WootOperation, z: WootOperation) {
    && x.id == LogicalId("3", map["3" := 1]) && y.id == LogicalId("1", map["1" := 1, "3" := 1])
    && z.id == LogicalId("2", map["2" := 1])
  }

  /** The identifiers of the first three operations run in a circle. */
  lemma Circle(x: WootOperation, y: WootOperation, z: WootOperation)
    requires CircleNames(x, y, z)
    ensures Ordered(x, y) && Ordered(y, z) && Ordered(z, x)
    ensures !Ordered(x, z) && Compare(x.id, z.id) > 0 && Compare(z.id, y.id) > 0
    ensures x != y && y != z && z != x
  {
    ThreeSitesCanCircle();
    CompareTotal({x.id, y.id, z.id}, x.id, z.id);
    CompareTotal({x.id, y.id, z.id}, z.id, y.id);
  }

  /** The log that the circle leaves, and the operation that binary search misses in it. */
  lemma CircleIsMissed(x: WootOperation, y: WootOperation, z: WootOperation, q: WootOperation)
    requires Ordered(y, z) && Compare(q.id, z.id) > 0
    ensures !ContainsOp([z, x, y, q], z.id)
  {
    hide Compare;
    var w := [z, x, y, q];
    assert Search(w, z.id, 0, 4) == Search(w, z.id, 3, 4) == Search(w, z.id, 3, 3) == (3, false);
  }

  lemma SortedOne(x: WootOperation)
    ensures SortedLog([x])
  {
  }

  lemma SortedPair(x: WootOperation, y: WootOperation)
    requires Ordered(x, y)
    ensures SortedLog([x, y])
  {
  }

  lemma MergeThree(x: WootOperation, y: WootOperation, z: WootOperation)
    requires Ordered(z, x) && Ordered(x, y)
    ensures Merge([z], [x, y]) == [z, x, y]
  {
    hide Compare;
    assert Search([z], x.id, 0, 1) == Search([z], x.id, 1, 1) == (1, false);
    assert InsertOp([z], x) == [z, x] && !ContainsOp([z], x.id);
    assert Search([z, x], y.id, 0, 2) == Search([z, x], y.id, 2, 2) == (2, false);
    assert InsertOp([z, x], y) == [z, x, y] && !ContainsOp([z, x], y.id);
    assert [x, y][1..] == [y] && [y][1..] == [];
    assert Merge([z, x], [y]) == Merge([z, x, y], []) == [z, x, y];
  }

  lemma FirstClock(site: string)
    ensures Tick(map[site := 0], site) == map[site := 1]
  {
  }

  lemma SecondClock()
    ensures Tick(Join(map["1" := 0], map["3" := 1]), "1") == map["1" := 1, "3" := 1]
    ensures Get(Join(map["1" := 0], map["3" := 1]), "1") == 0
  {
    var j := Join(map["1" := 0], map["3" := 1]);
    assert "1" != "3";
    assert j == map["1" := 0, "3" := 1];
  }

  /** 2 and 3 write, 1 learns what 3 wrote. */
  lemma FirstHalf() returns (z: WootOperation, x: WootOperation, s: System)
    ensures Admissible(THREE, CircleRun()[..3]) && Execute(THREE, CircleRun()[..3]) == Some(s) && Orderly(s)
    ensures s.replicas.Keys == THREE && s.snapshots == [[z], [x], [x]]
    ensures s.replicas["1"].log == [x] && s.replicas["2"].log == [z]
    ensures s.replicas["1"].site.clock == Join(map["1" := 0], map["3" := 1])
    ensures s.replicas["2"].site.clock == map["2" := 1]
    ensures z.opType == Insertion && z.id == LogicalId("2", map["2" := 1])
    ensures x.opType == Insertion && x.id == LogicalId("3", map["3" := 1])
  {
    var run := CircleRun();
    RunUnfolds();
    var s0 := Start(THREE);
    StartOrderly(THREE);
    ThreeStart();
    hide Orderly, Next, WellTaken, Start, Merge, CircleRun, Execute, Admissible, Generate, Ordered;
    FirstClock("2");
    FirstClock("3");
    var s1, s2;
    z, s1 := InsertStep(s0, "2");
    assert s1.replicas["2"].log == [z];
    ExecuteMore(THREE, [], InsertAtStart("2"));
    x, s2 := InsertStep(s1, "3");
    assert s2.replicas["3"].log == [x];
    ExecuteMore(THREE, run[..1], InsertAtStart("3"));
    SortedOne(x);
    s := DeliverStep(s2, "1", 1);
    MergeOne(x);
    DeliverOne(s2, "1", 1, x);
    ExecuteMore(THREE, run[..2], Deliver("1", 1));
  }

  lemma RunUnfolds()
    ensures var run := CircleRun();
            && |run| == 6 && run[..0] == []
            && run[..1] == [] + [InsertAtStart("2")] && run[..2] == run[..1] + [InsertAtStart("3")]
            && run[..3] == run[..2] + [Deliver("1", 1)] && run[..4] == run[..3] + [InsertAtStart("1")]
            && run[..5] == run[..4] + [Deliver("2", 3)] && run == run[..5] + [InsertAtStart("2")]
    ensures Admissible(THREE, []) && Execute(THREE, []) == Some(Start(THREE))
  {
  }

  lemma ThreeStart()
    ensures var s0 := Start(THREE);
            && s0.replicas.Keys == THREE && s0.snapshots == []
            && (forall site :: site in THREE ==>
                  s0.replicas[site].log == [] && s0.replicas[site].site.clock == map[site := 0])
    ensures "1" in THREE && "2" in THREE && "3" in THREE && "1" != "2" && "2" != "3" && "1" != "3"
  {
  }

  lemma MergeOne(x: WootOperation)
    ensures Merge([], [x]) == [x]
  {
    assert InsertOp([], x) == [x];
    assert [x][1..] == [];
  }

  /** 1 writes. */
  lemma MiddleStep() returns (z: WootOperation, x: WootOperation, y: WootOperation, s: System)
    ensures Admissible(THREE, CircleRun()[..4]) && Execute(THREE, CircleRun()[..4]) == Some(s) && Orderly(s)
    ensures s.replicas.Keys == THREE && s.snapshots == [[z], [x], [x], [x, y]]
    ensures s.replicas["2"].log == [z] && s.replicas["2"].site.clock == map["2" := 1] && z.opType == Insertion
    ensures Ordered(x, y) && Ordered(y, z) && Ordered(z, x) && x != z && y != z && CircleNames(x, y, z)
  {
    var run := CircleRun();
    RunUnfolds();
    ThreeStart();
    hide Orderly, Next, WellTaken, Start, CircleRun, Execute, Admissible, Generate, Ordered, Join, Tick;
    var s3;
    z, x, s3 := FirstHalf();
    SecondClock();
    y, s := InsertStep(s3, "1");
    assert s.replicas["1"].log == [x, y] && s.replicas["2"] == s3.replicas["2"];
    ExecuteMore(THREE, run[..3], InsertAtStart("1"));
    Circle(x, y, z);
  }

  /** 2 learns what 3 and 1 wrote, and writes again. */
  lemma SecondHalf() returns (z: WootOperation, x: WootOperation, y: WootOperation, q: WootOperation, s: System)
    ensures Admissible(THREE, CircleRun()) && Execute(THREE, CircleRun()) == Some(s) && Orderly(s)
    ensures s.replicas.Keys == THREE && |s.snapshots| == 6 && s.snapshots[0] == [z]
    ensures s.replicas["2"].log == [z, x, y, q] && z.opType == Insertion
    ensures Ordered(x, y) && Ordered(y, z) && Ordered(z, x) && Ordered(z, q)
    ensures CircleNames(x, y, z) && HappenedBefore(z.id, q.id)
  {
    var run := CircleRun();
    RunUnfolds();
    ThreeStart();
    hide Orderly, Next, WellTaken, Start, Merge, CircleRun, Execute, Admissible, Generate, Ordered, SortedLog, HappenedBefore;
    var s4, s5;
    z, x, y, s4 := MiddleStep();
    SortedOne(z);
    SortedPair(x, y);
    s5 := DeliverStep(s4, "2", 3);
    MergeThree(x, y, z);
    ExecuteMore(THREE, run[..4], Deliver("2", 3));
    q, s := InsertStep(s5, "2");
    assert z in s5.replicas["2"].log;
    FollowsLog(s5, "2");
    ExecuteMore(THREE, run[..5], InsertAtStart("2"));
  }

  /** A known insertion that the search misses is inserted again when it is delivered again. */
  lemma MissedIsRepeated(s: System, site: string, k: nat, op: WootOperation)
    requires Orderly(s) && Allowed(s, Deliver(site, k)) && s.snapshots[k] == [op] && op.opType == Insertion
    requires op in s.replicas[site].log && !ContainsOp(s.replicas[site].log, op.id)
    ensures !KnownFound(s.replicas[site].log, [op]) && Next(s, Deliver(site, k)).Some?
    ensures !DistinctIds(Next(s, Deliver(site, k)).value.replicas[site].site.text)
  {
    var r := s.replicas[site];
    KnownIsPlaced(s, site, op);
    hide Orderly, Receive, ContainsOp, DistinctIds, Next, Absorb, UpdateState;
    OneIsAbsorbed(r.log, r.site, op);
    DeliveryOutcome(s, site, k);
    assert op in [op];
  }

  lemma KnownIsPlaced(s: System, site: string, op: WootOperation)
    requires Orderly(s) && site in s.replicas && op in s.replicas[site].log && op.opType == Insertion
    ensures s.replicas[site].site.pending == [] && Receive(s.replicas[site].site, op).Some?
    ensures !DistinctIds(Receive(s.replicas[site].site, op).value.text)
  {
    var r, u := s.replicas[site], UniverseOf(s.trace);
    assert ReplicaHolds(s.past, u, r);
    KnownDepends(s, r.log, op);
    assert op in Elements(r.log);
    hide Sound, TraceHolds, LogHolds, DistinctIds, Receive;
    ReceiveRepeats(u, r.site, Elements(r.log), op);
    KnownIsReceived(u, r.site, Elements(r.log), op);
  }

  lemma KnownIsReceived(u: Universe, st: SiteState, done: Ops, op: WootOperation)
    requires Canonical(u, st.text, Inserted(done), Removed(done)) && st.pending == []
    requires op.opType == Insertion && DependsOnly(op, Inserted(done))
    ensures Receive(st, op).Some?
  {
    var s, c := st.text, op.character;
    assert Contains(s, c.previousId) && Contains(s, c.nextId) by { LimitersPresent(s); }
    CanonicalIsDistinct(u, s, Inserted(done), Removed(done));
    hide Canonical, DistinctIds, WellFormed;
    WellFormedPlaces(u, s, c, PosOf(s, c.previousId), PosOf(s, c.nextId));
    PlaceAtIsPlace(s, c, PosOf(s, c.previousId), PosOf(s, c.nextId));
    assert Integrate(s, op).Some?;
    DrainIs(st.(clock := Join(st.clock, op.id.clock), text := Integrate(s, op).value), 0);
  }

  /**
   * In this run every step so far is admissible; now the first log of all arrives again at site 2,
   * which knows its only operation, and the operation's character is inserted a second time.
   */
  lemma RedeliveryRepeats()
    returns (s: System, z: WootOperation, x: WootOperation, y: WootOperation, q: WootOperation)
    ensures Admissible(THREE, CircleRun()) && Execute(THREE, CircleRun()) == Some(s) && Allowed(s, Deliver("2", 0))
    ensures s.snapshots[0] == [z] && s.replicas["2"].log == [z, x, y, q]
    ensures Next(s, Deliver("2", 0)).Some?
    ensures !DistinctIds(Next(s, Deliver("2", 0)).value.replicas["2"].site.text)
    ensures CircleNames(x, y, z) && HappenedBefore(z.id, q.id) && !ContainsOp(s.replicas["2"].log, z.id)
  {
    hide CircleRun, Execute, Admissible, Next, Orderly, ContainsOp, DistinctIds, KnownFound, HappenedBefore;
    z, x, y, q, s := SecondHalf();
    assert "2" in s.replicas by { ThreeStart(); }
    SearchMisses(s, "2", x, y, z, q);
    MissedIsRepeated(s, "2", 0, z);
  }

  /** The operation is then logged twice. */
  lemma RedeliveryLogsTwice(s: System, site: string, k: nat, z: WootOperation)
    requires Allowed(s, Deliver(site, k)) && s.snapshots[k] == [z] && Next(s, Deliver(site, k)).Some?
    requires z in s.replicas[site].log && !ContainsOp(s.replicas[site].log, z.id)
    ensures var log := Next(s, Deliver(site, k)).value.replicas[site].log;
            multiset(log)[z] >= 2 && forall a :: a in log <==> a in s.replicas[site].log
  {
    var r := s.replicas[site];
    OneIsCollected(r.log, r.site, z);
    assert Next(s, Deliver(site, k)).value.replicas[site].log == Merge(r.log, InsertOp([], z)) by {
      hide Absorb, Merge;
    }
    hide Next, ContainsOp, InsertOp;
    InsertOfOne(z);
    assert [z][1..] == [];
    assert Merge(r.log, [z]) == InsertOp(r.log, z);
    InsertedTwice(r.log, z);
  }

  lemma OneIsCollected(log: Log, st: SiteState, z: WootOperation)
    requires !ContainsOp(log, z.id)
    ensures var a := Absorb(log, st, [], Wrap([z]));
            a.Some? ==> a.value.1 == InsertOp([], z) && a.value.2
  {
    hide ContainsOp, InsertOp, Receive;
    AbsorbFirst(log, st, [], [z]);
    assert [z][1..] == [];
  }

  lemma InsertOfOne(z: WootOperation)
    ensures InsertOp([], z) == [z]
  {
  }

  lemma InsertedTwice(log: Log, z: WootOperation)
    requires z in log && !ContainsOp(log, z.id)
    ensures multiset(InsertOp(log, z))[z] >= 2 && forall a :: a in InsertOp(log, z) <==> a in log
  {
    var idx := Search(log, z.id, 0, |log|).0;
    assert log == log[..idx] + log[idx..];
    assert multiset(InsertOp(log, z)) == multiset(log) + multiset{z};
  }

  lemma SearchMisses(s: System, site: string, x: WootOperation, y: WootOperation, z: WootOperation, q: WootOperation)
    requires Orderly(s) && site in s.replicas && s.replicas[site].log == [z, x, y, q]
    requires Ordered(y, z) && Ordered(z, q)
    ensures z in s.replicas[site].log && !ContainsOp(s.replicas[site].log, z.id)
  {
    LoggedIsValid(s, site);
    assert z in s.replicas[site].log && q in s.replicas[site].log;
    hide Orderly, ContainsOp, CoherentOps;
    OrderedLaws(s.past.Keys, z, q, z);
    OrderedLaws(s.past.Keys, q, z, z);
    CircleIsMissed(x, y, z, q);
  }
}
