/**
 * A run of four replicas in which a newcomer never gets through a log it receives: an inversion has
 * put an effect before its cause, and the effect waits in the queue when the next operation is
 * executed (cvrdt/site.go, `tryComputePendings`).
 */
module EffectFirstRun {
  import opened Identifiers
  import opened TextSequence
  import opened Clocks
  import opened Operations
  import opened OperationLog
  import opened Convergence
  import opened Integration
  import opened Replica
  import opened LocalEdits
  import opened PendingQueue
  import opened CausalHistory
  import opened Runs
  import opened Arrivals
  import opened OrderlySystems
  import opened SafeRuns
  import opened InversionRun

  const FOUR: set<string> := {"0", "1", "2", "3"}

  /** 2 writes c and d, 3 writes a, 1 learns a and writes b before it, 2 learns a and b. */
  function FirstSix(): seq<Event> {
    [InsertAtStart("2"), InsertAtStart("2"), InsertAtStart("3"), Deliver("1", 2), InsertAtStart("1"), Deliver("2", 4)]
  }

  lemma SixUnfold()
    ensures var run := FirstSix();
            && |run| == 6 && run[..0] == []
            && run[..1] == [] + [InsertAtStart("2")] && run[..2] == run[..1] + [InsertAtStart("2")]
            && run[..3] == run[..2] + [InsertAtStart("3")] && run[..4] == run[..3] + [Deliver("1", 2)]
            && run[..5] == run[..4] + [InsertAtStart("1")] && run == run[..5] + [Deliver("2", 4)]
    ensures Admissible(FOUR, []) && Execute(FOUR, []) == Some(Start(FOUR))
  {
  }

  lemma FourStart()
    ensures var s0 := Start(FOUR);
            && s0.replicas.Keys == FOUR && s0.snapshots == []
            && forall site :: site in FOUR ==> s0.replicas[site] == NewReplica(site)
    ensures "0" in FOUR && "1" in FOUR && "2" in FOUR && "3" in FOUR
    ensures "0" != "1" && "0" != "2" && "0" != "3" && "1" != "2" && "2" != "3" && "1" != "3"
  {
  }

  // ---------------------------------------------------------------- how the log comes about

  /** Concurrent operations are ordered by their sites. */
  lemma ConcurrentBySite(a: WootOperation, b: WootOperation)
    requires a.id.siteId in a.id.clock && a.id.clock[a.id.siteId] > Get(b.id.clock, a.id.siteId)
    requires b.id.siteId in b.id.clock && b.id.clock[b.id.siteId] > Get(a.id.clock, b.id.siteId)
    requires StrLess(a.id.siteId, b.id.siteId)
    ensures Ordered(a, b) && Compare(b.id, a.id) > 0
  {
    StrLessIrreflexive(a.id.siteId);
    if StrLess(b.id.siteId, a.id.siteId) {
      StrLessTransitive(a.id.siteId, b.id.siteId, a.id.siteId);
    }
    assert !HappenedBefore(a.id, b.id) && !HappenedBefore(b.id, a.id);
  }

  /** The identifiers of the four operations. */
  ghost predicate Names(c: WootOperation, d: WootOperation, a: WootOperation, b: WootOperation) {
    && c.id == LogicalId("2", map["2" := 1]) && d.id == LogicalId("2", map["2" := 2])
    && a.id == LogicalId("3", map["3" := 1]) && b.id == LogicalId("1", map["1" := 1, "3" := 1])
  }

  lemma FourOrders(c: WootOperation, d: WootOperation, a: WootOperation, b: WootOperation)
    requires Names(c, d, a, b)
    ensures Ordered(c, a) && Ordered(d, a)
    ensures Compare(c.id, b.id) > 0 && Compare(d.id, b.id) > 0 && HappenedBefore(a.id, b.id)
    ensures a != c && a != d && b != c && b != d
  {
    assert "1" in b.id.clock && "3" in a.id.clock && "2" in c.id.clock && "2" in d.id.clock;
    assert "1" !in a.id.clock && b.id.clock["1"] > 0;
    ConcurrentBySite(c, a);
    ConcurrentBySite(d, a);
    ConcurrentBySite(b, c);
    ConcurrentBySite(b, d);
  }

  lemma EffectLandsFirst(c: WootOperation, d: WootOperation, a: WootOperation, b: WootOperation)
    requires Names(c, d, a, b)
    ensures Merge([c, d], [a, b]) == [b, c, d, a]
  {
    FourOrders(c, d, a, b);
    hide Compare;
    assert Search([c, d], a.id, 0, 2) == Search([c, d], a.id, 2, 2) == (2, false);
    assert InsertOp([c, d], a) == [c, d, a] && !ContainsOp([c, d], a.id);
    assert Search([c, d, a], b.id, 0, 3) == Search([c, d, a], b.id, 0, 1) == Search([c, d, a], b.id, 0, 0) == (0, false);
    assert InsertOp([c, d, a], b) == [b, c, d, a] && !ContainsOp([c, d, a], b.id);
    assert [a, b][1..] == [b] && [b][1..] == [];
    assert Merge([c, d, a], [b]) == Merge([b, c, d, a], []) == [b, c, d, a];
  }

  lemma SecondTick(site: string)
    ensures Tick(map[site := 1], site) == map[site := 2]
  {
  }

  // ---------------------------------------------------------------- what b is inserted before

  lemma OneCharacterText(u: Universe, s: Text, id: CharId, hidden: set<CharId>)
    requires Canonical(u, s, {id}, hidden)
    ensures |s| == 3 && s[1].id == id && id in u && s[1].visible == (u[id].made.visible && id !in hidden)
  {
    SortedIsDistinct(u, s);
    AbsentUnlessIn(u, s, {id}, hidden, id);
    forall i | Inner(s, i) ensures i == PosOf(s, id) && s[i].id == id {
      PosOfUnique(s, i, id);
    }
    assert Inner(s, PosOf(s, id)) && Inner(s, 1) && Inner(s, |s| - 2);
  }

  /** An insertion at the start of a text with one visible character is made to stand before it. */
  lemma InsertedBefore(st: SiteState, str: string)
    requires |st.text| == 3 && forall i :: 0 <= i < 3 ==> st.text[i].visible
    requires GenerateIns(st, 0, str).Generated?
    ensures GenerateIns(st, 0, str).op.character.nextId == st.text[1].id
  {
    hide Integrate;
    var s := st.text;
    assert s[1..][0] == s[1] && s[1..][1..] == s[2..] && s[2..][0] == s[2];
    assert Picks(s, false) == [s[0]] + ([s[1]] + Picks(s[2..], false));
    assert NthShown(s, false, 1) == 1 + NthShown(s[1..], false, 0) == 1;
  }

  /** The text of a replica that knows of one insertion. */
  lemma FirstText(s: System, site: string, a: WootOperation)
    requires Orderly(s) && site in s.replicas && s.replicas[site].log == [a] && a.opType == Insertion
    ensures var t := s.replicas[site].site.text;
            |t| == 3 && t[1].id == a.character.id && forall i :: 0 <= i < 3 ==> t[i].visible
    ensures a.character.id == CharId(a.id.siteId, a.id.LogicalClock())
  {
    var r, u := s.replicas[site], UniverseOf(s.trace);
    hide Orderly, Canonical, UniverseOf;
    OneInsertion(s, site, a);
    OneCharacterText(u, r.site.text, a.character.id, {});
  }

  lemma OneInsertion(s: System, site: string, a: WootOperation)
    requires Orderly(s) && site in s.replicas && s.replicas[site].log == [a] && a.opType == Insertion
    ensures var t, u, c := s.replicas[site].site.text, UniverseOf(s.trace), a.character;
            && Canonical(u, t, {c.id}, {}) && PlainText(t)
            && c.id in u && u[c.id].made == c && c.visible && c.id == CharId(a.id.siteId, a.id.LogicalClock())
  {
    hide Orderly, Canonical, PlainText, UniverseOf, CoherentOps, AllClocksOk, Inserted, Removed, Elements, DependsOnly;
    ReplicaText(s, site);
    OrderlyOps(s);
    LoggedIsGrounded(s, site, a);
    assert Proper(UniverseOf(s.trace), a);
    SingleInsertion(a);
  }

  lemma SingleInsertion(a: WootOperation)
    requires a.opType == Insertion
    ensures Inserted(Elements([a])) == {a.character.id} && Removed(Elements([a])) == {}
  {
    assert Elements([a]) == {a};
  }

  lemma ReplicaText(s: System, site: string)
    requires Orderly(s) && site in s.replicas
    ensures var r := s.replicas[site];
            && Canonical(UniverseOf(s.trace), r.site.text, Inserted(Elements(r.log)), Removed(Elements(r.log)))
            && PlainText(r.site.text)
  {
    hide Sound, TraceHolds;
    assert ReplicaHolds(s.past, UniverseOf(s.trace), s.replicas[site]);
  }

  lemma LoggedIsGrounded(s: System, site: string, a: WootOperation)
    requires Orderly(s) && site in s.replicas && a in s.replicas[site].log
    ensures a in s.past && Grounded(s.past, a)
  {
    OrderlyIsSound(s);
    LoggedIsValid(s, site);
    hide Sound;
    assert TraceHolds(s) && a in s.past;
  }

  /** What that replica inserts at the start is made to stand before it. */
  lemma FirstReply(s: System, site: string, a: WootOperation)
    requires Orderly(s) && site in s.replicas && s.replicas[site].log == [a] && a.opType == Insertion
    requires Generate(s.replicas[site].site, InsertAtStart(site).edit).Generated?
    ensures Generate(s.replicas[site].site, InsertAtStart(site).edit).op.character.nextId == a.character.id
    ensures a.character.id == CharId(a.id.siteId, a.id.LogicalClock())
  {
    FirstText(s, site, a);
    hide Orderly, GenerateIns;
    InsertedBefore(s.replicas[site].site, "a");
  }

  // ---------------------------------------------------------------- the run

  /** 2 writes twice. */
  lemma TwoWrites() returns (c: WootOperation, d: WootOperation, s: System)
    ensures Admissible(FOUR, FirstSix()[..2]) && Execute(FOUR, FirstSix()[..2]) == Some(s) && Orderly(s)
    ensures s.replicas.Keys == FOUR && s.snapshots == [[c], [c, d]]
    ensures forall x :: x in FOUR && x != "2" ==> s.replicas[x] == NewReplica(x)
    ensures s.replicas["2"].log == [c, d] && s.replicas["2"].site.clock == map["2" := 2] && Ordered(c, d)
    ensures c.id == LogicalId("2", map["2" := 1]) && d.id == LogicalId("2", map["2" := 2]) && c.opType == Insertion
  {
    var run, s0 := FirstSix(), Start(FOUR);
    SixUnfold();
    FourStart();
    StartOrderly(FOUR);
    hide Orderly, Next, WellTaken, Start, FirstSix, Execute, Admissible, Generate, Ordered;
    FirstClock("2");
    SecondTick("2");
    var s1;
    c, s1 := InsertStep(s0, "2");
    assert s1.replicas["2"].log == [c];
    ExecuteMore(FOUR, [], InsertAtStart("2"));
    d, s := InsertStep(s1, "2");
    assert s.replicas["2"].log == [c, d];
    ExecuteMore(FOUR, run[..1], InsertAtStart("2"));
  }

  /** 3 writes. */
  lemma ThreeWrites() returns (c: WootOperation, d: WootOperation, a: WootOperation, s: System)
    ensures Admissible(FOUR, FirstSix()[..3]) && Execute(FOUR, FirstSix()[..3]) == Some(s) && Orderly(s)
    ensures s.replicas.Keys == FOUR && s.snapshots == [[c], [c, d], [a]]
    ensures s.replicas["0"] == NewReplica("0") && s.replicas["1"] == NewReplica("1")
    ensures s.replicas["2"].log == [c, d] && s.replicas["2"].site.clock == map["2" := 2] && Ordered(c, d)
    ensures c.id == LogicalId("2", map["2" := 1]) && d.id == LogicalId("2", map["2" := 2])
    ensures a.id == LogicalId("3", map["3" := 1]) && a.opType == Insertion && c.opType == Insertion
  {
    var run := FirstSix();
    SixUnfold();
    FourStart();
    hide Orderly, Next, WellTaken, Start, FirstSix, Execute, Admissible, Generate, Ordered;
    FirstClock("3");
    var s2;
    c, d, s2 := TwoWrites();
    a, s := InsertStep(s2, "3");
    assert s.replicas["3"].log == [a];
    ExecuteMore(FOUR, run[..2], InsertAtStart("3"));
  }

  /** 1 learns what 3 wrote. */
  lemma OneLearns() returns (c: WootOperation, d: WootOperation, a: WootOperation, s: System)
    ensures Admissible(FOUR, FirstSix()[..4]) && Execute(FOUR, FirstSix()[..4]) == Some(s) && Orderly(s)
    ensures s.replicas.Keys == FOUR && s.snapshots == [[c], [c, d], [a], [a]]
    ensures s.replicas["0"] == NewReplica("0") && s.replicas["2"].log == [c, d] && s.replicas["1"].log == [a]
    ensures s.replicas["1"].site.clock == Join(map["1" := 0], map["3" := 1])
    ensures c.id == LogicalId("2", map["2" := 1]) && d.id == LogicalId("2", map["2" := 2])
    ensures a.id == LogicalId("3", map["3" := 1]) && a.opType == Insertion && c.opType == Insertion && Ordered(c, d)
  {
    var run := FirstSix();
    SixUnfold();
    FourStart();
    hide Orderly, Next, WellTaken, Start, FirstSix, Execute, Admissible, Ordered, Join, Merge;
    var s3;
    c, d, a, s3 := ThreeWrites();
    SortedOne(a);
    s := DeliverStep(s3, "1", 2);
    DeliverOne(s3, "1", 2, a);
    MergeOne(a);
    ExecuteMore(FOUR, run[..3], Deliver("1", 2));
  }

  /** 1 writes before it. */
  lemma OneReplies() returns (c: WootOperation, d: WootOperation, a: WootOperation, b: WootOperation, s: System)
    ensures Admissible(FOUR, FirstSix()[..5]) && Execute(FOUR, FirstSix()[..5]) == Some(s) && Orderly(s)
    ensures s.replicas.Keys == FOUR && s.snapshots == [[c], [c, d], [a], [a], [a, b]]
    ensures s.replicas["0"] == NewReplica("0") && s.replicas["2"].log == [c, d] && Names(c, d, a, b)
    ensures Ordered(c, d) && Ordered(a, b)
    ensures c.opType == Insertion && b.opType == Insertion && b.character.nextId == CharId("3", 1)
  {
    var run := FirstSix();
    SixUnfold();
    FourStart();
    hide Orderly, Next, WellTaken, Start, FirstSix, Execute, Admissible, Generate, Ordered, Join, Tick, Merge;
    var s4;
    c, d, a, s4 := OneLearns();
    SecondClock();
    b, s := InsertStep(s4, "1");
    FirstReply(s4, "1", a);
    assert s4.replicas["1"].log == [a] && s.replicas["1"].log == [a, b];
    ExecuteMore(FOUR, run[..4], InsertAtStart("1"));
  }

  /** 2 learns what 3 and 1 wrote: its log lists b, whose cause is a, before a. */
  lemma TwoLearns() returns (c: WootOperation, d: WootOperation, a: WootOperation, b: WootOperation, s: System)
    ensures Admissible(FOUR, FirstSix()) && Execute(FOUR, FirstSix()) == Some(s) && Orderly(s)
    ensures s.replicas.Keys == FOUR && |s.snapshots| == 6
    ensures s.snapshots[0] == [c] && s.snapshots[5] == [b, c, d, a]
    ensures s.replicas["0"] == NewReplica("0") && HappenedBefore(a.id, b.id) && Names(c, d, a, b)
    ensures c.opType == Insertion && b.opType == Insertion && b.character.nextId == CharId("3", 1)
  {
    var run := FirstSix();
    SixUnfold();
    FourStart();
    hide Orderly, Next, WellTaken, Start, FirstSix, Execute, Admissible, Generate, Ordered, Merge, SortedLog, HappenedBefore;
    var s5;
    c, d, a, b, s5 := OneReplies();
    FourOrders(c, d, a, b);
    SortedPair(c, d);
    SortedPair(a, b);
    s := DeliverStep(s5, "2", 4);
    EffectLandsFirst(c, d, a, b);
    ExecuteMore(FOUR, run[..5], Deliver("2", 4));
  }

  /** The first operation of a closed log of one refers to limiters only. */
  lemma FirstRefersToLimiters(s: System, c: WootOperation)
    requires Orderly(s) && LogHolds(s.past, [c]) && c.opType == Insertion
    ensures IsLimiterId(c.character.previousId) && IsLimiterId(c.character.nextId)
    ensures c.character.id == CharId(c.id.siteId, c.id.LogicalClock())
  {
    assert c in Elements([c]) && Elements([c]) == {c};
    assert Grounded(s.past, c);
    OrderlyOps(s);
    assert ClockOk(s.past, c);
    assert s.past[c] == {};
  }

  /** A queue of which nothing is executable never drains. */
  lemma NothingDrains(st: SiteState, n: nat)
    requires st.pending != [] && AllBlocked(st.text, st.pending)
    ensures DrainWithin(st, n) == None
  {
    FirstExecutableIsFirst(st.text, st.pending, 0);
  }

  /** An empty site that first receives what it cannot execute and then what it can, without effect on the former. */
  lemma NewcomerIsStuck(site: string, b: WootOperation, c: WootOperation, rest: Log)
    requires b.opType == Insertion && c.opType == Insertion && ProperId(b.character.nextId)
    requires c.character.id != b.character.nextId && IsLimiterId(c.character.previousId) && IsLimiterId(c.character.nextId)
    ensures UpdateState(NewReplica(site), Wrap([b, c] + rest)) == None
  {
    var st, w := NewSite(site), [b, c] + rest;
    var st1 := st.(pending := [b]);
    LimitersPresent(st.text);
    assert !Contains(st.text, b.character.nextId) && !Executable(st.text, b) && Executable(st.text, c);
    AbsorbFirst([], st, [], w);
    assert w[1..] == [c] + rest;
    assert st.pending + [b] == [b];
    hide Contains, Integrate, Join;
    assert Receive(st, b) == Some(st1);
    if Integrate(st.text, c).Some? {
      var st2 := st1.(clock := Join(st.clock, c.id.clock), text := Integrate(st.text, c).value);
      StaysAbsent(st.text, c, b.character.nextId);
      assert AllBlocked(st2.text, st2.pending);
      forall n: nat ensures DrainWithin(st2, n) == None {
        NothingDrains(st2, n);
      }
      assert Drain(st2) == None;
    }
    AbsorbFirst([], st1, InsertOp([], b), w[1..]);
  }

  /**
   * In this run every step so far is safe; now the log of site 2 arrives at site 0, which has
   * heard of nothing, and the delivery never returns.
   */
  lemma NewcomerNeverReturns() returns (s: System, b: WootOperation, c: WootOperation, d: WootOperation, a: WootOperation)
    ensures Admissible(FOUR, FirstSix()) && Execute(FOUR, FirstSix()) == Some(s) && Allowed(s, Deliver("0", 5))
    ensures s.replicas["0"] == NewReplica("0") && s.snapshots[5] == [b, c, d, a] && HappenedBefore(a.id, b.id)
    ensures Next(s, Deliver("0", 5)) == None
  {
    hide FirstSix, Execute, Admissible, Next, Orderly, HappenedBefore;
    c, d, a, b, s := TwoLearns();
    assert "0" in s.replicas by { FourStart(); }
    assert LogHolds(s.past, [c]) by { HeldLogHolds(s, 0); }
    FirstRefersToLimiters(s, c);
    hide UpdateState, NewReplica;
    assert [b, c] + [d, a] == [b, c, d, a];
    NewcomerIsStuck("0", b, c, [d, a]);
    DeliveryOutcome(s, "0", 5);
  }

  lemma HeldLogHolds(s: System, k: nat)
    requires Orderly(s) && k < |s.snapshots|
    ensures LogHolds(s.past, s.snapshots[k])
  {
  }
}
