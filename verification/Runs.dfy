/**
 * Runs of any number of replicas: local edits, and deliveries of any log a replica ever held,
 * late, repeated or out of order (cvrdt/state.go, cvrdt/site.go). Here: what holds of every run
 * whose steps return, however `Compare` orders the operations.
 */
module Runs {
  import opened Identifiers
  import opened TextSequence
  import opened Clocks
  import opened Operations
  import opened OperationLog
  import opened Integration
  import opened Replica
  import opened CausalHistory

  datatype Event =
    | Edit(site: string, edit: LocalOperation)
    | Deliver(site: string, snapshot: nat)

  /** The replicas, what was issued (in order, with what came before it), and every log held so far. */
  datatype System = System(
    replicas: map<string, ReplicaState>,
    trace: Log,
    seen: Past,
    past: Past,
    snapshots: seq<Log>)

  function Start(sites: set<string>): System {
    System(map site | site in sites :: NewReplica(site), [], map[], map[], [])
  }

  /** A delivered log as the input of `UpdateState`. */
  function Wrap(w: Log): (r: seq<CRDTOperation>)
    ensures |r| == |w| && forall i :: 0 <= i < |w| ==> r[i] == Woot(w[i])
  {
    seq(|w|, i requires 0 <= i < |w| => Woot(w[i]))
  }

  /** The operations a replica has issued or executed: those it has logged, but for the pending ones. */
  ghost function Executed(r: ReplicaState): Ops {
    Elements(r.log) - Elements(r.site.pending)
  }

  /** Steps are taken by replicas, below the saturation of their clocks; what is delivered was once held. */
  predicate Allowed(s: System, e: Event) {
    && e.site in s.replicas
    && match e
       case Edit(site, _) => Get(s.replicas[site].site.clock, site) < MAX_VALUE - 1
       case Deliver(_, k) => k < |s.snapshots|
  }

  /** The system after a step; `None` when the step fails or never returns. */
  ghost function Next(s: System, e: Event): Option<System>
    requires Allowed(s, e)
  {
    var r := s.replicas[e.site];
    match e
    case Edit(site, edit) =>
      (match UpdateState(r, [Local(edit)])
       case None => None
       case Some((r2, ok)) =>
         var t := s.(replicas := s.replicas[site := r2], snapshots := s.snapshots + [r2.log]);
         match Generate(r.site, edit)
         case Generated(_, op) =>
           Some(t.(trace := s.trace + [op], seen := s.seen[op := Executed(r)],
                   past := s.past[op := WithPasts(s.past, Executed(r))]))
         case _ => Some(t))
    case Deliver(site, k) =>
      (match UpdateState(r, Wrap(s.snapshots[k]))
       case None => None
       case Some((r2, ok)) =>
         Some(s.(replicas := s.replicas[site := r2], snapshots := s.snapshots + [r2.log])))
  }

  ghost function Execute(sites: set<string>, events: seq<Event>): Option<System> {
    if events == [] then Some(Start(sites))
    else
      match Execute(sites, events[..|events| - 1])
      case None => None
      case Some(s) =>
        var e := events[|events| - 1];
        if Allowed(s, e) then Next(s, e) else None
  }

  // ---------------------------------------------------------------- the history of a run

  ghost function HistoryOf(s: System): History {
    History(s.seen, s.past,
            map site | site in s.replicas :: s.replicas[site].site.clock,
            map site | site in s.replicas :: Executed(s.replicas[site]))
  }

  /** What was executed stays executable; what is pending was logged. */
  ghost predicate ReplicaSound(past: Past, site: string, r: ReplicaState) {
    && r.site.siteId == site
    && Elements(r.site.pending) <= Elements(r.log) <= past.Keys
    && forall op :: op in Executed(r) ==> Executable(r.site.text, op)
  }

  ghost predicate Sound(s: System) {
    && HistoryOk(HistoryOf(s))
    && (forall site {:trigger s.replicas[site]} :: site in s.replicas ==> ReplicaSound(s.past, site, s.replicas[site]))
    && (forall k :: 0 <= k < |s.snapshots| ==> Elements(s.snapshots[k]) <= s.past.Keys)
  }

  lemma StartSound(sites: set<string>)
    ensures Sound(Start(sites))
  {
    var s := Start(sites);
    assert Elements([]) == {};
    NewHistoryOk(sites);
    var h, n := HistoryOf(s), NewHistory(sites);
    assert h.clocks == n.clocks;
    forall site | site in sites ensures h.done[site] == {} {
      assert Executed(s.replicas[site]) == {};
    }
    assert h.done == n.done;
  }

  // ---------------------------------------------------------------- deliveries

  /**
   * A site in the middle of a delivery: of the operations `logged` so far it has executed `done`,
   * at least `before`; the others are pending. Its clock, at least `base`, knows exactly what it has executed.
   */
  ghost predicate Tracks(h: History, base: Clock, before: Ops, logged: Ops, st: SiteState, done: Ops) {
    && SiteKnows(h.past, st.clock, done) && ClockLeq(base, st.clock) && NotAhead(h.clocks, st.clock)
    && before <= done <= logged <= done + Elements(st.pending) && Elements(st.pending) <= logged <= h.past.Keys
    && forall op :: op in done ==> Executable(st.text, op)
  }

  lemma ExecutableStays(s: Text, op: WootOperation, e: WootOperation)
    requires Integrate(s, op).Some? && Executable(s, e)
    ensures Executable(Integrate(s, op).value, e)
  {
    hide Integrate;
    IntegrateKeepsPresent(s, op, e.character.id);
    IntegrateKeepsPresent(s, op, e.character.previousId);
    IntegrateKeepsPresent(s, op, e.character.nextId);
  }

  /** One operation is executed; of the queue nothing else is lost. */
  lemma ExecutionTracks(h: History, base: Clock, before: Ops, logged: Ops, st: SiteState, done: Ops,
                        op: WootOperation, queue: Log)
    requires HistoryOk(h) && Tracks(h, base, before, logged, st, done) && op in h.past
    requires Executable(st.text, op) && Integrate(st.text, op).Some?
    requires Elements(queue) <= Elements(st.pending) + {op} && Elements(st.pending) <= Elements(queue) + {op}
    ensures Tracks(h, base, before, logged + {op},
                   SiteState(st.siteId, Join(st.clock, op.id.clock), Integrate(st.text, op).value, queue), done + {op})
  {
    assert IssuedOk(h, op) && ClockOk(h.past, op);
    JoinKnows(h.past, st.clock, done, op);
    ClockLeqOrder(base, st.clock, Join(st.clock, op.id.clock));
    JoinNotAhead(h.clocks, st.clock, op.id.clock);
    hide SiteKnows, Executable, Integrate, Join, HistoryOk, ClockOk, IssuedOk, ClockLeq, NotAhead;
    forall e | e in done + {op} ensures Executable(Integrate(st.text, op).value, e) {
      ExecutableStays(st.text, op, e);
    }
  }

  lemma JoinNotAhead(clocks: map<string, Clock>, a: Clock, b: Clock)
    requires NotAhead(clocks, a) && NotAhead(clocks, b) && NonNegative(a) && NonNegative(b)
    ensures NotAhead(clocks, Join(a, b))
  {
    JoinIsLeastUpperBound(a, b, b);
  }

  lemma PassElements(q: Log, j: nat)
    requires j < |q|
    ensures Elements(AfterPass(q, j)) <= Elements(q) && Elements(q) <= Elements(AfterPass(q, j)) + {q[j]}
    ensures q[j] in Elements(q)
  {
    assert q == q[..j] + [q[j]] + q[j + 1..];
  }

  lemma PassTracks(h: History, base: Clock, before: Ops, logged: Ops, st: SiteState, done: Ops)
    returns (op: WootOperation)
    requires HistoryOk(h) && Tracks(h, base, before, logged, st, done) && OnePass(st).Some?
    ensures Tracks(h, base, before, logged, OnePass(st).value, done + {op}) && OnePass(st).value.siteId == st.siteId
  {
    hide HistoryOk, SiteKnows;
    var j := FirstExecutable(st.text, st.pending, 0).value;
    op := st.pending[j];
    FoundIsExecutable(st.text, st.pending, 0);
    PassElements(st.pending, j);
    hide AfterPass, Tracks, Executable, Integrate, FirstExecutable;
    assert op in logged && op in h.past by { PendingIsLogged(h, base, before, logged, st, done, op); }
    ExecutionTracks(h, base, before, logged, st, done, op, AfterPass(st.pending, j));
    assert logged + {op} == logged;
  }

  lemma PendingIsLogged(h: History, base: Clock, before: Ops, logged: Ops, st: SiteState, done: Ops,
                        op: WootOperation)
    requires Tracks(h, base, before, logged, st, done) && op in Elements(st.pending)
    ensures op in logged && op in h.past
  {
  }

  lemma {:induction false} FoundIsExecutable(s: Text, q: Log, i: nat)
    requires i <= |q|
    ensures FirstExecutable(s, q, i).Some? ==> Executable(s, q[FirstExecutable(s, q, i).value])
    decreases |q| - i
  {
    if i < |q| && !Executable(s, q[i]) {
      FoundIsExecutable(s, q, i + 1);
    }
  }

  /** A drain that ends has executed everything. */
  lemma {:induction false} DrainTracks(h: History, base: Clock, before: Ops, logged: Ops, st: SiteState,
                                       done: Ops, n: nat)
    requires HistoryOk(h) && Tracks(h, base, before, logged, st, done) && DrainWithin(st, n).Some?
    ensures var st2 := DrainWithin(st, n).value;
            st2.pending == [] && st2.siteId == st.siteId && Tracks(h, base, before, logged, st2, logged)
    decreases n
  {
    hide OnePass, HistoryOk, Tracks;
    if st.pending == [] {
      AllIsDone(h, base, before, logged, st, done);
    } else {
      var op := PassTracks(h, base, before, logged, st, done);
      DrainTracks(h, base, before, logged, OnePass(st).value, done + {op}, n - 1);
    }
  }

  lemma AllIsDone(h: History, base: Clock, before: Ops, logged: Ops, st: SiteState, done: Ops)
    requires Tracks(h, base, before, logged, st, done) && st.pending == []
    ensures done == logged
  {
    assert Elements(st.pending) == {};
  }

  /** `computeExtOp` and the drain behind it: executed, or pending. */
  lemma ReceiveTracks(h: History, base: Clock, before: Ops, logged: Ops, st: SiteState, op: WootOperation)
    requires HistoryOk(h) && Tracks(h, base, before, logged, st, logged - Elements(st.pending))
    requires op in h.past && Receive(st, op).Some?
    ensures var st2 := Receive(st, op).value;
            && st2.siteId == st.siteId
            && Tracks(h, base, before, logged + {op}, st2, logged + {op} - Elements(st2.pending))
  {
    var done := logged - Elements(st.pending);
    if Executable(st.text, op) {
      var st1 := SiteState(st.siteId, Join(st.clock, op.id.clock), Integrate(st.text, op).value, st.pending);
      ExecutionTracks(h, base, before, logged, st, done, op, st.pending);
      hide HistoryOk, Tracks, Integrate, Executable;
      assert Receive(st, op) == Drain(st1);
      var n: nat :| DrainWithin(st1, n).Some? && Drain(st1) == DrainWithin(st1, n);
      DrainTracks(h, base, before, logged + {op}, st1, done + {op}, n);
      assert Elements([]) == {};
      assert logged + {op} - {} == logged + {op};
    } else {
      assert Elements(st.pending + [op]) == Elements(st.pending) + {op};
      assert op !in done;
      assert logged + {op} - Elements(st.pending + [op]) == done;
    }
  }

  /** The loop of `UpdateState` over a delivered list, whatever is in it and in whatever order. */
  lemma {:induction false} AbsorbTracks(h: History, base: Clock, before: Ops, log: Log, st: SiteState, collected: Log,
                                        w: Log, i: nat)
    requires HistoryOk(h) && i <= |w| && Elements(w) <= h.past.Keys && Elements(collected) <= h.past.Keys
    requires var logged := Elements(log) + Elements(collected);
             Tracks(h, base, before, logged, st, logged - Elements(st.pending))
    requires Absorb(log, st, collected, Wrap(w)[i..]).Some?
    ensures var r := Absorb(log, st, collected, Wrap(w)[i..]).value;
            var logged := Elements(log) + Elements(r.1);
            && r.2 && r.0.siteId == st.siteId && Elements(r.1) <= h.past.Keys
            && logged == Elements(log) + Elements(collected) + Elements(w[i..])
            && Tracks(h, base, before, logged, r.0, logged - Elements(r.0.pending))
    decreases |w| - i
  {
    hide HistoryOk, Tracks, ContainsOp, Receive;
    if i == |w| {
      assert w[i..] == [] && Elements([]) == {};
      var e := Elements(log) + Elements(collected);
      assert e + {} == e;
    } else {
      var b, logged := w[i], Elements(log) + Elements(collected);
      assert b in Elements(w);
      assert w[i..] == [b] + w[i + 1..];
      assert Elements(w[i..]) == {b} + Elements(w[i + 1..]);
      assert Wrap(w)[i..][0] == Woot(b) && Wrap(w)[i..][1..] == Wrap(w)[i + 1..];
      assert Elements(log) <= h.past.Keys by { LoggedIsIssued(h, base, before, logged, st); }
      IssuedIsCoherentHere(h);
      if ContainsOp(log, b.id) {
        FoundIsThere(h.past.Keys, log, b);
        AbsorbTracks(h, base, before, log, st, collected, w, i + 1);
        assert b in Elements(log);
      } else {
        ReceiveTracks(h, base, before, logged, st, b);
        InsertAdds(h.past.Keys, collected, b);
        assert logged + {b} == Elements(log) + Elements(InsertOp(collected, b));
        AbsorbTracks(h, base, before, log, Receive(st, b).value, InsertOp(collected, b), w, i + 1);
      }
    }
  }

  lemma LoggedIsIssued(h: History, base: Clock, before: Ops, logged: Ops, st: SiteState)
    requires Tracks(h, base, before, logged, st, logged - Elements(st.pending))
    ensures logged <= h.past.Keys
  {
  }

  lemma IssuedIsCoherentHere(h: History)
    requires HistoryOk(h)
    ensures CoherentOps(h.past.Keys)
  {
    IssuedIsCoherent(h.past);
  }

  /** A replica between two steps is settled: all it has logged is executed or pending. */
  lemma ReplicaTracks(s: System, site: string)
    requires Sound(s) && site in s.replicas
    ensures var r := s.replicas[site];
            && Tracks(HistoryOf(s), r.site.clock, Executed(r), Elements(r.log), r.site, Executed(r))
            && forall a :: a in s.past && a.id.siteId == site ==> a in Executed(r)
  {
    hide SiteKnows, Executable;
    var r := s.replicas[site];
    assert SiteOk(HistoryOf(s), site);
    assert ReplicaSound(s.past, site, r);
    ClockLeqOrder(r.site.clock, r.site.clock, r.site.clock);
  }

  /** A delivered log that is absorbed at all is united with the own, and its operations are executed or pending. */
  lemma DeliveryTracks(s: System, site: string, w: Log)
    requires Sound(s) && site in s.replicas && Elements(w) <= s.past.Keys
    requires UpdateState(s.replicas[site], Wrap(w)).Some?
    ensures var r := s.replicas[site];
            var (r2, ok) := UpdateState(r, Wrap(w)).value;
            && ok && r2.site.siteId == r.site.siteId
            && Elements(r2.log) == Elements(r.log) + Elements(w)
            && Tracks(HistoryOf(s), r.site.clock, Executed(r), Elements(r2.log), r2.site, Executed(r2))
  {
    var r, h := s.replicas[site], HistoryOf(s);
    ReplicaTracks(s, site);
    hide HistoryOk, Tracks, Absorb;
    assert Elements([]) == {} && Wrap(w)[0..] == Wrap(w) && w[0..] == w;
    assert Elements(r.log) + {} == Elements(r.log);
    AbsorbTracks(h, r.site.clock, Executed(r), r.log, r.site, [], w, 0);
    assert Elements(r.log) <= h.past.Keys by { LoggedIsIssued(h, r.site.clock, Executed(r), Elements(r.log), r.site); }
    IssuedIsCoherentHere(h);
    var collected := Absorb(r.log, r.site, [], Wrap(w)).value.1;
    MergeAdds(h.past.Keys, r.log, collected);
  }

  lemma DeliverSound(s: System, site: string, k: nat)
    requires Sound(s) && Allowed(s, Deliver(site, k)) && Next(s, Deliver(site, k)).Some?
    ensures Sound(Next(s, Deliver(site, k)).value)
  {
    var r, w, h := s.replicas[site], s.snapshots[k], HistoryOf(s);
    ReplicaTracks(s, site);
    assert r.site.siteId == site && Elements(w) <= s.past.Keys;
    hide UpdateState, Sound, HistoryOk, Executed;
    DeliveryTracks(s, site, w);
    var r2, s2 := UpdateState(r, Wrap(w)).value.0, Next(s, Deliver(site, k)).value;
    TracksAdvances(h, r.site.clock, Executed(r), r2, site, Executed(r2));
    ReplicaAdvances(s, s2, site, r2);
  }

  lemma TracksAdvances(h: History, base: Clock, before: Ops, r2: ReplicaState, site: string, done: Ops)
    requires Tracks(h, base, before, Elements(r2.log), r2.site, done) && done == Executed(r2) && r2.site.siteId == site
    ensures SiteKnows(h.past, r2.site.clock, done) && ReplicaSound(h.past, site, r2)
    ensures before <= done && forall x :: Get(base, x) <= Get(r2.site.clock, x)
    ensures forall x :: x in h.clocks ==> Get(r2.site.clock, x) <= Get(h.clocks[x], x)
  {
  }

  /** One replica moves on and nothing new is issued. */
  lemma ReplicaAdvances(s: System, s2: System, site: string, r2: ReplicaState)
    requires Sound(s) && site in s.replicas
    requires s2 == s.(replicas := s.replicas[site := r2], snapshots := s.snapshots + [r2.log])
    requires Executed(s.replicas[site]) <= Executed(r2)
    requires Get(s.replicas[site].site.clock, site) <= Get(r2.site.clock, site)
    requires forall x :: x in s.replicas && x != site ==> Get(r2.site.clock, x) <= Get(s.replicas[x].site.clock, x)
    requires SiteKnows(s.past, r2.site.clock, Executed(r2)) && ReplicaSound(s.past, site, r2)
    ensures Sound(s2)
  {
    hide SiteKnows, HistoryOk, Executed, Get;
    AdvanceKeepsOk(HistoryOf(s), site, r2.site.clock, Executed(r2));
    HistoryMoves(s, s2, site, r2);
    hide HistoryOf;
    forall x | x in s2.replicas ensures ReplicaSound(s2.past, x, s2.replicas[x]) {
      assert x != site ==> ReplicaSound(s.past, x, s.replicas[x]);
    }
    assert Elements(r2.log) <= s.past.Keys by { SoundLog(s.past, site, r2); }
  }

  lemma HistoryMoves(s: System, s2: System, site: string, r2: ReplicaState)
    requires site in s.replicas && s2.replicas == s.replicas[site := r2] && s2.seen == s.seen && s2.past == s.past
    ensures var h := HistoryOf(s);
            HistoryOf(s2) == h.(clocks := h.clocks[site := r2.site.clock], done := h.done[site := Executed(r2)])
  {
    hide Executed;
    var h, h2 := HistoryOf(s), HistoryOf(s2);
    assert h2.clocks == h.clocks[site := r2.site.clock];
    assert h2.done == h.done[site := Executed(r2)];
  }

  lemma SoundLog(past: Past, site: string, r: ReplicaState)
    requires ReplicaSound(past, site, r)
    ensures Elements(r.log) <= past.Keys
  {
  }

  // ---------------------------------------------------------------- local edits

  lemma PresentAt(s: Text, i: nat)
    requires i < |s|
    ensures Contains(s, s[i].id)
  {
  }

  /** What an edit generates: the next identifier of the site, and an operation that stays executable there. */
  lemma GeneratedShape(st: SiteState, edit: LocalOperation)
    ensures var g := Generate(st, edit);
            && (g.Generated? ==>
                  && g.op.id == LogicalId(st.siteId, Tick(st.clock, st.siteId))
                  && g.st == st.(clock := g.op.id.clock, text := g.st.text)
                  && Executable(g.st.text, g.op)
                  && forall e :: Executable(st.text, e) ==> Executable(g.st.text, e))
            && (g.Refused? ==> g.st == st || g.st == st.(clock := Tick(st.clock, st.siteId)))
  {
    hide IthVisible, Integrate, PosOf;
    var g := Generate(st, edit);
    if g.Generated? {
      if edit.opType == Insertion {
        PresentAt(st.text, IthVisible(st.text, edit.pos, false).value);
        PresentAt(st.text, IthVisible(st.text, edit.pos + 1, false).value);
        IntegrateKeepsPresent(st.text, g.op, g.op.character.previousId);
        IntegrateKeepsPresent(st.text, g.op, g.op.character.nextId);
        forall e | Executable(st.text, e) ensures Executable(g.st.text, e) {
          ExecutableStays(st.text, g.op, e);
        }
      } else {
        var i := IthVisible(st.text, edit.pos, true).value;
        PresentAt(st.text, i);
        HideKeepsPresent(st.text, i, g.op.character.id);
        forall e | Executable(st.text, e) ensures Executable(g.st.text, e) {
          HideKeepsPresent(st.text, i, e.character.id);
          HideKeepsPresent(st.text, i, e.character.previousId);
          HideKeepsPresent(st.text, i, e.character.nextId);
        }
      }
    }
  }

  lemma AbsorbLocal(log: Log, st: SiteState, edit: LocalOperation)
    requires !ContainsOp(log, Local(edit).OpId())
    ensures Absorb(log, st, [], [Local(edit)]) ==
            match Generate(st, edit)
            case Generated(st1, op) => Some((st1, [op], true))
            case Refused(st1) => Some((st1, [], false))
            case Endless => None
  {
    var ops := [Local(edit)];
    assert ops[1..] == [];
    match Generate(st, edit)
    case Generated(st1, op) =>
      assert InsertOp([], op) == [op];
      assert Absorb(log, st1, [op], ops[1..]) == Some((st1, [op], true));
    case _ =>
  }

  lemma LocalIsNeverKnown(log: Log, edit: LocalOperation)
    requires forall a :: a in log ==> ValidId(a.id)
    ensures !ContainsOp(log, Local(edit).OpId())
  {
    var id := Local(edit).OpId();
    SearchFindsSame(log, id, 0, |log|);
    assert id.LogicalClock() == 0;
  }

  /** What a local edit makes of its replica: an operation merged into the log, or an error. */
  lemma EditOutcome(s: System, site: string, edit: LocalOperation)
    requires Sound(s) && Allowed(s, Edit(site, edit))
    ensures var r, g := s.replicas[site], Generate(s.replicas[site].site, edit);
            UpdateState(r, [Local(edit)]) ==
            if g.Generated? then Some((ReplicaState(g.st, Merge(r.log, [g.op])), true))
            else if g.Refused? then Some((ReplicaState(g.st, r.log), false))
            else None
  {
    var r := s.replicas[site];
    LoggedIsValid(s, site);
    hide Sound, Generate;
    LocalIsNeverKnown(r.log, edit);
    AbsorbLocal(r.log, r.site, edit);
  }

  lemma LoggedIsValid(s: System, site: string)
    requires Sound(s) && site in s.replicas
    ensures s.replicas[site].site.siteId == site && NonNegative(s.replicas[site].site.clock)
    ensures forall a :: a in s.replicas[site].log ==> a in s.past && ValidId(a.id)
    ensures AllClocksOk(s.past) && CoherentOps(s.past.Keys) && Elements(s.replicas[site].log) <= s.past.Keys
  {
    assert ReplicaSound(s.past, site, s.replicas[site]);
    assert SiteOk(HistoryOf(s), site);
    IssuedIsCoherent(s.past);
    forall a | a in s.replicas[site].log ensures a in s.past && ValidId(a.id) {
      assert a in Elements(s.replicas[site].log);
      assert ClockOk(s.past, a);
    }
  }

  lemma EditSound(s: System, site: string, edit: LocalOperation)
    requires Sound(s) && Allowed(s, Edit(site, edit)) && Next(s, Edit(site, edit)).Some?
    ensures Sound(Next(s, Edit(site, edit)).value)
  {
    EditOutcome(s, site, edit);
    LoggedIsValid(s, site);
    if Generate(s.replicas[site].site, edit).Generated? {
      IssueSound(s, site, edit);
    } else {
      RefusalSound(s, site, edit);
    }
  }

  lemma RefusalSound(s: System, site: string, edit: LocalOperation)
    requires Sound(s) && Allowed(s, Edit(site, edit)) && Generate(s.replicas[site].site, edit).Refused?
    ensures Next(s, Edit(site, edit)).Some? && Sound(Next(s, Edit(site, edit)).value)
  {
    var r, g := s.replicas[site], Generate(s.replicas[site].site, edit);
    var r2 := ReplicaState(g.st, r.log);
    EditOutcome(s, site, edit);
    LoggedIsValid(s, site);
    ReplicaTracks(s, site);
    GeneratedShape(r.site, edit);
    hide Sound, UpdateState, Generate, HistoryOk, Executable;
    TracksAdvances(HistoryOf(s), r.site.clock, Executed(r), r, site, Executed(r));
    TickCovers(r.site.clock, site);
    TickKnows(s.past, r.site.clock, Executed(r), site);
    hide SiteKnows;
    assert Executed(r2) == Executed(r);
    assert ReplicaSound(s.past, site, r2);
    ReplicaAdvances(s, Next(s, Edit(site, edit)).value, site, r2);
  }

  /** `site` has issued `op` and become `r2`. */
  ghost function Issued(s: System, site: string, op: WootOperation, r2: ReplicaState): System
    requires site in s.replicas
  {
    System(s.replicas[site := r2], s.trace + [op], s.seen[op := Executed(s.replicas[site])],
           s.past[op := WithPasts(s.past, Executed(s.replicas[site]))], s.snapshots + [r2.log])
  }

  lemma IssueSound(s: System, site: string, edit: LocalOperation)
    requires Sound(s) && Allowed(s, Edit(site, edit)) && Generate(s.replicas[site].site, edit).Generated?
    ensures var r, g := s.replicas[site], Generate(s.replicas[site].site, edit);
            var s2 := Issued(s, site, g.op, ReplicaState(g.st, Merge(r.log, [g.op])));
            Next(s, Edit(site, edit)) == Some(s2) && Sound(s2)
  {
    var r, g := s.replicas[site], Generate(s.replicas[site].site, edit);
    var r2 := ReplicaState(g.st, Merge(r.log, [g.op]));
    EditOutcome(s, site, edit);
    LoggedIsValid(s, site);
    GeneratedShape(r.site, edit);
    hide UpdateState, Generate, Merge, Sound, HistoryOk, Executable, WithPasts;
    assert Possible(HistoryOf(s), Issue(g.op));
    IssueIsStep(s, site, g.op, r2);
    IssuedIsSound(s, site, g.op, r2);
  }

  lemma IssuedIsSound(s: System, site: string, op: WootOperation, r2: ReplicaState)
    requires Sound(s) && site in s.replicas && op !in s.past && r2.site.siteId == site
    requires HistoryOk(HistoryOf(Issued(s, site, op, r2)))
    requires Elements(r2.log) == Elements(s.replicas[site].log) + {op}
    requires Executed(r2) == Executed(s.replicas[site]) + {op}
    requires r2.site.pending == s.replicas[site].site.pending && Executable(r2.site.text, op)
    requires forall e :: Executable(s.replicas[site].site.text, e) ==> Executable(r2.site.text, e)
    ensures Sound(Issued(s, site, op, r2))
  {
    hide HistoryOk, Executed, Executable, HistoryOf, WithPasts;
    var s2 := Issued(s, site, op, r2);
    assert ReplicaSound(s.past, site, s.replicas[site]);
    forall x | x in s2.replicas ensures ReplicaSound(s2.past, x, s2.replicas[x]) {
      assert x != site ==> ReplicaSound(s.past, x, s.replicas[x]);
    }
  }

  /** Issuing an operation is a step of the history. */
  lemma IssueIsStep(s: System, site: string, op: WootOperation, r2: ReplicaState)
    requires Sound(s) && site in s.replicas && Possible(HistoryOf(s), Issue(op)) && op.id.siteId == site
    requires r2.log == Merge(s.replicas[site].log, [op]) && r2.site.clock == op.id.clock
    requires r2.site.pending == s.replicas[site].site.pending
    ensures HistoryOk(HistoryOf(Issued(s, site, op, r2))) && op !in s.past
    ensures Elements(r2.log) == Elements(s.replicas[site].log) + {op}
    ensures Executed(r2) == Executed(s.replicas[site]) + {op}
  {
    var h, r := HistoryOf(s), s.replicas[site];
    LoggedIsValid(s, site);
    assert ReplicaSound(s.past, site, r);
    FreshIsNew(h, op);
    IssueKeepsOk(h, op);
    hide HistoryOk, Sound, WithPasts;
    IssuedIsCoherentHere(After(h, Issue(op)));
    assert Elements([op]) == {op};
    MergeAdds(After(h, Issue(op)).past.Keys, r.log, [op]);
    hide Merge;
    assert Executed(r2) == Executed(r) + {op};
    HistoryIssues(s, site, op, r2);
  }

  lemma HistoryIssues(s: System, site: string, op: WootOperation, r2: ReplicaState)
    requires site in s.replicas && op.id.siteId == site && Possible(HistoryOf(s), Issue(op))
    requires r2.site.clock == op.id.clock && Executed(r2) == Executed(s.replicas[site]) + {op}
    ensures HistoryOf(Issued(s, site, op, r2)) == After(HistoryOf(s), Issue(op))
  {
    hide Executed, WithPasts;
    var h, h2 := HistoryOf(Issued(s, site, op, r2)), After(HistoryOf(s), Issue(op));
    hide Possible, Issued;
    assert h.clocks == h2.clocks;
    assert h.done == h2.done;
  }

  // ---------------------------------------------------------------- every run

  lemma StepSound(s: System, e: Event)
    requires Sound(s) && Allowed(s, e) && Next(s, e).Some?
    ensures Sound(Next(s, e).value) && Next(s, e).value.replicas.Keys == s.replicas.Keys
  {
    match e
    case Edit(site, edit) => EditSound(s, site, edit);
    case Deliver(site, k) => DeliverSound(s, site, k);
  }

  lemma {:induction false} RunsAreSound(sites: set<string>, events: seq<Event>)
    requires Execute(sites, events).Some?
    ensures Sound(Execute(sites, events).value) && Execute(sites, events).value.replicas.Keys == sites
    decreases |events|
  {
    hide Sound, Next, Allowed;
    if events == [] {
      StartSound(sites);
    } else {
      RunsAreSound(sites, events[..|events| - 1]);
      StepSound(Execute(sites, events[..|events| - 1]).value, events[|events| - 1]);
    }
  }

  /** A system that some run leads to, with nothing said about the steps except that they returned. */
  ghost predicate Arisen(s: System) {
    exists sites, events :: Execute(sites, events) == Some(s)
  }

  lemma ArisenIsSound(s: System)
    requires Arisen(s)
    ensures Sound(s)
  {
    var sites, events :| Execute(sites, events) == Some(s);
    RunsAreSound(sites, events);
  }

  /**
   * In every run `HappenedBefore` is exactly transitive causality: also when `Compare` runs in
   * circles, when logs are out of order, and when operations wait in queues.
   */
  lemma RunClocksTellCausality(s: System, a: WootOperation, b: WootOperation)
    requires Arisen(s) && a in s.past && b in s.past
    ensures HappenedBefore(a.id, b.id) <==> exists chain :: ChainBetween(s.seen, chain, a, b)
    ensures HappenedBefore(a.id, b.id) <==> a in s.past[b]
  {
    hide HappenedBefore, ChainBetween;
    ArisenIsSound(s);
    HappenedBeforeIsCausality(HistoryOf(s), a, b);
    HappenedBeforeIsPast(s.past, a, b);
  }

  /** In every run, what is logged is pending or covered by the clock. */
  lemma LoggedIsPendingOrCovered(s: System, site: string, a: WootOperation)
    requires Arisen(s) && site in s.replicas && a in s.replicas[site].log
    ensures a in s.replicas[site].site.pending || ClockLeq(a.id.clock, s.replicas[site].site.clock)
  {
    ArisenIsSound(s);
    ReplicaTracks(s, site);
    var r := s.replicas[site];
    assert a in Elements(r.log);
    if a !in r.site.pending {
      assert a in Executed(r) && a in WithPasts(s.past, Executed(r));
    }
  }

  /** The next event of a site comes after every operation its clock covers. */
  lemma LaterAtSite(c: Clock, site: string, a: LogicalId)
    requires ValidId(a) && NonNegative(c) && ClockLeq(a.clock, c) && Get(c, site) < MAX_VALUE
    ensures var id := LogicalId(site, Tick(c, site));
            ValidId(id) && HappenedBefore(a, id) && !SameOperation(a, id)
  {
    var id := LogicalId(site, Tick(c, site));
    TickCovers(c, site);
    ClockLeqOrder(a.clock, c, id.clock);
    assert Get(a.clock, site) <= Get(c, site) < Get(id.clock, site);
    HappenedBeforeMeaning(a, id);
    assert Get(a.clock, a.siteId) <= Get(c, a.siteId);
  }

  /**
   * In every run, with no operation pending, a freshly generated operation is causally after the
   * whole log, so it lands at the last index, be the log in order or not.
   */
  lemma FreshOperationLandsLast(s: System, site: string, edit: LocalOperation)
    requires Arisen(s) && Allowed(s, Edit(site, edit)) && s.replicas[site].site.pending == []
    requires Generate(s.replicas[site].site, edit).Generated?
    ensures var r, g := s.replicas[site], Generate(s.replicas[site].site, edit);
            && UpdateState(r, [Local(edit)]) == Some((ReplicaState(g.st, r.log + [g.op]), true))
            && forall a :: a in r.log ==> HappenedBefore(a.id, g.op.id)
  {
    var r, g := s.replicas[site], Generate(s.replicas[site].site, edit);
    ArisenIsSound(s);
    forall a | a in r.log ensures ClockLeq(a.id.clock, r.site.clock) {
      LoggedIsPendingOrCovered(s, site, a);
    }
    hide Arisen;
    GeneratedLandsLast(s, site, edit);
  }

  lemma GeneratedLandsLast(s: System, site: string, edit: LocalOperation)
    requires Sound(s) && Allowed(s, Edit(site, edit)) && Generate(s.replicas[site].site, edit).Generated?
    requires forall a :: a in s.replicas[site].log ==> ClockLeq(a.id.clock, s.replicas[site].site.clock)
    ensures var r, g := s.replicas[site], Generate(s.replicas[site].site, edit);
            && UpdateState(r, [Local(edit)]) == Some((ReplicaState(g.st, r.log + [g.op]), true))
            && Merge(r.log, [g.op]) == r.log + [g.op]
            && forall a :: a in r.log ==> HappenedBefore(a.id, g.op.id) && Ordered(a, g.op)
  {
    var r, g := s.replicas[site], Generate(s.replicas[site].site, edit);
    EditOutcome(s, site, edit);
    LoggedIsValid(s, site);
    GeneratedShape(r.site, edit);
    hide Sound, UpdateState, Generate, HappenedBefore, Executable;
    forall a | a in r.log ensures HappenedBefore(a.id, g.op.id) && Ordered(a, g.op) {
      LaterAtSite(r.site.clock, site, a.id);
    }
    LandsLast(r.log, g.op);
    assert [g.op][1..] == [];
    assert Merge(r.log, [g.op]) == r.log + [g.op];
  }
}
