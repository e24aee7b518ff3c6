/** Local edits keep a system in good order (cvrdt/site.go). */
module OrderlyEdits {
  import opened Identifiers
  import opened TextSequence
  import opened Clocks
  import opened Operations
  import opened OperationLog
  import opened Convergence
  import opened Replica
  import opened LocalEdits
  import opened PendingQueue
  import opened CausalHistory
  import opened Runs
  import opened Arrivals
  import opened OrderlySystems

  // ---------------------------------------------------------------- local edits

  /** An edit of the document: an insertion, unless its position is negative, is inside it and is no limiter string. */
  predicate InDocument(s: System, site: string, edit: LocalOperation)
    requires site in s.replicas
  {
    edit.opType == Insertion && edit.pos >= 0 ==>
      && edit.pos <= |Values(s.replicas[site].site.text)|
      && edit.content != START_STRING && edit.content != END_STRING
  }

  /** The identifier of a site's next character is fresh and no limiter's. */
  lemma NextIdIsFresh(s: System, site: string)
    requires Orderly(s) && site in s.replicas && Get(s.replicas[site].site.clock, site) < MAX_VALUE - 1
    ensures s.replicas[site].site.siteId == site && NonNegative(s.replicas[site].site.clock)
    ensures CanIssue(s.replicas[site].site) && NextId(s.replicas[site].site) !in UniverseOf(s.trace)
  {
    var r, u := s.replicas[site], UniverseOf(s.trace);
    LoggedIsValid(s, site);
    assert ReplicaHolds(s.past, u, r);
    var id := NextId(r.site);
    forall a | a in s.past && a.opType == Insertion ensures a.character.id != id {
      assert Grounded(s.past, a);
      OwnCountIsLargest(s, site, a);
    }
    assert id !in Inserted(s.past.Keys) && Inserted(Elements(r.log)) <= Inserted(s.past.Keys);
    hide Sound, Inserted;
    assert 0 <= Get(r.site.clock, site);
    AbsentUnlessIn(u, r.site.text, Inserted(Elements(r.log)), Removed(Elements(r.log)), id);
  }

  lemma OwnCountIsLargest(s: System, site: string, a: WootOperation)
    requires Sound(s) && site in s.replicas && a in s.past
    ensures a.id.siteId == site ==> a.id.LogicalClock() <= Get(s.replicas[site].site.clock, site)
  {
    assert IssuedOk(HistoryOf(s), a);
  }

  /** An edit of the document is refused with an error or issues an operation its own text accepts. */
  lemma EditIsValid(s: System, site: string, edit: LocalOperation)
    requires Orderly(s) && Allowed(s, Edit(site, edit)) && InDocument(s, site, edit)
    ensures var st, g, u := s.replicas[site].site, Generate(s.replicas[site].site, edit), UniverseOf(s.trace);
            && !g.Endless?
            && (edit.opType == Insertion && edit.pos >= 0 ==> g.Generated?)
            && (g.Generated? ==>
                  && ApplyOp(st.text, g.op) == Some(g.st.text) && CarriesNeighbours(u, g.op)
                  && (g.op.opType == Insertion ==>
                        && g.op.character.id == NextId(st) && g.op.character.id !in u
                        && g.op.character.visible && !g.op.character.IsSpecial()
                        && Lawful(Record(u, g.op.character, |s.trace|), g.op.character)
                        && BornBefore(Record(u, g.op.character, |s.trace|), |s.trace| + 1)))
  {
    var st, u := s.replicas[site].site, UniverseOf(s.trace);
    NextIdIsFresh(s, site);
    assert ReplicaHolds(s.past, u, s.replicas[site]);
    hide Sound, GenerateIns;
    if edit.opType == Insertion {
      if edit.pos >= 0 {
        GenerateInsIsValid(u, |s.trace|, st, edit.pos, edit.content);
        GenerateInsRefinesList(u, |s.trace|, st, edit.pos, edit.content);
      } else {
        NothingToInsert(st, edit.pos, edit.content);
      }
    } else if edit.pos >= 0 && |Values(st.text)| > 0 {
      GenerateDelRefinesList(u, st, edit.pos);
    }
  }

  /** The universe after one more operation. */
  lemma UniverseGrows(trace: Log, op: WootOperation)
    ensures UniverseOf(trace + [op]) ==
            if op.opType == Insertion then Record(UniverseOf(trace), op.character, |trace|) else UniverseOf(trace)
  {
    assert (trace + [op])[..|trace|] == trace;
  }

  lemma LawGrows(trace: Log, op: WootOperation)
    requires LawfulHistory(UniverseOf(trace), trace)
    requires op.opType == Insertion ==>
               var u, c := UniverseOf(trace), op.character;
               c.id !in u && Lawful(Record(u, c, |trace|), c) && BornBefore(Record(u, c, |trace|), |trace| + 1)
    ensures LawfulHistory(UniverseOf(trace + [op]), trace + [op])
  {
    var ops := trace + [op];
    UniverseGrows(trace, op);
    if op.opType == Insertion {
      RecordKeepsLawfulHistory(UniverseOf(trace), trace, op, UniverseOf(ops));
    } else {
      DeletionExtends(UniverseOf(trace), trace, op);
    }
  }

  lemma CanonicalStays(trace: Log, op: WootOperation, t: Text, ids: set<CharId>, hidden: set<CharId>)
    requires Canonical(UniverseOf(trace), t, ids, hidden)
    requires op.opType == Insertion ==> op.character.id !in UniverseOf(trace) && ProperId(op.character.id)
    ensures Canonical(UniverseOf(trace + [op]), t, ids, hidden)
  {
    UniverseGrows(trace, op);
    if op.opType == Insertion {
      RecordKeepsCanonical(UniverseOf(trace), op.character, |trace|, t, ids, hidden);
    }
  }

  lemma LogStays(past: Past, op: WootOperation, known: Ops, log: Log)
    requires op !in past && LogHolds(past, log)
    ensures LogHolds(past[op := known], log)
  {
  }

  lemma LogGrows(past: Past, log: Log, op: WootOperation)
    requires LogHolds(past, log) && op !in past && forall a :: a in log ==> Ordered(a, op)
    requires op.opType == Insertion ==> op.character.id !in Inserted(Elements(log))
    ensures LogHolds(past[op := Elements(log)], log + [op]) && Elements(log + [op]) == Elements(log) + {op}
  {
    var log2 := log + [op];
    assert Elements(log2) == Elements(log) + {op};
    assert CausallyClosed(past[op := Elements(log)], Elements(log2));
    forall i, j | 0 <= i < j < |log2| ensures InsertDifferent(log2[i], log2[j]) {
      if j < |log| {
        assert InsertDifferent(log[i], log[j]);
      } else {
        assert log[i] in Elements(log);
      }
    }
    if NoInversion(IdsOf(Elements(log2))) {
      PartHasNoInversion(Elements(log2), Elements(log));
      AppendKeepsSorted(log, op);
    }
  }

  lemma AppendKeepsSorted(log: Log, op: WootOperation)
    requires SortedLog(log) && forall a :: a in log ==> Ordered(a, op)
    ensures SortedLog(log + [op])
  {
    var log2 := log + [op];
    forall i, j | 0 <= i < j < |log2| ensures Ordered(log2[i], log2[j]) {
      assert j < |log| ==> Ordered(log[i], log[j]);
    }
  }

  /** With nothing pending, the clock covers the log, and what was executed is what is logged. */
  lemma SettledReplica(s: System, site: string)
    requires Orderly(s) && site in s.replicas
    ensures var r := s.replicas[site];
            && r.site.pending == [] && Executed(r) == Elements(r.log)
            && WithPasts(s.past, Elements(r.log)) == Elements(r.log)
            && forall a :: a in r.log ==> ClockLeq(a.id.clock, r.site.clock)
  {
    var r := s.replicas[site];
    assert ReplicaHolds(s.past, UniverseOf(s.trace), r);
    ReplicaTracks(s, site);
    hide Sound, Canonical;
    assert Elements(r.site.pending) == {};
    ClosedHasPasts(s.past, Elements(r.log));
    forall a | a in r.log ensures ClockLeq(a.id.clock, r.site.clock) {
      assert a in Elements(r.log);
    }
  }

  /** The operation an edit issues, in its log, its site and its past. */
  ghost predicate IssuesWell(s: System, site: string, op: WootOperation, st2: SiteState)
    requires site in s.replicas
  {
    var r, u := s.replicas[site], UniverseOf(s.trace);
    && op !in s.past && ApplyOp(r.site.text, op) == Some(st2.text) && st2.pending == []
    && (forall a :: a in r.log ==> Ordered(a, op))
    && (op.opType == Insertion ==>
          && op.character.id == CharId(op.id.siteId, op.id.LogicalClock()) && op.character.id !in u
          && ProperId(op.character.id) && op.character.visible && !op.character.IsSpecial())
    && LawfulHistory(UniverseOf(s.trace + [op]), s.trace + [op])
    && CarriesNeighbours(UniverseOf(s.trace + [op]), op)
  }

  lemma EditIssuesWell(s: System, site: string, edit: LocalOperation)
    requires Orderly(s) && Allowed(s, Edit(site, edit)) && InDocument(s, site, edit)
    requires Generate(s.replicas[site].site, edit).Generated?
    ensures var g := Generate(s.replicas[site].site, edit);
            && IssuesWell(s, site, g.op, g.st)
            && Merge(s.replicas[site].log, [g.op]) == s.replicas[site].log + [g.op]
  {
    hide Orderly, Generate, UpdateState, HappenedBefore, Lawful, Merge, UniverseOf, CarriesNeighbours, Executed, WithPasts;
    hide LawfulHistory, ApplyOp, Ordered, Record, BornBefore, Sound, Executable;
    var r, g := s.replicas[site], Generate(s.replicas[site].site, edit);
    EditIsValid(s, site, edit);
    NextIdIsFresh(s, site);
    SettledReplica(s, site);
    OrderlyIsSound(s);
    GeneratedLandsLast(s, site, edit);
    GeneratedShape(r.site, edit);
    OrderlyIsSound(s);
    LoggedIsValid(s, site);
    OpIsNew(s, site, g.op);
    TraceIsLawful(s);
    LawGrows(s.trace, g.op);
    StillCarries(s.trace, g.op);
  }

  lemma TraceIsLawful(s: System)
    requires Orderly(s)
    ensures LawfulHistory(UniverseOf(s.trace), s.trace)
  {
  }

  lemma StillCarries(trace: Log, op: WootOperation)
    requires CarriesNeighbours(UniverseOf(trace), op)
    ensures CarriesNeighbours(UniverseOf(trace + [op]), op)
  {
    UniverseGrows(trace, op);
  }

  lemma OpIsNew(s: System, site: string, op: WootOperation)
    requires Sound(s) && site in s.replicas && Get(s.replicas[site].site.clock, site) < MAX_VALUE
    requires op.id == LogicalId(site, Tick(s.replicas[site].site.clock, site))
    ensures op !in s.past
  {
    FreshIsNew(HistoryOf(s), op);
  }

  /** The replica that issued an operation. */
  lemma IssuerHolds(s: System, site: string, op: WootOperation, st2: SiteState)
    requires Orderly(s) && site in s.replicas && IssuesWell(s, site, op, st2)
    ensures var log := s.replicas[site].log;
            ReplicaHolds(s.past[op := Elements(log)], UniverseOf(s.trace + [op]), ReplicaState(st2, log + [op]))
  {
    var r := s.replicas[site];
    var done, u2 := Elements(r.log), UniverseOf(s.trace + [op]);
    IssuedText(s, site, op, st2);
    assert ReplicaHolds(s.past, UniverseOf(s.trace), r);
    assert op.opType == Insertion ==> op.character.id !in Inserted(done) by { NotYetInserted(s, site, op, st2); }
    LogGrows(s.past, r.log, op);
  }

  lemma NotYetInserted(s: System, site: string, op: WootOperation, st2: SiteState)
    requires Orderly(s) && site in s.replicas && IssuesWell(s, site, op, st2)
    ensures op.opType == Insertion ==> op.character.id !in Inserted(Elements(s.replicas[site].log))
  {
    LoggedIsValid(s, site);
    assert Inserted(Elements(s.replicas[site].log)) <= Inserted(Elements(s.trace));
  }

  lemma IssuedText(s: System, site: string, op: WootOperation, st2: SiteState)
    requires Orderly(s) && site in s.replicas && IssuesWell(s, site, op, st2)
    ensures var done := Elements(s.replicas[site].log);
            && DependsOnly(op, Inserted(done)) && ProperId(op.character.id) && PlainText(st2.text)
            && Canonical(UniverseOf(s.trace + [op]), st2.text, Inserted(done + {op}), Removed(done + {op}))
  {
    var r := s.replicas[site];
    var done := Elements(r.log);
    assert ReplicaHolds(s.past, UniverseOf(s.trace), r);
    NotYetInserted(s, site, op, st2);
    hide Sound, TraceHolds, LogHolds;
    AcceptedDepends(UniverseOf(s.trace), r.site.text, done, op);
    CanonicalStays(s.trace, op, r.site.text, Inserted(done), Removed(done));
    assert op in s.trace + [op];
    ApplyKeepsCanonical(UniverseOf(s.trace + [op]), r.site.text, done, op);
    ApplyKeepsPlain(r.site.text, op);
  }

  lemma IssuedTrace(s: System, site: string, op: WootOperation, st2: SiteState)
    requires Orderly(s) && site in s.replicas && IssuesWell(s, site, op, st2)
    ensures var log := s.replicas[site].log;
            var past2 := s.past[op := Elements(log)];
            && past2.Keys == Elements(s.trace + [op])
            && (forall b {:trigger Grounded(past2, b)} :: b in past2 ==> Grounded(past2, b))
            && forall b {:trigger CarriesNeighbours(UniverseOf(s.trace + [op]), b)} :: b in past2 ==>
                 CarriesNeighbours(UniverseOf(s.trace + [op]), b)
  {
    var past2 := s.past[op := Elements(s.replicas[site].log)];
    IssuedText(s, site, op, st2);
    IssuedKeys(s.past, s.trace, op, Elements(s.replicas[site].log));
    forall b | b in s.past ensures CarriesNeighbours(UniverseOf(s.trace + [op]), b) {
      TargetsStay(s, site, op, st2, b);
    }
    hide Sound, Canonical, LawfulHistory, Inserted, DependsOnly, Elements;
    forall b | b in past2 ensures Grounded(past2, b) {
      assert b != op ==> Grounded(s.past, b);
    }
  }

  /** A new insertion is no earlier deletion's target. */
  lemma TargetsStay(s: System, site: string, op: WootOperation, st2: SiteState, b: WootOperation)
    requires Orderly(s) && site in s.replicas && IssuesWell(s, site, op, st2) && b in s.past
    ensures CarriesNeighbours(UniverseOf(s.trace + [op]), b)
  {
    hide Sound, ReplicaHolds, LogHolds;
    UniverseGrows(s.trace, op);
    assert Grounded(s.past, b) && CarriesNeighbours(UniverseOf(s.trace), b);
    if b.opType == Deletion {
      assert b.character.id in Inserted(s.past[b]);
      PastIsIssued(s, b);
      assert Inserted(s.past[b]) <= Inserted(Elements(s.trace));
    }
  }

  lemma PastIsIssued(s: System, b: WootOperation)
    requires Orderly(s) && b in s.past
    ensures s.past[b] <= Elements(s.trace)
  {
    assert ClockOk(s.past, b);
  }

  lemma IssuedKeys(past: Past, trace: Log, op: WootOperation, known: Ops)
    requires past.Keys == Elements(trace)
    ensures past[op := known].Keys == Elements(trace + [op])
  {
    assert Elements(trace + [op]) == Elements(trace) + {op};
  }

  lemma IssuedIsOrderly(s: System, site: string, op: WootOperation, st2: SiteState)
    requires Orderly(s) && site in s.replicas && IssuesWell(s, site, op, st2)
    requires Sound(Issued(s, site, op, ReplicaState(st2, s.replicas[site].log + [op])))
    ensures Orderly(Issued(s, site, op, ReplicaState(st2, s.replicas[site].log + [op])))
  {
    var log := s.replicas[site].log;
    var s2 := Issued(s, site, op, ReplicaState(st2, log + [op]));
    WellIssued(s, site, op, st2);
    hide Sound, Canonical, LogHolds, UniverseOf, LawfulHistory, Grounded, ReplicaHolds, WithPasts, Executed, IssuesWell;
    SettledReplica(s, site);
    IssuedTrace(s, site, op, st2);
    IssuedReplicas(s, site, op, st2);
    IssuedSnapshots(s, site, op, st2);
  }

  lemma IssuedSnapshots(s: System, site: string, op: WootOperation, st2: SiteState)
    requires Orderly(s) && site in s.replicas && IssuesWell(s, site, op, st2)
    ensures var log := s.replicas[site].log;
            var snapshots := s.snapshots + [log + [op]];
            forall k :: 0 <= k < |snapshots| ==> LogHolds(s.past[op := Elements(log)], snapshots[k])
  {
    var log := s.replicas[site].log;
    WellIssued(s, site, op, st2);
    IssuerHolds(s, site, op, st2);
    IssuedLogHolds(s.past[op := Elements(log)], UniverseOf(s.trace + [op]), ReplicaState(st2, log + [op]));
    hide Sound, Canonical, LogHolds, UniverseOf, LawfulHistory, Grounded, ReplicaHolds, IssuesWell;
    forall k | 0 <= k < |s.snapshots| ensures LogHolds(s.past[op := Elements(log)], s.snapshots[k]) {
      LogStays(s.past, op, Elements(log), s.snapshots[k]);
    }
  }

  lemma WellIssued(s: System, site: string, op: WootOperation, st2: SiteState)
    requires site in s.replicas && IssuesWell(s, site, op, st2)
    ensures op !in s.past && LawfulHistory(UniverseOf(s.trace + [op]), s.trace + [op])
  {
  }

  lemma IssuedReplicas(s: System, site: string, op: WootOperation, st2: SiteState)
    requires Orderly(s) && site in s.replicas && IssuesWell(s, site, op, st2)
    ensures var r2 := ReplicaState(st2, s.replicas[site].log + [op]);
            var past2 := s.past[op := Elements(s.replicas[site].log)];
            var t := s.replicas[site := r2];
            forall x {:trigger t[x]} :: x in t ==> ReplicaHolds(past2, UniverseOf(s.trace + [op]), t[x])
  {
    IssuerHolds(s, site, op, st2);
    hide Orderly, IssuesWell, ReplicaHolds, UniverseOf;
    var r2, past2 := ReplicaState(st2, s.replicas[site].log + [op]), s.past[op := Elements(s.replicas[site].log)];
    var t := s.replicas[site := r2];
    forall x | x in t ensures ReplicaHolds(past2, UniverseOf(s.trace + [op]), t[x]) {
      if x != site {
        OtherHolds(s, site, op, st2, x);
      }
    }
  }

  lemma IssuedLogHolds(past: Past, u: Universe, r: ReplicaState)
    requires ReplicaHolds(past, u, r)
    ensures LogHolds(past, r.log)
  {
  }

  lemma OtherHolds(s: System, site: string, op: WootOperation, st2: SiteState, x: string)
    requires Orderly(s) && site in s.replicas && IssuesWell(s, site, op, st2) && x in s.replicas
    ensures ReplicaHolds(s.past[op := Elements(s.replicas[site].log)], UniverseOf(s.trace + [op]), s.replicas[x])
  {
    hide Sound, Canonical, LogHolds, UniverseOf, LawfulHistory, TraceHolds;
    var r := s.replicas[x];
    assert ReplicaHolds(s.past, UniverseOf(s.trace), r);
    LogStays(s.past, op, Elements(s.replicas[site].log), r.log);
    CanonicalStays(s.trace, op, r.site.text, Inserted(Elements(r.log)), Removed(Elements(r.log)));
  }

  /** The system after an edit: an operation issued and logged last, or an error and the log as it was. */
  ghost predicate EditedTo(s: System, site: string, edit: LocalOperation, s2: System)
    requires site in s.replicas
  {
    var r, g := s.replicas[site], Generate(s.replicas[site].site, edit);
    if g.Generated? then s2 == Issued(s, site, g.op, ReplicaState(g.st, r.log + [g.op]))
    else
      g.Refused? &&
      s2 == s.(replicas := s.replicas[site := ReplicaState(g.st, r.log)], snapshots := s.snapshots + [r.log])
  }

  /** An edit of the document always ends, and keeps the invariant, whatever `Compare` makes of it. */
  lemma EditIsSafe(s: System, site: string, edit: LocalOperation)
    requires Orderly(s) && Allowed(s, Edit(site, edit)) && InDocument(s, site, edit)
    ensures Next(s, Edit(site, edit)).Some? && Orderly(Next(s, Edit(site, edit)).value)
    ensures EditedTo(s, site, edit, Next(s, Edit(site, edit)).value)
  {
    var r, g := s.replicas[site], Generate(s.replicas[site].site, edit);
    EditIsValid(s, site, edit);
    EditOutcome(s, site, edit);
    if g.Generated? {
      IssueSound(s, site, edit);
      EditIssuesWell(s, site, edit);
      IssuedIsOrderly(s, site, g.op, g.st);
    } else {
      RefusalIsSafe(s, site, edit);
    }
  }

  lemma RefusalIsSafe(s: System, site: string, edit: LocalOperation)
    requires Orderly(s) && Allowed(s, Edit(site, edit)) && Generate(s.replicas[site].site, edit).Refused?
    ensures Next(s, Edit(site, edit)).Some? && Orderly(Next(s, Edit(site, edit)).value)
  {
    var r, g := s.replicas[site], Generate(s.replicas[site].site, edit);
    RefusalSound(s, site, edit);
    EditOutcome(s, site, edit);
    GeneratedShape(r.site, edit);
    assert ReplicaHolds(s.past, UniverseOf(s.trace), r);
    hide Sound, Generate, UpdateState, Canonical, LogHolds;
    DeliveredIsOrderly(s, Next(s, Edit(site, edit)).value, site);
  }

  /** Every edit ends; it keeps the system in good order exactly when it is an edit of the document. */
  lemma EditIsSafeExactly(s: System, site: string, edit: LocalOperation)
    requires Orderly(s) && Allowed(s, Edit(site, edit))
    ensures Next(s, Edit(site, edit)).Some?
    ensures Orderly(Next(s, Edit(site, edit)).value) <==> InDocument(s, site, edit)
  {
    if InDocument(s, site, edit) {
      EditIsSafe(s, site, edit);
    } else {
      StrayEdit(s, site, edit);
    }
  }

  lemma StrayEdit(s: System, site: string, edit: LocalOperation)
    requires Orderly(s) && Allowed(s, Edit(site, edit)) && !InDocument(s, site, edit)
    ensures Next(s, Edit(site, edit)).Some? && !Orderly(Next(s, Edit(site, edit)).value)
  {
    var r, u := s.replicas[site], UniverseOf(s.trace);
    NextIdIsFresh(s, site);
    assert ReplicaHolds(s.past, u, r);
    var past := edit.pos > |Values(r.site.text)|;
    if past {
      GenerateInsPastEnd(u, r.site, edit.pos, edit.content);
    } else {
      GenerateInsRefinesList(u, |s.trace|, r.site, edit.pos, edit.content);
    }
    var op := Generate(r.site, edit).op;
    assert past || op.character.IsSpecial();
    hide Sound, GenerateIns, UpdateState, Canonical, IthVisible, ApplyInsert, NewChar, Values;
    IssueSound(s, site, edit);
    var s2 := Next(s, Edit(site, edit)).value;
    if past {
      StrayText(s2, site);
    } else {
      assert op in s2.past && !Grounded(s2.past, op);
    }
  }

  /** A replica whose text no universe explains is in no orderly system. */
  lemma StrayText(s: System, site: string)
    requires site in s.replicas && forall v :: !WellFormed(v, s.replicas[site].site.text)
    ensures !Orderly(s)
  {
    hide Sound;
    assert !ReplicaHolds(s.past, UniverseOf(s.trace), s.replicas[site]);
  }

  // ---------------------------------------------------------------- what an edit asks for is what happens

  /**
   * A local edit handed to `UpdateState`. With a position that is not negative, an insertion puts
   * its content at that index of the document, or at its end, unless the content is a limiter's;
   * a deletion takes that index out, or the last, if there is any. Otherwise the error is returned
   * and the document stays. The log gets the one operation that says so, and an error leaves it alone.
   */
  lemma UpdateStateObeysEdit(s: System, site: string, edit: LocalOperation)
    requires Orderly(s) && Allowed(s, Edit(site, edit))
    ensures UpdateState(s.replicas[site], [Local(edit)]).Some?
    ensures var r, (r2, ok) := s.replicas[site], UpdateState(s.replicas[site], [Local(edit)]).value;
            var v, w := Values(r.site.text), Values(r2.site.text);
            && (ok <==> edit.pos >= 0 && (edit.opType == Deletion ==> v != []))
            && (!ok ==> w == v && r2.log == r.log)
            && (ok && edit.opType == Insertion ==>
                  var k := if edit.pos < |v| then edit.pos else |v|;
                  w == if edit.content == "<START>" || edit.content == "<END>" then v
                       else v[..k] + [edit.content] + v[k..])
            && (ok && edit.opType == Deletion ==>
                  var k := if edit.pos < |v| then edit.pos else |v| - 1;
                  w == v[..k] + v[k + 1..])
    ensures var r, (r2, ok) := s.replicas[site], UpdateState(s.replicas[site], [Local(edit)]).value;
            && r2.site.pending == [] && r2.site.siteId == site
            && (ok ==> r2.log != [] && r2.log[..|r2.log| - 1] == r.log
                       && Describes(r.site, edit, r2.log[|r2.log| - 1]))
            && (!ok && edit.opType == Deletion ==> r2.site.clock == r.site.clock)
            && (ok || edit.opType == Insertion ==>
                  && Get(r2.site.clock, site) == Get(r.site.clock, site) + 1
                  && forall x :: x != site ==> Get(r2.site.clock, x) == Get(r.site.clock, x))
  {
    hide Orderly, Generate, UpdateState, WellFormed, PlainText, Values, Tick, UniverseOf, Describes;
    var r := s.replicas[site];
    EditGives(s, site, edit);
    EditObeyed(s, site, edit);
    EditTicks(s, site);
  }

  /** What `UpdateState` makes of the replica, in terms of the generated operation. */
  lemma EditGives(s: System, site: string, edit: LocalOperation)
    requires Orderly(s) && Allowed(s, Edit(site, edit))
    ensures var r, g := s.replicas[site], Generate(s.replicas[site].site, edit);
            && !g.Endless? && g.st.pending == [] && g.st.siteId == site
            && UpdateState(r, [Local(edit)]) ==
                 Some((ReplicaState(g.st, if g.Generated? then r.log + [g.op] else r.log), g.Generated?))
  {
    hide Generate;
    EditSetting(s, site);
    hide Orderly, Sound;
    EditObeyed(s, site, edit);
    EditOutcome(s, site, edit);
    GeneratedShape(s.replicas[site].site, edit);
    NextIdIsFresh(s, site);
    if Generate(s.replicas[site].site, edit).Generated? {
      EditIsLoggedLast(s, site, edit);
    }
  }

  lemma EditObeyed(s: System, site: string, edit: LocalOperation)
    requires Orderly(s) && Allowed(s, Edit(site, edit))
    ensures Obeys(s.replicas[site].site, edit, Generate(s.replicas[site].site, edit))
  {
    hide Orderly, Generate, WellFormed, PlainText, UniverseOf, Obeys;
    NextIdIsFresh(s, site);
    EditSetting(s, site);
    EditIsObeyed(UniverseOf(s.trace), |s.trace|, s.replicas[site].site, edit);
  }

  lemma EditTicks(s: System, site: string)
    requires Orderly(s) && site in s.replicas && Get(s.replicas[site].site.clock, site) < MAX_VALUE
    ensures s.replicas[site].site.siteId == site
    ensures var c := s.replicas[site].site.clock;
            && Get(Tick(c, site), site) == Get(c, site) + 1
            && forall x :: x != site ==> Get(Tick(c, site), x) == Get(c, x)
  {
    EditSetting(s, site);
    hide Orderly;
    LoggedIsValid(s, site);
    TickCovers(s.replicas[site].site.clock, site);
  }

  lemma EditSetting(s: System, site: string)
    requires Orderly(s) && site in s.replicas
    ensures var r, u := s.replicas[site], UniverseOf(s.trace);
            WellFormed(u, r.site.text) && PlainText(r.site.text) && BornBefore(u, |s.trace|) && r.site.pending == []
    ensures Sound(s)
  {
    hide Sound, LawfulOp, WellFormed, PlainText;
    assert ReplicaHolds(s.past, UniverseOf(s.trace), s.replicas[site]);
  }

  lemma EditIsLoggedLast(s: System, site: string, edit: LocalOperation)
    requires Orderly(s) && Allowed(s, Edit(site, edit)) && Generate(s.replicas[site].site, edit).Generated?
    ensures Merge(s.replicas[site].log, [Generate(s.replicas[site].site, edit).op]) ==
            s.replicas[site].log + [Generate(s.replicas[site].site, edit).op]
  {
    EditSetting(s, site);
    SettledReplica(s, site);
    hide Orderly;
    GeneratedLandsLast(s, site, edit);
  }
}
