/** The graphs that replicas of one run draw (history/dag.go), and what they tell about the run. */
module RunGraphs {
  import opened Identifiers
  import opened Operations
  import opened OperationLog
  import opened Convergence
  import opened OperationNames
  import opened CausalHistory
  import opened Runs
  import opened OrderlySystems
  import opened SafeRuns
  import opened InversionRun
  import opened CausalDag
  import opened DagLayers
  import opened DagGraphs
  import opened DagMeaning

  /** In a run, a name stands for one operation. */
  lemma IssuedAreNodes(past: Past, u: Ops)
    requires AllClocksOk(past) && u <= past.Keys
    ensures DagNodes(u)
  {
    IssuedIsCoherent(past);
    forall a | a in u ensures ValidId(a.id) {
      assert ClockOk(past, a);
    }
    forall a, b | a in u && b in u ensures NamedApart(a, b) {
      assert a.id in IdsOf(past.Keys) && b.id in IdsOf(past.Keys);
      assert CausalAtSite(a.id, b.id) && SameIdSameOp(a, b);
    }
  }

  /** A log of any run can be drawn, be it out of order or with repeats. */
  lemma RunLogsCanBeDrawn(s: System, site: string)
    requires Arisen(s) && site in s.replicas
    ensures DagLog(s.replicas[site].log)
  {
    ArisenIsSound(s);
    LoggedIsValid(s, site);
    IssuedAreNodes(s.past, Elements(s.replicas[site].log));
  }

  /** In a safe run a log without inversions lists nothing twice, so its graph can be layered. */
  lemma SafeLogsCanBeLayered(s: System, site: string)
    requires Reachable(s) && site in s.replicas && NoInversion(IdsOf(Elements(s.replicas[site].log)))
    ensures NoDuplicates(s.replicas[site].log) && !RepeatsNeighbour(s.replicas[site].log)
  {
    var log := s.replicas[site].log;
    ReachableIsOrderly(s);
    SortedExactly(s, site);
    LoggedIsValid(s, site);
    hide Orderly, DagNodes, CoherentOps, NoInversion, Arisen, Reachable;
    forall i, j | 0 <= i < j < |log| ensures log[i] != log[j] {
      SortedHasNoRepeat(s.past.Keys, log, j);
      assert log[..j][i] == log[i];
    }
    NothingRepeats(log);
  }

  lemma NothingRepeats(log: Log)
    requires NoDuplicates(log)
    ensures !RepeatsNeighbour(log)
  {
    hide Times, Direct;
    forall a, b | Direct(Elements(log), a, b) ensures ListedOnce(log, a, b) {
      DirectIsEarlier(Elements(log), a, b);
      ListedOnceOnly(log, a);
      ListedOnceOnly(log, b);
      AllTimes(log, a);
      AllTimes(log, b);
    }
  }

  /** In a graph drawn during any run, edges lead exactly from transitive causes to their effects. */
  lemma RunGraphShowsCausality(s: System, site: string, g: Drawing, a: WootOperation, b: WootOperation)
    requires Arisen(s) && site in s.replicas && Graph(s.replicas[site].log, g)
    requires a in s.replicas[site].log && b in s.replicas[site].log
    ensures (exists p :: DrawnPath(g.edges, p, Name(a.id), Name(b.id))) <==>
            exists chain :: ChainBetween(s.seen, chain, a, b)
  {
    hide Name, Graph, Arisen, ChainBetween, DrawnPath;
    var log := s.replicas[site].log;
    assert a in s.past && b in s.past by { ArisenIsSound(s); LoggedIsValid(s, site); }
    RunClocksTellCausality(s, a, b);
    NodeEdges(log, g, a);
    NodeEdges(log, g, b);
    DrawnEdgesReachExactlyCausality(log, g, Name(a.id), Name(b.id));
  }

  /** In any run, `Equals` between two replicas' graphs decides whether their logs hold the same operations. */
  lemma RunGraphsEqualExactly(s: System, x: string, g1: Drawing, y: string, g2: Drawing)
    requires Arisen(s) && x in s.replicas && y in s.replicas
    requires Graph(s.replicas[x].log, g1) && Graph(s.replicas[y].log, g2)
    ensures SameGraph(g1, g2) <==> Elements(s.replicas[x].log) == Elements(s.replicas[y].log)
  {
    hide Graph, SameGraph, DagNodes, Arisen;
    ArisenIsSound(s);
    LoggedIsValid(s, x);
    LoggedIsValid(s, y);
    IssuedAreNodes(s.past, Elements(s.replicas[x].log) + Elements(s.replicas[y].log));
    EqualsDecidesOperations(s.replicas[x].log, g1, s.replicas[y].log, g2);
  }

  /** So in a safe run equal graphs mean equal documents, and without inversions equal logs. */
  lemma EqualGraphsMeanEqualTexts(s: System, x: string, g1: Drawing, y: string, g2: Drawing)
    requires Reachable(s) && x in s.replicas && y in s.replicas
    requires Graph(s.replicas[x].log, g1) && Graph(s.replicas[y].log, g2) && SameGraph(g1, g2)
    ensures SameText(s.replicas[x].site.text, s.replicas[y].site.text)
    ensures NoInversion(IdsOf(Elements(s.replicas[x].log))) ==> s.replicas[x].log == s.replicas[y].log
  {
    hide Graph, SameGraph, NoInversion, SameText, Reachable;
    ReachableIsOrderly(s);
    hide Arisen, Orderly;
    RunGraphsEqualExactly(s, x, g1, y, g2);
    ReplicasConverge(s, x, y);
  }

  /** After the redelivery of InversionRun.dfy the log of site 2 cannot be layered: `GetTopologicalLayers` panics. */
  lemma RedeliveredLogCannotBeLayered() returns (s: System, t: System)
    ensures Admissible(THREE, CircleRun()) && Execute(THREE, CircleRun()) == Some(s) && Allowed(s, Deliver("2", 0))
    ensures Next(s, Deliver("2", 0)) == Some(t) && "2" in t.replicas && RepeatsNeighbour(t.replicas["2"].log)
  {
    hide CircleRun, Execute, Admissible, Next, HappenedBefore, ContainsOp, Direct, Times;
    var z, x, y, q;
    s, z, x, y, q := RedeliveryRepeats();
    RedeliveryLogsTwice(s, "2", 0, z);
    t := Next(s, Deliver("2", 0)).value;
    assert "2" in t.replicas by { DeliveryOutcome(s, "2", 0); }
    var log := t.replicas["2"].log;
    NothingBetween(x, y, z, q, Elements(log));
    AllTimes(log, z);
    assert !ListedOnce(log, z, q);
  }

  lemma NothingBetween(x: WootOperation, y: WootOperation, z: WootOperation, q: WootOperation, u: Ops)
    requires CircleNames(x, y, z) && HappenedBefore(z.id, q.id)
    requires forall a :: a in u <==> a in [z, x, y, q]
    ensures Direct(u, z, q)
  {
    assert z in [z, x, y, q] && q in [z, x, y, q];
    assert "2" in z.id.clock && z.id.clock["2"] == 1;
    assert !Earlier(z, x) && !Earlier(z, y) && !Earlier(z, z);
    forall c | c in u ensures !Between(z, c, q) {
      if c == q {
        NeverBeforeItself(q);
      }
    }
  }

  lemma NeverBeforeItself(q: WootOperation)
    ensures !Earlier(q, q)
  {
  }
}
