/**
 * What vector clocks record (cvrdt/clock.go, cvrdt/site.go, `clock.Update`). Sites tick and copy
 * their clock when they issue an operation, and merge the clock of any operation they integrate,
 * in any order, any number of times: clocks then tell transitive causality exactly.
 */
module CausalHistory {
  import opened Identifiers
  import opened Clocks
  import opened Operations
  import opened OperationLog

  /** For every operation issued so far, operations that came before it. */
  type Past = map<WootOperation, Ops>

  predicate Knows(c: Clock, a: WootOperation) {
    a.id.LogicalClock() <= Get(c, a.id.siteId)
  }

  ghost predicate KnowsExactly(past: Past, c: Clock, known: Ops) {
    forall a {:trigger Knows(c, a)} :: a in past ==> (Knows(c, a) <==> a in known)
  }

  ghost predicate CausallyClosed(past: Past, s: Ops) {
    s <= past.Keys && forall a :: a in s ==> past[a] <= s
  }

  ghost predicate Covers(c: Clock, s: Ops) {
    forall a :: a in s ==> ClockLeq(a.id.clock, c)
  }

  /** `done` and everything before a member of it. */
  ghost function WithPasts(past: Past, done: Ops): Ops {
    done + set b, a | b in done && b in past && a in past[b] :: a
  }

  /** What the clock of every issued operation keeps for ever. */
  ghost predicate ClockOk(past: Past, op: WootOperation)
    requires op in past
  {
    && ValidId(op.id)
    && CausallyClosed(past, past[op]) && op !in past[op]
    && KnowsExactly(past, op.id.clock, past[op] + {op})
    && Covers(op.id.clock, past[op])
    && forall a :: a in past[op] ==> Get(a.id.clock, op.id.siteId) < op.id.LogicalClock()
  }

  ghost predicate AllClocksOk(past: Past) {
    forall op {:trigger ClockOk(past, op)} :: op in past ==> ClockOk(past, op)
  }

  /** A site that issued or integrated exactly `done` knows those operations and their pasts. */
  ghost predicate SiteKnows(past: Past, c: Clock, done: Ops) {
    && NonNegative(c) && done <= past.Keys
    && KnowsExactly(past, c, WithPasts(past, done))
    && Covers(c, WithPasts(past, done))
  }

  /** Happened-before, computed from clocks alone, is membership in the past. */
  lemma HappenedBeforeIsPast(past: Past, a: WootOperation, b: WootOperation)
    requires AllClocksOk(past) && a in past && b in past
    ensures HappenedBefore(a.id, b.id) <==> a in past[b]
  {
    assert ClockOk(past, a) && ClockOk(past, b);
    HappenedBeforeMeaning(a.id, b.id);
    if a in past[b] {
      assert ClockLeq(a.id.clock, b.id.clock);
      assert Get(a.id.clock, b.id.siteId) < Get(b.id.clock, b.id.siteId);
    }
    if HappenedBefore(a.id, b.id) {
      assert Get(a.id.clock, a.id.siteId) <= Get(b.id.clock, a.id.siteId);
      assert Knows(b.id.clock, a);
      ClockLeqOrder(a.id.clock, a.id.clock, a.id.clock);
    }
  }

  /** Operations of one site are known to each other in the order of their own clocks. */
  lemma SameSiteOrdered(past: Past, a: WootOperation, b: WootOperation)
    requires AllClocksOk(past) && a in past && b in past && a.id.siteId == b.id.siteId
    requires a.id.LogicalClock() <= b.id.LogicalClock()
    ensures a == b || (a in past[b] && a.id.LogicalClock() < b.id.LogicalClock())
  {
    assert ClockOk(past, b);
    assert Knows(b.id.clock, a);
  }

  /** Identifiers issued in a run are coherent, so `Compare` is total on them. */
  lemma IssuedIsCoherent(past: Past)
    requires AllClocksOk(past)
    ensures CoherentOps(past.Keys)
  {
    forall x | x in IdsOf(past.Keys) ensures ValidId(x) {
      var a :| a in past && a.id == x;
      assert ClockOk(past, a);
    }
    forall x, y | x in IdsOf(past.Keys) && y in IdsOf(past.Keys) ensures CausalAtSite(x, y) {
      var a :| a in past && a.id == x;
      var b :| b in past && b.id == y;
      HappenedBeforeIsPast(past, a, b);
      HappenedBeforeIsPast(past, b, a);
      if x.siteId == y.siteId {
        if x.LogicalClock() <= y.LogicalClock() {
          SameSiteOrdered(past, a, b);
        } else {
          SameSiteOrdered(past, b, a);
        }
      }
    }
    forall a, b | a in past && b in past ensures SameIdSameOp(a, b) {
      if a.id == b.id {
        SameSiteOrdered(past, a, b);
      }
    }
  }

  // ---------------------------------------------------------------- what one step does to a clock

  /** The past of a set only looks at the pasts of its members. */
  lemma PastsStay(past: Past, op: WootOperation, known: Ops, done: Ops)
    requires op !in past && done <= past.Keys
    ensures WithPasts(past[op := known], done) == WithPasts(past, done)
  {
    var past2 := past[op := known];
    forall b | b in done ensures b in past2 && b in past && past2[b] == past[b] {}
    assert WithPasts(past2, done) <= WithPasts(past, done);
    assert WithPasts(past, done) <= WithPasts(past2, done);
  }

  lemma PastsAreIssued(past: Past, done: Ops)
    requires AllClocksOk(past) && done <= past.Keys
    ensures WithPasts(past, done) <= past.Keys && CausallyClosed(past, WithPasts(past, done))
  {
    var all := WithPasts(past, done);
    forall b | b in done ensures past[b] <= all {
      forall a | a in past[b] ensures a in all {}
    }
    forall a | a in all ensures a in past {
      if a !in done {
        var b :| b in done && b in past && a in past[b];
        assert ClockOk(past, b);
      }
    }
    forall a | a in all ensures past[a] <= all {
      if a !in done {
        var b :| b in done && b in past && a in past[b];
        assert ClockOk(past, b);
        assert past[a] <= past[b];
      }
    }
  }

  /** A closed set holds its pasts already. */
  lemma ClosedHasPasts(past: Past, s: Ops)
    requires CausallyClosed(past, s)
    ensures WithPasts(past, s) == s
  {
  }

  lemma OneMorePast(past: Past, done: Ops, b: WootOperation)
    requires b in past
    ensures WithPasts(past, done + {b}) == WithPasts(past, done) + past[b] + {b}
  {
  }

  /** Merging the clock of an operation makes exactly it and its past known, whatever was known before. */
  lemma JoinKnows(past: Past, c: Clock, done: Ops, b: WootOperation)
    requires AllClocksOk(past) && b in past && SiteKnows(past, c, done)
    ensures SiteKnows(past, Join(c, b.id.clock), done + {b})
    ensures ClockLeq(c, Join(c, b.id.clock))
  {
    assert ClockOk(past, b);
    var j, known := Join(c, b.id.clock), WithPasts(past, done);
    OneMorePast(past, done, b);
    JoinIsLeastUpperBound(c, b.id.clock, j);
    hide Join, WithPasts;
    forall a | a in past ensures Knows(j, a) <==> a in known + past[b] + {b} {
      assert Get(c, a.id.siteId) <= Get(j, a.id.siteId) && Get(b.id.clock, a.id.siteId) <= Get(j, a.id.siteId);
      assert Knows(c, a) <==> a in known;
      assert Knows(b.id.clock, a) <==> a in past[b] + {b};
    }
    forall a | a in known + past[b] + {b} ensures ClockLeq(a.id.clock, j) {
      ClockLeqOrder(a.id.clock, c, j);
      ClockLeqOrder(a.id.clock, b.id.clock, j);
    }
  }

  lemma TickCovers(c: Clock, site: string)
    requires NonNegative(c) && Get(c, site) < MAX_VALUE
    ensures NonNegative(Tick(c, site)) && ClockLeq(c, Tick(c, site)) && Get(Tick(c, site), site) == Get(c, site) + 1
    ensures forall other :: other != site ==> Get(Tick(c, site), other) == Get(c, other)
  {
  }

  /** Ticking makes nothing known that was not. */
  lemma TickKnows(past: Past, c: Clock, done: Ops, site: string)
    requires SiteKnows(past, c, done) && Get(c, site) < MAX_VALUE
    requires forall a :: a in past && a.id.siteId == site ==> a in done
    ensures SiteKnows(past, Tick(c, site), done)
  {
    var t, known := Tick(c, site), WithPasts(past, done);
    TickCovers(c, site);
    forall a | a in past ensures Knows(t, a) <==> a in known {
      assert Knows(c, a) <==> a in known;
    }
    forall a | a in known ensures ClockLeq(a.id.clock, t) {
      ClockLeqOrder(a.id.clock, c, t);
    }
  }

  /** A site's next operation carries a clock that knows exactly what the site knew. */
  lemma IssueKnows(past: Past, c: Clock, done: Ops, op: WootOperation)
    requires AllClocksOk(past) && op !in past && SiteKnows(past, c, done)
    requires op.id == LogicalId(op.id.siteId, Tick(c, op.id.siteId)) && Get(c, op.id.siteId) < MAX_VALUE
    requires forall a :: a in past && a.id.siteId == op.id.siteId ==> a in done
    ensures ClockOk(past[op := WithPasts(past, done)], op)
    ensures SiteKnows(past[op := WithPasts(past, done)], op.id.clock, done + {op})
  {
    var site, known := op.id.siteId, WithPasts(past, done);
    var past2, t := past[op := known], op.id.clock;
    TickKnows(past, c, done, site);
    TickCovers(c, site);
    PastsAreIssued(past, done);
    PastsStay(past, op, known, done);
    OneMorePast(past2, done, op);
    hide WithPasts, Tick;
    assert CausallyClosed(past2, known);
    forall a | a in past2 ensures Knows(t, a) <==> a in known + {op} {
      if a != op {
        assert Knows(t, a) <==> a in known;
      }
    }
    ClockLeqOrder(t, t, t);
    forall a | a in known ensures Get(a.id.clock, site) < op.id.LogicalClock() {
      assert ClockLeq(a.id.clock, c);
      assert Get(a.id.clock, site) <= Get(c, site);
    }
  }

  /** A new operation, unknown to the clock of an earlier one, changes nothing for it. */
  lemma IssueKeepsClockOk(past: Past, op: WootOperation, known: Ops, b: WootOperation)
    requires op !in past && b in past && ClockOk(past, b) && !Knows(b.id.clock, op)
    ensures ClockOk(past[op := known], b)
  {
    var past2 := past[op := known];
    forall a | a in past2 ensures Knows(b.id.clock, a) <==> a in past2[b] + {b} {
      assert a != op ==> a in past;
    }
  }

  /** Nor for a site that does not know it. */
  lemma IssueKeepsSiteKnows(past: Past, op: WootOperation, known: Ops, c: Clock, done: Ops)
    requires AllClocksOk(past) && op !in past && SiteKnows(past, c, done) && !Knows(c, op)
    ensures SiteKnows(past[op := known], c, done)
  {
    PastsStay(past, op, known, done);
    PastsAreIssued(past, done);
    hide WithPasts;
    forall a | a in past[op := known] ensures Knows(c, a) <==> a in WithPasts(past, done) {
      assert a != op ==> a in past;
    }
  }

  // ---------------------------------------------------------------- histories

  /**
   * Any number of sites: for each issued operation, what its site had issued or integrated itself
   * (`seen`) and what it had thereby heard of (`past`); for each site, its clock and what it has
   * issued or integrated so far.
   */
  datatype History = History(seen: Past, past: Past, clocks: map<string, Clock>, done: map<string, Ops>)

  datatype Deed =
    | Issue(op: WootOperation)                  // tick, copy the clock into the operation
    | Learn(site: string, op: WootOperation)     // merge the clock of any issued operation
    | Lapse(site: string)                        // tick, then refuse the edit

  function NewHistory(sites: set<string>): History {
    History(map[], map[], map site | site in sites :: map[site := 0], map site | site in sites :: {})
  }

  /** Own entries stay below saturation; an operation is issued before it is integrated. */
  predicate Possible(h: History, e: Deed) {
    match e
    case Issue(op) =>
      && op.id.siteId in h.clocks && Get(h.clocks[op.id.siteId], op.id.siteId) < MAX_VALUE
      && op.id.clock == Tick(h.clocks[op.id.siteId], op.id.siteId)
    case Learn(site, op) => site in h.clocks && op in h.past
    case Lapse(site) => site in h.clocks && Get(h.clocks[site], site) < MAX_VALUE
  }

  ghost function After(h: History, e: Deed): History
    requires h.clocks.Keys == h.done.Keys && Possible(h, e)
  {
    match e
    case Issue(op) =>
      var site := op.id.siteId;
      History(h.seen[op := h.done[site]], h.past[op := WithPasts(h.past, h.done[site])],
              h.clocks[site := op.id.clock], h.done[site := h.done[site] + {op}])
    case Learn(site, op) =>
      h.(clocks := h.clocks[site := Join(h.clocks[site], op.id.clock)], done := h.done[site := h.done[site] + {op}])
    case Lapse(site) => h.(clocks := h.clocks[site := Tick(h.clocks[site], site)])
  }

  /** No clock is ahead of a site's own count of its events. */
  ghost predicate NotAhead(clocks: map<string, Clock>, c: Clock) {
    forall site :: site in clocks ==> Get(c, site) <= Get(clocks[site], site)
  }

  ghost predicate SiteOk(h: History, site: string)
    requires site in h.clocks && site in h.done
  {
    && SiteKnows(h.past, h.clocks[site], h.done[site])
    && NotAhead(h.clocks, h.clocks[site])
    && forall a :: a in h.past && a.id.siteId == site ==> a in h.done[site]
  }

  ghost predicate IssuedOk(h: History, op: WootOperation)
    requires op in h.past
  {
    && op.id.siteId in h.clocks && NotAhead(h.clocks, op.id.clock)
    && op in h.seen && h.seen[op] <= h.past.Keys && h.past[op] == WithPasts(h.past, h.seen[op])
  }

  ghost predicate HistoryOk(h: History) {
    && h.clocks.Keys == h.done.Keys && h.seen.Keys == h.past.Keys
    && AllClocksOk(h.past)
    && (forall op {:trigger IssuedOk(h, op)} :: op in h.past ==> IssuedOk(h, op))
    && (forall site {:trigger SiteOk(h, site)} :: site in h.clocks ==> SiteOk(h, site))
  }

  lemma NewHistoryOk(sites: set<string>)
    ensures HistoryOk(NewHistory(sites))
  {
    var h := NewHistory(sites);
    forall site | site in h.clocks ensures SiteOk(h, site) {
      assert WithPasts(h.past, {}) == {};
    }
  }

  /** One site's clock and deeds move on; nothing new is issued. */
  lemma AdvanceKeepsOk(h: History, site: string, c: Clock, done: Ops)
    requires HistoryOk(h) && site in h.clocks && SiteKnows(h.past, c, done) && h.done[site] <= done
    requires Get(h.clocks[site], site) <= Get(c, site)
    requires forall x :: x in h.clocks && x != site ==> Get(c, x) <= Get(h.clocks[x], x)
    ensures HistoryOk(h.(clocks := h.clocks[site := c], done := h.done[site := done]))
  {
    assert NotAhead(h.clocks[site := c], c);
    hide SiteKnows, AllClocksOk, WithPasts, ClockOk, NotAhead;
    var h2 := h.(clocks := h.clocks[site := c], done := h.done[site := done]);
    forall op | op in h2.past ensures IssuedOk(h2, op) {
      assert IssuedOk(h, op);
      NotAheadStays(h.clocks, site, c, op.id.clock);
    }
    forall x | x in h2.clocks ensures SiteOk(h2, x) {
      assert SiteOk(h, x);
      NotAheadStays(h.clocks, site, c, h.clocks[x]);
    }
  }

  /** Nobody knows an operation that its site is only now issuing. */
  lemma FreshIsUnknown(h: History, op: WootOperation, c: Clock)
    requires Possible(h, Issue(op)) && NotAhead(h.clocks, c)
    ensures !Knows(c, op)
  {
    assert Get(c, op.id.siteId) <= Get(h.clocks[op.id.siteId], op.id.siteId);
  }

  lemma FreshIsNew(h: History, op: WootOperation)
    requires HistoryOk(h) && Possible(h, Issue(op))
    ensures op !in h.past
    ensures forall a :: a in h.past && a.id.siteId == op.id.siteId ==> a.id.LogicalClock() < op.id.LogicalClock()
  {
    forall a | a in h.past && a.id.siteId == op.id.siteId ensures a.id.LogicalClock() < op.id.LogicalClock() {
      assert IssuedOk(h, a);
      FreshIsUnknown(h, op, a.id.clock);
    }
  }

  lemma NotAheadStays(clocks: map<string, Clock>, site: string, c2: Clock, c: Clock)
    requires site in clocks && NotAhead(clocks, c) && Get(clocks[site], site) <= Get(c2, site)
    ensures NotAhead(clocks[site := c2], c)
  {
  }

  lemma IssueKeepsOk(h: History, op: WootOperation)
    requires HistoryOk(h) && Possible(h, Issue(op))
    ensures HistoryOk(After(h, Issue(op)))
  {
    hide WithPasts, SiteKnows, Tick, ClockOk, Get, IssuedOk, SiteOk;
    var h2 := After(h, Issue(op));
    FreshIsNew(h, op);
    IssuerIsOk(h, op);
    forall b | b in h2.past ensures ClockOk(h2.past, b) && IssuedOk(h2, b) {
      if b != op {
        IssuedStays(h, op, b);
      }
    }
    forall x | x in h2.clocks ensures SiteOk(h2, x) {
      if x != op.id.siteId {
        SiteStays(h, op, x);
      }
    }
  }

  lemma IssuerIsOk(h: History, op: WootOperation)
    requires HistoryOk(h) && Possible(h, Issue(op)) && op !in h.past
    ensures var h2 := After(h, Issue(op)); ClockOk(h2.past, op) && IssuedOk(h2, op) && SiteOk(h2, op.id.siteId)
  {
    var site := op.id.siteId;
    assert SiteOk(h, site);
    TickCovers(h.clocks[site], site);
    IssueKnows(h.past, h.clocks[site], h.done[site], op);
    hide WithPasts, SiteKnows, Tick, ClockOk;
    PastsStay(h.past, op, WithPasts(h.past, h.done[site]), h.done[site]);
    assert h.done[site] <= h.past.Keys by { SiteKnowsIssued(h.past, h.clocks[site], h.done[site]); }
  }

  lemma SiteKnowsIssued(past: Past, c: Clock, done: Ops)
    requires SiteKnows(past, c, done)
    ensures NonNegative(c) && done <= past.Keys
  {
  }

  lemma IssuedStays(h: History, op: WootOperation, b: WootOperation)
    requires HistoryOk(h) && Possible(h, Issue(op)) && op !in h.past && b in h.past
    ensures ClockOk(After(h, Issue(op)).past, b) && IssuedOk(After(h, Issue(op)), b)
  {
    var site := op.id.siteId;
    var known := WithPasts(h.past, h.done[site]);
    assert SiteOk(h, site) && IssuedOk(h, b) && ClockOk(h.past, b);
    SiteKnowsIssued(h.past, h.clocks[site], h.done[site]);
    hide SiteKnows, ClockOk, WithPasts;
    TickCovers(h.clocks[site], site);
    hide Tick;
    FreshIsUnknown(h, op, b.id.clock);
    IssueKeepsClockOk(h.past, op, known, b);
    PastsStay(h.past, op, known, h.seen[b]);
    NotAheadStays(h.clocks, site, op.id.clock, b.id.clock);
  }

  lemma SiteStays(h: History, op: WootOperation, x: string)
    requires HistoryOk(h) && Possible(h, Issue(op)) && op !in h.past && x in h.clocks && x != op.id.siteId
    ensures SiteOk(After(h, Issue(op)), x)
  {
    var site := op.id.siteId;
    assert SiteOk(h, x) && SiteOk(h, site);
    TickCovers(h.clocks[site], site);
    FreshIsUnknown(h, op, h.clocks[x]);
    IssueKeepsSiteKnows(h.past, op, WithPasts(h.past, h.done[site]), h.clocks[x], h.done[x]);
    NotAheadStays(h.clocks, site, op.id.clock, h.clocks[x]);
  }

  lemma LearnKeepsOk(h: History, site: string, op: WootOperation)
    requires HistoryOk(h) && site in h.clocks && op in h.past
    ensures HistoryOk(After(h, Learn(site, op)))
  {
    assert SiteOk(h, site) && IssuedOk(h, op) && ClockOk(h.past, op);
    JoinKnows(h.past, h.clocks[site], h.done[site], op);
    JoinIsLeastUpperBound(h.clocks[site], op.id.clock, op.id.clock);
    AdvanceKeepsOk(h, site, Join(h.clocks[site], op.id.clock), h.done[site] + {op});
  }

  lemma StepKeepsOk(h: History, e: Deed)
    requires HistoryOk(h) && Possible(h, e)
    ensures HistoryOk(After(h, e))
  {
    match e
    case Issue(op) => IssueKeepsOk(h, op);
    case Learn(site, op) => LearnKeepsOk(h, site, op);
    case Lapse(site) =>
      assert SiteOk(h, site);
      TickKnows(h.past, h.clocks[site], h.done[site], site);
      TickCovers(h.clocks[site], site);
      AdvanceKeepsOk(h, site, Tick(h.clocks[site], site), h.done[site]);
      assert h.done[site := h.done[site]] == h.done;
  }

  /** The histories that `sites` can bring about, step by step. */
  ghost predicate Arises(sites: set<string>, steps: seq<Deed>, h: History)
    decreases |steps|
  {
    if steps == [] then h == NewHistory(sites)
    else
      exists before: History {:trigger Arises(sites, steps[..|steps| - 1], before)} ::
        && Arises(sites, steps[..|steps| - 1], before)
        && before.clocks.Keys == before.done.Keys && Possible(before, steps[|steps| - 1])
        && h == After(before, steps[|steps| - 1])
  }

  lemma {:induction false} HistoriesAreOk(sites: set<string>, steps: seq<Deed>, h: History)
    requires Arises(sites, steps, h)
    ensures HistoryOk(h)
    decreases |steps|
  {
    if steps == [] {
      NewHistoryOk(sites);
    } else {
      var before: History :|
        && Arises(sites, steps[..|steps| - 1], before)
        && before.clocks.Keys == before.done.Keys && Possible(before, steps[|steps| - 1])
        && h == After(before, steps[|steps| - 1]);
      HistoriesAreOk(sites, steps[..|steps| - 1], before);
      StepKeepsOk(before, steps[|steps| - 1]);
    }
  }

  // ---------------------------------------------------------------- causal chains

  /** Each operation was issued or integrated at the next one's site before the next one was issued. */
  ghost predicate CausalChain(seen: Past, chain: Log) {
    && (forall i :: 0 <= i < |chain| ==> chain[i] in seen)
    && (forall i :: 0 <= i < |chain| - 1 ==> chain[i] in seen[chain[i + 1]])
  }

  ghost predicate ChainBetween(seen: Past, chain: Log, a: WootOperation, b: WootOperation) {
    |chain| >= 2 && CausalChain(seen, chain) && chain[0] == a && chain[|chain| - 1] == b
  }

  lemma {:induction false} ChainIsPast(h: History, chain: Log)
    requires HistoryOk(h) && |chain| >= 2 && CausalChain(h.seen, chain)
    ensures chain[0] in h.past[chain[|chain| - 1]]
    decreases |chain|
  {
    var n := |chain| - 1;
    assert chain[n - 1] in h.seen[chain[n]];
    assert IssuedOk(h, chain[n]) && ClockOk(h.past, chain[n]);
    assert chain[n - 1] in h.past[chain[n]];
    if n >= 2 {
      assert CausalChain(h.seen, chain[..n]);
      ChainIsPast(h, chain[..n]);
    }
  }

  lemma {:induction false} PastHasChain(h: History, a: WootOperation, b: WootOperation) returns (chain: Log)
    requires HistoryOk(h) && b in h.past && a in h.past[b]
    ensures ChainBetween(h.seen, chain, a, b)
    decreases h.past[b]
  {
    assert IssuedOk(h, b) && ClockOk(h.past, b);
    if a in h.seen[b] {
      chain := [a, b];
    } else {
      var k :| k in h.seen[b] && k in h.past && a in h.past[k];
      assert k in h.past[b];
      assert ClockOk(h.past, k);
      var front := PastHasChain(h, a, k);
      chain := front + [b];
    }
  }

  /**
   * The clocks characterise causality: `HappenedBefore` holds exactly when a chain of "issued or
   * integrated there before" steps leads from one operation to the other.
   */
  lemma HappenedBeforeIsCausality(h: History, a: WootOperation, b: WootOperation)
    requires HistoryOk(h) && a in h.past && b in h.past
    ensures HappenedBefore(a.id, b.id) <==> exists chain :: ChainBetween(h.seen, chain, a, b)
  {
    hide CausalChain;
    HappenedBeforeIsPast(h.past, a, b);
    if a in h.past[b] {
      var chain := PastHasChain(h, a, b);
    }
    forall chain | ChainBetween(h.seen, chain, a, b) ensures a in h.past[b] {
      ChainIsPast(h, chain);
    }
  }

  /** So it is in every history, with no condition on the order, completeness or number of integrations. */
  lemma ClocksTellCausality(sites: set<string>, steps: seq<Deed>, h: History, a: WootOperation, b: WootOperation)
    requires Arises(sites, steps, h) && a in h.past && b in h.past
    ensures HappenedBefore(a.id, b.id) <==> exists chain :: ChainBetween(h.seen, chain, a, b)
    ensures HappenedBefore(a.id, b.id) <==> a in h.past[b]
  {
    HistoriesAreOk(sites, steps, h);
    HappenedBeforeIsCausality(h, a, b);
    HappenedBeforeIsPast(h.past, a, b);
  }
}
