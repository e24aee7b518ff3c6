/** Vector clocks (cvrdt/clock.go). */
module Clocks {
  import opened Identifiers

  type Clock = map<string, int>

  /** An absent entry counts as 0. */
  function Get(c: Clock, site: string): int {
    if site in c then c[site] else 0
  }

  /** The clock after one local event; it stays put at the maximal value. */
  function Tick(c: Clock, site: string): Clock {
    if Get(c, site) < MAX_VALUE then c[site := Get(c, site) + 1] else c
  }

  /** The entrywise maximum over the sites either clock knows. */
  function Join(c: Clock, received: Clock): Clock {
    JoinOn(c, received, received.Keys)
  }

  /** The maximum with the entries of `received` at `sites` only. */
  function JoinOn(c: Clock, received: Clock, sites: set<string>): Clock
    requires sites <= received.Keys
  {
    map site | site in c.Keys + sites ::
      if site !in sites then c[site]
      else if site !in c || received[site] > c[site] then received[site]
      else c[site]
  }

  lemma JoinOnStep(c: Clock, received: Clock, sites: set<string>, site: string)
    requires sites <= received.Keys && site in received && site !in sites
    ensures JoinOn(c, received, sites + {site}) ==
            if site in c && received[site] <= c[site] then JoinOn(c, received, sites)
            else JoinOn(c, received, sites)[site := received[site]]
    ensures site in JoinOn(c, received, sites) <==> site in c
    ensures site in c ==> JoinOn(c, received, sites)[site] == c[site]
  {
  }

  predicate NonNegative(c: Clock) {
    forall site :: site in c ==> c[site] >= 0
  }

  ghost predicate ClockLeq(a: Clock, b: Clock) {
    forall site :: Get(a, site) <= Get(b, site)
  }

  lemma ClockLeqOrder(a: Clock, b: Clock, c: Clock)
    ensures ClockLeq(a, a)
    ensures ClockLeq(a, b) && ClockLeq(b, c) ==> ClockLeq(a, c)
  {
    if ClockLeq(a, b) && ClockLeq(b, c) {
      forall site ensures Get(a, site) <= Get(c, site) {
        assert Get(a, site) <= Get(b, site) <= Get(c, site);
      }
    }
  }

  /** Merging a received clock yields the least clock above both. */
  lemma JoinIsLeastUpperBound(c: Clock, received: Clock, bound: Clock)
    requires NonNegative(c) && NonNegative(received)
    ensures NonNegative(Join(c, received))
    ensures ClockLeq(c, Join(c, received)) && ClockLeq(received, Join(c, received))
    ensures ClockLeq(c, bound) && ClockLeq(received, bound) ==> ClockLeq(Join(c, received), bound)
    ensures forall site :: Get(Join(c, received), site) == Get(c, site) ||
                           Get(Join(c, received), site) == Get(received, site)
  {
    if ClockLeq(c, bound) && ClockLeq(received, bound) {
      forall site ensures Get(Join(c, received), site) <= Get(bound, site) {
        assert Get(c, site) <= Get(bound, site) && Get(received, site) <= Get(bound, site);
      }
    }
  }

  class VectorClock {
    const localId: string
    var clocks: Clock

    constructor (siteId: string)
      ensures localId == siteId && clocks == map[siteId := 0]
    {
      localId := siteId;
      clocks := map[siteId := 0];
    }

    method Increment() returns (value: int)
      modifies this
      ensures clocks == Tick(old(clocks), localId)
      ensures value == Get(clocks, localId)
      ensures value == if Get(old(clocks), localId) < 0x7fff_ffff then Get(old(clocks), localId) + 1
                       else Get(old(clocks), localId)
      ensures forall site :: site != localId ==>
                (site in clocks <==> site in old(clocks)) && Get(clocks, site) == Get(old(clocks), site)
    {
      var current := if localId in clocks then clocks[localId] else 0;
      if current < MAX_VALUE {
        clocks := clocks[localId := current + 1];
        current := current + 1;
      }
      value := current;
    }

    method Value() returns (value: int)
      ensures value == Get(clocks, localId)
    {
      value := if localId in clocks then clocks[localId] else 0;
    }

    method Update(received: Clock)
      modifies this
      ensures clocks == Join(old(clocks), received)
      ensures clocks.Keys == old(clocks).Keys + received.Keys
      ensures forall site :: site in clocks ==>
                && (site in old(clocks) ==> clocks[site] >= old(clocks)[site])
                && (site in received ==> clocks[site] >= received[site])
                && ((site in old(clocks) && clocks[site] == old(clocks)[site]) ||
                    (site in received && clocks[site] == received[site]))
    {
      var todo := received.Keys;
      ghost var done: set<string> := {};
      assert JoinOn(clocks, received, done) == clocks;
      while todo != {}
        invariant done == received.Keys - todo && todo <= received.Keys
        invariant clocks == JoinOn(old(clocks), received, done)
        decreases todo
      {
        var site :| site in todo;
        JoinOnStep(old(clocks), received, done, site);
        if site in clocks {
          if received[site] > clocks[site] {
            clocks := clocks[site := received[site]];
          }
        } else {
          clocks := clocks[site := received[site]];
        }
        todo, done := todo - {site}, done + {site};
      }
      assert done == received.Keys;
    }

    method Copy() returns (copy: Clock)
      ensures copy == clocks
    {
      copy := map[];
      var todo := clocks.Keys;
      while todo != {}
        invariant todo <= clocks.Keys
        invariant copy.Keys == clocks.Keys - todo
        invariant forall s :: s in copy ==> copy[s] == clocks[s]
        decreases |todo|
      {
        var site :| site in todo;
        copy := copy[site := clocks[site]];
        todo := todo - {site};
      }
    }
  }
}
