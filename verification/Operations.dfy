/** Operation identifiers, happened-before and the order of the log (cvrdt/operations.go). */
module Operations {
  import opened Identifiers
  import opened TextSequence
  import opened Clocks

  datatype LogicalId = LogicalId(siteId: string, clock: Clock) {
    function LogicalClock(): int {
      Get(clock, siteId)
    }
  }

  datatype OpType = Insertion | Deletion

  datatype WootOperation = WootOperation(id: LogicalId, opType: OpType, character: WCharacterData)

  datatype LocalOperation = LocalOperation(opType: OpType, pos: int, content: string, id: string)

  /** What a replica is asked to absorb: a generated operation, or a local edit yet to be generated. */
  datatype CRDTOperation = Woot(op: WootOperation) | Local(edit: LocalOperation) {
    function OpId(): LogicalId {
      match this
      case Woot(op) => op.id
      case Local(edit) => LogicalId(edit.id, map[edit.id := 0])
    }
  }

  // ---------------------------------------------------------------- happened-before

  predicate HappenedBefore(a: LogicalId, b: LogicalId) {
    && a.clock != map[]
    && (forall site :: site in a.clock ==> a.clock[site] <= Get(b.clock, site))
    && ((exists site :: site in a.clock && a.clock[site] < Get(b.clock, site)) ||
        (exists site :: site in b.clock && site !in a.clock && b.clock[site] > 0))
  }

  /** The two loops that decide `HappenedBefore`. */
  method ComputeHappenedBefore(a: LogicalId, b: LogicalId) returns (r: bool)
    ensures r == HappenedBefore(a, b)
  {
    if a.clock == map[] {
      return false;
    }
    var strictlyLess := false;
    var todo := a.clock.Keys;
    while todo != {}
      invariant todo <= a.clock.Keys
      invariant forall s :: s in a.clock && s !in todo ==> a.clock[s] <= Get(b.clock, s)
      invariant strictlyLess <==> exists s :: s in a.clock && s !in todo && a.clock[s] < Get(b.clock, s)
      decreases |todo|
    {
      var site :| site in todo;
      var otherClock := Get(b.clock, site);
      if a.clock[site] > otherClock {
        return false;
      }
      if a.clock[site] < otherClock {
        strictlyLess := true;
      }
      todo := todo - {site};
    }
    ghost var inOwn := strictlyLess;
    todo := b.clock.Keys;
    while todo != {}
      invariant todo <= b.clock.Keys
      invariant strictlyLess <==>
                  (inOwn || exists s :: s in b.clock && s !in todo && s !in a.clock && b.clock[s] > 0)
      decreases |todo|
    {
      var site :| site in todo;
      if site !in a.clock && b.clock[site] > 0 {
        strictlyLess := true;
      }
      todo := todo - {site};
    }
    r := strictlyLess;
  }

  /** Identifiers a site can issue: no negative entry, and a positive own entry. */
  predicate ValidId(a: LogicalId) {
    NonNegative(a.clock) && a.LogicalClock() >= 1
  }

  /**
   * With missing entries read as 0, happened-before is the strict pointwise order of the clocks,
   * except that an empty clock is before nothing; the clock of a valid identifier is not empty.
   */
  lemma HappenedBeforeMeaning(a: LogicalId, b: LogicalId)
    requires NonNegative(a.clock) && NonNegative(b.clock)
    ensures HappenedBefore(a, b) <==>
            a.clock != map[] && ClockLeq(a.clock, b.clock) && !ClockLeq(b.clock, a.clock)
    ensures ValidId(a) ==> a.clock != map[]
  {
    if HappenedBefore(a, b) {
      forall site ensures Get(a.clock, site) <= Get(b.clock, site) {}
      var site :| (site in a.clock && a.clock[site] < Get(b.clock, site)) ||
                  (site in b.clock && site !in a.clock && b.clock[site] > 0);
      assert Get(b.clock, site) > Get(a.clock, site);
    }
    assert ValidId(a) ==> a.siteId in a.clock;
    if ClockLeq(a.clock, b.clock) && !ClockLeq(b.clock, a.clock) {
      forall site | site in a.clock ensures a.clock[site] <= Get(b.clock, site) {
        assert Get(a.clock, site) <= Get(b.clock, site);
      }
      var site :| Get(b.clock, site) > Get(a.clock, site);
      assert site in b.clock;
    }
  }

  /** Happened-before is a strict partial order on valid identifiers. */
  lemma HappenedBeforeOrder(a: LogicalId, b: LogicalId, c: LogicalId)
    requires ValidId(a) && ValidId(b) && ValidId(c)
    ensures !HappenedBefore(a, a)
    ensures !(HappenedBefore(a, b) && HappenedBefore(b, a))
    ensures HappenedBefore(a, b) && HappenedBefore(b, c) ==> HappenedBefore(a, c)
  {
    HappenedBeforeMeaning(a, a);
    HappenedBeforeMeaning(a, b);
    HappenedBeforeMeaning(b, a);
    HappenedBeforeMeaning(b, c);
    HappenedBeforeMeaning(a, c);
    ClockLeqOrder(a.clock, b.clock, c.clock);
    ClockLeqOrder(c.clock, a.clock, b.clock);
    ClockLeqOrder(b.clock, c.clock, a.clock);
  }

  // ---------------------------------------------------------------- the log's order

  predicate SameOperation(a: LogicalId, b: LogicalId) {
    a.siteId == b.siteId && a.LogicalClock() == b.LogicalClock()
  }

  predicate Less(a: LogicalId, b: LogicalId) {
    if HappenedBefore(a, b) then true
    else if HappenedBefore(b, a) then false
    else StrLess(a.siteId, b.siteId)
  }

  function Compare(a: LogicalId, b: LogicalId): int {
    if SameOperation(a, b) then 0 else if Less(a, b) then -1 else 1
  }

  predicate Concurrent(a: LogicalId, b: LogicalId) {
    !HappenedBefore(a, b) && !HappenedBefore(b, a)
  }

  predicate CausalAtSite(a: LogicalId, b: LogicalId) {
    a.siteId == b.siteId ==>
      a == b || (HappenedBefore(a, b) && a.LogicalClock() < b.LogicalClock())
             || (HappenedBefore(b, a) && b.LogicalClock() < a.LogicalClock())
  }

  /** Identifiers issued in one system: valid, named uniquely, and causally ordered at each site. */
  ghost predicate Coherent(ids: set<LogicalId>) {
    && (forall a :: a in ids ==> ValidId(a))
    && (forall a, b {:trigger CausalAtSite(a, b)} :: a in ids && b in ids ==> CausalAtSite(a, b))
  }

  predicate TransitiveAt(a: LogicalId, b: LogicalId, c: LogicalId) {
    Compare(a, b) < 0 && Compare(b, c) < 0 ==> Compare(a, c) < 0
  }

  /** `Compare` is transitive on `ids`; with `CompareTotal` it is then a strict total order. */
  ghost predicate Linear(ids: set<LogicalId>) {
    forall a, b, c {:trigger TransitiveAt(a, b, c)} ::
      a in ids && b in ids && c in ids ==> TransitiveAt(a, b, c)
  }

  /** `c` is concurrent with both ends of a causal pair, and its site name lies between theirs. */
  predicate Inversion(a: LogicalId, b: LogicalId, c: LogicalId) {
    && HappenedBefore(a, b) && Concurrent(a, c) && Concurrent(b, c)
    && StrLess(b.siteId, c.siteId) && StrLess(c.siteId, a.siteId)
  }

  ghost predicate NoInversion(ids: set<LogicalId>) {
    forall a, b, c {:trigger Inversion(a, b, c)} :: a in ids && b in ids && c in ids ==> !Inversion(a, b, c)
  }

  /** On coherent identifiers `Compare` is total, antisymmetric, and extends happened-before. */
  lemma CompareTotal(ids: set<LogicalId>, a: LogicalId, b: LogicalId)
    requires Coherent(ids) && a in ids && b in ids
    ensures Compare(a, b) == 0 <==> a == b
    ensures Compare(a, b) == -Compare(b, a)
    ensures HappenedBefore(a, b) ==> Compare(a, b) < 0
    ensures Compare(a, b) < 0 ==> HappenedBefore(a, b) || (Concurrent(a, b) && StrLess(a.siteId, b.siteId))
  {
    assert CausalAtSite(a, b);
    HappenedBeforeOrder(a, b, a);
    HappenedBeforeOrder(b, a, b);
    StrLessTotal(a.siteId, b.siteId);
    StrLessIrreflexive(a.siteId);
    if StrLess(a.siteId, b.siteId) && StrLess(b.siteId, a.siteId) {
      StrLessTransitive(a.siteId, b.siteId, a.siteId);
    }
  }

  /**
   * On coherent identifiers `Compare` decides by the clocks where they decide, and otherwise by the
   * alphabetical order of the sites.
   */
  lemma CompareMeaning(ids: set<LogicalId>, a: LogicalId, b: LogicalId)
    requires Coherent(ids) && a in ids && b in ids
    ensures var below := ClockLeq(a.clock, b.clock) && !ClockLeq(b.clock, a.clock);
            var above := ClockLeq(b.clock, a.clock) && !ClockLeq(a.clock, b.clock);
            && (Compare(a, b) == -1 <==> below || (!above && Precedes(a.siteId, b.siteId)))
            && (Compare(a, b) == 0 <==> a == b)
            && (Compare(a, b) == 1 <==> above || (!below && Precedes(b.siteId, a.siteId)))
  {
    hide Precedes;
    CompareTotal(ids, a, b);
    assert CausalAtSite(a, b);
    HappenedBeforeMeaning(a, b);
    HappenedBeforeMeaning(b, a);
    StrLessIsAlphabetical(a.siteId, b.siteId);
    StrLessIsAlphabetical(b.siteId, a.siteId);
    StrLessTotal(a.siteId, b.siteId);
    StrLessIrreflexive(a.siteId);
    if StrLess(a.siteId, b.siteId) && StrLess(b.siteId, a.siteId) {
      StrLessTransitive(a.siteId, b.siteId, a.siteId);
    }
  }

  /** Three operations that `Compare` orders in a circle hide an inversion. */
  lemma CircleIsInversion(ids: set<LogicalId>, a: LogicalId, b: LogicalId, c: LogicalId)
    requires Coherent(ids) && a in ids && b in ids && c in ids
    requires Compare(a, b) < 0 && Compare(b, c) < 0 && Compare(c, a) < 0
    ensures Inversion(a, b, c) || Inversion(b, c, a) || Inversion(c, a, b)
  {
    CompareTotal(ids, a, b);
    CompareTotal(ids, b, c);
    CompareTotal(ids, c, a);
    HappenedBeforeOrder(a, b, c);
    HappenedBeforeOrder(b, c, a);
    HappenedBeforeOrder(c, a, b);
    if StrLess(a.siteId, b.siteId) && StrLess(b.siteId, c.siteId) && StrLess(c.siteId, a.siteId) {
      StrLessTransitive(a.siteId, b.siteId, c.siteId);
      StrLessTransitive(a.siteId, c.siteId, a.siteId);
      StrLessIrreflexive(a.siteId);
    }
  }

  /** `Compare` is a strict total order exactly when no operation sits in an inversion. */
  lemma LinearExactlyWithoutInversion(ids: set<LogicalId>)
    requires Coherent(ids)
    ensures Linear(ids) <==> NoInversion(ids)
  {
    forall a, b, c | a in ids && b in ids && c in ids && Inversion(a, b, c) ensures !Linear(ids) {
      CompareTotal(ids, a, b);
      CompareTotal(ids, b, c);
      CompareTotal(ids, c, a);
      InversionSites(a, b, c);
      assert !TransitiveAt(b, c, a);
    }
    forall a, b, c | a in ids && b in ids && c in ids && Compare(a, b) < 0 && Compare(b, c) < 0 && NoInversion(ids)
      ensures TransitiveAt(a, b, c)
    {
      CompareTotal(ids, a, b);
      CompareTotal(ids, b, c);
      CompareTotal(ids, a, c);
      if Compare(c, a) < 0 {
        CircleIsInversion(ids, a, b, c);
        assert false;
      }
    }
  }

  lemma InversionSites(a: LogicalId, b: LogicalId, c: LogicalId)
    requires Inversion(a, b, c)
    ensures a.siteId != b.siteId && b.siteId != c.siteId && c.siteId != a.siteId
  {
    StrLessIrreflexive(a.siteId);
    StrLessIrreflexive(b.siteId);
    StrLessIrreflexive(c.siteId);
    StrLessTransitive(b.siteId, c.siteId, a.siteId);
  }

  /** Two sites never produce an inversion, so there `Compare` is always a strict total order. */
  lemma TwoSitesAreLinear(ids: set<LogicalId>, p: string, q: string)
    requires Coherent(ids) && forall a :: a in ids ==> a.siteId == p || a.siteId == q
    ensures NoInversion(ids) && Linear(ids)
  {
    forall a, b, c | a in ids && b in ids && c in ids ensures !Inversion(a, b, c) {
      if Inversion(a, b, c) {
        InversionSites(a, b, c);
        assert false;
      }
    }
    LinearExactlyWithoutInversion(ids);
  }

  /** Three sites can: the order then runs in a circle, though the identifiers are coherent. */
  lemma ThreeSitesCanCircle()
    ensures var x := LogicalId("3", map["3" := 1]);
            var y := LogicalId("1", map["1" := 1, "3" := 1]);
            var z := LogicalId("2", map["2" := 1]);
            && Coherent({x, y, z}) && Inversion(x, y, z)
            && Compare(x, y) < 0 && Compare(y, z) < 0 && Compare(z, x) < 0
  {
    var x := LogicalId("3", map["3" := 1]);
    var y := LogicalId("1", map["1" := 1, "3" := 1]);
    var z := LogicalId("2", map["2" := 1]);
    assert "3" in x.clock && "1" in y.clock && "2" in z.clock;
    assert "1" !in x.clock && y.clock["1"] > 0;
  }
}
