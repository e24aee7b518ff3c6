/**
 * The WOOT character sequence (cvrdt/string.go) and the placement of a new character in it
 * (cvrdt/site.go, `IntegrateIns`), on values.
 */
module TextSequence {
  import opened Identifiers
  import opened SortKeys

  const START_STRING := "<START>"
  const END_STRING := "<END>"

  datatype WCharacterData = WCharacterData(
    id: CharId,
    alphaValue: string,
    visible: bool,
    previousId: CharId,
    nextId: CharId)
  {
    predicate IsSpecial() {
      alphaValue == START_STRING || alphaValue == END_STRING
    }
  }

  type Text = seq<WCharacterData>

  function StartChar(site: string): WCharacterData {
    WCharacterData(CharId(site, START_CLOCK), START_STRING, true,
                   CharId(site, MISSING_CLOCK), CharId(site, END_CLOCK))
  }

  function EndChar(site: string): WCharacterData {
    WCharacterData(CharId(site, END_CLOCK), END_STRING, true,
                   CharId(site, START_CLOCK), CharId(site, MISSING_CLOCK))
  }

  function EmptyText(site: string): Text {
    [StartChar(site), EndChar(site)]
  }

  // ---------------------------------------------------------------- positions

  /** The first position whose identifier equals `id`, or -1. */
  function PosOf(s: Text, id: CharId): (p: int)
    ensures -1 <= p < |s|
    ensures p >= 0 ==> IdEquals(s[p].id, id) && forall j :: 0 <= j < p ==> !IdEquals(s[j].id, id)
    ensures p == -1 ==> forall j :: 0 <= j < |s| ==> !IdEquals(s[j].id, id)
  {
    PosFrom(s, id, 0)
  }

  function PosFrom(s: Text, id: CharId, i: int): (p: int)
    requires 0 <= i <= |s|
    ensures p == -1 || i <= p < |s|
    ensures p >= 0 ==> IdEquals(s[p].id, id) && forall j :: i <= j < p ==> !IdEquals(s[j].id, id)
    ensures p == -1 ==> forall j :: i <= j < |s| ==> !IdEquals(s[j].id, id)
    decreases |s| - i
  {
    if i == |s| then -1 else if IdEquals(s[i].id, id) then i else PosFrom(s, id, i + 1)
  }

  predicate Contains(s: Text, id: CharId) {
    PosOf(s, id) != -1
  }

  predicate DistinctIds(s: Text) {
    forall i, j {:trigger IdEquals(s[i].id, s[j].id)} :: 0 <= i < j < |s| ==> !IdEquals(s[i].id, s[j].id)
  }

  lemma PosOfUnique(s: Text, i: int, id: CharId)
    requires DistinctIds(s) && 0 <= i < |s| && IdEquals(s[i].id, id)
    ensures PosOf(s, id) == i
  {
    var p := PosOf(s, id);
    IdEqualsEquivalence(s[p].id, id, s[i].id);
    IdEqualsEquivalence(s[i].id, id, s[p].id);
  }

  function InsertAt<T>(s: seq<T>, k: int, c: T): seq<T>
    requires 0 <= k <= |s|
  {
    s[..k] + [c] + s[k..]
  }

  // ---------------------------------------------------------------- placement

  /** The character at `i` has its own neighbours outside the gap between `lo` and `hi`. */
  predicate Encloses(s: Text, i: int, lo: int, hi: int)
    requires 0 <= i < |s|
  {
    var p, n := PosOf(s, s[i].previousId), PosOf(s, s[i].nextId);
    p != -1 && n != -1 && p <= lo && hi <= n
  }

  function Candidates(s: Text, lo: int, hi: int, from: int): seq<int>
    requires 0 <= lo < from && hi < |s|
    decreases hi - from
  {
    if from >= hi then []
    else if Encloses(s, from, lo, hi) then [from] + Candidates(s, lo, hi, from + 1)
    else Candidates(s, lo, hi, from + 1)
  }

  /** The list L of the placement step: the gap's ends around the enclosing characters. */
  function Fence(s: Text, lo: int, hi: int): seq<int>
    requires 0 <= lo < hi < |s|
  {
    [lo] + Candidates(s, lo, hi, lo + 1) + [hi]
  }

  lemma {:induction false} CandidatesEnclose(s: Text, lo: int, hi: int, from: int, j: int)
    requires 0 <= lo < from && hi < |s| && 0 <= j < |Candidates(s, lo, hi, from)|
    ensures var e := Candidates(s, lo, hi, from)[j]; from <= e < hi && Encloses(s, e, lo, hi)
    decreases hi - from
  {
    if !Encloses(s, from, lo, hi) {
      CandidatesEnclose(s, lo, hi, from + 1, j);
    } else if j > 0 {
      CandidatesEnclose(s, lo, hi, from + 1, j - 1);
    }
  }

  lemma {:induction false} CandidatesIncrease(s: Text, lo: int, hi: int, from: int, j: int)
    requires 0 <= lo < from && hi < |s| && 0 < j < |Candidates(s, lo, hi, from)|
    ensures var r := Candidates(s, lo, hi, from); r[j - 1] < r[j]
    decreases hi - from
  {
    hide Encloses;
    if !Encloses(s, from, lo, hi) {
      CandidatesIncrease(s, lo, hi, from + 1, j);
    } else if j > 1 {
      CandidatesIncrease(s, lo, hi, from + 1, j - 1);
    } else {
      CandidatesEnclose(s, lo, hi, from + 1, 0);
    }
  }

  lemma FenceShape(s: Text, lo: int, hi: int, j: int)
    requires 0 <= lo < hi < |s| && 0 <= j < |Fence(s, lo, hi)| - 1
    ensures var r := Fence(s, lo, hi);
            && lo <= r[j] < r[j + 1] <= hi
            && (j == 0 <==> r[j] == lo) && (j == |r| - 2 <==> r[j + 1] == hi)
            && (j > 0 ==> Encloses(s, r[j], lo, hi))
  {
    var inner := Candidates(s, lo, hi, lo + 1);
    if j > 0 {
      CandidatesEnclose(s, lo, hi, lo + 1, j - 1);
    }
    if j < |inner| {
      CandidatesEnclose(s, lo, hi, lo + 1, j);
    }
    if 0 < j < |inner| {
      CandidatesIncrease(s, lo, hi, lo + 1, j);
    }
  }

  lemma {:induction false} CandidatesComplete(s: Text, lo: int, hi: int, from: int, i: int)
    requires 0 <= lo < from <= i < hi < |s| && Encloses(s, i, lo, hi)
    ensures i in Candidates(s, lo, hi, from)
    decreases hi - from
  {
    if from < i {
      CandidatesComplete(s, lo, hi, from + 1, i);
    }
  }

  /** The first place from `i` on, short of the last, whose character is not less than `c`. */
  function SkipLess(s: Text, fence: seq<int>, c: WCharacterData, i: int): (r: int)
    requires 0 < i < |fence|
    ensures i <= r < |fence|
    decreases |fence| - i
  {
    if i < |fence| - 1 && 0 <= fence[i] < |s| && IdLess(s[fence[i]].id, c.id)
    then SkipLess(s, fence, c, i + 1)
    else i
  }

  lemma {:induction false} SkipLessMeaning(s: Text, fence: seq<int>, c: WCharacterData, i: int)
    requires 0 < i < |fence|
    requires forall j :: 0 <= j < |fence| ==> 0 <= fence[j] < |s|
    ensures var r := SkipLess(s, fence, c, i);
            && (r > i ==> IdLess(s[fence[r - 1]].id, c.id))
            && (r < |fence| - 1 ==> !IdLess(s[fence[r]].id, c.id))
    decreases |fence| - i
  {
    if i < |fence| - 1 && IdLess(s[fence[i]].id, c.id) {
      SkipLessMeaning(s, fence, c, i + 1);
    }
  }

  /** One step of the placement: the part of the gap in which `c` belongs. */
  function NextGap(s: Text, c: WCharacterData, lo: int, hi: int): (gap: (int, int))
    requires 0 <= lo < hi < |s|
    ensures lo <= gap.0 < gap.1 <= hi
  {
    var fence := Fence(s, lo, hi);
    var i := SkipLess(s, fence, c, 1);
    FenceShape(s, lo, hi, i - 1);
    (fence[i - 1], fence[i])
  }

  /**
   * The position at which `IntegrateIns` inserts `c` between positions `lo` and `hi`; `None` when
   * a step does not shrink the gap, in which case the recursion repeats the same call for ever.
   */
  function Place(s: Text, c: WCharacterData, lo: int, hi: int): (k: Option<int>)
    requires 0 <= lo < |s| && 0 <= hi < |s|
    ensures k.Some? ==> 0 <= k.value < |s|
    ensures k.Some? && lo < hi ==> lo < k.value <= hi
    decreases hi - lo
  {
    if hi <= lo + 1 then Some(hi)
    else
      var (a, b) := NextGap(s, c, lo, hi);
      if b - a < hi - lo then Place(s, c, a, b) else None
  }

  lemma FenceInRange(s: Text, lo: int, hi: int)
    requires 0 <= lo < hi < |s|
    ensures forall j :: 0 <= j < |Fence(s, lo, hi)| ==> lo <= Fence(s, lo, hi)[j] <= hi
  {
    var fence := Fence(s, lo, hi);
    forall j | 0 <= j < |fence| ensures lo <= fence[j] <= hi {
      if j < |fence| - 1 {
        FenceShape(s, lo, hi, j);
      }
    }
  }

  /** The ends of the next gap are the old ends or enclosing characters around `c`'s identifier. */
  lemma NextGapMeaning(s: Text, c: WCharacterData, lo: int, hi: int)
    requires 0 <= lo < hi < |s|
    ensures var gap := NextGap(s, c, lo, hi);
            && (gap.0 != lo ==> Encloses(s, gap.0, lo, hi) && IdLess(s[gap.0].id, c.id))
            && (gap.1 != hi ==> Encloses(s, gap.1, lo, hi) && !IdLess(s[gap.1].id, c.id))
  {
    var fence := Fence(s, lo, hi);
    FenceInRange(s, lo, hi);
    var i := SkipLess(s, fence, c, 1);
    SkipLessMeaning(s, fence, c, 1);
    FenceShape(s, lo, hi, i - 1);
    if i < |fence| - 1 {
      FenceShape(s, lo, hi, i);
    }
  }

  /** A step leaves the gap as it is exactly when no character in it encloses it. */
  lemma StuckExactlyWithoutEnclosing(s: Text, c: WCharacterData, lo: int, hi: int)
    requires 0 <= lo < hi < |s|
    ensures NextGap(s, c, lo, hi) == (lo, hi) <==> forall i :: lo < i < hi ==> !Encloses(s, i, lo, hi)
  {
    var fence := Fence(s, lo, hi);
    var i := SkipLess(s, fence, c, 1);
    FenceShape(s, lo, hi, i - 1);
    if NextGap(s, c, lo, hi) == (lo, hi) {
      forall e | lo < e < hi ensures !Encloses(s, e, lo, hi) {
        if Encloses(s, e, lo, hi) {
          CandidatesComplete(s, lo, hi, lo + 1, e);
        }
      }
    } else {
      var gap := NextGap(s, c, lo, hi);
      NextGapMeaning(s, c, lo, hi);
      assert lo < gap.0 < hi || lo < gap.1 < hi;
    }
  }

  // ---------------------------------------------------------------- well-formed text

  /** What the whole system knows about a character: its sort key, its age, and how it was made. */
  datatype Mark = Mark(key: Key, birth: nat, made: WCharacterData)
  type Universe = map<CharId, Mark>

  function KeyAt(u: Universe, id: CharId): Bound {
    if id.clock == START_CLOCK then Bottom
    else if id.clock == END_CLOCK then Top
    else if id in u then At(u[id].key)
    else Bottom
  }

  /** `id` names a limiter or a character created before `birth`. */
  predicate KnownBefore(u: Universe, id: CharId, birth: nat) {
    IsLimiterId(id) || (id in u && u[id].birth < birth)
  }

  predicate ProperId(id: CharId) {
    START_CLOCK < id.clock < END_CLOCK
  }

  /** The universe records `c`, with a key derived from its neighbours, older and in order. */
  predicate Lawful(u: Universe, c: WCharacterData) {
    && ProperId(c.id)
    && c.id in u
    && c == u[c.id].made.(visible := c.visible)
    && KnownBefore(u, c.previousId, u[c.id].birth)
    && KnownBefore(u, c.nextId, u[c.id].birth)
    && Below(KeyAt(u, c.previousId), KeyAt(u, c.nextId))
    && u[c.id].key == Psi(KeyAt(u, c.previousId), KeyAt(u, c.nextId), c.id)
  }

  predicate KeyBefore(u: Universe, s: Text, i: int, j: int)
    requires 0 <= i < |s| && 0 <= j < |s|
  {
    Below(KeyAt(u, s[i].id), KeyAt(u, s[j].id))
  }

  predicate SortedText(u: Universe, s: Text) {
    forall i, j :: 0 <= i < j < |s| ==> KeyBefore(u, s, i, j)
  }

  predicate Bounded(s: Text) {
    |s| >= 2 && s[0].id.clock == START_CLOCK && s[|s| - 1].id.clock == END_CLOCK
  }

  predicate Inner(s: Text, i: int) {
    0 < i < |s| - 1
  }

  /** A lawful character whose neighbours are present. */
  ghost predicate InnerHolds(u: Universe, s: Text, i: int)
    requires 0 <= i < |s|
  {
    Lawful(u, s[i]) && Contains(s, s[i].previousId) && Contains(s, s[i].nextId)
  }

  /** START first, END last, sorted by key, and every character's neighbours present. */
  ghost predicate WellFormed(u: Universe, s: Text) {
    && Bounded(s)
    && SortedText(u, s)
    && forall i {:trigger Inner(s, i)} :: Inner(s, i) ==> InnerHolds(u, s, i)
  }

  lemma KeyAtEquals(u: Universe, a: CharId, b: CharId)
    requires IdEquals(a, b)
    ensures KeyAt(u, a) == KeyAt(u, b)
  {
  }

  lemma SortedIsDistinct(u: Universe, s: Text)
    requires SortedText(u, s)
    ensures DistinctIds(s)
  {
    forall i, j | 0 <= i < j < |s| ensures !IdEquals(s[i].id, s[j].id) {
      assert KeyBefore(u, s, i, j);
      BelowOrder(KeyAt(u, s[i].id), KeyAt(u, s[j].id), Bottom);
    }
  }

  /** In sorted text, key order is position order. */
  lemma SortedPositions(u: Universe, s: Text, i: int, j: int)
    requires SortedText(u, s) && 0 <= i < |s| && 0 <= j < |s|
    ensures i < j <==> Below(KeyAt(u, s[i].id), KeyAt(u, s[j].id))
    ensures i <= j <==> AtMost(KeyAt(u, s[i].id), KeyAt(u, s[j].id))
  {
    assert i < j ==> KeyBefore(u, s, i, j);
    assert j < i ==> KeyBefore(u, s, j, i);
    BelowOrder(KeyAt(u, s[i].id), KeyAt(u, s[j].id), Bottom);
  }

  /** Every character stands strictly between the neighbours it was inserted with. */
  lemma NeighboursSurround(u: Universe, s: Text, i: int)
    requires WellFormed(u, s) && Inner(s, i)
    ensures 0 <= PosOf(s, s[i].previousId) < i < PosOf(s, s[i].nextId)
  {
    var p, n := PosOf(s, s[i].previousId), PosOf(s, s[i].nextId);
    KeyAtEquals(u, s[p].id, s[i].previousId);
    KeyAtEquals(u, s[n].id, s[i].nextId);
    PsiBetween(KeyAt(u, s[i].previousId), KeyAt(u, s[i].nextId), s[i].id);
    SortedPositions(u, s, p, i);
    SortedPositions(u, s, i, n);
  }

  /** The earliest-born character strictly between two positions. */
  lemma {:induction false} EarliestBorn(u: Universe, s: Text, lo: int, hi: int) returns (m: int)
    requires 0 <= lo && lo + 1 < hi < |s|
    requires forall i :: lo < i < hi ==> s[i].id in u
    ensures lo < m < hi
    ensures forall i :: lo < i < hi ==> u[s[m].id].birth <= u[s[i].id].birth
    decreases hi - lo
  {
    m := lo + 1;
    if lo + 2 < hi {
      var r := EarliestBorn(u, s, lo + 1, hi);
      if u[s[r].id].birth < u[s[m].id].birth {
        m := r;
      }
    }
  }

  lemma NeighbourIsOlder(u: Universe, s: Text, p: int, id: CharId, birth: nat)
    requires WellFormed(u, s) && Inner(s, p)
    requires IdEquals(s[p].id, id) && KnownBefore(u, id, birth)
    ensures s[p].id in u && u[s[p].id].birth < birth
  {
  }

  /** A gap that is not empty holds a character whose own neighbours lie outside it. */
  lemma GapHasEnclosing(u: Universe, s: Text, lo: int, hi: int)
    requires WellFormed(u, s) && 0 <= lo && lo + 1 < hi < |s|
    ensures exists i :: lo < i < hi && Encloses(s, i, lo, hi)
  {
    forall i | lo < i < hi ensures s[i].id in u { assert Inner(s, i); }
    var m := EarliestBorn(u, s, lo, hi);
    assert Inner(s, m);
    NeighboursSurround(u, s, m);
    var p, n := PosOf(s, s[m].previousId), PosOf(s, s[m].nextId);
    if lo < p < hi {
      NeighbourIsOlder(u, s, p, s[m].previousId, u[s[m].id].birth);
      assert false;
    }
    if lo < n < hi {
      NeighbourIsOlder(u, s, n, s[m].nextId, u[s[m].id].birth);
      assert false;
    }
    assert Encloses(s, m, lo, hi);
  }

  /** The character `c` belongs in the gap, and was inserted with neighbours outside it. */
  predicate BelongsIn(u: Universe, s: Text, c: WCharacterData, lo: int, hi: int)
    requires c.id in u
  {
    && 0 <= lo < hi < |s|
    && AtMost(KeyAt(u, c.previousId), KeyAt(u, s[lo].id))
    && AtMost(KeyAt(u, s[hi].id), KeyAt(u, c.nextId))
    && Below(KeyAt(u, s[lo].id), At(u[c.id].key))
    && Below(At(u[c.id].key), KeyAt(u, s[hi].id))
  }

  /** Comparing identifiers with an enclosing character compares sort keys. */
  lemma EnclosingCompares(u: Universe, s: Text, c: WCharacterData, lo: int, hi: int, i: int)
    requires WellFormed(u, s) && Lawful(u, c) && BelongsIn(u, s, c, lo, hi)
    requires Inner(s, i) && lo < i < hi && Encloses(s, i, lo, hi) && s[i].id != c.id
    ensures IdLess(s[i].id, c.id) <==> KeyLess(u[s[i].id].key, u[c.id].key)
    ensures !IdLess(s[i].id, c.id) <==> KeyLess(u[c.id].key, u[s[i].id].key)
  {
    var p, n := PosOf(s, s[i].previousId), PosOf(s, s[i].nextId);
    KeyAtEquals(u, s[p].id, s[i].previousId);
    KeyAtEquals(u, s[n].id, s[i].nextId);
    SortedPositions(u, s, p, lo);
    SortedPositions(u, s, hi, n);
    SortedPositions(u, s, lo, i);
    SortedPositions(u, s, i, hi);
    PsiOrder(KeyAt(u, s[lo].id), KeyAt(u, s[hi].id),
             KeyAt(u, s[i].previousId), KeyAt(u, s[i].nextId), s[i].id,
             KeyAt(u, c.previousId), KeyAt(u, c.nextId), c.id);
    KeyLessTotal(u[s[i].id].key, u[c.id].key);
  }

  /** One placement step narrows the gap around the key of `c`. */
  lemma NextGapNarrows(u: Universe, s: Text, c: WCharacterData, lo: int, hi: int)
    requires WellFormed(u, s) && Lawful(u, c) && !Contains(s, c.id)
    requires BelongsIn(u, s, c, lo, hi) && lo + 1 < hi
    ensures var (a, b) := NextGap(s, c, lo, hi); b - a < hi - lo && BelongsIn(u, s, c, a, b)
  {
    GapHasEnclosing(u, s, lo, hi);
    StuckExactlyWithoutEnclosing(s, c, lo, hi);
    NextGapMeaning(s, c, lo, hi);
    var (a, b) := NextGap(s, c, lo, hi);
    if a != lo {
      assert Inner(s, a);
      EnclosingCompares(u, s, c, lo, hi, a);
      SortedPositions(u, s, lo, a);
      BelowOrder(KeyAt(u, c.previousId), KeyAt(u, s[lo].id), KeyAt(u, s[a].id));
    }
    if b != hi {
      assert Inner(s, b);
      EnclosingCompares(u, s, c, lo, hi, b);
      SortedPositions(u, s, b, hi);
      BelowOrder(KeyAt(u, s[b].id), KeyAt(u, s[hi].id), KeyAt(u, c.nextId));
    }
  }

  /** Placement terminates, and finds the place of `c`'s key in the sorted text. */
  lemma {:induction false} PlaceFindsKey(u: Universe, s: Text, c: WCharacterData, lo: int, hi: int)
    requires WellFormed(u, s) && Lawful(u, c) && !Contains(s, c.id)
    requires BelongsIn(u, s, c, lo, hi)
    ensures Place(s, c, lo, hi).Some?
    ensures var k := Place(s, c, lo, hi).value; lo < k <= hi && BelongsIn(u, s, c, k - 1, k)
    decreases hi - lo
  {
    if lo + 1 < hi {
      NextGapNarrows(u, s, c, lo, hi);
      var gap := NextGap(s, c, lo, hi);
      PlaceFindsKey(u, s, c, gap.0, gap.1);
    }
  }

  // ---------------------------------------------------------------- integrating one edit

  /** What `IntegrateIns` makes of an insertion that is fresh and whose neighbours are in order. */
  function ApplyInsert(s: Text, c: WCharacterData): Option<Text> {
    var p, n := PosOf(s, c.previousId), PosOf(s, c.nextId);
    if !ProperId(c.id) || Contains(s, c.id) || !(0 <= p < n) then None
    else
      match Place(s, c, p, n)
      case None => None
      case Some(k) => Some(InsertAt(s, k, c))
  }

  /** What `IntegrateDel` makes of a deletion whose target is present. */
  function ApplyDelete(s: Text, id: CharId): Option<Text> {
    var p := PosOf(s, id);
    if !ProperId(id) || p == -1 then None else Some(s[p := s[p].(visible := false)])
  }

  lemma InsertKeepsPresent(s: Text, k: int, c: WCharacterData, id: CharId)
    requires 0 <= k <= |s|
    ensures Contains(InsertAt(s, k, c), id) <==> Contains(s, id) || IdEquals(c.id, id)
  {
    var t := InsertAt(s, k, c);
    assert t[k] == c;
    if Contains(s, id) {
      var p := PosOf(s, id);
      assert t[if p < k then p else p + 1] == s[p];
    }
    if Contains(t, id) {
      var q := PosOf(t, id);
      assert q != k ==> t[q] == s[if q < k then q else q - 1];
    }
  }

  lemma InsertKeepsSorted(u: Universe, s: Text, c: WCharacterData, k: int)
    requires SortedText(u, s) && 0 < k < |s| && c.id in u && c.id.clock != START_CLOCK && c.id.clock != END_CLOCK
    requires Below(KeyAt(u, s[k - 1].id), At(u[c.id].key)) && Below(At(u[c.id].key), KeyAt(u, s[k].id))
    ensures SortedText(u, InsertAt(s, k, c))
  {
    var t := InsertAt(s, k, c);
    forall i, j | 0 <= i < j < |t| ensures KeyBefore(u, t, i, j) {
      if i == k {
        SortedPositions(u, s, k, j - 1);
        BelowOrder(KeyAt(u, c.id), KeyAt(u, s[k].id), KeyAt(u, s[j - 1].id));
      } else if j == k {
        SortedPositions(u, s, i, k - 1);
        BelowOrder(KeyAt(u, s[i].id), KeyAt(u, s[k - 1].id), KeyAt(u, c.id));
      } else {
        assert KeyBefore(u, s, if i < k then i else i - 1, if j < k then j else j - 1);
      }
    }
  }

  /** Inserting a lawful character at the place of its key keeps the text well formed. */
  lemma InsertKeepsWellFormed(u: Universe, s: Text, c: WCharacterData, k: int)
    requires WellFormed(u, s) && Lawful(u, c) && 0 < k < |s|
    requires BelongsIn(u, s, c, k - 1, k)
    requires Contains(s, c.previousId) && Contains(s, c.nextId)
    ensures WellFormed(u, InsertAt(s, k, c))
  {
    InsertKeepsSorted(u, s, c, k);
    hide SortedText, Lawful, Contains, Below, KeyAt;
    forall i | Inner(InsertAt(s, k, c), i) ensures InnerHolds(u, InsertAt(s, k, c), i) {
      InnerStays(u, s, c, k, i);
    }
  }

  lemma InnerStays(u: Universe, s: Text, c: WCharacterData, k: int, i: int)
    requires WellFormed(u, s) && Lawful(u, c) && 0 < k < |s| && Inner(InsertAt(s, k, c), i)
    requires Contains(s, c.previousId) && Contains(s, c.nextId)
    ensures InnerHolds(u, InsertAt(s, k, c), i)
  {
    hide SortedText, Lawful, Contains;
    var d := InsertAt(s, k, c)[i];
    assert i == k || Inner(s, if i < k then i else i - 1);
    InsertKeepsPresent(s, k, c, d.previousId);
    InsertKeepsPresent(s, k, c, d.nextId);
  }

  /** The neighbours of a lawful character stand in order around the place of its key. */
  lemma NeighboursFrame(u: Universe, s: Text, c: WCharacterData)
    requires WellFormed(u, s) && Lawful(u, c)
    requires Contains(s, c.previousId) && Contains(s, c.nextId)
    ensures BelongsIn(u, s, c, PosOf(s, c.previousId), PosOf(s, c.nextId))
  {
    var p, n := PosOf(s, c.previousId), PosOf(s, c.nextId);
    KeyAtEquals(u, s[p].id, c.previousId);
    KeyAtEquals(u, s[n].id, c.nextId);
    SortedPositions(u, s, p, n);
    PsiBetween(KeyAt(u, c.previousId), KeyAt(u, c.nextId), c.id);
  }

  /** Integrating a lawful character succeeds and puts it at the place of its key. */
  lemma ApplyInsertKeepsWellFormed(u: Universe, s: Text, c: WCharacterData)
    requires WellFormed(u, s) && Lawful(u, c) && !Contains(s, c.id)
    requires Contains(s, c.previousId) && Contains(s, c.nextId)
    ensures ApplyInsert(s, c).Some?
    ensures var p, n := PosOf(s, c.previousId), PosOf(s, c.nextId);
            var k := Place(s, c, p, n);
            && 0 <= p < n && k.Some? && p < k.value <= n
            && ApplyInsert(s, c).value == InsertAt(s, k.value, c)
            && WellFormed(u, InsertAt(s, k.value, c))
  {
    NeighboursFrame(u, s, c);
    var p, n := PosOf(s, c.previousId), PosOf(s, c.nextId);
    PlaceFindsKey(u, s, c, p, n);
    InsertKeepsWellFormed(u, s, c, Place(s, c, p, n).value);
  }

  lemma HideKeepsPresent(s: Text, p: int, id: CharId)
    requires 0 <= p < |s|
    ensures PosOf(s[p := s[p].(visible := false)], id) == PosOf(s, id)
  {
    var t := s[p := s[p].(visible := false)];
    assert forall i :: 0 <= i < |s| ==> t[i].id == s[i].id;
    var a, b := PosOf(s, id), PosOf(t, id);
    assert a != -1 ==> IdEquals(t[a].id, id);
    assert b != -1 ==> IdEquals(s[b].id, id);
  }

  /** Deleting a present character changes only its visibility. */
  lemma ApplyDeleteKeepsWellFormed(u: Universe, s: Text, id: CharId)
    requires WellFormed(u, s) && ProperId(id) && Contains(s, id)
    ensures ApplyDelete(s, id).Some? && WellFormed(u, ApplyDelete(s, id).value)
  {
    var p := PosOf(s, id);
    var t := s[p := s[p].(visible := false)];
    hide Lawful, KeyBefore, SortedText, Contains;
    HideKeepsSorted(u, s, p);
    forall i | Inner(t, i) ensures InnerHolds(u, t, i) {
      HiddenStays(u, s, p, i);
    }
  }

  lemma HideKeepsSorted(u: Universe, s: Text, p: int)
    requires SortedText(u, s) && 0 <= p < |s|
    ensures SortedText(u, s[p := s[p].(visible := false)])
  {
    hide KeyAt, Below;
    var t := s[p := s[p].(visible := false)];
    forall i, j | 0 <= i < j < |t| ensures KeyBefore(u, t, i, j) {
      assert KeyBefore(u, s, i, j);
    }
  }

  lemma HiddenStays(u: Universe, s: Text, p: int, i: int)
    requires WellFormed(u, s) && 0 <= p < |s| && Inner(s, i)
    ensures InnerHolds(u, s[p := s[p].(visible := false)], i)
  {
    hide SortedText, KeyAt, Below;
    HideKeepsPresent(s, p, s[i].previousId);
    HideKeepsPresent(s, p, s[i].nextId);
  }

  // ---------------------------------------------------------------- canonical text

  /** The text that holds exactly the characters `ids`, of which `hidden` are tombstones. */
  ghost predicate Canonical(u: Universe, s: Text, ids: set<CharId>, hidden: set<CharId>) {
    && WellFormed(u, s)
    && hidden <= ids
    && (forall i {:trigger Inner(s, i)} :: Inner(s, i) ==>
         s[i].id in ids && s[i].visible == (u[s[i].id].made.visible && s[i].id !in hidden))
    && (forall id :: id in ids ==> ProperId(id) && Contains(s, id))
  }

  lemma EmptyIsCanonical(u: Universe, site: string)
    ensures Canonical(u, EmptyText(site), {}, {})
  {
    var s := EmptyText(site);
    forall i, j | 0 <= i < j < |s| ensures KeyBefore(u, s, i, j) {
      assert i == 0 && j == 1;
    }
  }

  lemma InsertedIsCanonical(u: Universe, s: Text, ids: set<CharId>, hidden: set<CharId>, c: WCharacterData, k: int)
    requires Canonical(u, s, ids, hidden) && Lawful(u, c) && c == u[c.id].made && c.id !in ids
    requires 0 <= k <= |s| && WellFormed(u, InsertAt(s, k, c))
    ensures Canonical(u, InsertAt(s, k, c), ids + {c.id}, hidden)
  {
    var t := InsertAt(s, k, c);
    forall i | Inner(t, i)
      ensures t[i].id in ids + {c.id} && t[i].visible == (u[t[i].id].made.visible && t[i].id !in hidden)
    {
      assert i != k && s[if i < k then i else i - 1] == t[i] ==> Inner(s, if i < k then i else i - 1);
    }
    forall id | id in ids + {c.id} ensures ProperId(id) && Contains(t, id) {
      InsertKeepsPresent(s, k, c, id);
    }
  }

  lemma InsertKeepsCanonical(u: Universe, s: Text, ids: set<CharId>, hidden: set<CharId>, c: WCharacterData)
    requires Canonical(u, s, ids, hidden) && Lawful(u, c) && c == u[c.id].made
    requires c.id !in ids
    requires IsLimiterId(c.previousId) || c.previousId in ids
    requires IsLimiterId(c.nextId) || c.nextId in ids
    ensures Contains(s, c.previousId) && Contains(s, c.nextId)
    ensures ApplyInsert(s, c).Some?
    ensures Canonical(u, ApplyInsert(s, c).value, ids + {c.id}, hidden)
  {
    LimitersPresent(s);
    AbsentUnlessIn(u, s, ids, hidden, c.id);
    ApplyInsertKeepsWellFormed(u, s, c);
    var k := Place(s, c, PosOf(s, c.previousId), PosOf(s, c.nextId)).value;
    InsertedIsCanonical(u, s, ids, hidden, c, k);
  }

  lemma LimitersPresent(s: Text)
    requires Bounded(s)
    ensures forall id {:trigger Contains(s, id)} :: IsLimiterId(id) ==> Contains(s, id)
  {
    forall id | IsLimiterId(id) ensures Contains(s, id) {
      assert IdEquals(s[0].id, id) || IdEquals(s[|s| - 1].id, id);
    }
  }

  lemma AbsentUnlessIn(u: Universe, s: Text, ids: set<CharId>, hidden: set<CharId>, id: CharId)
    requires Canonical(u, s, ids, hidden) && ProperId(id)
    ensures Contains(s, id) <==> id in ids
    ensures Contains(s, id) ==> Inner(s, PosOf(s, id)) && s[PosOf(s, id)].id == id
  {
    if Contains(s, id) {
      assert Inner(s, PosOf(s, id));
    }
  }

  lemma DeleteKeepsCanonical(u: Universe, s: Text, ids: set<CharId>, hidden: set<CharId>, id: CharId)
    requires Canonical(u, s, ids, hidden) && id in ids
    ensures Contains(s, id) && ApplyDelete(s, id).Some?
    ensures Canonical(u, ApplyDelete(s, id).value, ids, hidden + {id})
  {
    ApplyDeleteKeepsWellFormed(u, s, id);
    AbsentUnlessIn(u, s, ids, hidden, id);
    var p := PosOf(s, id);
    var t := s[p := s[p].(visible := false)];
    forall i | Inner(t, i)
      ensures t[i].id in ids && t[i].visible == (u[t[i].id].made.visible && t[i].id !in hidden + {id})
    {
      assert Inner(s, i);
      if i != p && s[i].id == id {
        SortedIsDistinct(u, s);
        PosOfUnique(s, i, id);
        assert false;
      }
    }
    forall x | x in ids ensures ProperId(x) && Contains(t, x) {
      HideKeepsPresent(s, p, x);
    }
  }

  /** Where two canonical texts first differ, neither may hold the earlier key. */
  lemma CanonicalNoEarlier(u: Universe, s: Text, t: Text, ids: set<CharId>, hidden: set<CharId>, i: int)
    requires Canonical(u, s, ids, hidden) && Canonical(u, t, ids, hidden)
    requires Inner(s, i) && Inner(t, i) && s[1..i] == t[1..i]
    ensures !Below(KeyAt(u, s[i].id), KeyAt(u, t[i].id))
    ensures KeyAt(u, s[i].id) == KeyAt(u, t[i].id) ==> s[i] == t[i]
  {
    AbsentUnlessIn(u, t, ids, hidden, s[i].id);
    var j := PosOf(t, s[i].id);
    SortedPositions(u, t, j, i);
    SortedPositions(u, t, i, j);
    if j < i {
      assert t[j] == t[1..i][j - 1] == s[1..i][j - 1] == s[j];
      SortedPositions(u, s, j, i);
    }
    BelowOrder(KeyAt(u, s[i].id), KeyAt(u, t[i].id), Bottom);
  }

  lemma {:induction false} CanonicalPrefix(u: Universe, s: Text, t: Text, ids: set<CharId>, hidden: set<CharId>, n: int)
    requires Canonical(u, s, ids, hidden) && Canonical(u, t, ids, hidden)
    requires 1 <= n <= |s| - 1 && n <= |t| - 1
    ensures s[1..n] == t[1..n]
    decreases n
  {
    if n > 1 {
      var i := n - 1;
      CanonicalPrefix(u, s, t, ids, hidden, i);
      CanonicalNoEarlier(u, s, t, ids, hidden, i);
      CanonicalNoEarlier(u, t, s, ids, hidden, i);
      BelowOrder(KeyAt(u, s[i].id), KeyAt(u, t[i].id), Bottom);
      assert s[1..n] == s[1..i] + [s[i]] && t[1..n] == t[1..i] + [t[i]];
    }
  }

  lemma CanonicalNotLonger(u: Universe, s: Text, t: Text, ids: set<CharId>, hidden: set<CharId>)
    requires Canonical(u, s, ids, hidden) && Canonical(u, t, ids, hidden)
    ensures |t| <= |s|
  {
    var n := |s| - 1;
    if |s| < |t| {
      CanonicalPrefix(u, s, t, ids, hidden, n);
      assert Inner(t, n);
      AbsentUnlessIn(u, s, ids, hidden, t[n].id);
      var j := PosOf(s, t[n].id);
      assert s[j] == s[1..n][j - 1] == t[1..n][j - 1] == t[j];
      SortedPositions(u, t, j, n);
      BelowOrder(KeyAt(u, t[n].id), KeyAt(u, t[n].id), Bottom);
      assert false;
    }
  }

  /** The characters and tombstones determine the text, up to the limiters' site names. */
  lemma CanonicalUnique(u: Universe, s: Text, t: Text, ids: set<CharId>, hidden: set<CharId>)
    requires Canonical(u, s, ids, hidden) && Canonical(u, t, ids, hidden)
    ensures |s| == |t| && s[1..|s| - 1] == t[1..|t| - 1]
  {
    CanonicalNotLonger(u, s, t, ids, hidden);
    CanonicalNotLonger(u, t, s, ids, hidden);
    CanonicalPrefix(u, s, t, ids, hidden, |s| - 1);
  }
}
