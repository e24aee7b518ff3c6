/**
 * What `computeExtOp` does to the text once it has decided to integrate (cvrdt/site.go), on any
 * text: also one in which an identifier stands twice, and also when nothing is valid about it.
 */
module Integration {
  import opened Identifiers
  import opened TextSequence
  import opened Operations
  import opened Convergence

  /** The first position that carries the identifier at `j`: where `GetPos` looks for it. */
  function First(s: Text, j: int): (p: int)
    requires 0 <= j < |s|
    ensures 0 <= p <= j
  {
    PosOf(s, s[j].id)
  }

  /** `IntegrateIns` between first positions, when at most `steps` recursive calls are needed. */
  function PlaceWithin(s: Text, c: WCharacterData, lo: int, hi: int, steps: nat): (k: Option<int>)
    requires 0 <= lo < |s| && 0 <= hi < |s|
    ensures k.Some? ==> 0 <= k.value < |s|
    decreases steps
  {
    if hi <= lo + 1 then Some(hi)
    else if steps == 0 then None
    else
      var (a, b) := NextGap(s, c, lo, hi);
      PlaceWithin(s, c, First(s, a), First(s, b), steps - 1)
  }

  /** The position at which `IntegrateIns` inserts; `None` when it recurses for ever. */
  ghost function PlaceAt(s: Text, c: WCharacterData, lo: int, hi: int): (k: Option<int>)
    requires 0 <= lo < |s| && 0 <= hi < |s|
    ensures k.Some? ==> 0 <= k.value < |s|
  {
    if steps: nat :| PlaceWithin(s, c, lo, hi, steps).Some? then PlaceWithin(s, c, lo, hi, steps) else None
  }

  lemma {:induction false} MoreStepsAgree(s: Text, c: WCharacterData, lo: int, hi: int, n: nat, m: nat)
    requires 0 <= lo < |s| && 0 <= hi < |s|
    requires PlaceWithin(s, c, lo, hi, n).Some? && n <= m
    ensures PlaceWithin(s, c, lo, hi, m) == PlaceWithin(s, c, lo, hi, n)
    decreases n
  {
    hide NextGap, First;
    if hi > lo + 1 {
      var gap := NextGap(s, c, lo, hi);
      MoreStepsAgree(s, c, First(s, gap.0), First(s, gap.1), n - 1, m - 1);
    }
  }

  lemma PlaceAtIs(s: Text, c: WCharacterData, lo: int, hi: int, n: nat)
    requires 0 <= lo < |s| && 0 <= hi < |s|
    requires PlaceWithin(s, c, lo, hi, n).Some?
    ensures PlaceAt(s, c, lo, hi) == PlaceWithin(s, c, lo, hi, n)
  {
    var m: nat :| PlaceWithin(s, c, lo, hi, m).Some? && PlaceAt(s, c, lo, hi) == PlaceWithin(s, c, lo, hi, m);
    MoreStepsAgree(s, c, lo, hi, if n < m then n else m, if n < m then m else n);
  }

  // ---------------------------------------------------------------- texts with distinct identifiers

  lemma FirstIsItself(s: Text, j: int)
    requires DistinctIds(s) && 0 <= j < |s|
    ensures First(s, j) == j
  {
    PosOfUnique(s, j, s[j].id);
  }

  lemma {:induction false} PlaceEnds(s: Text, c: WCharacterData, lo: int, hi: int, steps: nat)
    requires DistinctIds(s) && 0 <= lo < |s| && 0 <= hi < |s|
    requires Place(s, c, lo, hi).Some? && hi - lo <= steps
    ensures PlaceWithin(s, c, lo, hi, steps) == Place(s, c, lo, hi)
    decreases steps
  {
    hide NextGap, First, DistinctIds;
    if hi > lo + 1 {
      var gap := NextGap(s, c, lo, hi);
      FirstIsItself(s, gap.0);
      FirstIsItself(s, gap.1);
      PlaceEnds(s, c, gap.0, gap.1, steps - 1);
    }
  }

  lemma {:induction false} StuckNeverEnds(s: Text, c: WCharacterData, lo: int, hi: int, steps: nat)
    requires DistinctIds(s) && 0 <= lo < |s| && 0 <= hi < |s| && Place(s, c, lo, hi) == None
    ensures PlaceWithin(s, c, lo, hi, steps) == None
    decreases steps
  {
    hide NextGap, First, DistinctIds;
    if steps > 0 {
      var gap := NextGap(s, c, lo, hi);
      FirstIsItself(s, gap.0);
      FirstIsItself(s, gap.1);
      StuckNeverEnds(s, c, gap.0, gap.1, steps - 1);
    }
  }

  /** With distinct identifiers the recursion ends exactly when every step shrinks the gap. */
  lemma PlaceAtIsPlace(s: Text, c: WCharacterData, lo: int, hi: int)
    requires DistinctIds(s) && 0 <= lo < |s| && 0 <= hi < |s|
    ensures PlaceAt(s, c, lo, hi) == Place(s, c, lo, hi)
  {
    if Place(s, c, lo, hi).Some? {
      var steps := if lo < hi then hi - lo else 0;
      PlaceEnds(s, c, lo, hi, steps);
      PlaceAtIs(s, c, lo, hi, steps);
    } else {
      forall steps: nat ensures PlaceWithin(s, c, lo, hi, steps) == None {
        StuckNeverEnds(s, c, lo, hi, steps);
      }
    }
  }

  /** On a well-formed text placement ends for every character, even one that is there already. */
  lemma {:induction false} WellFormedPlaces(u: Universe, s: Text, c: WCharacterData, lo: int, hi: int)
    requires WellFormed(u, s) && 0 <= lo < |s| && 0 <= hi < |s|
    ensures Place(s, c, lo, hi).Some?
    decreases hi - lo
  {
    if hi > lo + 1 {
      GapHasEnclosing(u, s, lo, hi);
      StuckExactlyWithoutEnclosing(s, c, lo, hi);
      var gap := NextGap(s, c, lo, hi);
      WellFormedPlaces(u, s, c, gap.0, gap.1);
    }
  }

  // ---------------------------------------------------------------- integrating an operation

  /** The text after an executable operation; `None` when the source fails on a nil character or never returns. */
  ghost function Integrate(s: Text, op: WootOperation): Option<Text> {
    match op.opType
    case Insertion =>
      var p, n := PosOf(s, op.character.previousId), PosOf(s, op.character.nextId);
      if p == -1 || n == -1 then None
      else
        (match PlaceAt(s, op.character, p, n)
         case None => None
         case Some(k) => Some(InsertAt(s, k, op.character)))
    case Deletion =>
      var p := PosOf(s, op.character.id);
      if p == -1 then None else Some(s[p := s[p].(visible := false)])
  }

  /** On a valid operation the two notions agree. */
  lemma ValidIsIntegrated(s: Text, op: WootOperation)
    requires DistinctIds(s) && ApplyOp(s, op).Some?
    ensures Integrate(s, op) == ApplyOp(s, op)
  {
    if op.opType == Insertion {
      PlaceAtIsPlace(s, op.character, PosOf(s, op.character.previousId), PosOf(s, op.character.nextId));
    }
  }

  /** Integration loses no character. */
  lemma IntegrateKeepsPresent(s: Text, op: WootOperation, id: CharId)
    requires Integrate(s, op).Some?
    ensures Contains(s, id) ==> Contains(Integrate(s, op).value, id)
    ensures op.opType == Insertion ==> Contains(Integrate(s, op).value, op.character.id)
  {
    match op.opType
    case Insertion =>
      var k := PlaceAt(s, op.character, PosOf(s, op.character.previousId), PosOf(s, op.character.nextId)).value;
      InsertKeepsPresent(s, k, op.character, id);
      InsertKeepsPresent(s, k, op.character, op.character.id);
    case Deletion =>
      HideKeepsPresent(s, PosOf(s, op.character.id), id);
  }

  /** A character that is there already is inserted a second time. */
  lemma PresentIsRepeated(s: Text, op: WootOperation)
    requires op.opType == Insertion && Integrate(s, op).Some? && Contains(s, op.character.id)
    ensures !DistinctIds(Integrate(s, op).value)
  {
    var c := op.character;
    var k := PlaceAt(s, c, PosOf(s, c.previousId), PosOf(s, c.nextId)).value;
    var t, p := InsertAt(s, k, c), PosOf(s, c.id);
    var q := if p < k then p else p + 1;
    assert t[q] == s[p] && t[k] == c;
    IdEqualsEquivalence(s[p].id, c.id, s[p].id);
    assert IdEquals(t[if p < k then p else k].id, t[if p < k then k else p + 1].id);
  }

  /** A repeated identifier stays repeated. */
  lemma RepeatsStay(s: Text, op: WootOperation)
    requires !DistinctIds(s) && Integrate(s, op).Some?
    ensures !DistinctIds(Integrate(s, op).value)
  {
    hide IdEquals, PosOf;
    var i, j :| 0 <= i < j < |s| && IdEquals(s[i].id, s[j].id);
    var t := Integrate(s, op).value;
    match op.opType
    case Insertion =>
      var k := PlaceAt(s, op.character, PosOf(s, op.character.previousId), PosOf(s, op.character.nextId)).value;
      var x, y := if i < k then i else i + 1, if j < k then j else j + 1;
      assert t[x] == s[i] && t[y] == s[j];
      assert IdEquals(t[x].id, t[y].id);
    case Deletion =>
      assert IdEquals(t[i].id, t[j].id);
  }
}
