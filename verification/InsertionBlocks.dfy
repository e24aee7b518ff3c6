/** Independent insertions at one place end as one block sorted by identifier (cvrdt/site.go). */
module InsertionBlocks {
  import opened Identifiers
  import opened TextSequence

  /** `cs` are distinct new characters, all inserted between the adjacent positions `lo`, `lo + 1`. */
  predicate Independent(s: Text, lo: nat, cs: seq<WCharacterData>) {
    && (forall i :: 0 <= i < |cs| ==> Fits(s, lo, cs[i]))
    && (forall i, j :: 0 <= i < j < |cs| ==> cs[i].id != cs[j].id)
  }

  /** `c` is new, and its neighbours stand at `lo` and `lo + 1`. */
  predicate Fits(s: Text, lo: nat, c: WCharacterData) {
    && ProperId(c.id) && !Contains(s, c.id)
    && PosOf(s, c.previousId) == lo && PosOf(s, c.nextId) == lo + 1
  }

  predicate Before(cs: seq<WCharacterData>, i: int, j: int)
    requires 0 <= i < |cs| && 0 <= j < |cs|
  {
    IdLess(cs[i].id, cs[j].id)
  }

  predicate SortedById(cs: seq<WCharacterData>) {
    forall i, j :: 0 <= i < j < |cs| ==> Before(cs, i, j)
  }

  predicate Without(cs: seq<WCharacterData>, c: WCharacterData) {
    forall i :: 0 <= i < |cs| ==> cs[i].id != c.id
  }

  /** The number of leading characters of a sorted block that come before `c`. */
  function Rank(block: seq<WCharacterData>, c: WCharacterData): (k: nat)
    ensures k <= |block|
  {
    if block != [] && IdLess(block[0].id, c.id) then 1 + Rank(block[1..], c) else 0
  }

  function SortIn(block: seq<WCharacterData>, c: WCharacterData): seq<WCharacterData> {
    block[..Rank(block, c)] + [c] + block[Rank(block, c)..]
  }

  function SortAll(cs: seq<WCharacterData>): seq<WCharacterData> {
    if cs == [] then [] else SortIn(SortAll(cs[..|cs| - 1]), cs[|cs| - 1])
  }

  function IntegrateAll(s: Text, cs: seq<WCharacterData>): Option<Text> {
    if cs == [] then Some(s)
    else
      match IntegrateAll(s, cs[..|cs| - 1])
      case None => None
      case Some(t) => ApplyInsert(t, cs[|cs| - 1])
  }

  /** The rank separates the smaller identifiers of a sorted block from the larger. */
  lemma {:induction false} RankSplits(block: seq<WCharacterData>, c: WCharacterData, i: nat)
    requires SortedById(block) && Without(block, c) && i < |block|
    ensures IdLess(block[i].id, c.id) <==> i < Rank(block, c)
    ensures IdLess(c.id, block[i].id) <==> i >= Rank(block, c)
  {
    IdLessOrder(block[i].id, c.id, c.id);
    if IdLess(block[0].id, c.id) {
      if i > 0 {
        BlockTail(block);
        RankSplits(block[1..], c, i - 1);
      }
    } else if i > 0 {
      assert Before(block, 0, i);
      IdLessOrder(c.id, block[0].id, block[i].id);
    }
  }

  lemma SortInSorts(block: seq<WCharacterData>, c: WCharacterData)
    requires SortedById(block) && Without(block, c)
    ensures SortedById(SortIn(block, c)) && multiset(SortIn(block, c)) == multiset(block) + multiset{c}
  {
    hide IdLess, Rank;
    var k, t := Rank(block, c), SortIn(block, c);
    forall i, j | 0 <= i < j < |t| ensures Before(t, i, j) {
      if i == k {
        RankSplits(block, c, j - 1);
      } else if j == k {
        RankSplits(block, c, i);
      } else {
        assert Before(block, if i < k then i else i - 1, if j < k then j else j - 1);
      }
    }
    assert block == block[..k] + block[k..];
  }

  // ---------------------------------------------------------------- one insertion into the block

  function Splice(s: Text, lo: nat, block: seq<WCharacterData>): Text
    requires lo + 1 < |s|
  {
    s[..lo + 1] + block + s[lo + 1..]
  }

  predicate AllFit(s: Text, lo: nat, block: seq<WCharacterData>) {
    forall i :: 0 <= i < |block| ==> Fits(s, lo, block[i])
  }

  lemma SplicedPosition(s: Text, lo: nat, block: seq<WCharacterData>, id: CharId)
    requires lo + 1 < |s| && AllFit(s, lo, block) && Contains(s, id)
    ensures PosOf(Splice(s, lo, block), id) == if PosOf(s, id) <= lo then PosOf(s, id) else PosOf(s, id) + |block|
  {
    var t, p := Splice(s, lo, block), PosOf(s, id);
    var q := if p <= lo then p else p + |block|;
    assert t[q] == s[p];
    forall j | 0 <= j < q ensures !IdEquals(t[j].id, id) {
      if j <= lo {
        assert t[j] == s[j];
      } else if j <= lo + |block| {
        assert t[j] == block[j - lo - 1] && Fits(s, lo, t[j]);
        IdEqualsEquivalence(t[j].id, id, s[p].id);
      } else {
        assert t[j] == s[j - |block|];
      }
    }
  }

  lemma SplicedAbsent(s: Text, lo: nat, block: seq<WCharacterData>, c: WCharacterData)
    requires lo + 1 < |s| && AllFit(s, lo, block) && Fits(s, lo, c) && Without(block, c)
    ensures !Contains(Splice(s, lo, block), c.id)
  {
    var t := Splice(s, lo, block);
    forall j | 0 <= j < |t| ensures !IdEquals(t[j].id, c.id) {
      if j <= lo {
        assert t[j] == s[j];
      } else if j <= lo + |block| {
        assert t[j] == block[j - lo - 1];
      } else {
        assert t[j] == s[j - |block|];
      }
    }
  }

  lemma {:induction false} AllAreCandidates(s: Text, lo: int, hi: int, from: int, j: nat)
    requires 0 <= lo < from && from + j < hi < |s|
    requires forall i :: from <= i < hi ==> Encloses(s, i, lo, hi)
    ensures |Candidates(s, lo, hi, from)| == hi - from && Candidates(s, lo, hi, from)[j] == from + j
    decreases hi - from
  {
    hide Encloses;
    var rest := Candidates(s, lo, hi, from + 1);
    assert Candidates(s, lo, hi, from) == [from] + rest;
    if from + 1 < hi {
      AllAreCandidates(s, lo, hi, from + 1, if j > 0 then j - 1 else 0);
    } else {
      assert rest == [];
    }
  }

  /** In a block every character encloses the whole gap. */
  lemma BlockEncloses(s: Text, lo: nat, block: seq<WCharacterData>, i: nat)
    requires lo + 1 < |s| && AllFit(s, lo, block) && i < |block|
    ensures Encloses(Splice(s, lo, block), lo + 1 + i, lo, lo + 1 + |block|)
  {
    assert Splice(s, lo, block)[lo + 1 + i] == block[i] && Fits(s, lo, block[i]);
    SplicedPosition(s, lo, block, block[i].previousId);
    SplicedPosition(s, lo, block, block[i].nextId);
  }

  lemma ConsecutiveFence(t: Text, lo: int, hi: int, j: nat)
    requires 0 <= lo && lo + 1 < hi < |t|
    requires forall i :: lo + 1 <= i < hi ==> Encloses(t, i, lo, hi)
    ensures |Fence(t, lo, hi)| == hi - lo + 1
    ensures j < |Fence(t, lo, hi)| ==> Fence(t, lo, hi)[j] == lo + j
  {
    AllAreCandidates(t, lo, hi, lo + 1, if 0 < j < hi - lo then j - 1 else 0);
  }

  predicate Consecutive(fence: seq<int>, lo: int) {
    forall j :: 0 <= j < |fence| ==> fence[j] == lo + j
  }

  lemma BlockFence(s: Text, lo: nat, block: seq<WCharacterData>)
    requires lo + 1 < |s| && AllFit(s, lo, block) && block != []
    ensures var fence := Fence(Splice(s, lo, block), lo, lo + 1 + |block|);
            |fence| == |block| + 2 && Consecutive(fence, lo)
  {
    var t, hi := Splice(s, lo, block), lo + 1 + |block|;
    forall i | lo + 1 <= i < hi ensures Encloses(t, i, lo, hi) {
      BlockEncloses(s, lo, block, i - lo - 1);
    }
    var fence := Fence(t, lo, hi);
    ConsecutiveFence(t, lo, hi, 0);
    forall j | 0 <= j < |fence| ensures fence[j] == lo + j {
      ConsecutiveFence(t, lo, hi, j);
    }
  }

  /** Skipping through a fence of consecutive positions counts as the rank does. */
  lemma {:induction false} SkipIsRank(t: Text, lo: nat, fence: seq<int>, block: seq<WCharacterData>,
                                      c: WCharacterData, i: nat)
    requires |fence| == |block| + 2 && lo + |fence| <= |t| && 1 <= i < |fence|
    requires Consecutive(fence, lo)
    requires t[lo + 1..lo + 1 + |block|] == block
    ensures SkipLess(t, fence, c, i) == i + Rank(block[i - 1..], c)
    decreases |fence| - i
  {
    if i < |fence| - 1 {
      assert t[fence[i]] == block[i - 1] == block[i - 1..][0];
      assert block[i - 1..][1..] == block[i..];
      SkipIsRank(t, lo, fence, block, c, i + 1);
    }
  }

  /** So one step finds two adjacent positions. */
  lemma BlockStep(t: Text, lo: nat, block: seq<WCharacterData>, c: WCharacterData)
    requires lo + 1 + |block| < |t| && t[lo + 1..lo + 1 + |block|] == block
    requires var fence := Fence(t, lo, lo + 1 + |block|); |fence| == |block| + 2 && Consecutive(fence, lo)
    ensures var k := lo + Rank(block, c); NextGap(t, c, lo, lo + 1 + |block|) == (k, k + 1)
  {
    assert block[0..] == block;
    SkipIsRank(t, lo, Fence(t, lo, lo + 1 + |block|), block, c, 1);
  }

  lemma BlockPlace(s: Text, lo: nat, block: seq<WCharacterData>, c: WCharacterData)
    requires lo + 1 < |s| && AllFit(s, lo, block)
    ensures Place(Splice(s, lo, block), c, lo, lo + 1 + |block|) == Some(lo + Rank(block, c) + 1)
  {
    if block != [] {
      BlockFence(s, lo, block);
      BlockStep(Splice(s, lo, block), lo, block, c);
    }
  }

  lemma SpliceInsert(s: Text, lo: nat, block: seq<WCharacterData>, c: WCharacterData, r: nat)
    requires lo + 1 < |s| && r <= |block|
    ensures InsertAt(Splice(s, lo, block), lo + r + 1, c) == Splice(s, lo, block[..r] + [c] + block[r..])
  {
  }

  /** Integrating one more independent character sorts it into the block. */
  lemma BlockGrows(s: Text, lo: nat, block: seq<WCharacterData>, c: WCharacterData)
    requires lo + 1 < |s| && AllFit(s, lo, block) && Fits(s, lo, c) && Without(block, c)
    ensures ApplyInsert(Splice(s, lo, block), c) == Some(Splice(s, lo, SortIn(block, c)))
  {
    hide Place, Rank, Splice;
    var t, hi, k := Splice(s, lo, block), lo + 1 + |block|, lo + Rank(block, c) + 1;
    SplicedAbsent(s, lo, block, c);
    SplicedPosition(s, lo, block, c.previousId);
    SplicedPosition(s, lo, block, c.nextId);
    BlockPlace(s, lo, block, c);
    SpliceInsert(s, lo, block, c, Rank(block, c));
  }

  // ---------------------------------------------------------------- the whole block

  /**
   * Whatever the order in which independent insertions between two adjacent characters arrive,
   * they become one contiguous block, sorted by identifier, in exactly that gap.
   */
  lemma {:induction false} IndependentInsertsFormSortedBlock(s: Text, lo: nat, cs: seq<WCharacterData>)
    requires lo + 1 < |s| && Independent(s, lo, cs)
    ensures IntegrateAll(s, cs) == Some(Splice(s, lo, SortAll(cs)))
    ensures SortedById(SortAll(cs)) && multiset(SortAll(cs)) == multiset(cs)
    decreases |cs|
  {
    if cs == [] {
      assert Splice(s, lo, []) == s;
    } else {
      var n := |cs| - 1;
      var before, c := cs[..n], cs[n];
      assert cs == before + [c];
      assert Independent(s, lo, before);
      IndependentInsertsFormSortedBlock(s, lo, before);
      var block := SortAll(before);
      forall i | 0 <= i < |block| ensures Fits(s, lo, block[i]) && block[i].id != c.id {
        assert block[i] in multiset(before);
      }
      SortInSorts(block, c);
      BlockGrows(s, lo, block, c);
    }
  }

  /**
   * Read off the text: the insertions stand side by side in their gap, each once, nothing else has
   * moved, and of any two the left one has the smaller clock or, with equal clocks, the
   * alphabetically earlier site.
   */
  lemma EarlierIdentifierStandsLeft(s: Text, lo: nat, cs: seq<WCharacterData>)
    requires lo + 1 < |s| && Independent(s, lo, cs)
    ensures IntegrateAll(s, cs).Some?
    ensures var t, end := IntegrateAll(s, cs).value, lo + 1 + |cs|;
            && |t| == |s| + |cs| && t[..lo + 1] == s[..lo + 1] && t[end..] == s[lo + 1..]
            && multiset(t[lo + 1..end]) == multiset(cs)
            && forall i, j :: lo < i < j < end ==>
                 || t[i].id.clock < t[j].id.clock
                 || (t[i].id.clock == t[j].id.clock && Precedes(t[i].id.site, t[j].id.site))
  {
    hide IntegrateAll, SortAll, Precedes;
    IndependentInsertsFormSortedBlock(s, lo, cs);
    var t, end, block := IntegrateAll(s, cs).value, lo + 1 + |cs|, SortAll(cs);
    assert |block| == |multiset(block)| == |multiset(cs)| == |cs|;
    assert t[lo + 1..end] == block;
    forall i, j | lo < i < j < end
      ensures t[i].id.clock < t[j].id.clock ||
              (t[i].id.clock == t[j].id.clock && Precedes(t[i].id.site, t[j].id.site))
    {
      assert t[i] == block[i - lo - 1] && t[j] == block[j - lo - 1];
      assert Before(block, i - lo - 1, j - lo - 1);
      StrLessIsAlphabetical(t[i].id.site, t[j].id.site);
    }
  }

  /** Two orders of arrival give the same text. */
  lemma BlockIgnoresArrivalOrder(s: Text, lo: nat, cs: seq<WCharacterData>, ds: seq<WCharacterData>)
    requires lo + 1 < |s| && Independent(s, lo, cs) && multiset(ds) == multiset(cs)
    ensures IntegrateAll(s, ds) == IntegrateAll(s, cs)
  {
    IndependentUnderPermutation(s, lo, cs, ds);
    IndependentInsertsFormSortedBlock(s, lo, cs);
    IndependentInsertsFormSortedBlock(s, lo, ds);
    SortedBlockUnique(SortAll(cs), SortAll(ds));
  }

  lemma IndependentUnderPermutation(s: Text, lo: nat, cs: seq<WCharacterData>, ds: seq<WCharacterData>)
    requires Independent(s, lo, cs) && multiset(ds) == multiset(cs)
    ensures Independent(s, lo, ds)
  {
    forall i | 0 <= i < |ds| ensures Fits(s, lo, ds[i]) {
      assert ds[i] in multiset(cs);
    }
    forall i, j | 0 <= i < j < |ds| ensures ds[i].id != ds[j].id {
      if ds[i].id == ds[j].id {
        assert ds[i] in multiset(cs) && ds[j] in multiset(cs);
        assert ds[i] == ds[j];
        assert ds == ds[..j] + [ds[j]] + ds[j + 1..];
        assert ds[i] in ds[..j];
        assert multiset(cs)[ds[i]] >= 2;
        OccursOnce(cs, ds[i]);
        assert false;
      }
    }
  }

  lemma {:induction false} OccursOnce(cs: seq<WCharacterData>, c: WCharacterData)
    requires forall i, j :: 0 <= i < j < |cs| ==> cs[i].id != cs[j].id
    ensures multiset(cs)[c] <= 1
    decreases |cs|
  {
    if cs != [] {
      var n := |cs| - 1;
      assert cs == cs[..n] + [cs[n]];
      OccursOnce(cs[..n], c);
      if cs[n] == c {
        assert c !in cs[..n];
      }
    }
  }

  lemma BlockTail(a: seq<WCharacterData>)
    requires SortedById(a) && a != []
    ensures SortedById(a[1..])
  {
    forall i, j | 0 <= i < j < |a[1..]| ensures Before(a[1..], i, j) {
      assert Before(a, i + 1, j + 1);
    }
  }

  lemma {:induction false} SortedBlockUnique(a: seq<WCharacterData>, b: seq<WCharacterData>)
    requires SortedById(a) && SortedById(b) && multiset(a) == multiset(b)
    ensures a == b
    decreases |a|
  {
    hide SortedById;
    if a == [] {
      assert |multiset(b)| == 0;
    } else {
      assert |multiset(b)| == |a|;
      HeadsAgree(a, b);
      assert a == [a[0]] + a[1..] && b == [b[0]] + b[1..];
      BlockTail(a);
      BlockTail(b);
      assert multiset(a[1..]) == multiset(a) - multiset{a[0]};
      assert multiset(b[1..]) == multiset(b) - multiset{b[0]};
      SortedBlockUnique(a[1..], b[1..]);
    }
  }

  lemma HeadsAgree(a: seq<WCharacterData>, b: seq<WCharacterData>)
    requires SortedById(a) && SortedById(b) && multiset(a) == multiset(b) && a != [] && b != []
    ensures a[0] == b[0]
  {
    assert a[0] in multiset(b) && b[0] in multiset(a);
    IdLessOrder(a[0].id, b[0].id, a[0].id);
    var i :| 0 <= i < |b| && b[i] == a[0];
    var j :| 0 <= j < |a| && a[j] == b[0];
    assert i > 0 ==> Before(b, 0, i);
    assert j > 0 ==> Before(a, 0, j);
  }
}
