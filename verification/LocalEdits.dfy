/** Local edits refine edits of a plain list, through arbitrary tombstones (cvrdt/site.go). */
module LocalEdits {
  import opened Identifiers
  import opened SortKeys
  import opened TextSequence
  import opened Clocks
  import opened Operations
  import opened Convergence
  import opened Integration
  import opened Replica

  // ---------------------------------------------------------------- visible characters

  lemma {:induction false} PicksConcat(a: Text, b: Text, ex: bool)
    ensures Picks(a + b, ex) == Picks(a, ex) + Picks(b, ex)
  {
    hide Shown;
    if a == [] {
      assert a + b == b;
    } else {
      var head := if Shown(a[0], ex) then [a[0]] else [];
      PicksConcat(a[1..], b, ex);
      assert (a + b)[0] == a[0] && (a + b)[1..] == a[1..] + b;
      assert Picks(a + b, ex) == head + (Picks(a[1..], ex) + Picks(b, ex));
      assert Picks(a, ex) == head + Picks(a[1..], ex);
    }
  }

  lemma PicksOne(c: WCharacterData, ex: bool)
    ensures Picks([c], ex) == if Shown(c, ex) then [c] else []
  {
    assert [c][1..] == [];
  }

  /** The `j`th visible character has exactly `j` visible characters before it. */
  lemma {:induction false} NthShownSplits(s: Text, ex: bool, j: nat)
    requires j < |Picks(s, ex)|
    ensures var x := NthShown(s, ex, j);
            && Shown(s[x], ex) && s[x] == Picks(s, ex)[j]
            && Picks(s[..x], ex) == Picks(s, ex)[..j]
  {
    NthShownUnfolds(s, ex, j);
    hide Shown, Picks, NthShown;
    var x, rest := NthShown(s, ex, j), s[1..];
    if Shown(s[0], ex) && j == 0 {
      assert s[..x] == [];
    } else if Shown(s[0], ex) {
      NthShownSplits(rest, ex, j - 1);
      PicksOfPrefix(s, x, ex);
      assert Picks(s, ex)[..j] == [s[0]] + Picks(rest, ex)[..j - 1];
    } else {
      NthShownSplits(rest, ex, j);
      PicksOfPrefix(s, x, ex);
      assert [] + Picks(rest, ex) == Picks(rest, ex);
    }
  }

  lemma NthShownUnfolds(s: Text, ex: bool, j: nat)
    requires j < |Picks(s, ex)|
    ensures s != [] && Picks([], ex) == []
    ensures Picks(s, ex) == (if Shown(s[0], ex) then [s[0]] else []) + Picks(s[1..], ex)
    ensures NthShown(s, ex, j) ==
            if !Shown(s[0], ex) then 1 + NthShown(s[1..], ex, j)
            else if j == 0 then 0
            else 1 + NthShown(s[1..], ex, j - 1)
  {
    hide Shown;
  }

  lemma PicksOfPrefix(s: Text, x: nat, ex: bool)
    requires 0 < x <= |s|
    ensures Picks(s[..x], ex) == (if Shown(s[0], ex) then [s[0]] else []) + Picks(s[1..][..x - 1], ex)
  {
    assert s[..x][1..] == s[1..][..x - 1];
  }

  /** Cutting anywhere after the `j`th visible character and not after the next leaves `j + 1` of them. */
  lemma CutBetweenShown(s: Text, ex: bool, j: nat, k: nat)
    requires j + 1 < |Picks(s, ex)|
    requires NthShown(s, ex, j) < k <= NthShown(s, ex, j + 1)
    ensures Picks(s[..k], ex) == Picks(s, ex)[..j + 1]
  {
    var lo, hi := NthShown(s, ex, j), NthShown(s, ex, j + 1);
    NthShownSplits(s, ex, j);
    NthShownSplits(s, ex, j + 1);
    assert s[..k] == s[..lo] + [s[lo]] + s[lo + 1..k];
    PicksConcat(s[..lo] + [s[lo]], s[lo + 1..k], ex);
    PicksConcat(s[..lo], [s[lo]], ex);
    PicksOne(s[lo], ex);
    assert s[..hi] == s[..k] + s[k..hi];
    PicksConcat(s[..k], s[k..hi], ex);
  }

  lemma NthShownIncreases(s: Text, ex: bool, j: nat)
    requires j + 1 < |Picks(s, ex)|
    ensures NthShown(s, ex, j) < NthShown(s, ex, j + 1)
  {
    var lo, hi := NthShown(s, ex, j), NthShown(s, ex, j + 1);
    NthShownSplits(s, ex, j);
    NthShownSplits(s, ex, j + 1);
    if hi <= lo {
      assert s[..lo] == s[..hi] + s[hi..lo];
      PicksConcat(s[..hi], s[hi..lo], ex);
      assert false;
    }
  }

  predicate NoSpecial(s: Text) {
    forall i :: 0 <= i < |s| ==> !s[i].IsSpecial()
  }

  /** Text whose limiters are visible and marked, and whose other characters carry no limiter string. */
  ghost predicate PlainText(s: Text) {
    && Bounded(s)
    && s[0].visible && s[0].IsSpecial() && s[|s| - 1].visible && s[|s| - 1].IsSpecial()
    && forall i {:trigger Inner(s, i)} :: Inner(s, i) ==> !s[i].IsSpecial()
  }

  lemma {:induction false} PicksPlain(s: Text)
    requires NoSpecial(s)
    ensures Picks(s, false) == Picks(s, true)
  {
    if s != [] {
      PicksPlain(s[1..]);
    }
  }

  lemma InnerIsPlain(s: Text, k: nat)
    requires PlainText(s) && 1 <= k <= |s| - 1
    ensures NoSpecial(s[1..k])
  {
    forall i | 0 <= i < k - 1 ensures !s[1..k][i].IsSpecial() {
      assert Inner(s, i + 1);
    }
  }

  lemma PicksEnds(s: Text, ex: bool)
    requires |s| >= 2
    ensures Picks(s, ex) == Picks([s[0]], ex) + Picks(s[1..|s| - 1], ex) + Picks([s[|s| - 1]], ex)
  {
    var mid := s[1..|s| - 1];
    assert s == [s[0]] + mid + [s[|s| - 1]];
    PicksConcat([s[0]] + mid, [s[|s| - 1]], ex);
    PicksConcat([s[0]], mid, ex);
  }

  /** With the limiters, the visible characters are START, the document, END. */
  lemma PicksOfPlainText(s: Text)
    requires PlainText(s)
    ensures Picks(s, true) == Picks(s[1..|s| - 1], true)
    ensures Picks(s, false) == [s[0]] + Picks(s, true) + [s[|s| - 1]]
  {
    LimiterPicks(s[0]);
    LimiterPicks(s[|s| - 1]);
    InnerIsPlain(s, |s| - 1);
    hide Picks, PlainText, NoSpecial;
    PicksEnds(s, true);
    PicksEnds(s, false);
    PicksPlain(s[1..|s| - 1]);
    NothingAround(Picks(s[1..|s| - 1], true));
  }

  lemma LimiterPicks(c: WCharacterData)
    requires c.visible && c.IsSpecial()
    ensures Picks([c], true) == [] && Picks([c], false) == [c]
  {
    PicksOne(c, true);
    PicksOne(c, false);
  }

  lemma NothingAround(s: Text)
    ensures [] + s + [] == s
  {
  }

  /** Cutting plain text after the `pos`th visible inner character cuts the document there. */
  lemma CutDocument(s: Text, pos: nat, k: nat)
    requires PlainText(s) && pos <= |Picks(s, true)| && |Picks(s, false)| == |Picks(s, true)| + 2
    requires NthShown(s, false, pos) < k <= NthShown(s, false, pos + 1)
    ensures Picks(s[..k], true) == Picks(s, true)[..pos]
    ensures Picks(s[k..], true) == Picks(s, true)[pos..]
  {
    hide Picks, NthShown;
    PicksOfPlainText(s);
    CutBetweenShown(s, false, pos, k);
    assert s[..k] == [s[0]] + s[1..k];
    PicksConcat([s[0]], s[1..k], false);
    PicksConcat([s[0]], s[1..k], true);
    PicksOne(s[0], false);
    PicksOne(s[0], true);
    InnerIsPlain(s, k);
    PicksPlain(s[1..k]);
    assert s == s[..k] + s[k..];
    PicksConcat(s[..k], s[k..], true);
  }

  // ---------------------------------------------------------------- the document after an edit

  lemma PicksAround(a: Text, c: WCharacterData, b: Text, ex: bool)
    ensures Picks(a + [c] + b, ex) == Picks(a, ex) + (if Shown(c, ex) then [c] else []) + Picks(b, ex)
  {
    PicksConcat(a + [c], b, ex);
    PicksConcat(a, [c], ex);
    PicksOne(c, ex);
  }

  lemma InsertedDocument(s: Text, c: WCharacterData, pos: nat, k: nat)
    requires PlainText(s) && c.visible && pos <= |Values(s)| && |Picks(s, false)| == |Picks(s, true)| + 2
    requires NthShown(s, false, pos) < k <= NthShown(s, false, pos + 1)
    ensures Values(InsertAt(s, k, c)) ==
            if c.IsSpecial() then Values(s)
            else Values(s)[..pos] + [c.alphaValue] + Values(s)[pos..]
  {
    hide Picks, NthShown, PlainText;
    CutDocument(s, pos, k);
    PicksAround(s[..k], c, s[k..], true);
    var p, q := Picks(s, true), Picks(InsertAt(s, k, c), true);
    assert p == p[..pos] + p[pos..];
    assert q == p[..pos] + (if c.IsSpecial() then [] else [c]) + p[pos..];
  }

  lemma RemovedDocument(s: Text, m: nat)
    requires m < |Values(s)|
    ensures var x := NthShown(s, true, m);
            Values(s[x := s[x].(visible := false)]) == Values(s)[..m] + Values(s)[m + 1..]
  {
    hide NthShown, Picks;
    var x := NthShown(s, true, m);
    var c, d := s[x], s[x].(visible := false);
    NthShownSplits(s, true, m);
    assert s == s[..x] + [c] + s[x + 1..];
    assert s[x := d] == s[..x] + [d] + s[x + 1..];
    PicksAround(s[..x], c, s[x + 1..], true);
    PicksAround(s[..x], d, s[x + 1..], true);
    var p, q := Picks(s, true), Picks(s[x := d], true);
    assert q == p[..m] + p[m + 1..];
  }

  lemma InsertKeepsPlain(s: Text, k: nat, c: WCharacterData)
    requires PlainText(s) && 0 < k < |s| && !c.IsSpecial()
    ensures PlainText(InsertAt(s, k, c))
  {
    var t := InsertAt(s, k, c);
    forall i | Inner(t, i) ensures !t[i].IsSpecial() {
      assert i == k || Inner(s, if i < k then i else i - 1);
    }
  }

  lemma HideKeepsPlain(s: Text, x: nat)
    requires PlainText(s) && 0 < x < |s| - 1
    ensures PlainText(s[x := s[x].(visible := false)])
  {
    var t := s[x := s[x].(visible := false)];
    forall i | Inner(t, i) ensures !t[i].IsSpecial() {
      assert Inner(s, i);
    }
  }

  // ---------------------------------------------------------------- GenerateIns and GenerateDel

  /** The identifier a site gives to its next character. */
  function NextId(st: SiteState): CharId {
    CharId(st.siteId, Get(Tick(st.clock, st.siteId), st.siteId))
  }

  /** The site can issue a fresh identifier that is no limiter's. */
  predicate CanIssue(st: SiteState) {
    0 <= Get(st.clock, st.siteId) < MAX_VALUE - 1 && !Contains(st.text, NextId(st))
  }

  /** The character that an insertion at `pos` makes, between its visible neighbours. */
  function NewChar(st: SiteState, pos: nat, str: string): WCharacterData
    requires pos + 1 < |Picks(st.text, false)|
  {
    WCharacterData(NextId(st), str, true,
                   st.text[NthShown(st.text, false, pos)].id,
                   st.text[NthShown(st.text, false, pos + 1)].id)
  }

  /** `GenerateIns` inside the document: the neighbours are in order and the new text is valid. */
  lemma GenerateInsIsValid(u: Universe, birth: nat, st: SiteState, pos: nat, str: string)
    requires WellFormed(u, st.text) && BornBefore(u, birth) && NextId(st) !in u
    requires PlainText(st.text) && CanIssue(st) && pos <= |Values(st.text)|
    ensures |Picks(st.text, false)| == |Picks(st.text, true)| + 2
    ensures var c := NewChar(st, pos, str);
            var v := Record(u, c, birth);
            var lo, hi := NthShown(st.text, false, pos), NthShown(st.text, false, pos + 1);
            && Lawful(v, c) && BornBefore(v, birth + 1) && WellFormed(v, st.text)
            && PosOf(st.text, c.previousId) == lo < hi == PosOf(st.text, c.nextId)
            && ApplyInsert(st.text, c).Some?
            && Place(st.text, c, lo, hi).Some? && lo < Place(st.text, c, lo, hi).value <= hi
            && WellFormed(v, ApplyInsert(st.text, c).value)
  {
    PicksOfPlainText(st.text);
    var c := NewChar(st, pos, str);
    var lo, hi := NthShown(st.text, false, pos), NthShown(st.text, false, pos + 1);
    NthShownIncreases(st.text, false, pos);
    SortedIsDistinct(u, st.text);
    PosOfUnique(st.text, lo, c.previousId);
    PosOfUnique(st.text, hi, c.nextId);
    RecordIsLawful(u, st.text, c, birth);
    RecordKeepsWellFormed(u, c, birth, st.text);
    ApplyInsertKeepsWellFormed(Record(u, c, birth), st.text, c);
  }

  // ---------------------------------------------------------------- any local edit, by what is asked for

  function Least(a: int, b: int): int {
    if a < b then a else b
  }

  /** What an operation made from an edit says: its kind, the site's next identifier, and the content concerned. */
  ghost predicate Describes(st: SiteState, edit: LocalOperation, op: WootOperation) {
    var v := Values(st.text);
    && op.opType == edit.opType
    && op.id.siteId == st.siteId && op.id.LogicalClock() == Get(st.clock, st.siteId) + 1
    && (edit.opType == Insertion ==>
          op.character.alphaValue == edit.content && op.character.visible
          && op.character.id == CharId(st.siteId, Get(st.clock, st.siteId) + 1))
    && (edit.opType == Deletion && edit.pos >= 0 && v != [] ==>
          op.character.alphaValue == v[Least(edit.pos, |v| - 1)])
  }

  /**
   * What an edit asks for. With a position that is not negative, an insertion puts its content at
   * that index of the visible list, or at its end, unless the content is a limiter's, and a deletion
   * takes that index out, or the last, if there is any. Otherwise the edit is refused. Only a
   * refused deletion leaves the clock alone.
   */
  ghost predicate Obeys(st: SiteState, edit: LocalOperation, g: Generation) {
    var v := Values(st.text);
    && !g.Endless? && (g.Generated? <==> edit.pos >= 0 && (edit.opType == Deletion ==> v != []))
    && (g.Refused? ==> Values(g.st.text) == v)
    && (g.Generated? && edit.opType == Insertion ==>
          var k := Least(edit.pos, |v|);
          Values(g.st.text) == if edit.content == START_STRING || edit.content == END_STRING then v
                               else v[..k] + [edit.content] + v[k..])
    && (g.Generated? && edit.opType == Deletion ==>
          var k := Least(edit.pos, |v| - 1); Values(g.st.text) == v[..k] + v[k + 1..])
    && (g.Generated? ==> Describes(st, edit, g.op))
    && g.st.clock == if g.Refused? && edit.opType == Deletion then st.clock else Tick(st.clock, st.siteId)
  }

  /** Every local edit does what it asks for. */
  lemma EditIsObeyed(u: Universe, birth: nat, st: SiteState, edit: LocalOperation)
    requires WellFormed(u, st.text) && BornBefore(u, birth) && NextId(st) !in u
    requires PlainText(st.text) && CanIssue(st)
    ensures Obeys(st, edit, Generate(st, edit))
  {
    hide WellFormed, PlainText, Values, Picks, NthShown, GenerateIns, GenerateDel, ApplyDelete;
    if edit.opType == Insertion {
      if edit.pos < 0 {
        NothingToInsert(st, edit.pos, edit.content);
      } else if edit.pos <= |Values(st.text)| {
        InsertionInside(u, birth, st, edit.pos, edit.content);
      } else {
        InsertionPastEnd(u, st, edit.pos, edit.content);
      }
    } else if edit.pos >= 0 && |Values(st.text)| > 0 {
      GenerateDelRefinesList(u, st, edit.pos);
      DeletedContent(st.text, Least(edit.pos, |Values(st.text)| - 1));
    } else {
      NothingToDelete(st, edit.pos);
    }
  }

  lemma NothingToInsert(st: SiteState, pos: int, str: string)
    requires pos < 0
    ensures GenerateIns(st, pos, str) == Refused(st.(clock := Tick(st.clock, st.siteId)))
  {
    hide Integrate;
  }

  lemma NothingToDelete(st: SiteState, pos: int)
    requires pos < 0 || Values(st.text) == []
    ensures GenerateDel(st, pos) == Refused(st)
  {
    hide Picks, NthShown;
  }

  lemma DeletedContent(s: Text, m: nat)
    requires m < |Values(s)|
    ensures s[NthShown(s, true, m)].alphaValue == Values(s)[m]
  {
    NthShownSplits(s, true, m);
  }

  lemma InsertionInside(u: Universe, birth: nat, st: SiteState, pos: nat, str: string)
    requires WellFormed(u, st.text) && BornBefore(u, birth) && NextId(st) !in u
    requires PlainText(st.text) && CanIssue(st) && pos <= |Values(st.text)|
    ensures var v, g := Values(st.text), GenerateIns(st, pos, str);
            && g.Generated? && g.st.clock == g.op.id.clock == Tick(st.clock, st.siteId)
            && g.op.id.siteId == st.siteId && g.op.opType == Insertion
            && g.op.character.alphaValue == str && g.op.character.visible && g.op.character.id == NextId(st)
            && Values(g.st.text) == if str == START_STRING || str == END_STRING then v
                                    else v[..pos] + [str] + v[pos..]
  {
    hide Place, InsertAt, WellFormed, PlainText, Picks, NthShown;
    GenerateInsIsValid(u, birth, st, pos, str);
    GenerateInsApplies(u, birth, st, pos, str);
    hide GenerateIns;
    var c := NewChar(st, pos, str);
    InsertedDocument(st.text, c, pos,
                     Place(st.text, c, NthShown(st.text, false, pos), NthShown(st.text, false, pos + 1)).value);
  }

  /** Past the document the content is appended to it. */
  lemma InsertionPastEnd(u: Universe, st: SiteState, pos: nat, str: string)
    requires WellFormed(u, st.text) && PlainText(st.text) && pos > |Values(st.text)|
    ensures var v, g := Values(st.text), GenerateIns(st, pos, str);
            && g.Generated? && g.st.clock == g.op.id.clock == Tick(st.clock, st.siteId)
            && g.op.id.siteId == st.siteId && g.op.opType == Insertion
            && g.op.character.alphaValue == str && g.op.character.visible && g.op.character.id == NextId(st)
            && Values(g.st.text) == if str == START_STRING || str == END_STRING then v else v + [str]
  {
    hide WellFormed, PlainText, IthVisible, PlaceAt;
    var v, n := Values(st.text), |st.text| - 1;
    GenerateInsPastEnd(u, st, pos, str);
    EndIsShownLast(u, st);
    var g := GenerateIns(st, pos, str);
    hide GenerateIns, Picks, NthShown;
    InsertedDocument(st.text, g.op.character, |v|, n);
    assert v[..|v|] == v && v[|v|..] == [];
    assert v + [str] + [] == v + [str];
  }

  lemma EndIsShownLast(u: Universe, st: SiteState)
    requires WellFormed(u, st.text) && PlainText(st.text)
    ensures var v, n := Values(st.text), |st.text| - 1;
            && |Picks(st.text, false)| == |Picks(st.text, true)| + 2
            && NthShown(st.text, false, |v|) < n == NthShown(st.text, false, |v| + 1)
  {
    hide WellFormed, NthShown, Picks;
    PicksOfPlainText(st.text);
    LastShownIsEnd(u, st, |Values(st.text)| + 1);
    NthShownIncreases(st.text, false, |Values(st.text)|);
  }

  /** Inserting at `pos` inside the document inserts the content at index `pos` of the list. */
  lemma GenerateInsRefinesList(u: Universe, birth: nat, st: SiteState, pos: nat, str: string)
    requires WellFormed(u, st.text) && BornBefore(u, birth) && NextId(st) !in u
    requires PlainText(st.text) && CanIssue(st) && pos <= |Values(st.text)|
    ensures |Picks(st.text, false)| == |Picks(st.text, true)| + 2
    ensures var c := NewChar(st, pos, str);
            var clock := Tick(st.clock, st.siteId);
            && ApplyInsert(st.text, c).Some?
            && GenerateIns(st, pos, str) ==
                 Generated(st.(clock := clock, text := ApplyInsert(st.text, c).value),
                           WootOperation(LogicalId(st.siteId, clock), Insertion, c))
            && (c.IsSpecial() <==> str == START_STRING || str == END_STRING)
            && ((Values(ApplyInsert(st.text, c).value) ==
                 Values(st.text)[..pos] + [str] + Values(st.text)[pos..]) <==> !c.IsSpecial())
            && (!c.IsSpecial() ==> PlainText(ApplyInsert(st.text, c).value))
  {
    hide Place, InsertAt;
    GenerateInsIsValid(u, birth, st, pos, str);
    GenerateInsApplies(u, birth, st, pos, str);
    hide GenerateIns;
    var c := NewChar(st, pos, str);
    var k := Place(st.text, c, NthShown(st.text, false, pos), NthShown(st.text, false, pos + 1)).value;
    InsertedDocument(st.text, c, pos, k);
    if !c.IsSpecial() {
      InsertKeepsPlain(st.text, k, c);
    }
  }

  lemma GenerateInsApplies(u: Universe, birth: nat, st: SiteState, pos: nat, str: string)
    requires WellFormed(u, st.text) && BornBefore(u, birth) && NextId(st) !in u
    requires PlainText(st.text) && CanIssue(st) && pos <= |Values(st.text)|
    ensures |Picks(st.text, false)| == |Picks(st.text, true)| + 2
    ensures var c := NewChar(st, pos, str);
            var clock := Tick(st.clock, st.siteId);
            && ApplyInsert(st.text, c).Some?
            && GenerateIns(st, pos, str) ==
                 Generated(st.(clock := clock, text := ApplyInsert(st.text, c).value),
                           WootOperation(LogicalId(st.siteId, clock), Insertion, c))
  {
    GenerateInsIsValid(u, birth, st, pos, str);
    hide ApplyInsert, Integrate, Picks, NthShown, Place;
    SortedIsDistinct(u, st.text);
    ValidIsIntegrated(st.text, WootOperation(LogicalId(st.siteId, Tick(st.clock, st.siteId)), Insertion,
                                             NewChar(st, pos, str)));
  }

  /** Beyond the document both neighbours are END, and no universe explains the text that results. */
  lemma GenerateInsPastEnd(u: Universe, st: SiteState, pos: nat, str: string)
    requires WellFormed(u, st.text) && PlainText(st.text) && pos > |Values(st.text)|
    ensures var g := GenerateIns(st, pos, str);
            var n := |st.text| - 1;
            && g.Generated? && g.st.text == InsertAt(st.text, n, g.op.character)
            && g.op.character.previousId == g.op.character.nextId == st.text[n].id
            && forall v :: !WellFormed(v, g.st.text)
  {
    var n := |st.text| - 1;
    LastShownIsEnd(u, st, pos);
    SortedIsDistinct(u, st.text);
    PosOfUnique(st.text, n, st.text[n].id);
    PlaceAtIs(st.text, WCharacterData(NextId(st), str, true, st.text[n].id, st.text[n].id), n, n, 0);
    hide IthVisible, PosOf, PlaceAt, WellFormed, PlainText, DistinctIds;
    var g := GenerateIns(st, pos, str);
    forall v ensures !WellFormed(v, g.st.text) {
      NoOrderExplains(v, g.st.text, n);
    }
  }

  /** Past the document the last visible character, END, is taken for both neighbours. */
  lemma LastShownIsEnd(u: Universe, st: SiteState, pos: nat)
    requires WellFormed(u, st.text) && PlainText(st.text) && pos > |Values(st.text)|
    ensures IthVisible(st.text, pos, false) == IthVisible(st.text, pos + 1, false) == Some(|st.text| - 1)
  {
    PicksOfPlainText(st.text);
    var p, n := Picks(st.text, false), |st.text| - 1;
    NthShownSplits(st.text, false, |p| - 1);
    var x := NthShown(st.text, false, |p| - 1);
    SortedIsDistinct(u, st.text);
    hide WellFormed, Picks, NthShown;
    assert IdEquals(st.text[x].id, st.text[n].id);
    PosOfUnique(st.text, x, st.text[n].id);
    PosOfUnique(st.text, n, st.text[n].id);
  }

  lemma NoOrderExplains(v: Universe, t: Text, n: int)
    requires Inner(t, n) && t[n].previousId == t[n].nextId
    ensures !WellFormed(v, t)
  {
    hide Contains, SortedText;
    BelowOrder(KeyAt(v, t[n].previousId), KeyAt(v, t[n].nextId), Bottom);
  }

  /** `GenerateIns` leaves a well-formed text exactly when `pos` is within the document. */
  lemma GenerateInsKeepsOrderExactly(u: Universe, birth: nat, st: SiteState, pos: nat, str: string)
    requires WellFormed(u, st.text) && BornBefore(u, birth) && NextId(st) !in u
    requires PlainText(st.text) && CanIssue(st)
    ensures GenerateIns(st, pos, str).Generated?
    ensures (exists v :: WellFormed(v, GenerateIns(st, pos, str).st.text)) <==> pos <= |Values(st.text)|
  {
    if pos <= |Values(st.text)| {
      GenerateInsIsValid(u, birth, st, pos, str);
      GenerateInsRefinesList(u, birth, st, pos, str);
      assert WellFormed(Record(u, NewChar(st, pos, str), birth), GenerateIns(st, pos, str).st.text);
    } else {
      GenerateInsPastEnd(u, st, pos, str);
    }
  }

  /** Before a character whose neighbours are both END, placing anything around it never ends. */
  lemma StrayIsStuck(s: Text, c: WCharacterData, d: WCharacterData)
    requires DistinctIds(s) && Bounded(s) && c.id.clock != END_CLOCK && c.previousId == c.nextId == s[|s| - 1].id
    ensures PlaceAt(InsertAt(s, |s| - 1, c), d, |s| - 2, |s|) == None
  {
    var n := |s| - 1;
    var t, lo, hi := InsertAt(s, n, c), n - 1, n + 1;
    StrayPositions(s, c);
    hide PosOf, Contains, DistinctIds;
    StuckExactlyWithoutEnclosing(t, d, lo, hi);
    hide Encloses, NextGap;
    forall steps: nat ensures PlaceWithin(t, d, lo, hi, steps) == None {
      FixedGapNeverEnds(t, d, lo, hi, steps);
    }
  }

  lemma StrayPositions(s: Text, c: WCharacterData)
    requires DistinctIds(s) && Bounded(s) && c.id.clock != END_CLOCK && c.previousId == c.nextId == s[|s| - 1].id
    ensures var t, n := InsertAt(s, |s| - 1, c), |s| - 1;
            !Encloses(t, n, n - 1, n + 1) && First(t, n - 1) == n - 1 && First(t, n + 1) == n + 1
  {
    var n := |s| - 1;
    var t := InsertAt(s, n, c);
    assert t[n] == c && t[n + 1] == s[n];
    forall j | 0 <= j < n ensures t[j] == s[j] && !IdEquals(t[j].id, s[n].id) && (j < n - 1 ==> !IdEquals(t[j].id, s[n - 1].id)) {
      assert t[j] == s[j];
    }
    assert !IdEquals(c.id, s[n].id);
    assert PosOf(t, s[n].id) == n + 1;
    assert PosOf(t, s[n - 1].id) == n - 1;
  }

  /** After an insertion past the end, placing any character around the stray one recurses for ever. */
  lemma StrayCharacterBlocksPlacement(u: Universe, st: SiteState, pos: nat, str: string, d: WCharacterData)
    requires WellFormed(u, st.text) && PlainText(st.text) && pos > |Values(st.text)|
    requires Get(Tick(st.clock, st.siteId), st.siteId) < END_CLOCK
    ensures GenerateIns(st, pos, str).Generated?
    ensures var t := GenerateIns(st, pos, str).st.text;
            |t| >= 3 && PlaceAt(t, d, |t| - 3, |t| - 1) == None
  {
    GenerateInsPastEnd(u, st, pos, str);
    SortedIsDistinct(u, st.text);
    assert GenerateIns(st, pos, str).op.character.id == NextId(st) by { hide WellFormed, PlaceAt, IthVisible, PlainText, Values; }
    hide WellFormed, GenerateIns, PlainText, Values, PlaceAt;
    StrayIsStuck(st.text, GenerateIns(st, pos, str).op.character, d);
  }

  lemma {:induction false} FixedGapNeverEnds(s: Text, c: WCharacterData, lo: int, hi: int, steps: nat)
    requires 0 <= lo && lo + 1 < hi < |s| && NextGap(s, c, lo, hi) == (lo, hi)
    requires First(s, lo) == lo && First(s, hi) == hi
    ensures PlaceWithin(s, c, lo, hi, steps) == None
    decreases steps
  {
    if steps > 0 {
      FixedGapNeverEnds(s, c, lo, hi, steps - 1);
    }
  }

  /** Deleting at `pos` removes index `min(pos, |V| - 1)` of the list, and nothing else. */
  lemma GenerateDelRefinesList(u: Universe, st: SiteState, pos: nat)
    requires WellFormed(u, st.text) && PlainText(st.text) && |Values(st.text)| > 0
    ensures var v, m := Values(st.text), if pos < |Values(st.text)| then pos else |Values(st.text)| - 1;
            var x := NthShown(st.text, true, m);
            var g := GenerateDel(st, pos);
            && Inner(st.text, x) && g.Generated?
            && g.op == WootOperation(LogicalId(st.siteId, Tick(st.clock, st.siteId)), Deletion,
                                     st.text[x].(visible := false))
            && ApplyDelete(st.text, st.text[x].id) == Some(g.st.text)
            && g.st == st.(clock := Tick(st.clock, st.siteId), text := g.st.text)
            && Values(g.st.text) == v[..m] + v[m + 1..]
            && PlainText(g.st.text)
  {
    var m := if pos < |Values(st.text)| then pos else |Values(st.text)| - 1;
    var x := NthShown(st.text, true, m);
    NthShownSplits(st.text, true, m);
    assert x != 0 && x != |st.text| - 1;
    assert Inner(st.text, x);
    SortedIsDistinct(u, st.text);
    PosOfUnique(st.text, x, st.text[x].id);
    RemovedDocument(st.text, m);
    HideKeepsPlain(st.text, x);
  }
}
