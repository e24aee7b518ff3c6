/**
 * The mutable objects: characters, the character string, the site and the replica
 * (cvrdt/character.go, cvrdt/string.go, cvrdt/site.go, cvrdt/state.go), proved against the
 * functions of Replica.dfy.
 */
module SiteObjects {
  import opened Identifiers
  import opened TextSequence
  import opened Clocks
  import opened Operations
  import opened OperationLog
  import opened Integration
  import opened Replica
  import opened LocalEdits
  import opened PendingQueue

  /** A character in memory; only its visibility ever changes. */
  class WCharacter {
    const id: CharId
    const alphaValue: string
    const previousId: CharId
    const nextId: CharId
    var visible: bool

    constructor (data: WCharacterData)
      ensures Data() == data
    {
      id := data.id;
      alphaValue := data.alphaValue;
      previousId := data.previousId;
      nextId := data.nextId;
      visible := data.visible;
    }

    function Data(): WCharacterData
      reads this
    {
      WCharacterData(id, alphaValue, visible, previousId, nextId)
    }
  }

  /** Go's method on a possibly nil receiver: nil is not special. */
  predicate IsSpecialWChar(c: WCharacter?) {
    c != null && (c.alphaValue == START_STRING || c.alphaValue == END_STRING)
  }

  function DataOf(cs: seq<WCharacter>): (r: Text)
    reads cs
    ensures |r| == |cs|
  {
    if cs == [] then [] else [cs[0].Data()] + DataOf(cs[1..])
  }

  lemma {:induction false} DataAt(cs: seq<WCharacter>, i: nat)
    requires i < |cs|
    ensures DataOf(cs)[i] == cs[i].Data()
  {
    if i > 0 {
      DataAt(cs[1..], i - 1);
    }
  }

  /** The character string of one site. */
  class WString {
    var sequence: seq<WCharacter>

    ghost function View(): (r: Text)
      reads this, sequence
      ensures |r| == |sequence|
    {
      DataOf(sequence)
    }

    constructor (siteId: string)
      ensures View() == EmptyText(siteId) && fresh(sequence) && NoSharing(sequence)
      ensures View() == [
                WCharacterData(CharId(siteId, 0), "<START>", true, CharId(siteId, -1), CharId(siteId, 0x7fff_ffff)),
                WCharacterData(CharId(siteId, 0x7fff_ffff), "<END>", true, CharId(siteId, 0), CharId(siteId, -1))]
    {
      var head := new WCharacter(StartChar(siteId));
      var tail := new WCharacter(EndChar(siteId));
      sequence := [head, tail];
      new;
      DataAt(sequence, 0);
      DataAt(sequence, 1);
    }

    method GetPos(charId: CharId) returns (pos: int)
      ensures pos == PosOf(View(), charId)
    {
      for i := 0 to |sequence|
        invariant PosFrom(View(), charId, i) == PosOf(View(), charId)
      {
        DataAt(sequence, i);
        if IdEquals(sequence[i].id, charId) {
          return i;
        }
      }
      return -1;
    }

    method GetById(charId: CharId) returns (c: WCharacter?)
      ensures var p := PosOf(View(), charId); if p == -1 then c == null else c == sequence[p]
    {
      for i := 0 to |sequence|
        invariant PosFrom(View(), charId, i) == PosOf(View(), charId)
      {
        DataAt(sequence, i);
        if IdEquals(sequence[i].id, charId) {
          return sequence[i];
        }
      }
      return null;
    }

    method Contains(element: CharId) returns (r: bool)
      ensures r == TextSequence.Contains(View(), element)
    {
      var pos := GetPos(element);
      r := pos != -1;
    }

    method Insert(c: WCharacter, position: int) returns (ok: bool)
      modifies this
      ensures ok == (0 <= position <= |old(sequence)|)
      ensures sequence == if ok then InsertAt(old(sequence), position, c) else old(sequence)
    {
      if position < 0 || position > |sequence| {
        return false;
      }
      sequence := sequence[..position] + [c] + sequence[position..];
      return true;
    }

    /** The characters strictly between two others; empty when they are absent or out of order. */
    method SubSeq(startChar: WCharacter, endChar: WCharacter) returns (r: seq<WCharacter>)
      ensures var a, b := PosOf(View(), startChar.id), PosOf(View(), endChar.id);
              r == if a == -1 || b == -1 || a >= b then [] else sequence[a + 1..b]
    {
      var startPos := GetPos(startChar.id);
      var endPos := GetPos(endChar.id);
      if startPos == -1 || endPos == -1 || startPos >= endPos {
        return [];
      }
      r := [];
      for i := startPos + 1 to endPos
        invariant r == sequence[startPos + 1..i]
      {
        r := r + [sequence[i]];
      }
    }

    method GetIthVisibleValue(occ: int, excludeLimiters: bool) returns (c: WCharacter?)
      ensures match IthVisible(View(), occ, excludeLimiters)
              case None => c == null
              case Some(i) => c == sequence[i]
    {
      hide DataOf;
      if occ < 0 {
        return null;
      }
      ghost var s := View();
      var visibleChars: seq<WCharacter> := [];
      assert Picks(s[..0], excludeLimiters) == [];
      hide NthShown, Picks;
      for i := 0 to |sequence|
        invariant |visibleChars| == |Picks(s[..i], excludeLimiters)|
        invariant |visibleChars| <= |Picks(s, excludeLimiters)|
        invariant forall j :: 0 <= j < |visibleChars| ==>
                    visibleChars[j] == sequence[NthShown(s, excludeLimiters, j)]
      {
        PicksGrow(s, excludeLimiters, i);
        DataAt(sequence, i);
        if sequence[i].visible && !(excludeLimiters && IsSpecialWChar(sequence[i])) {
          ShownAt(s, excludeLimiters, i);
          ghost var before := visibleChars;
          visibleChars := visibleChars + [sequence[i]];
          forall j | 0 <= j < |visibleChars|
            ensures visibleChars[j] == sequence[NthShown(s, excludeLimiters, j)]
          {
            if j < |before| {
              assert visibleChars[j] == before[j];
            } else {
              assert j == |Picks(s[..i], excludeLimiters)|;
              assert NthShown(s, excludeLimiters, j) == i;
            }
          }
        }
      }
      assert s[..|sequence|] == s;
      if |visibleChars| == 0 {
        return null;
      }
      var cappedPos := if |visibleChars| - 1 < occ then |visibleChars| - 1 else occ;
      return visibleChars[cappedPos];
    }

    method GetVisibleContent() returns (content: string)
      ensures content == Flatten(Values(View()))
    {
      hide DataOf, Picks, Flatten, AlphaValues;
      ghost var s := View();
      content := "";
      assert s[..0] == [] && Flatten(AlphaValues(Picks([], true))) == "" by { NothingShown(); }
      for i := 0 to |sequence|
        invariant content == Flatten(AlphaValues(Picks(s[..i], true)))
      {
        PicksGrow(s, true, i);
        DataAt(sequence, i);
        if sequence[i].visible && !IsSpecialWChar(sequence[i]) {
          OneMoreValue(Picks(s[..i], true), s[i]);
          FlattenAppend(AlphaValues(Picks(s[..i], true)), sequence[i].alphaValue);
          content := content + sequence[i].alphaValue;
        }
      }
      assert s[..|sequence|] == s;
    }
  }

  lemma NothingShown()
    ensures Flatten(AlphaValues(Picks([], true))) == ""
  {
    assert AlphaValues([]) == [];
  }

  lemma OneMoreValue(s: Text, c: WCharacterData)
    ensures AlphaValues(s + [c]) == AlphaValues(s) + [c.alphaValue]
  {
  }

  lemma PicksGrow(s: Text, ex: bool, i: nat)
    requires i < |s|
    ensures Picks(s[..i + 1], ex) ==
            if Shown(s[i], ex) then Picks(s[..i], ex) + [s[i]] else Picks(s[..i], ex)
  {
    assert s[..i + 1] == s[..i] + [s[i]];
    PicksConcat(s[..i], [s[i]], ex);
    PicksOne(s[i], ex);
  }

  /** A visible character is the one counted by the visible characters before it. */
  lemma {:induction false} ShownAt(s: Text, ex: bool, i: nat)
    requires i < |s| && Shown(s[i], ex)
    ensures |Picks(s[..i], ex)| < |Picks(s, ex)| && NthShown(s, ex, |Picks(s[..i], ex)|) == i
  {
    if i > 0 {
      ShownAt(s[1..], ex, i - 1);
      assert s[..i][1..] == s[1..][..i - 1];
    }
  }

  lemma {:induction false} FlattenAppend(values: seq<string>, last: string)
    ensures Flatten(values + [last]) == Flatten(values) + last
  {
    if values != [] {
      FlattenAppend(values[1..], last);
      assert (values + [last])[1..] == values[1..] + [last];
    }
  }

  /** The strings of a list, joined. */
  function Flatten(values: seq<string>): string {
    if values == [] then "" else values[0] + Flatten(values[1..])
  }

  /** What is read is the strings one after the other: an inserted one between those before and those after it. */
  lemma {:induction false} ContentIsInOrder(before: seq<string>, value: string, after: seq<string>)
    ensures Flatten([]) == ""
    ensures Flatten(before + [value] + after) == Flatten(before) + value + Flatten(after)
    decreases |before|
  {
    if before == [] {
      assert [] + [value] + after == [value] + after && ([value] + after)[1..] == after;
    } else {
      var all := before + [value] + after;
      ContentIsInOrder(before[1..], value, after);
      assert all[0] == before[0] && all[1..] == before[1..] + [value] + after;
      assert Flatten(before) == before[0] + Flatten(before[1..]);
      assert Flatten(all) == before[0] + (Flatten(before[1..]) + value + Flatten(after));
    }
  }

  // ---------------------------------------------------------------- where a character is looked for

  /** A character with this identifier stands in the text. */
  predicate Stands(s: Text, id: CharId) {
    exists i :: 0 <= i < |s| && IdEquals(s[i].id, id)
  }

  /** The target, for a deletion, or both neighbours stand in the text. */
  predicate CanExecute(s: Text, op: WootOperation) {
    || (op.opType == Deletion && Stands(s, op.character.id))
    || (Stands(s, op.character.previousId) && Stands(s, op.character.nextId))
  }

  lemma ExecutableMeaning(s: Text, op: WootOperation)
    ensures Executable(s, op) <==> CanExecute(s, op)
  {
    StandsMeaning(s, op.character.id);
    StandsMeaning(s, op.character.previousId);
    StandsMeaning(s, op.character.nextId);
  }

  lemma StandsMeaning(s: Text, id: CharId)
    ensures Contains(s, id) <==> Stands(s, id)
  {
    if Contains(s, id) {
      assert IdEquals(s[PosOf(s, id)].id, id);
    }
  }

  /** Identifiers that are equal are found at one place. */
  lemma EqualIdsArePlaced(s: Text, a: CharId, b: CharId)
    requires IdEquals(a, b)
    ensures PosOf(s, a) == PosOf(s, b)
  {
    forall i | 0 <= i < |s| ensures IdEquals(s[i].id, a) <==> IdEquals(s[i].id, b) {
      IdEqualsEquivalence(s[i].id, a, b);
      IdEqualsEquivalence(s[i].id, b, a);
      IdEqualsEquivalence(a, b, a);
    }
    var p, q := PosOf(s, a), PosOf(s, b);
  }

  /** The position at which an identifier is found is the first of the character there. */
  lemma FoundIsFirst(s: Text, id: CharId)
    ensures var p := PosOf(s, id); p >= 0 ==> First(s, p) == p
  {
    var p := PosOf(s, id);
    if p >= 0 {
      EqualIdsArePlaced(s, s[p].id, id);
    }
  }

  /** The characters `L` carry the identifiers at the positions `fence`; at its ends, up to limiter sites. */
  ghost predicate StandAt(s: Text, L: seq<WCharacter>, fence: seq<int>) {
    && |L| == |fence|
    && forall j {:trigger L[j]} :: 0 <= j < |L| ==>
         && 0 <= fence[j] < |s| && PosOf(s, L[j].id) == First(s, fence[j])
         && (0 < j < |L| - 1 ==> L[j].id == s[fence[j]].id)
  }

  /** All but the first of `L` carry the identifiers at `fence`. */
  ghost predicate StandInside(s: Text, L: seq<WCharacter>, fence: seq<int>) {
    |L| == |fence| && forall j {:trigger L[j]} :: 0 < j < |L| ==> 0 <= fence[j] < |s| && L[j].id == s[fence[j]].id
  }

  lemma MoreInside(s: Text, L: seq<WCharacter>, fence: seq<int>, c: WCharacter, i: nat)
    requires StandInside(s, L, fence) && i < |s| && c.id == s[i].id
    ensures StandInside(s, L + [c], fence + [i])
  {
    var M, f := L + [c], fence + [i];
    forall j | 0 < j < |M| ensures 0 <= f[j] < |s| && M[j].id == s[f[j]].id {
      assert j < |L| ==> M[j] == L[j] && f[j] == fence[j];
    }
  }

  lemma StandBetween(s: Text, L: seq<WCharacter>, fence: seq<int>, a: WCharacter, b: WCharacter, lo: nat, hi: nat)
    requires StandInside(s, L, fence) && |L| > 0 && L[0] == a && fence[0] == lo
    requires PosOf(s, a.id) == lo && PosOf(s, b.id) == hi
    ensures StandAt(s, L + [b], fence + [hi])
  {
    hide PosOf;
    FoundIsFirst(s, a.id);
    FoundIsFirst(s, b.id);
    var M, f := L + [b], fence + [hi];
    forall j | 0 <= j < |M|
      ensures 0 <= f[j] < |s| && PosOf(s, M[j].id) == First(s, f[j]) && (0 < j < |M| - 1 ==> M[j].id == s[f[j]].id)
    {
      assert 0 < j < |L| ==> M[j] == L[j] && f[j] == fence[j];
    }
  }

  /** No character object stands twice in the string. */
  ghost predicate NoSharing(cs: seq<WCharacter>) {
    forall i, j :: 0 <= i < j < |cs| ==> cs[i] != cs[j]
  }

  lemma InsertKeepsNoSharing(cs: seq<WCharacter>, k: nat, c: WCharacter)
    requires NoSharing(cs) && c !in cs && k <= |cs|
    ensures NoSharing(InsertAt(cs, k, c))
    ensures forall x :: x in InsertAt(cs, k, c) <==> x in cs || x == c
  {
    assert cs == cs[..k] + cs[k..];
  }

  /** `GenerateIns` with both neighbours given. */
  lemma GenerateInsIs(st: SiteState, pos: int, str: string)
    ensures var p, n := IthVisible(st.text, pos, false), IthVisible(st.text, pos + 1, false);
            var clock := Tick(st.clock, st.siteId);
            && (p.None? || n.None? ==> Replica.GenerateIns(st, pos, str) == Refused(st.(clock := clock)))
            && (p.Some? && n.Some? ==>
                  var c := WCharacterData(NextId(st), str, true, st.text[p.value].id, st.text[n.value].id);
                  var op := WootOperation(LogicalId(st.siteId, clock), Insertion, c);
                  && (Integrate(st.text, op).None? ==> Replica.GenerateIns(st, pos, str) == Endless)
                  && (Integrate(st.text, op).Some? ==>
                        Replica.GenerateIns(st, pos, str) ==
                        Generated(st.(clock := clock, text := Integrate(st.text, op).value), op)))
  {
  }

  /** An insertion ends after some number of recursive calls. */
  lemma InsertionSteps(s: Text, op: WootOperation) returns (steps: nat)
    requires op.opType == Insertion && Integrate(s, op).Some?
    ensures var p, n := PosOf(s, op.character.previousId), PosOf(s, op.character.nextId);
            && p >= 0 && n >= 0 && First(s, p) == p && First(s, n) == n
            && PlaceWithin(s, op.character, p, n, steps).Some?
            && Integrate(s, op).value == InsertAt(s, PlaceWithin(s, op.character, p, n, steps).value, op.character)
  {
    var p, n := PosOf(s, op.character.previousId), PosOf(s, op.character.nextId);
    FoundIsFirst(s, op.character.previousId);
    FoundIsFirst(s, op.character.nextId);
    steps :| PlaceWithin(s, op.character, p, n, steps).Some?;
    PlaceAtIs(s, op.character, p, n, steps);
  }

  datatype OpResult =
    | Returned(op: WootOperation)
    | StillPending(op: WootOperation)
    | Failed

  class Site {
    const siteId: string
    const clock: VectorClock
    const characters: WString
    var pendingOps: Log

    /** The site as the functions of Replica.dfy see it. */
    ghost function State(): SiteState
      reads this, clock, characters, characters.sequence
    {
      SiteState(siteId, clock.clocks, characters.View(), pendingOps)
    }

    /** The objects of the site. */
    ghost function Repr(): set<object>
      reads characters
    {
      {this, clock, characters} + set c | c in characters.sequence
    }

    ghost predicate Valid()
      reads clock, characters
    {
      clock.localId == siteId && NoSharing(characters.sequence)
    }

    constructor (siteId: string)
      ensures Valid() && State() == NewSite(siteId)
      ensures fresh(clock) && fresh(characters) && fresh(characters.sequence)
    {
      this.siteId := siteId;
      clock := new VectorClock(siteId);
      characters := new WString(siteId);
      pendingOps := [];
    }

    /** The two limiter tests of the source never decide: a character found is a character contained. */
    method IsExecutable(op: WootOperation) returns (r: bool)
      ensures r == Executable(characters.View(), op) == CanExecute(characters.View(), op)
    {
      hide DataOf, PosFrom, CanExecute, Stands, IdEquals;
      ExecutableMeaning(characters.View(), op);
      var c := op.character;
      if op.opType == Deletion {
        var found := characters.Contains(c.id);
        if found {
          return true;
        }
      }
      var prev := characters.GetById(c.previousId);
      var hasPrev := characters.Contains(c.previousId);
      var next := characters.GetById(c.nextId);
      var hasNext := characters.Contains(c.nextId);
      r := (hasPrev || IsSpecialWChar(prev)) && (hasNext || IsSpecialWChar(next));
    }

    /** Whether the character at `i` has its own neighbours outside the gap between `lo` and `hi`. */
    method EnclosesGap(di: WCharacter, wprev: WCharacter, wnext: WCharacter, ghost i: nat, ghost lo: nat, ghost hi: nat)
      returns (r: bool)
      requires i < |characters.sequence| && di == characters.sequence[i]
      requires PosOf(characters.View(), wprev.id) == lo && PosOf(characters.View(), wnext.id) == hi
      ensures r == Encloses(characters.View(), i, lo, hi)
    {
      hide DataOf, PosOf;
      DataAt(characters.sequence, i);
      var posCPDi := characters.GetPos(di.previousId);
      var posCNDi := characters.GetPos(di.nextId);
      var posCP := characters.GetPos(wprev.id);
      var posCN := characters.GetPos(wnext.id);
      r := posCPDi != -1 && posCNDi != -1 && posCPDi <= posCP && posCN <= posCNDi;
    }

    /** The list L of one placement step. */
    method Enclosing(subStr: seq<WCharacter>, wprev: WCharacter, wnext: WCharacter, ghost lo: nat, ghost hi: nat)
      returns (L: seq<WCharacter>)
      requires lo + 1 < hi < |characters.sequence| && subStr == characters.sequence[lo + 1..hi]
      requires PosOf(characters.View(), wprev.id) == lo && PosOf(characters.View(), wnext.id) == hi
      ensures StandAt(characters.View(), L, Fence(characters.View(), lo, hi))
    {
      hide DataOf, Encloses, PosOf;
      ghost var s := characters.View();
      ghost var fence := [lo];
      L := [wprev];
      for k := 0 to |subStr|
        invariant |L| == |fence| > 0 && L[0] == wprev && fence[0] == lo
        invariant StandInside(s, L, fence)
        invariant fence + Candidates(s, lo, hi, lo + 1 + k) == [lo] + Candidates(s, lo, hi, lo + 1)
      {
        var di := subStr[k];
        DataAt(characters.sequence, lo + 1 + k);
        var encloses := EnclosesGap(di, wprev, wnext, lo + 1 + k, lo, hi);
        if encloses {
          ghost var rest := Candidates(s, lo, hi, lo + 1 + k + 1);
          assert fence + ([lo + 1 + k] + rest) == fence + [lo + 1 + k] + rest;
          MoreInside(s, L, fence, di, lo + 1 + k);
          L, fence := L + [di], fence + [lo + 1 + k];
        }
      }
      StandBetween(s, L, fence, wprev, wnext, lo, hi);
      assert Candidates(s, lo, hi, hi) == [] && fence == [lo] + Candidates(s, lo, hi, lo + 1);
      L, fence := L + [wnext], fence + [hi];
    }

    /** The first place of `L`, short of the last, whose character is not less than `wchar`. */
    method SkipSmaller(L: seq<WCharacter>, wchar: WCharacter, ghost s: Text, ghost fence: seq<int>) returns (i: nat)
      requires |L| >= 2 && StandAt(s, L, fence)
      ensures 0 < i < |L| && i == SkipLess(s, fence, wchar.Data(), 1)
    {
      hide IdLess, PosOf;
      i := 1;
      while i < |L| - 1 && IdLess(L[i].id, wchar.id)
        invariant 1 <= i < |L|
        invariant SkipLess(s, fence, wchar.Data(), i) == SkipLess(s, fence, wchar.Data(), 1)
      {
        i := i + 1;
      }
    }

    /** Inserts `wchar` where `PlaceWithin` says, between two characters of the string. */
    method IntegrateIns(wchar: WCharacter, wprev: WCharacter, wnext: WCharacter,
                        ghost lo: nat, ghost hi: nat, ghost steps: nat)
      requires PosOf(characters.View(), wprev.id) == lo && PosOf(characters.View(), wnext.id) == hi
      requires PlaceWithin(characters.View(), wchar.Data(), lo, hi, steps).Some?
      modifies characters
      ensures characters.sequence ==
              InsertAt(old(characters.sequence),
                       old(PlaceWithin(characters.View(), wchar.Data(), lo, hi, steps)).value, wchar)
      decreases steps
    {
      hide DataOf, PosOf, SkipLess, Fence, InsertAt, First;
      ghost var s, c := characters.View(), wchar.Data();
      var subStr := characters.SubSeq(wprev, wnext);
      if |subStr| == 0 {
        var nextPos := characters.GetPos(wnext.id);
        var _ := characters.Insert(wchar, nextPos);
        return;
      }
      ghost var fence := Fence(s, lo, hi);
      var L := Enclosing(subStr, wprev, wnext, lo, hi);
      assert |fence| >= 2 by { FenceHasEnds(s, lo, hi); }
      var i := SkipSmaller(L, wchar, s, fence);
      ghost var a, b := First(s, fence[i - 1]), First(s, fence[i]);
      assert PosOf(s, L[i - 1].id) == a && PosOf(s, L[i].id) == b;
      assert PlaceWithin(s, c, lo, hi, steps) == PlaceWithin(s, c, a, b, steps - 1);
      IntegrateIns(wchar, L[i - 1], L[i], a, b, steps - 1);
    }

    /** Inserts the character of an operation between the characters found for its neighbours. */
    method InsertNew(wchar: WCharacter, wprev: WCharacter, wnext: WCharacter, ghost op: WootOperation)
      requires NoSharing(characters.sequence) && wchar !in characters.sequence
      requires op.opType == Insertion && op.character == wchar.Data() && Integrate(characters.View(), op).Some?
      requires PosOf(characters.View(), wprev.id) == PosOf(characters.View(), wchar.previousId)
      requires PosOf(characters.View(), wnext.id) == PosOf(characters.View(), wchar.nextId)
      modifies characters
      ensures NoSharing(characters.sequence)
      ensures characters.View() == old(Integrate(characters.View(), op)).value
      ensures forall c :: c in characters.sequence ==> c in old(characters.sequence) || c == wchar
    {
      hide DataOf, PosOf, PlaceWithin, PlaceAt, Integrate, NoSharing;
      ghost var s := characters.View();
      ghost var steps := InsertionSteps(s, op);
      ghost var lo, hi := PosOf(s, wchar.previousId), PosOf(s, wchar.nextId);
      ghost var at := PlaceWithin(s, wchar.Data(), lo, hi, steps).value;
      DataInsert(characters.sequence, at, wchar);
      InsertKeepsNoSharing(characters.sequence, at, wchar);
      IntegrateIns(wchar, wprev, wnext, lo, hi, steps);
    }

    /** Hides one character, wherever it stands. */
    method IntegrateDel(wchar: WCharacter, ghost i: nat)
      requires i < |characters.sequence| && characters.sequence[i] == wchar && NoSharing(characters.sequence)
      modifies wchar
      ensures characters.View() == old(characters.View())[i := old(characters.View())[i].(visible := false)]
    {
      hide DataOf;
      ghost var s := characters.View();
      forall j | 0 <= j < |s|
        ensures s[j] == characters.sequence[j].Data() && (characters.sequence[j] == wchar ==> j == i)
      {
        DataAt(characters.sequence, j);
      }
      wchar.visible := false;
      forall j | 0 <= j < |s| ensures characters.View()[j] == if j == i then s[j].(visible := false) else s[j] {
        DataAt(characters.sequence, j);
      }
    }

    /** Integrates an executable operation; the clock is merged already. */
    method Execute(op: WootOperation)
      requires Valid() && Executable(characters.View(), op) && Integrate(characters.View(), op).Some?
      modifies characters, characters.sequence
      ensures Valid() && characters.View() == old(Integrate(characters.View(), op)).value
      ensures forall c :: c in characters.sequence ==> c in old(characters.sequence) || fresh(c)
    {
      hide DataOf, PosOf, PlaceAt, Executable, NoSharing;
      ghost var s := characters.View();
      var wchar := new WCharacter(op.character);
      if op.opType == Deletion {
        var target := characters.GetById(wchar.id);
        IntegrateDel(target, PosOf(s, wchar.id));
      } else {
        var prev := characters.GetById(wchar.previousId);
        var next := characters.GetById(wchar.nextId);
        FoundIsFirst(s, wchar.previousId);
        FoundIsFirst(s, wchar.nextId);
        DataAt(characters.sequence, PosOf(s, wchar.previousId));
        DataAt(characters.sequence, PosOf(s, wchar.nextId));
        hide Integrate;
        InsertNew(wchar, prev, next, op);
      }
    }

    /** Integrates a remote operation, or queues it: exactly what `Replica.ComputeExtOp` says. */
    method ComputeExtOp(op: WootOperation) returns (done: bool)
      requires Valid() && Replica.ComputeExtOp(State(), op).Some?
      modifies Repr()
      ensures Valid() && (State(), done) == old(Replica.ComputeExtOp(State(), op)).value
      ensures !done ==> characters.sequence == old(characters.sequence)
      ensures fresh(Repr() - old(Repr()))
    {
      hide DataOf, Integrate, NoSharing, Executable, Join;
      var executable := IsExecutable(op);
      if executable {
        clock.Update(op.id.clock);
        Execute(op);
      } else {
        pendingOps := pendingOps + [op];
      }
      done := executable;
    }

    /** The loop of a pass: requeues blocked operations up to the first one it can execute. */
    method RunPass() returns (found: bool)
      requires Valid() && (pendingOps == [] || OnePass(State()).Some?)
      modifies Repr()
      ensures Valid() && fresh(Repr() - old(Repr()))
      ensures found == (old(pendingOps) != [])
      ensures State() == if found then old(OnePass(State())).value else old(State())
    {
      ghost var st := State();
      ghost var j := 0;
      if st.pending != [] {
        j := PassFinds(st);
        assert InPass(st, 0) == st;
      }
      hide OnePass, Replica.ComputeExtOp, Executable, FirstExecutable, NoSharing, DataOf;
      var i := 0;
      while i < |pendingOps|
        invariant if st.pending == [] then State() == st else i <= j && State() == InPass(st, i)
        invariant Valid() && characters.sequence == old(characters.sequence)
        decreases j - i
      {
        if i < j {
          PassBlocked(st, i);
        } else {
          PassExecutes(st, j);
        }
        var oldOp := pendingOps[i];
        var done := ComputeExtOp(oldOp);
        if done {
          pendingOps := pendingOps[..i] + pendingOps[i + 1..];
          return true;
        }
        i := i + 1;
      }
      found := false;
    }

    /** Retries the queue until nothing is left in it: exactly what `DrainWithin` says. */
    method TryComputePendings(ghost passes: nat)
      requires Valid() && DrainWithin(State(), passes).Some?
      modifies Repr()
      ensures Valid() && fresh(Repr() - old(Repr()))
      ensures State() == old(DrainWithin(State(), passes)).value
      decreases passes
    {
      hide OnePass, NoSharing, DataOf;
      var found := RunPass();
      if found {
        TryComputePendings(passes - 1);
      }
    }

    /** Inserts at a visible position: exactly what `Replica.GenerateIns` says. */
    method GenerateIns(pos: int, str: string) returns (r: OpResult)
      requires Valid() && !Replica.GenerateIns(State(), pos, str).Endless?
      modifies clock, characters
      ensures var g := old(Replica.GenerateIns(State(), pos, str));
              State() == g.st && r == if g.Generated? then Returned(g.op) else Failed
      ensures Valid() && forall c :: c in characters.sequence ==> c in old(characters.sequence) || fresh(c)
    {
      hide DataOf, PosOf, IthVisible, Integrate, NoSharing, Replica.GenerateIns;
      ghost var st := State();
      GenerateInsIs(st, pos, str);
      var _ := clock.Increment();
      var clockSnapshot := clock.Copy();
      var lamportClock := clock.Value();
      var prevChar := characters.GetIthVisibleValue(pos, false);
      if prevChar == null {
        return Failed;
      }
      var nextChar := characters.GetIthVisibleValue(pos + 1, false);
      if nextChar == null {
        return Failed;
      }
      DataAt(characters.sequence, IthVisible(st.text, pos, false).value);
      DataAt(characters.sequence, IthVisible(st.text, pos + 1, false).value);
      var wchar := new WCharacter(
        WCharacterData(CharId(siteId, lamportClock), str, true, prevChar.id, nextChar.id));
      ghost var op := WootOperation(LogicalId(siteId, clockSnapshot), Insertion, wchar.Data());
      InsertNew(wchar, prevChar, nextChar, op);
      r := Returned(WootOperation(LogicalId(siteId, clockSnapshot), Insertion, wchar.Data()));
    }

    /** Deletes at a visible position: exactly what `Replica.GenerateDel` says. */
    method GenerateDel(pos: int) returns (r: OpResult)
      requires Valid()
      modifies clock, characters.sequence
      ensures var g := old(Replica.GenerateDel(State(), pos));
              State() == g.st && r == if g.Generated? then Returned(g.op) else Failed
      ensures Valid() && characters.sequence == old(characters.sequence)
    {
      hide DataOf, PosOf, NoSharing, NthShown, Picks;
      ghost var s := characters.View();
      var wchar := characters.GetIthVisibleValue(pos, true);
      if wchar == null {
        return Failed;
      }
      ghost var i := IthVisible(s, pos, true).value;
      var _ := clock.Increment();
      var clockSnapshot := clock.Copy();
      IntegrateDel(wchar, i);
      DataAt(characters.sequence, i);
      r := Returned(WootOperation(LogicalId(siteId, clockSnapshot), Deletion, wchar.Data()));
    }

    method ComputeOp(op: CRDTOperation) returns (r: OpResult)
      requires Valid() && Computed(State(), op).Some?
      modifies Repr()
      ensures fresh(Repr() - old(Repr())) && Valid()
      ensures State() == old(Computed(State(), op)).value
      ensures match op
              case Woot(w) =>
                r == if old(CanExecute(characters.View(), w)) then Returned(w) else StillPending(w)
              case Local(edit) =>
                var g := old(Generate(State(), op.edit)); r == if g.Generated? then Returned(g.op) else Failed
    {
      match op
      case Woot(w) =>
        ghost var st := State();
        ExecutableMeaning(st.text, w);
        var done := ComputeExtOp(w);
        if done {
          ghost var passes :| DrainWithin(State(), passes).Some?;
          DrainIs(State(), passes);
          TryComputePendings(passes);
          r := Returned(w);
        } else {
          r := StillPending(w);
        }
      case Local(edit) =>
        if edit.opType == Insertion {
          r := GenerateIns(edit.pos, edit.content);
        } else {
          r := GenerateDel(edit.pos);
        }
    }
  }

  method Knows(log: Log, id: LogicalId) returns (found: bool)
    ensures found == ContainsOp(log, id)
  {
    var _, f := BinarySearch(log, id);
    found := f;
  }

  /** What `ComputeOp` makes of a site; `None` when it does not return normally. */
  ghost function Computed(st: SiteState, op: CRDTOperation): Option<SiteState> {
    match op
    case Woot(w) => Receive(st, w)
    case Local(edit) =>
      match Generate(st, edit)
      case Generated(st1, _) => Some(st1)
      case Refused(st1) => Some(st1)
      case Endless => None
  }

  /** One iteration of the loop of `UpdateState`. */
  lemma AbsorbStep(log: Log, st: SiteState, collected: Log, ops: seq<CRDTOperation>, i: nat)
    requires i < |ops| && Absorb(log, st, collected, ops[i..]).Some?
    ensures ContainsOp(log, ops[i].OpId()) ==>
              Absorb(log, st, collected, ops[i..]) == Absorb(log, st, collected, ops[i + 1..])
    ensures !ContainsOp(log, ops[i].OpId()) ==> Computed(st, ops[i]).Some?
    ensures !ContainsOp(log, ops[i].OpId()) && ops[i].Woot? ==>
              Absorb(log, st, collected, ops[i..]) ==
              Absorb(log, Computed(st, ops[i]).value, InsertOp(collected, ops[i].op), ops[i + 1..])
    ensures !ContainsOp(log, ops[i].OpId()) && ops[i].Local? && Generate(st, ops[i].edit).Generated? ==>
              Absorb(log, st, collected, ops[i..]) ==
              Absorb(log, Computed(st, ops[i]).value, InsertOp(collected, Generate(st, ops[i].edit).op), ops[i + 1..])
    ensures !ContainsOp(log, ops[i].OpId()) && ops[i].Local? && !Generate(st, ops[i].edit).Generated? ==>
              Absorb(log, st, collected, ops[i..]) == Some((Computed(st, ops[i]).value, collected, false))
  {
    assert ops[i..][0] == ops[i] && ops[i..][1..] == ops[i + 1..];
  }

  lemma AbsorbEnds(log: Log, st: SiteState, collected: Log, ops: seq<CRDTOperation>)
    ensures Absorb(log, st, collected, ops[|ops|..]) == Some((st, collected, true)) && ops[0..] == ops
  {
  }

  /** A replica: a site and the log of the operations it has been given. */
  class WootCvrdt {
    const site: Site
    var state: Log

    ghost function State(): ReplicaState
      reads this, site, site.clock, site.characters, site.characters.sequence
    {
      ReplicaState(site.State(), state)
    }

    ghost predicate Valid()
      reads this, site, site.clock, site.characters, site.characters.sequence
    {
      site.Valid()
    }

    constructor (siteId: string)
      ensures Valid() && State() == NewReplica(siteId)
      ensures fresh(site) && fresh(site.Repr())
    {
      site := new Site(siteId);
      state := [];
    }

    /** One iteration of the loop of `UpdateState`: skips a known operation, computes another. */
    method AbsorbNext(ops: seq<CRDTOperation>, i: nat, collected: Log) returns (newState: Log, ok: bool)
      requires Valid() && i < |ops| && Absorb(state, site.State(), collected, ops[i..]).Some?
      modifies site.Repr()
      ensures fresh(site.Repr() - old(site.Repr())) && Valid()
      ensures old(Absorb(state, site.State(), collected, ops[i..])) ==
              if ok then Absorb(state, site.State(), newState, ops[i + 1..]) else Some((site.State(), newState, false))
    {
      hide Absorb, Computed, Generate, ContainsOp, DataOf, NoSharing;
      ghost var log, st := state, site.State();
      ghost var spec := Absorb(log, st, collected, ops[i..]);
      AbsorbStep(log, st, collected, ops, i);
      var known := Knows(state, ops[i].OpId());
      if known {
        newState, ok := collected, true;
      } else {
        var r := site.ComputeOp(ops[i]);
        newState, ok := collected, !r.Failed?;
        if ok {
          newState := Insert(collected, r.op);
        }
      }
      assert spec ==
             if ok then Absorb(log, site.State(), newState, ops[i + 1..]) else Some((site.State(), newState, false));
    }

    /** Absorbs operations, remote or local: exactly what `Replica.UpdateState` says. */
    method UpdateState(ops: seq<CRDTOperation>) returns (ok: bool)
      requires Valid() && Replica.UpdateState(State(), ops).Some?
      modifies this, site.Repr()
      ensures Valid() && fresh(site.Repr() - old(site.Repr()))
      ensures (State(), ok) == old(Replica.UpdateState(State(), ops)).value
    {
      AbsorbEnds(state, site.State(), [], ops);
      hide Absorb, DataOf, NoSharing, Merge;
      ghost var spec := Absorb(state, site.State(), [], ops);
      var newState: Log := [];
      var i := 0;
      ok := true;
      while i < |ops| && ok
        invariant i <= |ops| && site.Valid() && fresh(site.Repr() - old(site.Repr()))
        invariant state == old(state) && this !in site.Repr()
        invariant ok ==> Absorb(state, site.State(), newState, ops[i..]) == spec
        invariant !ok ==> spec == Some((site.State(), newState, false))
      {
        newState, ok := AbsorbNext(ops, i, newState);
        i := i + 1;
      }
      if ok {
        AbsorbEnds(state, site.State(), newState, ops);
        state := MergeLogs(state, newState);
      }
    }
  }

  lemma {:induction false} DataInsert(cs: seq<WCharacter>, k: nat, c: WCharacter)
    requires k <= |cs|
    ensures DataOf(InsertAt(cs, k, c)) == InsertAt(DataOf(cs), k, c.Data())
  {
    var t := InsertAt(cs, k, c);
    forall i | 0 <= i < |t| ensures DataOf(t)[i] == InsertAt(DataOf(cs), k, c.Data())[i] {
      DataAt(t, i);
      if i != k {
        DataAt(cs, if i < k then i else i - 1);
      }
    }
  }

  lemma FenceHasEnds(s: Text, lo: nat, hi: nat)
    requires lo < hi < |s|
    ensures |Fence(s, lo, hi)| >= 2
  {
  }
}
