/** Site names, character identifiers and their orders (cvrdt/character.go). */
module Identifiers {

  datatype Option<+T> = None | Some(value: T)

  /** Clocks saturate here; the END limiter carries this clock. */
  const MAX_VALUE: int := 0x7fff_ffff
  const START_CLOCK: int := 0
  const END_CLOCK: int := MAX_VALUE
  const MISSING_CLOCK: int := -1

  /** Go's `<` on strings: lexicographic, a proper prefix first. */
  predicate StrLess(a: string, b: string) {
    b != [] && (a == [] || a[0] < b[0] || (a[0] == b[0] && StrLess(a[1..], b[1..])))
  }

  lemma {:induction false} StrLessIrreflexive(a: string)
    ensures !StrLess(a, a)
  {
    if a != [] {
      StrLessIrreflexive(a[1..]);
    }
  }

  lemma {:induction false} StrLessTransitive(a: string, b: string, c: string)
    requires StrLess(a, b) && StrLess(b, c)
    ensures StrLess(a, c)
  {
    if a != [] && a[0] == b[0] == c[0] {
      StrLessTransitive(a[1..], b[1..], c[1..]);
    }
  }

  lemma {:induction false} StrLessTotal(a: string, b: string)
    ensures a == b || StrLess(a, b) || StrLess(b, a)
  {
    if a != [] && b != [] && a[0] == b[0] {
      StrLessTotal(a[1..], b[1..]);
      assert a == [a[0]] + a[1..] && b == [b[0]] + b[1..];
    }
  }

  /** Alphabetical order, read off the two strings: a proper prefix, or smaller where they first differ. */
  predicate Precedes(a: string, b: string) {
    || (|a| < |b| && b[..|a|] == a)
    || exists i :: 0 <= i < |a| && i < |b| && a[..i] == b[..i] && a[i] < b[i]
  }

  /** The comparison of strings is alphabetical. */
  lemma {:induction false} StrLessIsAlphabetical(a: string, b: string)
    ensures StrLess(a, b) <==> Precedes(a, b)
  {
    if a != [] && b != [] && a[0] == b[0] {
      var x, y := a[1..], b[1..];
      StrLessIsAlphabetical(x, y);
      assert a == [a[0]] + x && b == [a[0]] + y;
      if Precedes(x, y) {
        PrecedesBehind(a[0], x, y);
      }
      if Precedes(a, b) {
        PrecedesWithout(a[0], x, y);
      }
    } else if a != [] && b != [] && a[0] < b[0] {
      assert a[..0] == b[..0];
    }
  }

  lemma PrecedesBehind(c: char, x: string, y: string)
    requires Precedes(x, y)
    ensures Precedes([c] + x, [c] + y)
  {
    var a, b := [c] + x, [c] + y;
    if |x| < |y| && y[..|x|] == x {
      assert b[..|a|] == [c] + y[..|x|];
    } else {
      var i :| 0 <= i < |x| && i < |y| && x[..i] == y[..i] && x[i] < y[i];
      assert a[..i + 1] == [c] + x[..i] && b[..i + 1] == [c] + y[..i];
      assert a[i + 1] < b[i + 1];
    }
  }

  lemma PrecedesWithout(c: char, x: string, y: string)
    requires Precedes([c] + x, [c] + y)
    ensures Precedes(x, y)
  {
    var a, b := [c] + x, [c] + y;
    if |a| < |b| && b[..|a|] == a {
      assert y[..|x|] == b[..|a|][1..] == x;
    } else {
      var i :| 0 <= i < |a| && i < |b| && a[..i] == b[..i] && a[i] < b[i];
      assert x[..i - 1] == a[..i][1..] && y[..i - 1] == b[..i][1..];
      assert x[i - 1] < y[i - 1];
    }
  }

  /** A character identifier: the inserting site and its own clock at that time. */
  datatype CharId = CharId(site: string, clock: int)

  predicate IdLess(a: CharId, b: CharId) {
    if a.clock < b.clock then true
    else if a.clock > b.clock then false
    else StrLess(a.site, b.site)
  }

  /** Identifier equality with all START limiters identified, and all END limiters. */
  predicate IdEquals(a: CharId, b: CharId) {
    (a.clock == START_CLOCK && b.clock == START_CLOCK) ||
    (a.clock == END_CLOCK && b.clock == END_CLOCK) ||
    a == b
  }

  predicate IsLimiterId(id: CharId) {
    id.clock == START_CLOCK || id.clock == END_CLOCK
  }

  /** `IdLess` is a strict total order. */
  lemma IdLessOrder(a: CharId, b: CharId, c: CharId)
    ensures !IdLess(a, a)
    ensures IdLess(a, b) && IdLess(b, c) ==> IdLess(a, c)
    ensures a == b || IdLess(a, b) || IdLess(b, a)
    ensures !(IdLess(a, b) && IdLess(b, a))
  {
    StrLessIrreflexive(a.site);
    StrLessIrreflexive(b.site);
    StrLessTotal(a.site, b.site);
    if StrLess(a.site, b.site) && StrLess(b.site, c.site) {
      StrLessTransitive(a.site, b.site, c.site);
    }
    if StrLess(a.site, b.site) && StrLess(b.site, a.site) {
      StrLessTransitive(a.site, b.site, a.site);
    }
  }

  /** `IdEquals` is an equivalence: it agrees with equality except on limiters. */
  lemma IdEqualsEquivalence(a: CharId, b: CharId, c: CharId)
    ensures IdEquals(a, a)
    ensures IdEquals(a, b) == IdEquals(b, a)
    ensures IdEquals(a, b) && IdEquals(b, c) ==> IdEquals(a, c)
    ensures !IsLimiterId(a) ==> (IdEquals(a, b) <==> a == b)
  {
  }
}
