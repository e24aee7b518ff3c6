/**
 * Delivery-independent sort keys for WOOT characters.
 *
 * A key is a path in a binary tree whose siblings are ordered by identifier: `Step` goes to the
 * left or right of an already placed character, `Final` stops. `Psi(l, u, id)` is the key that a
 * character with neighbours at `l` and `u` receives. Nothing here depends on the order in which
 * characters arrive, so integrating a character can be compared with inserting a key in a sorted
 * list.
 */
module SortKeys {
  import opened Identifiers

  datatype Key = Final(id: CharId) | Step(id: CharId, right: bool, rest: Key)

  /** A key or one of the two ends of the text. */
  datatype Bound = Bottom | At(key: Key) | Top

  /** Position of the first letter of a key around its identifier: left, on it, right. */
  function Side(k: Key): int {
    if k.Final? then 0 else if k.right then 1 else -1
  }

  predicate LetterLess(i: CharId, d: int, j: CharId, e: int) {
    IdLess(i, j) || (i == j && d < e)
  }

  predicate KeyLess(a: Key, b: Key) {
    LetterLess(a.id, Side(a), b.id, Side(b)) ||
    (a.Step? && b.Step? && a.id == b.id && a.right == b.right && KeyLess(a.rest, b.rest))
  }

  predicate Below(a: Bound, b: Bound) {
    match (a, b)
    case (Bottom, Bottom) => false
    case (Bottom, _) => true
    case (At(k), At(m)) => KeyLess(k, m)
    case (At(_), Top) => true
    case _ => false
  }

  predicate AtMost(a: Bound, b: Bound) {
    a == b || Below(a, b)
  }

  // ---------------------------------------------------------------- the order on keys

  lemma LetterOrder(i: CharId, d: int, j: CharId, e: int, k: CharId, f: int)
    ensures !LetterLess(i, d, i, d)
    ensures !(LetterLess(i, d, j, e) && LetterLess(j, e, i, d))
    ensures (i == j && d == e) || LetterLess(i, d, j, e) || LetterLess(j, e, i, d)
    ensures LetterLess(i, d, j, e) && LetterLess(j, e, k, f) ==> LetterLess(i, d, k, f)
  {
    IdLessOrder(i, j, k);
  }

  lemma {:induction false} KeyLessTransitive(a: Key, b: Key, c: Key)
    requires KeyLess(a, b) && KeyLess(b, c)
    ensures KeyLess(a, c)
    decreases a
  {
    LetterOrder(a.id, Side(a), b.id, Side(b), c.id, Side(c));
    if a.Step? && b.Step? && c.Step? && a.id == b.id == c.id && a.right == b.right == c.right {
      LetterOrder(a.id, Side(a), a.id, Side(a), a.id, Side(a));
      KeyLessTransitive(a.rest, b.rest, c.rest);
    }
  }

  lemma {:induction false} KeyLessTotal(a: Key, b: Key)
    ensures !KeyLess(a, a)
    ensures !(KeyLess(a, b) && KeyLess(b, a))
    ensures a == b || KeyLess(a, b) || KeyLess(b, a)
    decreases a
  {
    LetterOrder(a.id, Side(a), b.id, Side(b), a.id, Side(a));
    LetterOrder(a.id, Side(a), a.id, Side(a), a.id, Side(a));
    if a.Step? {
      KeyLessTotal(a.rest, if b.Step? then b.rest else a.rest);
    }
  }

  /** `Below` is a strict total order on bounds. */
  lemma BelowOrder(a: Bound, b: Bound, c: Bound)
    ensures !Below(a, a)
    ensures !(Below(a, b) && Below(b, a))
    ensures a == b || Below(a, b) || Below(b, a)
    ensures Below(a, b) && Below(b, c) ==> Below(a, c)
  {
    if a.At? {
      KeyLessTotal(a.key, if b.At? then b.key else a.key);
      if b.At? && c.At? && KeyLess(a.key, b.key) && KeyLess(b.key, c.key) {
        KeyLessTransitive(a.key, b.key, c.key);
      }
    }
  }

  // ---------------------------------------------------------------- the key of a character

  function Size(b: Bound): nat {
    match b
    case At(k) => KeySize(k)
    case _ => 0
  }

  function KeySize(k: Key): (n: nat)
    ensures n > 0
  {
    if k.Final? then 1 else 1 + KeySize(k.rest)
  }

  /** What remains of bound `b` below the letter (`id`, `right`). */
  function Under(id: CharId, right: bool, b: Bound): Bound {
    match b
    case At(k) =>
      var side := if right then 1 else -1;
      if LetterLess(id, side, k.id, Side(k)) then Top
      else if LetterLess(k.id, Side(k), id, side) then Bottom
      else if k.Step? then At(k.rest) else Bottom
    case _ => b
  }

  lemma UnderSize(id: CharId, right: bool, b: Bound)
    ensures Size(Under(id, right, b)) <= Size(b)
    ensures b.At? && b.key.id == id && (b.key.Step? ==> b.key.right == right)
            ==> Size(Under(id, right, b)) < Size(b)
  {
    if b.At? {
      var d := if right then 1 else -1;
      LetterOrder(id, d, b.key.id, Side(b.key), id, d);
      LetterOrder(b.key.id, Side(b.key), b.key.id, Side(b.key), id, d);
    }
  }

  /** The direction to follow from the lower bound: below a `Step`, to the right of a `Final`. */
  function UpFrom(l: Key): bool {
    if l.Final? then true else l.right
  }

  /** The direction to follow from the upper bound: below a `Step`, to the left of a `Final`. */
  function DownFrom(u: Key): bool {
    if u.Final? then false else u.right
  }

  function Psi(l: Bound, u: Bound, id: CharId): Key
    decreases Size(l) + Size(u)
  {
    if l.At? && !KeyLess(l.key, Final(id)) then
      UnderSize(l.key.id, UpFrom(l.key), l);
      UnderSize(l.key.id, UpFrom(l.key), u);
      Step(l.key.id, UpFrom(l.key),
           Psi(Under(l.key.id, UpFrom(l.key), l), Under(l.key.id, UpFrom(l.key), u), id))
    else if u.At? && !KeyLess(Final(id), u.key) then
      UnderSize(u.key.id, DownFrom(u.key), l);
      UnderSize(u.key.id, DownFrom(u.key), u);
      Step(u.key.id, DownFrom(u.key),
           Psi(Under(u.key.id, DownFrom(u.key), l), Under(u.key.id, DownFrom(u.key), u), id))
    else
      Final(id)
  }

  /** Stepping under a letter from the lower bound keeps a proper interval. */
  lemma UnderLower(l: Bound, u: Bound)
    requires l.At? && Below(l, u)
    ensures Below(Under(l.key.id, UpFrom(l.key), l), Under(l.key.id, UpFrom(l.key), u))
  {
    LetterOrder(l.key.id, 1, l.key.id, Side(l.key), l.key.id, 1);
    LetterOrder(l.key.id, -1, l.key.id, Side(l.key), l.key.id, -1);
    if u.At? {
      LetterOrder(l.key.id, Side(l.key), u.key.id, Side(u.key), l.key.id, Side(l.key));
      LetterOrder(l.key.id, 1, u.key.id, Side(u.key), l.key.id, 1);
    }
  }

  /** Stepping under a letter from the upper bound keeps a proper interval. */
  lemma UnderUpper(l: Bound, u: Bound)
    requires u.At? && Below(l, u)
    ensures Below(Under(u.key.id, DownFrom(u.key), l), Under(u.key.id, DownFrom(u.key), u))
  {
    LetterOrder(u.key.id, 1, u.key.id, Side(u.key), u.key.id, 1);
    LetterOrder(u.key.id, -1, u.key.id, Side(u.key), u.key.id, -1);
    if l.At? {
      LetterOrder(u.key.id, Side(u.key), l.key.id, Side(l.key), u.key.id, Side(u.key));
      LetterOrder(u.key.id, -1, l.key.id, Side(l.key), u.key.id, -1);
    }
  }

  /** A key under a letter compares with a bound as its remainder compares with what is left of it. */
  lemma UnderCompare(id: CharId, right: bool, rest: Key, b: Bound)
    ensures Below(b, At(Step(id, right, rest))) <==> Below(Under(id, right, b), At(rest))
    ensures Below(At(Step(id, right, rest)), b) <==>
            (Below(At(rest), Under(id, right, b)))
  {
    if b.At? {
      var d := if right then 1 else -1;
      LetterOrder(id, d, b.key.id, Side(b.key), id, d);
    }
  }

  /** `Under` is monotone. */
  lemma UnderMonotone(id: CharId, right: bool, a: Bound, b: Bound)
    requires AtMost(a, b)
    ensures AtMost(Under(id, right, a), Under(id, right, b))
  {
    if a.At? && b.At? {
      var d := if right then 1 else -1;
      LetterOrder(id, d, a.key.id, Side(a.key), b.key.id, Side(b.key));
      LetterOrder(id, d, b.key.id, Side(b.key), a.key.id, Side(a.key));
      LetterOrder(a.key.id, Side(a.key), b.key.id, Side(b.key), id, d);
    }
  }

  /** A new character's key lies strictly between the keys of its neighbours. */
  lemma {:induction false} PsiBetween(l: Bound, u: Bound, id: CharId)
    requires Below(l, u)
    ensures Below(l, At(Psi(l, u, id))) && Below(At(Psi(l, u, id)), u)
    decreases Size(l) + Size(u)
  {
    if l.At? && !KeyLess(l.key, Final(id)) {
      var i, r := l.key.id, UpFrom(l.key);
      UnderSize(i, r, l);
      UnderSize(i, r, u);
      UnderLower(l, u);
      PsiBetween(Under(i, r, l), Under(i, r, u), id);
      UnderCompare(i, r, Psi(Under(i, r, l), Under(i, r, u), id), l);
      UnderCompare(i, r, Psi(Under(i, r, l), Under(i, r, u), id), u);
    } else if u.At? && !KeyLess(Final(id), u.key) {
      var i, r := u.key.id, DownFrom(u.key);
      UnderSize(i, r, l);
      UnderSize(i, r, u);
      UnderUpper(l, u);
      PsiBetween(Under(i, r, l), Under(i, r, u), id);
      UnderCompare(i, r, Psi(Under(i, r, l), Under(i, r, u), id), l);
      UnderCompare(i, r, Psi(Under(i, r, l), Under(i, r, u), id), u);
    }
  }

  /** Two lower bounds under the same new key step to the same letter. */
  lemma SameUpLetter(l: Key, l1: Key, rest: Key)
    requires AtMost(At(l), At(l1)) && KeyLess(l1, Step(l.id, UpFrom(l), rest))
    ensures l1.id == l.id && UpFrom(l1) == UpFrom(l)
  {
    var d := if UpFrom(l) then 1 else -1;
    LetterOrder(l.id, Side(l), l1.id, Side(l1), l.id, d);
    IdLessOrder(l.id, l1.id, l.id);
  }

  /** Two upper bounds above the same new key step to the same letter. */
  lemma SameDownLetter(u: Key, u1: Key, rest: Key)
    requires AtMost(At(u1), At(u)) && KeyLess(Step(u.id, DownFrom(u), rest), u1)
    ensures u1.id == u.id && DownFrom(u1) == DownFrom(u)
  {
    var d := if DownFrom(u) then 1 else -1;
    LetterOrder(u1.id, Side(u1), u.id, Side(u), u1.id, Side(u1));
    LetterOrder(u.id, d, u1.id, Side(u1), u.id, Side(u));
    IdLessOrder(u.id, u1.id, u.id);
  }

  /** Shrinking the interval around a key does not change the key. */
  lemma {:induction false} PsiNarrow(l: Bound, u: Bound, l1: Bound, u1: Bound, id: CharId)
    requires AtMost(l, l1) && AtMost(u1, u)
    requires Below(l1, At(Psi(l, u, id))) && Below(At(Psi(l, u, id)), u1)
    ensures Psi(l1, u1, id) == Psi(l, u, id)
    decreases Size(l) + Size(u)
  {
    var k := Psi(l, u, id);
    if l.At? && !KeyLess(l.key, Final(id)) {
      var i, r := l.key.id, UpFrom(l.key);
      UnderSize(i, r, l);
      UnderSize(i, r, u);
      SameUpLetter(l.key, l1.key, k.rest);
      UnderCompare(i, r, k.rest, l1);
      UnderCompare(i, r, k.rest, u1);
      UnderMonotone(i, r, l, l1);
      UnderMonotone(i, r, u1, u);
      PsiNarrow(Under(i, r, l), Under(i, r, u), Under(i, r, l1), Under(i, r, u1), id);
      BelowOrder(l, l1, At(Final(id)));
    } else if u.At? && !KeyLess(Final(id), u.key) {
      var i, r := u.key.id, DownFrom(u.key);
      UnderSize(i, r, l);
      UnderSize(i, r, u);
      SameDownLetter(u.key, u1.key, k.rest);
      UnderCompare(i, r, k.rest, l1);
      UnderCompare(i, r, k.rest, u1);
      UnderMonotone(i, r, l, l1);
      UnderMonotone(i, r, u1, u);
      PsiNarrow(Under(i, r, l), Under(i, r, u), Under(i, r, l1), Under(i, r, u1), id);
      BelowOrder(At(Final(id)), u1, u);
      BelowOrder(l1, At(k), u1);
      BelowOrder(u1, At(Final(id)), l1);
      BelowOrder(l1, u1, At(Final(id)));
    }
  }

  /** In a fixed interval the letters taken from the two sides never cross. */
  lemma LettersDoNotCross(l: Key, u: Key)
    requires KeyLess(l, u)
    ensures (l.id == u.id && UpFrom(l) == DownFrom(u)) ||
            LetterLess(l.id, if UpFrom(l) then 1 else -1, u.id, if DownFrom(u) then 1 else -1)
  {
    IdLessOrder(l.id, u.id, l.id);
  }

  /** In a fixed interval, keys are ordered as the identifiers are. */
  lemma {:induction false} PsiMonotone(l: Bound, u: Bound, a: CharId, b: CharId)
    requires Below(l, u) && IdLess(a, b)
    ensures KeyLess(Psi(l, u, a), Psi(l, u, b))
    decreases Size(l) + Size(u)
  {
    IdLessOrder(a, b, a);
    if l.At? && !KeyLess(l.key, Final(a)) {
      var i, r := l.key.id, UpFrom(l.key);
      if !KeyLess(l.key, Final(b)) {
        UnderSize(i, r, l);
        UnderSize(i, r, u);
        UnderLower(l, u);
        PsiMonotone(Under(i, r, l), Under(i, r, u), a, b);
      } else if u.At? && !KeyLess(Final(b), u.key) {
        LettersDoNotCross(l.key, u.key);
        if i == u.key.id && r == DownFrom(u.key) {
          UnderSize(i, r, l);
          UnderSize(i, r, u);
          UnderLower(l, u);
          PsiMonotone(Under(i, r, l), Under(i, r, u), a, b);
        }
      } else {
        KeyLessTotal(l.key, Final(a));
        IdLessOrder(i, a, b);
        IdLessOrder(i, b, i);
      }
    } else if u.At? && !KeyLess(Final(a), u.key) {
      var i, r := u.key.id, DownFrom(u.key);
      IdLessOrder(i, a, b);
      KeyLessTotal(u.key, Final(b));
      BelowOrder(l, At(Final(a)), At(Final(b)));
      BelowOrder(u, At(Final(a)), At(Final(b)));
      UnderSize(i, r, l);
      UnderSize(i, r, u);
      UnderUpper(l, u);
      PsiMonotone(Under(i, r, l), Under(i, r, u), a, b);
    } else {
      BelowOrder(l, At(Final(a)), At(Final(b)));
      if u.At? && !KeyLess(Final(b), u.key) {
        IdLessOrder(a, u.key.id, b);
      }
    }
  }

  /**
   * The heart of convergence. Two characters whose keys lie in the gap (l, u) and whose own
   * neighbours lie outside it are ordered by identifier, whatever those neighbours are.
   */
  lemma PsiOrder(l: Bound, u: Bound, l1: Bound, u1: Bound, a: CharId, l2: Bound, u2: Bound, b: CharId)
    requires AtMost(l1, l) && AtMost(u, u1) && AtMost(l2, l) && AtMost(u, u2)
    requires Below(l, At(Psi(l1, u1, a))) && Below(At(Psi(l1, u1, a)), u)
    requires Below(l, At(Psi(l2, u2, b))) && Below(At(Psi(l2, u2, b)), u)
    ensures IdLess(a, b) <==> KeyLess(Psi(l1, u1, a), Psi(l2, u2, b))
    ensures a == b <==> Psi(l1, u1, a) == Psi(l2, u2, b)
  {
    PsiNarrow(l1, u1, l, u, a);
    PsiNarrow(l2, u2, l, u, b);
    BelowOrder(l, At(Psi(l1, u1, a)), u);
    IdLessOrder(a, b, a);
    KeyLessTotal(Psi(l, u, a), Psi(l, u, b));
    if IdLess(a, b) {
      PsiMonotone(l, u, a, b);
    } else if IdLess(b, a) {
      PsiMonotone(l, u, b, a);
    }
  }
}
