/** The printed names of operations, and sorted lists of names (cvrdt/operations.go, history/dag.go). */
module OperationNames {
  import opened Identifiers
  import opened Operations

  function Digit(n: nat): char
    requires n < 10
  {
    "0123456789"[n]
  }

  function Digits(n: nat): string {
    if n < 10 then [Digit(n)] else Digits(n / 10) + [Digit(n % 10)]
  }

  /** The verb `%d`. */
  function Decimal(n: int): string {
    if n < 0 then "-" + Digits(-n) else Digits(n)
  }

  /** `LogicalId.String`: the site, an underscore, the site's own count. */
  function Name(id: LogicalId): string {
    id.siteId + "_" + Decimal(id.LogicalClock())
  }

  predicate IsDigit(c: char) {
    '0' <= c <= '9'
  }

  lemma DigitInjective(m: nat, n: nat)
    requires m < 10 && n < 10
    ensures IsDigit(Digit(m)) && (Digit(m) == Digit(n) <==> m == n)
  {
  }

  lemma {:induction false} DigitsAreDigits(n: nat)
    ensures |Digits(n)| > 0 && forall i :: 0 <= i < |Digits(n)| ==> IsDigit(Digits(n)[i])
  {
    DigitInjective(n % 10, n % 10);
    if n >= 10 {
      DigitsAreDigits(n / 10);
    } else {
      DigitInjective(n, n);
    }
  }

  lemma DigitsLength(n: nat)
    ensures |Digits(n)| == 1 <==> n < 10
  {
    if n >= 10 {
      DigitsAreDigits(n / 10);
    }
  }

  lemma {:induction false} DigitsInjective(m: nat, n: nat)
    requires Digits(m) == Digits(n)
    ensures m == n
  {
    var s := Digits(m);
    DigitsLength(m);
    DigitsLength(n);
    if m < 10 {
      DigitInjective(m, n);
    } else {
      assert s[..|s| - 1] == Digits(m / 10) && s[..|s| - 1] == Digits(n / 10);
      assert s[|s| - 1] == Digit(m % 10) && s[|s| - 1] == Digit(n % 10);
      DigitInjective(m % 10, n % 10);
      DigitsInjective(m / 10, n / 10);
    }
  }

  lemma DecimalInjective(m: int, n: int)
    requires Decimal(m) == Decimal(n)
    ensures m == n
  {
    var s := Decimal(m);
    DigitsAreDigits(if m < 0 then -m else m);
    DigitsAreDigits(if n < 0 then -n else n);
    assert m < 0 <==> s[0] == '-';
    assert n < 0 <==> s[0] == '-';
    if m < 0 {
      assert s[1..] == Digits(-m) && s[1..] == Digits(-n);
      DigitsInjective(-m, -n);
    } else {
      DigitsInjective(m, n);
    }
  }

  lemma DecimalHasNoUnderscore(n: int)
    ensures '_' !in Decimal(n)
  {
    DigitsAreDigits(if n < 0 then -n else n);
  }

  /** What follows the last underscore determines where it is. */
  lemma LastUnderscoreSplits(a: string, d: string, b: string, e: string)
    requires a + "_" + d == b + "_" + e && '_' !in d && '_' !in e
    ensures a == b && d == e
  {
    var s := a + "_" + d;
    assert s[|a|] == '_' && s[|b|] == '_';
    forall i | |a| < i < |s| ensures s[i] != '_' {
      assert s[i] == d[i - |a| - 1];
    }
    forall i | |b| < i < |s| ensures s[i] != '_' {
      assert s[i] == e[i - |b| - 1];
    }
    assert s[..|a|] == a && s[..|b|] == b;
    assert s[|a| + 1..] == d && s[|b| + 1..] == e;
  }

  /** A name identifies an operation: distinct identities are never printed alike. */
  lemma NameIdentifies(a: LogicalId, b: LogicalId)
    ensures Name(a) == Name(b) <==> SameOperation(a, b)
  {
    if Name(a) == Name(b) {
      DecimalHasNoUnderscore(a.LogicalClock());
      DecimalHasNoUnderscore(b.LogicalClock());
      LastUnderscoreSplits(a.siteId, Decimal(a.LogicalClock()), b.siteId, Decimal(b.LogicalClock()));
      DecimalInjective(a.LogicalClock(), b.LogicalClock());
    }
  }

  // ---------------------------------------------------------------- reading a name back

  /** The number a string of digits stands for: most significant digit first. */
  function Reading(s: string): int {
    if s == [] then 0 else 10 * Reading(s[..|s| - 1]) + (s[|s| - 1] as int - '0' as int)
  }

  /** With a leading minus sign for a negative number. */
  function SignedReading(s: string): int {
    if s != [] && s[0] == '-' then -Reading(s[1..]) else Reading(s)
  }

  /** Digits only, at least one, and no zero in front of others. */
  predicate PlainNumeral(s: string) {
    s != [] && (forall i :: 0 <= i < |s| ==> '0' <= s[i] <= '9') && (|s| > 1 ==> s[0] != '0')
  }

  lemma {:induction false} DigitsRead(n: nat)
    ensures PlainNumeral(Digits(n)) && Reading(Digits(n)) == n
    ensures n > 0 ==> Digits(n)[0] != '0'
  {
    var s, m := Digits(n), n % 10;
    assert Digit(m) as int - '0' as int == m && '0' <= Digit(m) <= '9';
    if n < 10 {
      assert s == [Digit(m)] && s[..0] == [];
    } else {
      DigitsRead(n / 10);
      assert s[..|s| - 1] == Digits(n / 10) && s[|s| - 1] == Digit(m);
    }
  }

  /**
   * A printed name reads back: before its last underscore stands the site, and after it the
   * operation's own count in decimal.
   */
  lemma NameReadsBack(id: LogicalId)
    ensures var name, k := Name(id), |id.siteId|;
            && k < |name| && name[..k] == id.siteId && name[k] == '_' && '_' !in name[k + 1..]
            && SignedReading(name[k + 1..]) == id.LogicalClock()
            && (id.LogicalClock() >= 0 ==> PlainNumeral(name[k + 1..]))
            && (id.LogicalClock() < 0 ==> name[k + 1..] != [] && name[k + 1] == '-' && PlainNumeral(name[k + 2..]))
  {
    var n, k := id.LogicalClock(), |id.siteId|;
    hide Decimal, Reading, SignedReading, PlainNumeral;
    DecimalHasNoUnderscore(n);
    DecimalReads(n);
    CutName(id.siteId, Decimal(n));
  }

  lemma DecimalReads(n: int)
    ensures SignedReading(Decimal(n)) == n && Decimal(n) != []
    ensures n >= 0 ==> PlainNumeral(Decimal(n))
    ensures n < 0 ==> Decimal(n)[0] == '-' && PlainNumeral(Decimal(n)[1..])
  {
    DigitsRead(if n < 0 then -n else n);
    hide Digits, Reading;
    if n < 0 {
      assert Decimal(n)[1..] == Digits(-n);
    }
  }

  lemma CutName(site: string, number: string)
    ensures var name, k := site + "_" + number, |site|;
            name[..k] == site && name[k] == '_' && name[k + 1..] == number
    ensures number != [] ==> (site + "_" + number)[|site| + 2..] == number[1..]
  {
  }

  // ---------------------------------------------------------------- sorted lists of names

  predicate NameBefore(s: seq<string>, i: int, j: int)
    requires 0 <= i < |s| && 0 <= j < |s|
  {
    s[i] == s[j] || StrLess(s[i], s[j])
  }

  predicate SortedNames(s: seq<string>) {
    forall i, j :: 0 <= i < j < |s| ==> NameBefore(s, i, j)
  }

  function InsertName(s: seq<string>, x: string): seq<string> {
    if s == [] then [x]
    else if StrLess(s[0], x) then [s[0]] + InsertName(s[1..], x)
    else [x] + s
  }

  /** `slices.Sort` on strings. */
  function SortNames(s: seq<string>): seq<string> {
    if s == [] then [] else InsertName(SortNames(s[1..]), s[0])
  }

  lemma NameOrder(a: string, b: string, c: string)
    ensures !StrLess(a, a) && !(StrLess(a, b) && StrLess(b, a))
    ensures a == b || StrLess(a, b) || StrLess(b, a)
    ensures StrLess(a, b) && StrLess(b, c) ==> StrLess(a, c)
  {
    StrLessIrreflexive(a);
    StrLessTotal(a, b);
    if StrLess(a, b) && StrLess(b, c) {
      StrLessTransitive(a, b, c);
    }
    if StrLess(a, b) && StrLess(b, a) {
      StrLessTransitive(a, b, a);
    }
  }

  lemma {:induction false} InsertNameKeeps(s: seq<string>, x: string)
    ensures multiset(InsertName(s, x)) == multiset(s) + multiset{x}
  {
    hide StrLess;
    if s != [] {
      assert s == [s[0]] + s[1..];
      InsertNameKeeps(s[1..], x);
    }
  }

  lemma {:induction false} InsertNameSorts(s: seq<string>, x: string)
    requires SortedNames(s)
    ensures SortedNames(InsertName(s, x)) && multiset(InsertName(s, x)) == multiset(s) + multiset{x}
  {
    hide StrLess;
    InsertNameKeeps(s, x);
    if s != [] {
      var t := InsertName(s, x);
      if StrLess(s[0], x) {
        TailSorted(s);
        InsertNameSorts(s[1..], x);
        forall i, j | 0 <= i < j < |t| ensures NameBefore(t, i, j) {
          if i == 0 {
            assert t[j] in multiset(InsertName(s[1..], x));
            AllAfterHead(s, t[j], x);
          } else {
            assert NameBefore(InsertName(s[1..], x), i - 1, j - 1);
          }
        }
      } else {
        HeadFirst(s, x);
      }
    }
  }

  lemma HeadFirst(s: seq<string>, x: string)
    requires SortedNames(s) && s != [] && !StrLess(s[0], x)
    ensures SortedNames([x] + s)
  {
    hide StrLess;
    var t := [x] + s;
    forall i, j | 0 <= i < j < |t| ensures NameBefore(t, i, j) {
      if i == 0 {
        assert j == 1 || NameBefore(s, 0, j - 1);
        NameOrder(s[0], x, s[0]);
        NameOrder(x, s[0], s[j - 1]);
      } else {
        assert NameBefore(s, i - 1, j - 1);
      }
    }
  }

  lemma AllAfterHead(s: seq<string>, y: string, x: string)
    requires s != [] && SortedNames(s) && StrLess(s[0], x) && y in multiset(s[1..]) + multiset{x}
    ensures s[0] == y || StrLess(s[0], y)
  {
    if y != x {
      var i :| 0 <= i < |s[1..]| && s[1..][i] == y;
      assert NameBefore(s, 0, i + 1);
    }
  }

  lemma TailSorted(s: seq<string>)
    requires SortedNames(s) && s != []
    ensures SortedNames(s[1..])
  {
    forall i, j | 0 <= i < j < |s[1..]| ensures NameBefore(s[1..], i, j) {
      assert NameBefore(s, i + 1, j + 1);
    }
  }

  lemma {:induction false} SortNamesSorts(s: seq<string>)
    ensures SortedNames(SortNames(s)) && multiset(SortNames(s)) == multiset(s)
  {
    if s != [] {
      assert s == [s[0]] + s[1..];
      SortNamesSorts(s[1..]);
      InsertNameSorts(SortNames(s[1..]), s[0]);
    }
  }

  /** Sorting keeps the names, each as often as before, and puts them in alphabetical order. */
  lemma SortIsAlphabetical(s: seq<string>)
    ensures multiset(SortNames(s)) == multiset(s)
    ensures forall i, j :: 0 <= i < j < |SortNames(s)| ==>
              SortNames(s)[i] == SortNames(s)[j] || Precedes(SortNames(s)[i], SortNames(s)[j])
  {
    hide StrLess, Precedes, SortNames;
    SortNamesSorts(s);
    var t := SortNames(s);
    forall i, j | 0 <= i < j < |t| ensures t[i] == t[j] || Precedes(t[i], t[j]) {
      assert NameBefore(t, i, j);
      StrLessIsAlphabetical(t[i], t[j]);
    }
  }

  /** A sorted list is determined by its multiset of names. */
  lemma {:induction false} SortedNamesUnique(a: seq<string>, b: seq<string>)
    requires SortedNames(a) && SortedNames(b) && multiset(a) == multiset(b)
    ensures a == b
    decreases |a|
  {
    assert |a| == |multiset(a)| == |multiset(b)| == |b|;
    if a != [] {
      HeadsAgree(a, b);
      assert a == [a[0]] + a[1..] && b == [b[0]] + b[1..];
      assert multiset(a[1..]) == multiset(a) - multiset{a[0]} == multiset(b[1..]);
      TailSorted(a);
      TailSorted(b);
      SortedNamesUnique(a[1..], b[1..]);
    }
  }

  lemma HeadsAgree(a: seq<string>, b: seq<string>)
    requires a != [] && b != [] && SortedNames(a) && SortedNames(b) && multiset(a) == multiset(b)
    ensures a[0] == b[0]
  {
    hide StrLess;
    assert a[0] in multiset(b) && b[0] in multiset(a);
    var i :| 0 <= i < |b| && b[i] == a[0];
    var j :| 0 <= j < |a| && a[j] == b[0];
    assert i == 0 || NameBefore(b, 0, i);
    assert j == 0 || NameBefore(a, 0, j);
    NameOrder(a[0], b[0], a[0]);
  }

  /** Sorting ignores the order of its input. */
  lemma SortIgnoresOrder(a: seq<string>, b: seq<string>)
    ensures SortNames(a) == SortNames(b) <==> multiset(a) == multiset(b)
  {
    SortNamesSorts(a);
    SortNamesSorts(b);
    if multiset(a) == multiset(b) {
      SortedNamesUnique(SortNames(a), SortNames(b));
    }
  }
}
