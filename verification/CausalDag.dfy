/**
 * The causal graph of a log (history/dag.go): direct edges, reachability and layers, on values.
 * DagObjects.dfy builds it.
 */
module CausalDag {
  import opened Operations
  import opened OperationLog

  predicate Earlier(a: WootOperation, b: WootOperation) {
    HappenedBefore(a.id, b.id)
  }

  predicate NamedApart(a: WootOperation, b: WootOperation) {
    SameOperation(a.id, b.id) ==> a == b
  }

  /** Valid operations, no two of one name. */
  ghost predicate DagNodes(u: Ops) {
    && (forall a :: a in u ==> ValidId(a.id))
    && (forall a, b {:trigger NamedApart(a, b)} :: a in u && b in u ==> NamedApart(a, b))
  }

  /** `c` lies causally between `a` and `b`. */
  predicate Between(a: WootOperation, c: WootOperation, b: WootOperation) {
    Earlier(a, c) && Earlier(c, b)
  }

  /** The edge a -> b is drawn: `a` is before `b`, and nothing lies between them. */
  ghost predicate Direct(u: Ops, a: WootOperation, b: WootOperation) {
    a in u && b in u && Earlier(a, b) && forall c {:trigger Between(a, c, b)} :: c in u ==> !Between(a, c, b)
  }

  lemma EarlierOrder(u: Ops, a: WootOperation, b: WootOperation, c: WootOperation)
    requires DagNodes(u) && a in u && b in u && c in u
    ensures !Earlier(a, a) && !(Earlier(a, b) && Earlier(b, a))
    ensures Earlier(a, b) && Earlier(b, c) ==> Earlier(a, c)
  {
    HappenedBeforeOrder(a.id, b.id, c.id);
  }

  // ---------------------------------------------------------------- reachability

  ghost predicate EdgePath(u: Ops, p: seq<WootOperation>) {
    && (forall i :: 0 <= i < |p| ==> p[i] in u)
    && (forall i :: 0 <= i < |p| - 1 ==> Direct(u, p[i], p[i + 1]))
  }

  ghost predicate EdgePathBetween(u: Ops, p: seq<WootOperation>, a: WootOperation, b: WootOperation) {
    |p| >= 2 && EdgePath(u, p) && p[0] == a && p[|p| - 1] == b
  }

  /** Along a path, causality accumulates. */
  lemma {:induction false} PathIsCausal(u: Ops, p: seq<WootOperation>, i: nat, j: nat)
    requires DagNodes(u) && EdgePath(u, p) && i < j < |p|
    ensures Earlier(p[i], p[j])
    decreases j - i
  {
    if i + 1 < j {
      PathIsCausal(u, p, i + 1, j);
      assert Direct(u, p[i], p[i + 1]);
      EarlierOrder(u, p[i], p[i + 1], p[j]);
    }
  }

  ghost function Inside(u: Ops, a: WootOperation, b: WootOperation): Ops {
    set c | c in u && Between(a, c, b)
  }

  /** Causality is spelled out by edges. */
  lemma {:induction false} CausalityHasPath(u: Ops, a: WootOperation, b: WootOperation) returns (p: seq<WootOperation>)
    requires DagNodes(u) && a in u && b in u && Earlier(a, b)
    ensures EdgePathBetween(u, p, a, b)
    decreases Inside(u, a, b)
  {
    if Inside(u, a, b) == {} {
      forall c | c in u ensures !Between(a, c, b) {
        assert c !in Inside(u, a, b);
      }
      p := [a, b];
    } else {
      var c :| c in Inside(u, a, b);
      InsideShrinks(u, a, c, b);
      var p1 := CausalityHasPath(u, a, c);
      var p2 := CausalityHasPath(u, c, b);
      p := p1 + p2[1..];
      JoinPaths(u, p1, p2);
    }
  }

  lemma InsideShrinks(u: Ops, a: WootOperation, c: WootOperation, b: WootOperation)
    requires DagNodes(u) && a in u && b in u && c in Inside(u, a, b)
    ensures Inside(u, a, c) < Inside(u, a, b) && Inside(u, c, b) < Inside(u, a, b)
  {
    EarlierOrder(u, c, c, c);
    forall x | x in Inside(u, a, c) ensures x in Inside(u, a, b) {
      EarlierOrder(u, x, c, b);
    }
    forall x | x in Inside(u, c, b) ensures x in Inside(u, a, b) {
      EarlierOrder(u, a, c, x);
    }
    assert c !in Inside(u, a, c) && c !in Inside(u, c, b);
  }

  lemma JoinPaths(u: Ops, p: seq<WootOperation>, q: seq<WootOperation>)
    requires |p| >= 2 && |q| >= 2 && EdgePath(u, p) && EdgePath(u, q) && p[|p| - 1] == q[0]
    ensures EdgePath(u, p + q[1..])
  {
    var r := p + q[1..];
    forall i | 0 <= i < |r| ensures r[i] in u {
      assert r[i] == if i < |p| then p[i] else q[i - |p| + 1];
    }
    forall i | 0 <= i < |r| - 1 ensures Direct(u, r[i], r[i + 1]) {
      if i < |p| - 1 {
        assert Direct(u, p[i], p[i + 1]);
      } else {
        assert Direct(u, q[i - |p| + 1], q[i - |p| + 2]);
      }
    }
  }

  /** A path of edges leads from one operation to another exactly when one happened before the other. */
  lemma EdgesReachExactlyCausality(u: Ops, a: WootOperation, b: WootOperation)
    requires DagNodes(u) && a in u && b in u
    ensures Earlier(a, b) <==> exists p :: EdgePathBetween(u, p, a, b)
  {
    if Earlier(a, b) {
      var p := CausalityHasPath(u, a, b);
    }
    forall p | EdgePathBetween(u, p, a, b) ensures Earlier(a, b) {
      PathIsCausal(u, p, 0, |p| - 1);
    }
  }

  /** No edge can be dropped: the edge itself is the only path between its ends. */
  lemma EveryEdgeIsNeeded(u: Ops, a: WootOperation, b: WootOperation, p: seq<WootOperation>)
    requires DagNodes(u) && Direct(u, a, b) && EdgePathBetween(u, p, a, b)
    ensures p == [a, b]
  {
    if |p| > 2 {
      PathIsCausal(u, p, 0, 1);
      PathIsCausal(u, p, 1, |p| - 1);
      assert Between(a, p[1], b);
      assert false;
    }
  }

  // ---------------------------------------------------------------- levels

  /** A causal chain of `n` steps ends in `b`. */
  ghost predicate HasChain(u: Ops, b: WootOperation, n: nat)
    decreases n
  {
    n == 0 || exists a :: a in u && Earlier(a, b) && HasChain(u, a, n - 1)
  }

  ghost function Before(u: Ops, b: WootOperation): Ops {
    set a | a in u && Earlier(a, b)
  }

  lemma BeforeGrows(u: Ops, a: WootOperation, b: WootOperation)
    requires DagNodes(u) && a in u && b in u && Earlier(a, b)
    ensures |Before(u, a)| < |Before(u, b)|
  {
    EarlierOrder(u, a, a, a);
    forall x | x in Before(u, a) ensures x in Before(u, b) {
      EarlierOrder(u, x, a, b);
    }
    assert Before(u, a) + {a} <= Before(u, b);
    Cardinality(Before(u, a) + {a}, Before(u, b));
  }

  lemma Cardinality<T>(a: set<T>, b: set<T>)
    requires a <= b
    ensures |a| <= |b|
  {
    assert b == a + (b - a);
  }

  lemma {:induction false} ChainsAreShort(u: Ops, b: WootOperation, n: nat)
    requires DagNodes(u) && b in u && HasChain(u, b, n)
    ensures n <= |Before(u, b)|
    decreases n
  {
    hide Earlier, DagNodes;
    if n > 0 {
      var a :| a in u && Earlier(a, b) && HasChain(u, a, n - 1);
      ChainsAreShort(u, a, n - 1);
      BeforeGrows(u, a, b);
    }
  }

  lemma {:induction false} ShorterChain(u: Ops, b: WootOperation, n: nat, m: nat)
    requires HasChain(u, b, n) && m <= n
    ensures HasChain(u, b, m)
    decreases n
  {
    hide Earlier;
    if 0 < m < n {
      var a :| a in u && Earlier(a, b) && HasChain(u, a, n - 1);
      ShorterChain(u, a, n - 1, m - 1);
    }
  }

  /** The length of the longest chain that ends in `b`, among those of at most `n` steps. */
  ghost function LevelUpTo(u: Ops, b: WootOperation, n: nat): nat {
    if n == 0 || HasChain(u, b, n) then n else LevelUpTo(u, b, n - 1)
  }

  /** The length of the longest causal chain that ends in `b`. */
  ghost function Level(u: Ops, b: WootOperation): nat {
    LevelUpTo(u, b, |Before(u, b)|)
  }

  lemma {:induction false} LevelUpToIsMax(u: Ops, b: WootOperation, n: nat, m: nat)
    requires m <= n && HasChain(u, b, m)
    ensures m <= LevelUpTo(u, b, n) && HasChain(u, b, LevelUpTo(u, b, n))
  {
    hide HasChain;
    if m < n && !HasChain(u, b, n) {
      LevelUpToIsMax(u, b, n - 1, m);
    }
  }

  lemma LevelIsMax(u: Ops, b: WootOperation, m: nat)
    requires DagNodes(u) && b in u
    ensures HasChain(u, b, m) <==> m <= Level(u, b)
  {
    LevelUpToIsMax(u, b, |Before(u, b)|, 0);
    if HasChain(u, b, m) {
      ChainsAreShort(u, b, m);
      LevelUpToIsMax(u, b, |Before(u, b)|, m);
    }
    if m <= Level(u, b) {
      ShorterChain(u, b, Level(u, b), m);
    }
  }

  /** An effect is on a higher level than its cause. */
  lemma CausesAreLower(u: Ops, a: WootOperation, b: WootOperation)
    requires DagNodes(u) && a in u && b in u && Earlier(a, b)
    ensures Level(u, a) < Level(u, b)
  {
    LevelIsMax(u, a, Level(u, a));
    assert HasChain(u, b, Level(u, a) + 1);
    LevelIsMax(u, b, Level(u, a) + 1);
  }

  /** Above the lowest level, some direct cause is just one level below. */
  lemma SomeParentIsNext(u: Ops, b: WootOperation) returns (a: WootOperation)
    requires DagNodes(u) && b in u && Level(u, b) > 0
    ensures Direct(u, a, b) && Level(u, a) == Level(u, b) - 1
  {
    hide Earlier, DagNodes, Level;
    var n := Level(u, b);
    LevelIsMax(u, b, n);
    a :| a in u && Earlier(a, b) && HasChain(u, a, n - 1);
    LevelIsMax(u, a, n - 1);
    CausesAreLower(u, a, b);
    forall c | c in u ensures !Between(a, c, b) {
      if Between(a, c, b) {
        CausesAreLower(u, a, c);
        CausesAreLower(u, c, b);
      }
    }
  }

  /** The operations of one level are pairwise concurrent. */
  lemma LevelsAreAntichains(u: Ops, a: WootOperation, b: WootOperation)
    requires DagNodes(u) && a in u && b in u && Level(u, a) == Level(u, b)
    ensures Concurrent(a.id, b.id)
  {
    if Earlier(a, b) {
      CausesAreLower(u, a, b);
    }
    if Earlier(b, a) {
      CausesAreLower(u, b, a);
    }
  }

  /** The level of a node is the length of its longest path of edges from a root. */
  lemma LevelIsLongestPath(u: Ops, b: WootOperation)
    requires DagNodes(u) && b in u
    ensures exists p :: EdgePath(u, p) && |p| == Level(u, b) + 1 && p[|p| - 1] == b && Level(u, p[0]) == 0
    ensures forall p :: EdgePath(u, p) && |p| > 0 && p[|p| - 1] == b ==> |p| <= Level(u, b) + 1
  {
    hide DagNodes, Level, Direct;
    var q := PathFromRoot(u, b);
    forall p | EdgePath(u, p) && |p| > 0 && p[|p| - 1] == b ensures |p| <= Level(u, b) + 1 {
      PathClimbs(u, p, |p| - 1);
    }
  }

  lemma {:induction false} PathFromRoot(u: Ops, b: WootOperation) returns (p: seq<WootOperation>)
    requires DagNodes(u) && b in u
    ensures EdgePath(u, p) && |p| == Level(u, b) + 1 && p[|p| - 1] == b && Level(u, p[0]) == 0
    decreases Level(u, b)
  {
    if Level(u, b) == 0 {
      p := [b];
    } else {
      var a := SomeParentIsNext(u, b);
      var q := PathFromRoot(u, a);
      p := q + [b];
      forall i | 0 <= i < |p| - 1 ensures Direct(u, p[i], p[i + 1]) {
        assert i < |q| - 1 ==> Direct(u, q[i], q[i + 1]);
      }
    }
  }

  lemma {:induction false} PathClimbs(u: Ops, p: seq<WootOperation>, i: nat)
    requires DagNodes(u) && EdgePath(u, p) && i < |p|
    ensures i <= Level(u, p[i])
  {
    hide DagNodes, Level, HappenedBefore;
    if i > 0 {
      PathClimbs(u, p, i - 1);
      assert Direct(u, p[i - 1], p[i]);
      CausesAreLower(u, p[i - 1], p[i]);
    }
  }

  /** Roots are the nodes without a drawn edge into them. */
  lemma RootsHaveNoParent(u: Ops, b: WootOperation)
    requires DagNodes(u) && b in u
    ensures Level(u, b) == 0 <==> forall a :: a in u ==> !Direct(u, a, b)
  {
    if Level(u, b) > 0 {
      var a := SomeParentIsNext(u, b);
    } else {
      forall a | a in u ensures !Direct(u, a, b) {
        if Direct(u, a, b) {
          CausesAreLower(u, a, b);
        }
      }
    }
  }
}
