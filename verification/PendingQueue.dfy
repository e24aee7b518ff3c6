/** The queue of operations that wait for their neighbours (cvrdt/site.go, `tryComputePendings`). */
module PendingQueue {
  import opened Identifiers
  import opened TextSequence
  import opened Clocks
  import opened Operations
  import opened OperationLog
  import opened Convergence
  import opened Integration
  import opened Replica

  // ---------------------------------------------------------------- a queue integrated front to back

  function JoinAll(c: Clock, ops: Log): Clock
    decreases |ops|
  {
    if ops == [] then c else JoinAll(Join(c, ops[0].id.clock), ops[1..])
  }

  /** The text after executing the queue front to back; `None` when an operation is not executable in its turn. */
  ghost function IntegrateQueue(s: Text, q: Log): Option<Text>
    decreases |q|
  {
    if q == [] then Some(s)
    else if !Executable(s, q[0]) then None
    else
      match Integrate(s, q[0])
      case None => None
      case Some(t) => IntegrateQueue(t, q[1..])
  }

  /** The `k`th operation refers only to limiters, to characters of `done`, and to characters inserted before it. */
  ghost predicate DependsAfter(done: Ops, q: Log, k: int)
    requires 0 <= k < |q|
  {
    DependsOnly(q[k], Inserted(done + Elements(q[..k])))
  }

  ghost predicate InDependencyOrder(done: Ops, q: Log) {
    forall k :: 0 <= k < |q| ==> DependsAfter(done, q, k)
  }

  /** A queue of lawful operations on proper characters; its insertions differ from each other and from `done`. */
  ghost predicate NewTo(u: Universe, done: Ops, q: Log) {
    && InsertsOnce(q)
    && forall op :: op in q ==>
         && LawfulOp(u, op) && ProperId(op.character.id)
         && (op.opType == Insertion ==> op.character.id !in Inserted(done))
  }

  /** On the canonical text of `done`, an operation that is new executes exactly when what it refers to is there. */
  lemma NewIsIntegrated(u: Universe, s: Text, done: Ops, op: WootOperation)
    requires Canonical(u, s, Inserted(done), Removed(done)) && LawfulOp(u, op) && ProperId(op.character.id)
    requires op.opType == Insertion ==> op.character.id !in Inserted(done)
    ensures Executable(s, op) && Integrate(s, op).Some? <==> DependsOnly(op, Inserted(done))
    ensures DependsOnly(op, Inserted(done)) ==>
              && Integrate(s, op) == ApplyOp(s, op)
              && Canonical(u, Integrate(s, op).value, Inserted(done + {op}), Removed(done + {op}))
  {
    hide Canonical, Integrate;
    if DependsOnly(op, Inserted(done)) {
      ApplyKeepsCanonical(u, s, done, op);
      AcceptedIsExecutable(s, op);
      CanonicalIsDistinct(u, s, Inserted(done), Removed(done));
      ValidIsIntegrated(s, op);
    }
    if Executable(s, op) && Integrate(s, op).Some? {
      ExecutedDepends(u, s, done, op);
    }
  }

  lemma CanonicalIsDistinct(u: Universe, s: Text, ids: set<CharId>, hidden: set<CharId>)
    requires Canonical(u, s, ids, hidden)
    ensures DistinctIds(s) && WellFormed(u, s)
  {
    SortedIsDistinct(u, s);
  }

  lemma ExecutedDepends(u: Universe, s: Text, done: Ops, op: WootOperation)
    requires Canonical(u, s, Inserted(done), Removed(done)) && ProperId(op.character.id)
    requires Executable(s, op) && Integrate(s, op).Some?
    ensures DependsOnly(op, Inserted(done))
  {
    match op.opType
    case Insertion =>
      PresentIsLimiterOrIn(u, s, Inserted(done), Removed(done), op.character.previousId);
      PresentIsLimiterOrIn(u, s, Inserted(done), Removed(done), op.character.nextId);
    case Deletion =>
      PresentIsLimiterOrIn(u, s, Inserted(done), Removed(done), op.character.id);
  }

  /** What the site accepts is executable there. */
  lemma AcceptedIsExecutable(s: Text, op: WootOperation)
    requires ApplyOp(s, op).Some?
    ensures Executable(s, op)
  {
  }

  /** Dependency order, by the first operation. */
  lemma OrderByHead(done: Ops, q: Log)
    requires q != []
    ensures InDependencyOrder(done, q) <==>
            DependsOnly(q[0], Inserted(done)) && InDependencyOrder(done + {q[0]}, q[1..])
    ensures done + Elements(q) == done + {q[0]} + Elements(q[1..])
  {
    var rest := q[1..];
    assert q == [q[0]] + rest;
    assert q[..0] == [] && Elements([]) == {} && done + {} == done;
    forall k | 0 <= k < |rest| ensures DependsAfter(done + {q[0]}, rest, k) <==> DependsAfter(done, q, k + 1) {
      assert q[..k + 1] == [q[0]] + rest[..k];
      assert done + Elements(q[..k + 1]) == done + {q[0]} + Elements(rest[..k]);
    }
    if InDependencyOrder(done, q) {
      assert DependsAfter(done, q, 0);
    }
    if DependsOnly(q[0], Inserted(done)) && InDependencyOrder(done + {q[0]}, rest) {
      forall k | 0 <= k < |q| ensures DependsAfter(done, q, k) {
        if k > 0 {
          assert DependsAfter(done + {q[0]}, rest, k - 1);
        }
      }
    }
  }

  lemma RestIsNew(u: Universe, done: Ops, q: Log)
    requires q != [] && NewTo(u, done, q)
    ensures NewTo(u, done + {q[0]}, q[1..])
  {
    var rest := q[1..];
    forall i, j | 0 <= i < j < |rest| ensures InsertDifferent(rest[i], rest[j]) {
      assert InsertDifferent(q[i + 1], q[j + 1]);
    }
    forall i | 0 <= i < |rest| ensures InsertDifferent(q[0], rest[i]) {
      assert InsertDifferent(q[0], q[i + 1]);
    }
  }

  /** A new queue can be integrated front to back exactly when it is in dependency order. */
  lemma {:induction false} OrderedQueueIntegrates(u: Universe, s: Text, done: Ops, q: Log)
    requires Canonical(u, s, Inserted(done), Removed(done)) && NewTo(u, done, q)
    ensures IntegrateQueue(s, q).Some? <==> InDependencyOrder(done, q)
    ensures InDependencyOrder(done, q) ==>
              Canonical(u, IntegrateQueue(s, q).value, Inserted(done + Elements(q)), Removed(done + Elements(q)))
    decreases |q|
  {
    hide Canonical, Integrate, Executable, DependsOnly, InDependencyOrder, NewTo;
    if q == [] {
      NothingToDepend(done);
    } else {
      HeadIsNew(u, done, q);
      NewIsIntegrated(u, s, done, q[0]);
      RestIsNew(u, done, q);
      OrderByHead(done, q);
      if Executable(s, q[0]) && Integrate(s, q[0]).Some? {
        OrderedQueueIntegrates(u, Integrate(s, q[0]).value, done + {q[0]}, q[1..]);
      }
    }
  }

  lemma NothingToDepend(done: Ops)
    ensures InDependencyOrder(done, []) && done + Elements([]) == done
  {
  }

  lemma HeadIsNew(u: Universe, done: Ops, q: Log)
    requires q != [] && NewTo(u, done, q)
    ensures LawfulOp(u, q[0]) && ProperId(q[0].character.id)
    ensures q[0].opType == Insertion ==> q[0].character.id !in Inserted(done)
  {
  }

  // ---------------------------------------------------------------- draining

  lemma {:induction false} FirstExecutableIsFirst(s: Text, q: Log, i: nat)
    requires i <= |q|
    ensures var r := FirstExecutable(s, q, i);
            && (r.Some? ==> Executable(s, q[r.value]))
            && forall k :: i <= k < (if r.Some? then r.value else |q|) ==> !Executable(s, q[k])
    decreases |q| - i
  {
    if i < |q| && !Executable(s, q[i]) {
      FirstExecutableIsFirst(s, q, i + 1);
    }
  }

  lemma {:induction false} MorePassesAgree(st: SiteState, n: nat, m: nat)
    requires DrainWithin(st, n).Some? && n <= m
    ensures DrainWithin(st, m) == DrainWithin(st, n)
    decreases n
  {
    hide OnePass;
    if st.pending != [] {
      MorePassesAgree(OnePass(st).value, n - 1, m - 1);
    }
  }

  /** The number of passes granted does not matter once it is enough. */
  lemma DrainIs(st: SiteState, n: nat)
    requires DrainWithin(st, n).Some?
    ensures Drain(st) == DrainWithin(st, n)
  {
    var m: nat :| DrainWithin(st, m).Some? && Drain(st) == DrainWithin(st, m);
    MorePassesAgree(st, if n < m then n else m, if n < m then m else n);
  }

  /** A pass executes one operation, so a drain needs at least one pass for each. */
  lemma {:induction false} DrainNeedsAllPasses(st: SiteState, n: nat)
    requires DrainWithin(st, n).Some?
    ensures |st.pending| <= n
    decreases n
  {
    hide OnePass;
    if st.pending != [] {
      DrainNeedsAllPasses(OnePass(st).value, n - 1);
    }
  }

  /**
   * The drain empties the queue with one pass for each operation exactly when the queue is in
   * dependency order; it then leaves what integrating it directly leaves.
   */
  lemma DrainsOnceExactly(u: Universe, st: SiteState, done: Ops)
    requires Canonical(u, st.text, Inserted(done), Removed(done)) && NewTo(u, done, st.pending)
    ensures DrainWithin(st, |st.pending|).Some? <==> InDependencyOrder(done, st.pending)
    ensures InDependencyOrder(done, st.pending) ==>
              var all := done + Elements(st.pending);
              && IntegrateQueue(st.text, st.pending).Some?
              && Drain(st) == Some(SiteState(st.siteId, JoinAll(st.clock, st.pending),
                                             IntegrateQueue(st.text, st.pending).value, []))
              && Canonical(u, IntegrateQueue(st.text, st.pending).value, Inserted(all), Removed(all))
  {
    hide Canonical, NewTo, IntegrateQueue, InDependencyOrder, DrainWithin;
    OrderedQueueIntegrates(u, st.text, done, st.pending);
    DrainStep(st);
    if DrainWithin(st, |st.pending|).Some? {
      DrainIs(st, |st.pending|);
    }
  }

  /** On any text, |q| passes empty the queue exactly when it integrates front to back. */
  lemma {:induction false} DrainStep(st: SiteState)
    ensures DrainWithin(st, |st.pending|) ==
            match IntegrateQueue(st.text, st.pending)
            case None => None
            case Some(t) => Some(SiteState(st.siteId, JoinAll(st.clock, st.pending), t, []))
    decreases |st.pending|
  {
    hide OnePass, Integrate, Executable;
    if st.pending != [] {
      var op, rest := st.pending[0], st.pending[1..];
      if Executable(st.text, op) {
        ExecutableHead(st);
        if Integrate(st.text, op).Some? {
          DrainStep(SiteState(st.siteId, Join(st.clock, op.id.clock), Integrate(st.text, op).value, rest));
        }
      } else {
        BlockedHeadIsLate(st);
      }
    }
  }

  lemma ExecutableHead(st: SiteState)
    requires st.pending != [] && Executable(st.text, st.pending[0])
    ensures OnePass(st) ==
            match Integrate(st.text, st.pending[0])
            case None => None
            case Some(t) =>
              Some(SiteState(st.siteId, Join(st.clock, st.pending[0].id.clock), t, st.pending[1..]))
  {
    assert AfterPass(st.pending, 0) == st.pending[1..];
  }

  /** With a blocked head, one pass for each queued operation is not enough. */
  lemma BlockedHeadIsLate(st: SiteState)
    requires st.pending != [] && !Executable(st.text, st.pending[0])
    ensures DrainWithin(st, |st.pending|) == None
  {
    hide Integrate, Executable;
    var next := OnePass(st);
    FirstExecutableIsFirst(st.text, st.pending, 0);
    if next.Some? {
      assert |next.value.pending| >= |st.pending|;
      if DrainWithin(next.value, |st.pending| - 1).Some? {
        DrainNeedsAllPasses(next.value, |st.pending| - 1);
        assert false;
      }
    }
  }

  // ---------------------------------------------------------------- a blocked insertion at the head

  /** Between the queue and the text there are two copies of the character of `b`, or the text has repeats already. */
  ghost predicate Doubled(st: SiteState, b: WootOperation) {
    DistinctIds(st.text) ==> multiset(st.pending)[b] + (if Contains(st.text, b.character.id) then 1 else 0) >= 2
  }

  lemma PassCounts(q: Log, j: nat, b: WootOperation)
    requires j < |q|
    ensures multiset(AfterPass(q, j))[b] ==
            multiset(q)[b] - (if q[j] == b then 1 else 0) + multiset(q[..j])[b]
  {
    assert q == q[..j] + [q[j]] + q[j + 1..];
  }

  lemma PassKeepsDoubled(st: SiteState, b: WootOperation)
    requires OnePass(st).Some? && st.pending != [] && b.opType == Insertion && Doubled(st, b)
    ensures Doubled(OnePass(st).value, b)
  {
    hide Integrate, DistinctIds, Contains, AfterPass;
    var j := FirstExecutable(st.text, st.pending, 0).value;
    var op := st.pending[j];
    PassCounts(st.pending, j, b);
    IntegrateKeepsPresent(st.text, op, b.character.id);
    if !DistinctIds(st.text) {
      RepeatsStay(st.text, op);
    } else if op == b && Contains(st.text, b.character.id) {
      PresentIsRepeated(st.text, b);
    }
  }

  lemma {:induction false} DoubledEndsRepeated(st: SiteState, b: WootOperation, n: nat)
    requires b.opType == Insertion && Doubled(st, b) && DrainWithin(st, n).Some?
    ensures !DistinctIds(DrainWithin(st, n).value.text)
    decreases n
  {
    hide OnePass, DistinctIds, Contains;
    if st.pending != [] {
      PassKeepsDoubled(st, b);
      DoubledEndsRepeated(OnePass(st).value, b, n - 1);
    }
  }

  /** A blocked insertion at the head is never executed just once: a drain that ends has inserted it twice. */
  lemma BlockedInsertionIsRepeated(st: SiteState)
    requires st.pending != [] && st.pending[0].opType == Insertion && !Executable(st.text, st.pending[0])
    ensures Drain(st).Some? ==> !DistinctIds(Drain(st).value.text)
  {
    hide Integrate, Executable, DistinctIds, Contains, AfterPass;
    if Drain(st).Some? {
      var n: nat :| DrainWithin(st, n).Some? && Drain(st) == DrainWithin(st, n);
      var b, next := st.pending[0], OnePass(st).value;
      FirstExecutableIsFirst(st.text, st.pending, 0);
      var j := FirstExecutable(st.text, st.pending, 0).value;
      PassCounts(st.pending, j, b);
      assert st.pending[..j][0] == b;
      assert multiset(next.pending)[b] >= 2;
      DoubledEndsRepeated(next, b, n - 1);
    }
  }

  // ---------------------------------------------------------------- a blocked deletion at the head

  /** A deletion carries the neighbours its target was inserted with. */
  predicate CarriesNeighbours(u: Universe, op: WootOperation) {
    op.opType == Deletion && op.character.id in u ==>
      && op.character.previousId == u[op.character.id].made.previousId
      && op.character.nextId == u[op.character.id].made.nextId
  }

  predicate SameNeighbours(a: WootOperation, d: WootOperation) {
    a.opType == Insertion && a.character.id == d.character.id ==>
      a.character.previousId == d.character.previousId && a.character.nextId == d.character.nextId
  }

  /** The deletion `d` waits at the head for a character that is absent. */
  ghost predicate WaitsInVain(st: SiteState, d: WootOperation) {
    && d.opType == Deletion && ProperId(d.character.id) && !Contains(st.text, d.character.id)
    && st.pending != [] && st.pending[0] == d
    && forall a :: a in st.pending ==> SameNeighbours(a, d)
  }

  /** Whatever else is executed, its target stays absent: inserting that needs the neighbours the deletion carries. */
  lemma PassKeepsWaiting(st: SiteState, d: WootOperation)
    requires WaitsInVain(st, d) && OnePass(st).Some?
    ensures WaitsInVain(OnePass(st).value, d)
  {
    hide Integrate, Contains;
    FirstExecutableIsFirst(st.text, st.pending, 0);
    var j := FirstExecutable(st.text, st.pending, 0).value;
    var op := st.pending[j];
    if j == 0 {
      AbsentIsNotHidden(st.text, d);
      assert false;
    }
    assert SameNeighbours(op, d) && !Executable(st.text, d);
    StaysAbsent(st.text, op, d.character.id);
  }

  lemma AbsentIsNotHidden(s: Text, d: WootOperation)
    requires d.opType == Deletion && !Contains(s, d.character.id)
    ensures Integrate(s, d) == None
  {
  }

  /** Integrating an operation adds at most the character it inserts. */
  lemma StaysAbsent(s: Text, op: WootOperation, id: CharId)
    requires Integrate(s, op).Some? && !Contains(s, id) && ProperId(id)
    requires op.opType == Insertion ==> op.character.id != id
    ensures !Contains(Integrate(s, op).value, id)
  {
    match op.opType
    case Insertion =>
      var k := PlaceAt(s, op.character, PosOf(s, op.character.previousId), PosOf(s, op.character.nextId)).value;
      InsertKeepsPresent(s, k, op.character, id);
    case Deletion =>
      HideKeepsPresent(s, PosOf(s, op.character.id), id);
  }

  lemma {:induction false} BlockedDeletionNeverDrains(st: SiteState, d: WootOperation, n: nat)
    requires WaitsInVain(st, d)
    ensures DrainWithin(st, n) == None
    decreases n
  {
    hide OnePass, Contains, ProperId;
    if n > 0 && OnePass(st).Some? {
      PassKeepsWaiting(st, d);
      BlockedDeletionNeverDrains(OnePass(st).value, d, n - 1);
    }
  }

  // ---------------------------------------------------------------- when a drain ends well

  /** The first pass is part of the drain. */
  lemma DrainUnfolds(st: SiteState)
    requires st.pending != []
    ensures Drain(st) == if OnePass(st).Some? then Drain(OnePass(st).value) else None
  {
    hide OnePass;
    if OnePass(st).Some? {
      var next := OnePass(st).value;
      if Drain(next).Some? {
        var n: nat :| DrainWithin(next, n).Some? && Drain(next) == DrainWithin(next, n);
        assert DrainWithin(st, n + 1) == DrainWithin(next, n);
        DrainIs(st, n + 1);
      } else if Drain(st).Some? {
        var n: nat :| DrainWithin(st, n).Some? && Drain(st) == DrainWithin(st, n);
        assert DrainWithin(next, n - 1).Some?;
        assert false;
      }
    }
  }

  /**
   * A drain of new operations ends, with no character in the text twice, exactly when the queue is
   * in dependency order, however many passes it may take.
   */
  lemma {:induction false} DrainsExactly(u: Universe, st: SiteState, done: Ops)
    requires Canonical(u, st.text, Inserted(done), Removed(done)) && NewTo(u, done, st.pending)
    requires forall op :: op in st.pending ==> CarriesNeighbours(u, op)
    ensures Drain(st).Some? && DistinctIds(Drain(st).value.text) <==> InDependencyOrder(done, st.pending)
    decreases |st.pending|
  {
    hide Canonical, NewTo, InDependencyOrder, OnePass, Integrate, Executable, DistinctIds, DependsOnly, CarriesNeighbours;
    if st.pending == [] {
      NothingToDepend(done);
      CanonicalIsDistinct(u, st.text, Inserted(done), Removed(done));
      DrainIs(st, 0);
    } else {
      var op := st.pending[0];
      HeadIsNew(u, done, st.pending);
      NewIsIntegrated(u, st.text, done, op);
      RestIsNew(u, done, st.pending);
      OrderByHead(done, st.pending);
      DrainUnfolds(st);
      if DependsOnly(op, Inserted(done)) {
        ExecutableHead(st);
        DrainsExactly(u, OnePass(st).value, done + {op});
      } else {
        LateHeadNeverDrains(u, st, done);
      }
    }
  }

  lemma LateHeadNeverDrains(u: Universe, st: SiteState, done: Ops)
    requires Canonical(u, st.text, Inserted(done), Removed(done)) && NewTo(u, done, st.pending)
    requires forall op :: op in st.pending ==> CarriesNeighbours(u, op)
    requires st.pending != [] && !DependsOnly(st.pending[0], Inserted(done))
    ensures Drain(st).Some? ==> !DistinctIds(Drain(st).value.text)
  {
    var op := st.pending[0];
    HeadIsNew(u, done, st.pending);
    NewIsIntegrated(u, st.text, done, op);
    hide Canonical, OnePass, DistinctIds;
    DrainUnfolds(st);
    if Executable(st.text, op) {
      ExecutableHead(st);
    } else if op.opType == Insertion {
      BlockedInsertionIsRepeated(st);
    } else {
      AbsentUnlessIn(u, st.text, Inserted(done), Removed(done), op.character.id);
      QueueNamesNeighbours(u, done, st.pending, op);
      forall n: nat ensures DrainWithin(st, n) == None {
        BlockedDeletionNeverDrains(st, op, n);
      }
    }
  }

  lemma QueueNamesNeighbours(u: Universe, done: Ops, q: Log, d: WootOperation)
    requires NewTo(u, done, q) && d in q && d.opType == Deletion && CarriesNeighbours(u, d)
    ensures forall a :: a in q ==> SameNeighbours(a, d)
  {
  }

  // ---------------------------------------------------------------- repeats never go away

  lemma {:induction false} DrainKeepsRepeats(st: SiteState, n: nat)
    requires !DistinctIds(st.text) && DrainWithin(st, n).Some?
    ensures !DistinctIds(DrainWithin(st, n).value.text)
    decreases n
  {
    hide DistinctIds, Integrate, AfterPass;
    if st.pending != [] {
      RepeatsStay(st.text, st.pending[FirstExecutable(st.text, st.pending, 0).value]);
      DrainKeepsRepeats(OnePass(st).value, n - 1);
    }
  }

  lemma ReceiveKeepsRepeats(st: SiteState, op: WootOperation)
    requires Receive(st, op).Some?
    requires !DistinctIds(st.text) ||
             (Executable(st.text, op) && op.opType == Insertion && Contains(st.text, op.character.id))
    ensures !DistinctIds(Receive(st, op).value.text)
  {
    hide DistinctIds, Integrate, Executable, Contains;
    if Executable(st.text, op) {
      if !DistinctIds(st.text) {
        RepeatsStay(st.text, op);
      } else {
        PresentIsRepeated(st.text, op);
      }
      var st1 := st.(clock := Join(st.clock, op.id.clock), text := Integrate(st.text, op).value);
      assert Receive(st, op) == Drain(st1);
      var n: nat :| DrainWithin(st1, n).Some? && Drain(st1) == DrainWithin(st1, n);
      DrainKeepsRepeats(st1, n);
    }
  }

  // ---------------------------------------------------------------- a queue in any order

  /** The queue after the loop has met `i` blocked operations: each was appended again. */
  function LoopQueue(q: Log, i: nat): (r: Log)
    requires q != []
    ensures |r| == |q| + i
  {
    if i == 0 then q else LoopQueue(q, i - 1) + [LoopQueue(q, i - 1)[i - 1]]
  }

  predicate AllBlocked(s: Text, q: Log) {
    forall i :: 0 <= i < |q| ==> !Executable(s, q[i])
  }

  /** A queue of which nothing is executable grows for ever: the loop never reaches its end. */
  lemma {:induction false} BlockedQueueNeverEnds(s: Text, q: Log, i: nat)
    requires q != [] && AllBlocked(s, q)
    ensures i < |LoopQueue(q, i)| && AllBlocked(s, LoopQueue(q, i))
  {
    if i > 0 {
      BlockedQueueNeverEnds(s, q, i - 1);
    }
  }

  /** Up to the first executable operation the loop has copied the blocked prefix to the end. */
  lemma {:induction false} LoopQueuePrefix(q: Log, j: nat)
    requires j < |q|
    ensures LoopQueue(q, j) == q + q[..j]
    ensures LoopQueue(q, j)[..j] + LoopQueue(q, j)[j + 1..] == AfterPass(q, j)
  {
    if j > 0 {
      LoopQueuePrefix(q, j - 1);
      assert q[..j] == q[..j - 1] + [q[j - 1]];
    }
  }

  /** A pass keeps a duplicate-free queue duplicate-free exactly when it executes the head. */
  lemma PassKeepsOnceExactly(q: Log, j: nat)
    requires j < |q| && NoDuplicates(q)
    ensures NoDuplicates(AfterPass(q, j)) <==> j == 0
    ensures |AfterPass(q, j)| == |q| - 1 + j
    ensures j == 0 ==> AfterPass(q, j) == q[1..]
  {
    var r := AfterPass(q, j);
    if j == 0 {
      assert r == q[1..];
      forall a, b | 0 <= a < b < |r| ensures r[a] != r[b] {
        assert r[a] == q[a + 1] && r[b] == q[b + 1];
      }
    } else {
      assert r[0] == q[0] == r[|q| - 1];
    }
  }

  // ---------------------------------------------------------------- one pass, operation by operation

  /** The state in which the loop of a pass reaches its `i`th operation. */
  function InPass(st: SiteState, i: nat): SiteState
    requires st.pending != []
  {
    st.(pending := LoopQueue(st.pending, i))
  }

  /** A pass that succeeds finds an executable operation. */
  lemma PassFinds(st: SiteState) returns (j: nat)
    requires st.pending != [] && OnePass(st).Some?
    ensures j < |st.pending| && FirstExecutable(st.text, st.pending, 0) == Some(j)
    ensures Executable(st.text, st.pending[j]) && forall i :: 0 <= i < j ==> !Executable(st.text, st.pending[i])
  {
    j := FirstExecutable(st.text, st.pending, 0).value;
    FirstExecutableIsFirst(st.text, st.pending, 0);
  }

  /** A blocked operation is appended again, and the loop moves on. */
  lemma PassBlocked(st: SiteState, i: nat)
    requires i < |st.pending| && !Executable(st.text, st.pending[i])
    ensures |InPass(st, i).pending| > i && InPass(st, i).pending[i] == st.pending[i]
    ensures ComputeExtOp(InPass(st, i), st.pending[i]) == Some((InPass(st, i + 1), false))
  {
    LoopQueuePrefix(st.pending, i);
  }

  /** The first executable operation is integrated and taken out of the queue. */
  lemma PassExecutes(st: SiteState, j: nat)
    requires j < |st.pending| && Executable(st.text, st.pending[j])
    requires OnePass(st).Some? && FirstExecutable(st.text, st.pending, 0) == Some(j)
    ensures |InPass(st, j).pending| > j && InPass(st, j).pending[j] == st.pending[j]
    ensures ComputeExtOp(InPass(st, j), st.pending[j]).Some?
    ensures var r := ComputeExtOp(InPass(st, j), st.pending[j]).value;
            && r.1 && |r.0.pending| > j
            && r.0.(pending := r.0.pending[..j] + r.0.pending[j + 1..]) == OnePass(st).value
  {
    LoopQueuePrefix(st.pending, j);
  }
}
