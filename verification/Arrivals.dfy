/** What becomes of a list of operations absorbed in any order (cvrdt/state.go, cvrdt/site.go). */
module Arrivals {
  import opened Identifiers
  import opened TextSequence
  import opened Clocks
  import opened Operations
  import opened OperationLog
  import opened Convergence
  import opened Integration
  import opened Replica
  import opened LocalEdits
  import opened PendingQueue
  import opened Runs

  // ---------------------------------------------------------------- which orders settle

  predicate NeighboursIn(op: WootOperation, ids: set<CharId>) {
    && (IsLimiterId(op.character.previousId) || op.character.previousId in ids)
    && (IsLimiterId(op.character.nextId) || op.character.nextId in ids)
  }

  /**
   * Identifiers alone: with `done` integrated and `queue` waiting, each operation of `w` either
   * refers only to what is there, and then the queue behind it is in dependency order; or it joins
   * the queue, and then it is no deletion whose neighbours are there without its target. At the
   * end nothing waits.
   */
  ghost predicate Settles(done: Ops, queue: Log, w: Log)
    decreases |w|
  {
    if w == [] then queue == []
    else if DependsOnly(w[0], Inserted(done)) then
      InDependencyOrder(done + {w[0]}, queue) && Settles(done + {w[0]} + Elements(queue), [], w[1..])
    else
      !(w[0].opType == Deletion && NeighboursIn(w[0], Inserted(done))) && Settles(done, queue + [w[0]], w[1..])
  }

  /** The list inserts nothing that is there. */
  ghost predicate FreshTo(done: Ops, w: Log) {
    forall op :: op in w && op.opType == Insertion ==> op.character.id !in Inserted(done)
  }

  /** A list in dependency order settles. */
  lemma {:induction false} OrderedSettles(done: Ops, w: Log)
    requires InDependencyOrder(done, w)
    ensures Settles(done, [], w)
    decreases |w|
  {
    hide InDependencyOrder, DependsOnly, Inserted, Elements;
    if w != [] {
      OrderByHead(done, w);
      NothingToDepend(done + {w[0]});
      OrderedSettles(done + {w[0]}, w[1..]);
    }
  }

  // ---------------------------------------------------------------- what was found is skipped

  /** The operations of the list that the search does not find. */
  function Unfound(log: Log, w: Log): Log {
    if w == [] then []
    else (if ContainsOp(log, w[0].id) then [] else [w[0]]) + Unfound(log, w[1..])
  }

  lemma {:induction false} UnfoundIsPart(log: Log, w: Log)
    ensures forall op :: op in Unfound(log, w) <==> op in w && !ContainsOp(log, op.id)
    ensures InsertsOnce(w) ==> InsertsOnce(Unfound(log, w))
    decreases |w|
  {
    hide ContainsOp;
    if w != [] {
      var rest := w[1..];
      UnfoundIsPart(log, rest);
      assert w == [w[0]] + rest;
      if InsertsOnce(w) {
        OnceByHead(w);
        if !ContainsOp(log, w[0].id) {
          OnceWithHead(w[0], Unfound(log, rest));
        }
      }
    }
  }

  lemma OnceByHead(w: Log)
    requires w != [] && InsertsOnce(w)
    ensures InsertsOnce(w[1..]) && forall a :: a in w[1..] ==> InsertDifferent(w[0], a)
  {
    var rest := w[1..];
    forall i, j | 0 <= i < j < |rest| ensures InsertDifferent(rest[i], rest[j]) {
      assert InsertDifferent(w[i + 1], w[j + 1]);
    }
    forall a | a in rest ensures InsertDifferent(w[0], a) {
      var i :| 0 <= i < |rest| && rest[i] == a;
      assert InsertDifferent(w[0], w[i + 1]);
    }
  }

  lemma OnceWithHead(op: WootOperation, w: Log)
    requires InsertsOnce(w) && forall a :: a in w ==> InsertDifferent(op, a)
    ensures InsertsOnce([op] + w)
  {
    var v := [op] + w;
    forall i, j | 0 <= i < j < |v| ensures InsertDifferent(v[i], v[j]) {
      assert i > 0 ==> InsertDifferent(w[i - 1], w[j - 1]);
    }
  }

  lemma AbsorbFirst(log: Log, st: SiteState, collected: Log, w: Log)
    requires w != [] && !ContainsOp(log, w[0].id)
    ensures Absorb(log, st, collected, Wrap(w)) ==
            if Receive(st, w[0]).Some?
            then Absorb(log, Receive(st, w[0]).value, InsertOp(collected, w[0]), Wrap(w[1..]))
            else None
  {
    hide ContainsOp, Receive, InsertOp;
    assert Wrap(w)[1..] == Wrap(w[1..]);
  }

  lemma AbsorbSkips(log: Log, st: SiteState, collected: Log, w: Log)
    requires w != [] && ContainsOp(log, w[0].id)
    ensures Absorb(log, st, collected, Wrap(w)) == Absorb(log, st, collected, Wrap(w[1..]))
  {
    hide ContainsOp, Receive, InsertOp;
    assert Wrap(w)[1..] == Wrap(w[1..]);
  }

  /** What the search finds is skipped. */
  lemma {:induction false} FoundIsPassedOver(log: Log, st: SiteState, collected: Log, w: Log)
    ensures Absorb(log, st, collected, Wrap(w)) == Absorb(log, st, collected, Wrap(Unfound(log, w)))
    decreases |w|
  {
    hide ContainsOp, Receive, InsertOp, Absorb, Wrap;
    if w != [] {
      var op, rest := w[0], Unfound(log, w[1..]);
      if ContainsOp(log, op.id) {
        assert Unfound(log, w) == rest;
        AbsorbSkips(log, st, collected, w);
        FoundIsPassedOver(log, st, collected, w[1..]);
      } else {
        assert Unfound(log, w) == [op] + rest && Unfound(log, w)[1..] == rest;
        AbsorbFirst(log, st, collected, w);
        AbsorbFirst(log, st, collected, [op] + rest);
        if Receive(st, op).Some? {
          FoundIsPassedOver(log, Receive(st, op).value, InsertOp(collected, op), w[1..]);
        }
      }
    } else {
      assert Unfound(log, w) == w;
    }
  }

  /** Leaving out operations that are done keeps a list in dependency order. */
  lemma {:induction false} UnfoundKeepsOrder(log: Log, done: Ops, w: Log)
    requires InDependencyOrder(done, w) && forall op :: op in w && ContainsOp(log, op.id) ==> op in done
    ensures InDependencyOrder(done, Unfound(log, w))
    decreases |w|
  {
    hide ContainsOp, InDependencyOrder, DependsOnly, Inserted;
    if w != [] {
      var op, rest := w[0], Unfound(log, w[1..]);
      OrderByHead(done, w);
      if ContainsOp(log, op.id) {
        assert done + {op} == done;
        UnfoundKeepsOrder(log, done, w[1..]);
        assert [] + rest == rest;
      } else {
        UnfoundKeepsOrder(log, done + {op}, w[1..]);
        assert ([op] + rest)[1..] == rest;
        OrderByHead(done, [op] + rest);
      }
    } else {
      NothingToDepend(done);
    }
  }

  // ---------------------------------------------------------------- one arrival

  /** A lawful operation that names its target's neighbours and whose character is no limiter. */
  predicate Proper(u: Universe, op: WootOperation) {
    && LawfulOp(u, op) && ProperId(op.character.id) && CarriesNeighbours(u, op)
    && (op.opType == Insertion ==> !op.character.IsSpecial())
  }

  /** Proper operations, some of them waiting; each inserts a character of its own, and what is known refers to what is there. */
  ghost predicate Arriving(u: Universe, done: Ops, queue: Log, w: Log) {
    && InsertsOnce(queue + w) && (forall op :: op in queue + w ==> Proper(u, op))
    && FreshTo(done, queue)
    && forall op :: op in w && op.opType == Insertion && op.character.id in Inserted(done) ==>
         DependsOnly(op, Inserted(done))
  }

  /** A site with the text of `done`, in the middle of a delivery. */
  ghost predicate Waiting(u: Universe, st: SiteState, done: Ops, w: Log) {
    && Canonical(u, st.text, Inserted(done), Removed(done)) && PlainText(st.text)
    && Arriving(u, done, st.pending, w)
  }

  lemma ApplyKeepsPlain(s: Text, op: WootOperation)
    requires PlainText(s) && ApplyOp(s, op).Some? && (op.opType == Insertion ==> !op.character.IsSpecial())
    ensures PlainText(ApplyOp(s, op).value)
  {
    match op.opType
    case Insertion =>
      var c := op.character;
      var p, n := PosOf(s, c.previousId), PosOf(s, c.nextId);
      InsertKeepsPlain(s, Place(s, c, p, n).value, c);
    case Deletion =>
      var x := PosOf(s, op.character.id);
      assert x != 0 && x != |s| - 1;
      HideKeepsPlain(s, x);
  }

  lemma {:induction false} QueueKeepsPlain(u: Universe, s: Text, done: Ops, q: Log)
    requires Canonical(u, s, Inserted(done), Removed(done)) && NewTo(u, done, q) && PlainText(s)
    requires InDependencyOrder(done, q) && forall op :: op in q ==> Proper(u, op)
    ensures IntegrateQueue(s, q).Some? && PlainText(IntegrateQueue(s, q).value)
    decreases |q|
  {
    hide Canonical, PlainText, Integrate, Executable, DependsOnly, InDependencyOrder, NewTo;
    if q != [] {
      HeadIsNew(u, done, q);
      NewIsIntegrated(u, s, done, q[0]);
      RestIsNew(u, done, q);
      OrderByHead(done, q);
      assert q[0] in q;
      ApplyKeepsPlain(s, q[0]);
      QueueKeepsPlain(u, Integrate(s, q[0]).value, done + {q[0]}, q[1..]);
    }
  }

  /** What the setting says about the next operation and about the rest. */
  lemma NextArrives(u: Universe, done: Ops, queue: Log, w: Log)
    requires w != [] && Arriving(u, done, queue, w)
    ensures Proper(u, w[0]) && forall op :: op in queue ==> Proper(u, op)
    ensures !DependsOnly(w[0], Inserted(done)) ==>
              Arriving(u, done, queue + [w[0]], w[1..]) && (FreshTo(done, w) <==> FreshTo(done, w[1..]))
    ensures FreshTo(done, [w[0]]) ==> NewTo(u, done + {w[0]}, queue)
  {
    var op, rest := w[0], w[1..];
    assert w == [op] + rest;
    assert (queue + [op]) + rest == queue + w;
    assert (queue + w)[|queue|] == op;
    assert forall a :: a in queue ==> a in queue + w;
    forall i, j | 0 <= i < j < |queue| ensures InsertDifferent(queue[i], queue[j]) {
      assert InsertDifferent((queue + w)[i], (queue + w)[j]);
    }
    forall i | 0 <= i < |queue| ensures InsertDifferent(queue[i], op) {
      assert InsertDifferent((queue + w)[i], (queue + w)[|queue|]);
    }
  }

  /** After the operation and the queue behind it, the rest arrives at an empty queue. */
  lemma RestArrives(u: Universe, done: Ops, queue: Log, w: Log)
    requires w != [] && Arriving(u, done, queue, w)
    ensures var after := done + {w[0]} + Elements(queue);
            Arriving(u, after, [], w[1..]) && (FreshTo(done, [w[0]]) ==> (FreshTo(done, w) <==> FreshTo(after, w[1..])))
  {
    var rest, after := w[1..], done + {w[0]} + Elements(queue);
    assert w == [w[0]] + rest && [] + rest == rest;
    TailInsertsOnce(queue, w);
    assert forall a :: a in rest ==> a in queue + w;
    hide Proper, InsertDifferent;
    forall a | a in rest && a.opType == Insertion
      ensures a.character.id in Inserted(after) <==> a.character.id in Inserted(done)
    {
      AddedDiffers(done, queue, w[0], a);
    }
    assert Inserted(done) <= Inserted(after);
    hide Inserted;
    forall a | a in rest && a.opType == Insertion && a.character.id in Inserted(after)
      ensures DependsOnly(a, Inserted(after))
    {
      assert DependsOnly(a, Inserted(done));
    }
  }

  lemma TailInsertsOnce(queue: Log, w: Log)
    requires w != [] && InsertsOnce(queue + w)
    ensures InsertsOnce(w[1..])
    ensures forall a :: a in w[1..] ==> InsertDifferent(w[0], a) && forall b :: b in queue ==> InsertDifferent(b, a)
  {
    var all, n, rest := queue + w, |queue| + 1, w[1..];
    hide InsertDifferent;
    assert all[n - 1] == w[0];
    forall i, j | 0 <= i < j < |rest| ensures InsertDifferent(rest[i], rest[j]) {
      assert rest[i] == all[n + i] && rest[j] == all[n + j];
    }
    forall a | a in rest ensures InsertDifferent(w[0], a) && forall b :: b in queue ==> InsertDifferent(b, a) {
      var j :| 0 <= j < |rest| && rest[j] == a;
      assert a == all[n + j];
      forall b | b in queue ensures InsertDifferent(b, a) {
        var i :| 0 <= i < |queue| && queue[i] == b;
        assert b == all[i];
      }
    }
  }

  lemma AddedDiffers(done: Ops, queue: Log, op: WootOperation, a: WootOperation)
    requires a.opType == Insertion && InsertDifferent(op, a) && forall b :: b in queue ==> InsertDifferent(b, a)
    ensures a.character.id in Inserted(done + {op} + Elements(queue)) <==> a.character.id in Inserted(done)
  {
  }

  /** An operation whose references have arrived is integrated; the drain behind it ends well exactly in dependency order. */
  lemma ReceiveDrainsExactly(u: Universe, st: SiteState, done: Ops, w: Log)
    requires w != [] && Waiting(u, st, done, w) && DependsOnly(w[0], Inserted(done)) && FreshTo(done, [w[0]])
    ensures var r := Receive(st, w[0]);
            && (r.Some? && DistinctIds(r.value.text) <==> InDependencyOrder(done + {w[0]}, st.pending))
            && (InDependencyOrder(done + {w[0]}, st.pending) ==>
                  Waiting(u, r.value, done + {w[0]} + Elements(st.pending), w[1..]) && r.value.pending == [])
  {
    hide Canonical, PlainText, Arriving, Integrate, Executable, DependsOnly, InDependencyOrder, NewTo, DistinctIds;
    var op := w[0];
    NextArrives(u, done, st.pending, w);
    RestArrives(u, done, st.pending, w);
    assert op in [op];
    NewIsIntegrated(u, st.text, done, op);
    ApplyKeepsPlain(st.text, op);
    var st1 := st.(clock := Join(st.clock, op.id.clock), text := Integrate(st.text, op).value);
    DrainsExactly(u, st1, done + {op});
    DrainsOnceExactly(u, st1, done + {op});
    if InDependencyOrder(done + {op}, st.pending) {
      QueueKeepsPlain(u, st1.text, done + {op}, st.pending);
    }
  }

  /** An operation whose references have not arrived joins the queue, unless it is a deletion that fails. */
  lemma ReceiveWaits(u: Universe, st: SiteState, done: Ops, w: Log)
    requires w != [] && Waiting(u, st, done, w) && !DependsOnly(w[0], Inserted(done))
    ensures Receive(st, w[0]) ==
            if w[0].opType == Deletion && NeighboursIn(w[0], Inserted(done)) then None
            else Some(st.(pending := st.pending + [w[0]]))
  {
    var op, ids, hidden := w[0], Inserted(done), Removed(done);
    NextArrives(u, done, st.pending, w);
    LimitersPresent(st.text);
    hide WellFormed, Arriving;
    if Contains(st.text, op.character.previousId) {
      PresentIsLimiterOrIn(u, st.text, ids, hidden, op.character.previousId);
    }
    if Contains(st.text, op.character.nextId) {
      PresentIsLimiterOrIn(u, st.text, ids, hidden, op.character.nextId);
    }
    if op.opType == Deletion {
      AbsentUnlessIn(u, st.text, ids, hidden, op.character.id);
      AbsentIsNotHidden(st.text, op);
    }
  }

  /** A known insertion that arrives again inserts its character again. */
  lemma ReceiveRepeats(u: Universe, st: SiteState, done: Ops, op: WootOperation)
    requires Canonical(u, st.text, Inserted(done), Removed(done)) && op.opType == Insertion
    requires op.character.id in Inserted(done) && DependsOnly(op, Inserted(done))
    ensures Receive(st, op).Some? ==> !DistinctIds(Receive(st, op).value.text)
  {
    var s, c := st.text, op.character;
    assert Contains(s, c.id) && Contains(s, c.previousId) && Contains(s, c.nextId) by { LimitersPresent(s); }
    hide Canonical, DistinctIds, Contains;
    if Receive(st, op).Some? {
      ReceiveKeepsRepeats(st, op);
    }
  }

  // ---------------------------------------------------------------- the whole list

  lemma {:induction false} AbsorbKeepsRepeats(log: Log, st: SiteState, collected: Log, ops: seq<CRDTOperation>)
    requires !DistinctIds(st.text) && forall i :: 0 <= i < |ops| ==> ops[i].Woot?
    ensures Absorb(log, st, collected, ops).Some? ==> !DistinctIds(Absorb(log, st, collected, ops).value.0.text)
    decreases |ops|
  {
    hide DistinctIds, ContainsOp, InsertOp, Receive;
    if ops != [] {
      if ContainsOp(log, ops[0].OpId()) {
        AbsorbKeepsRepeats(log, st, collected, ops[1..]);
      } else if Receive(st, ops[0].op).Some? {
        ReceiveKeepsRepeats(st, ops[0].op);
        AbsorbKeepsRepeats(log, Receive(st, ops[0].op).value, InsertOp(collected, ops[0].op), ops[1..]);
      }
    }
  }

  /** Nothing waits and no character is there twice. */
  ghost predicate EndsWell(r: Option<(SiteState, Log, bool)>) {
    r.Some? && r.value.0.pending == [] && DistinctIds(r.value.0.text)
  }

  /** If the list was absorbed well, the text is that of `all`. */
  ghost predicate Ended(u: Universe, r: Option<(SiteState, Log, bool)>, all: Ops) {
    EndsWell(r) ==> PlainText(r.value.0.text) && Canonical(u, r.value.0.text, Inserted(all), Removed(all))
  }

  /**
   * A list of operations that the search does not find, in any order, is absorbed with nothing left
   * waiting and no character twice exactly when it inserts nothing that is there and settles; the
   * text is then that of all of them.
   */
  lemma {:induction false} AbsorbSettlesExactly(u: Universe, log: Log, st: SiteState, collected: Log,
                                                done: Ops, w: Log)
    requires Waiting(u, st, done, w) && forall op :: op in w ==> !ContainsOp(log, op.id)
    ensures EndsWell(Absorb(log, st, collected, Wrap(w))) <==> FreshTo(done, w) && Settles(done, st.pending, w)
    ensures Ended(u, Absorb(log, st, collected, Wrap(w)), done + Elements(st.pending) + Elements(w))
    decreases |w|
  {
    hide Canonical, PlainText, Arriving, ContainsOp, DependsOnly, InDependencyOrder, DistinctIds, Receive, InsertOp;
    hide Inserted, Removed, Elements;
    if w == [] {
      CanonicalIsDistinct(u, st.text, Inserted(done), Removed(done));
      assert done + Elements([]) + Elements([]) == done by { NothingToDepend(done); }
      assert Absorb(log, st, collected, Wrap(w)) == Some((st, collected, true));
    } else {
      var op, r, next := w[0], Receive(st, w[0]), InsertOp(collected, w[0]);
      var after := done + {op} + Elements(st.pending);
      AbsorbFirst(log, st, collected, w);
      AllArrive(done, st.pending, w);
      NextArrives(u, done, st.pending, w);
      hide Absorb;
      if !DependsOnly(op, Inserted(done)) {
        ReceiveWaits(u, st, done, w);
        if r.Some? {
          AbsorbSettlesExactly(u, log, r.value, next, done, w[1..]);
        }
      } else if !FreshTo(done, [op]) {
        ReceiveRepeats(u, st, done, op);
        RepeatsEndBadly(log, st, collected, w);
      } else {
        RestArrives(u, done, st.pending, w);
        ReceiveDrainsExactly(u, st, done, w);
        if InDependencyOrder(done + {op}, st.pending) {
          AbsorbSettlesExactly(u, log, r.value, next, after, w[1..]);
        } else {
          RepeatsEndBadly(log, st, collected, w);
        }
      }
    }
  }

  lemma AllArrive(done: Ops, queue: Log, w: Log)
    requires w != []
    ensures var all, after := done + Elements(queue) + Elements(w), done + {w[0]} + Elements(queue);
            && after + Elements([]) + Elements(w[1..]) == all
            && done + Elements(queue + [w[0]]) + Elements(w[1..]) == all
    ensures w[0] in [w[0]]
  {
    assert w == [w[0]] + w[1..];
    assert Elements(w) == {w[0]} + Elements(w[1..]);
    assert Elements(queue + [w[0]]) == Elements(queue) + {w[0]};
  }

  lemma RepeatsEndBadly(log: Log, st: SiteState, collected: Log, w: Log)
    requires w != [] && !ContainsOp(log, w[0].id)
    requires Receive(st, w[0]).Some? ==> !DistinctIds(Receive(st, w[0]).value.text)
    ensures !EndsWell(Absorb(log, st, collected, Wrap(w)))
  {
    hide ContainsOp, DistinctIds, Receive, InsertOp;
    AbsorbFirst(log, st, collected, w);
    if Receive(st, w[0]).Some? {
      AbsorbKeepsRepeats(log, Receive(st, w[0]).value, InsertOp(collected, w[0]), Wrap(w[1..]));
    }
  }

  // ---------------------------------------------------------------- the log

  /** A list that is absorbed is merged into the log as the log of what the search did not find, in its order. */
  lemma NewsIsLogged(r: ReplicaState, w: Log)
    requires UpdateState(r, Wrap(w)).Some?
    ensures UpdateState(r, Wrap(w)).value.1
    ensures UpdateState(r, Wrap(w)).value.0.log == Merge(r.log, FromOps(Unfound(r.log, w)))
  {
    hide Absorb, Merge, FromOps;
    FoundIsPassedOver(r.log, r.site, [], w);
    UnfoundIsPart(r.log, w);
    assert FromOps([]) == [] && [] + Unfound(r.log, w) == Unfound(r.log, w) by { NoOpsNoLog(); }
    NewsIsCollected(r.log, r.site, [], Unfound(r.log, w));
  }

  lemma NoOpsNoLog()
    ensures FromOps([]) == []
  {
  }

  lemma {:induction false} NewsIsCollected(log: Log, st: SiteState, before: Log, w: Log)
    requires forall op :: op in w ==> !ContainsOp(log, op.id)
    ensures var a := Absorb(log, st, FromOps(before), Wrap(w));
            a.Some? ==> a.value.1 == FromOps(before + w) && a.value.2
    decreases |w|
  {
    hide ContainsOp, Receive, InsertOp;
    if w == [] {
      assert before + w == before;
    } else {
      AbsorbFirst(log, st, FromOps(before), w);
      hide Absorb;
      var more := before + [w[0]];
      assert more[..|more| - 1] == before && before + w == more + w[1..];
      if Receive(st, w[0]).Some? {
        NewsIsCollected(log, Receive(st, w[0]).value, more, w[1..]);
      }
    }
  }

  // ---------------------------------------------------------------- after an error

  /** An error ends the call: whatever was to follow is not looked at, and the log stays as it was. */
  lemma ErrorEndsUpdate(r: ReplicaState, ops: seq<CRDTOperation>, more: seq<CRDTOperation>)
    requires UpdateState(r, ops).Some? && !UpdateState(r, ops).value.1
    ensures UpdateState(r, ops + more) == UpdateState(r, ops) && UpdateState(r, ops).value.0.log == r.log
  {
    hide Absorb;
    ErrorEndsAbsorb(r.log, r.site, [], ops, more);
  }

  lemma {:induction false} ErrorEndsAbsorb(log: Log, st: SiteState, collected: Log, ops: seq<CRDTOperation>,
                                           more: seq<CRDTOperation>)
    requires Absorb(log, st, collected, ops).Some? && !Absorb(log, st, collected, ops).value.2
    ensures Absorb(log, st, collected, ops + more) == Absorb(log, st, collected, ops)
    decreases |ops|
  {
    hide ContainsOp, InsertOp, Receive, Generate;
    if ops != [] {
      var rest := ops[1..];
      assert (ops + more)[0] == ops[0] && (ops + more)[1..] == rest + more;
      if ContainsOp(log, ops[0].OpId()) {
        ErrorEndsAbsorb(log, st, collected, rest, more);
      } else {
        match ops[0]
        case Woot(op) =>
          ErrorEndsAbsorb(log, Receive(st, op).value, InsertOp(collected, op), rest, more);
        case Local(edit) =>
          if Generate(st, edit).Generated? {
            ErrorEndsAbsorb(log, Generate(st, edit).st, InsertOp(collected, Generate(st, edit).op), rest, more);
          }
      }
    }
  }
}
