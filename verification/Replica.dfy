/**
 * A replica on values: the WOOT site and its operation log (cvrdt/site.go, cvrdt/state.go).
 * The classes in SiteObjects.dfy refine these functions.
 */
module Replica {
  import opened Identifiers
  import opened TextSequence
  import opened Clocks
  import opened Operations
  import opened OperationLog
  import opened Integration

  datatype SiteState = SiteState(siteId: string, clock: Clock, text: Text, pending: Log)

  function NewSite(siteId: string): SiteState {
    SiteState(siteId, map[siteId := 0], EmptyText(siteId), [])
  }

  // ---------------------------------------------------------------- visible characters

  predicate Shown(c: WCharacterData, excludeLimiters: bool) {
    c.visible && !(excludeLimiters && c.IsSpecial())
  }

  /** The visible characters, with or without the limiters. */
  function Picks(s: Text, excludeLimiters: bool): Text {
    if s == [] then []
    else (if Shown(s[0], excludeLimiters) then [s[0]] else []) + Picks(s[1..], excludeLimiters)
  }

  /** The position of the `j`th visible character. */
  function NthShown(s: Text, excludeLimiters: bool, j: nat): (x: nat)
    requires j < |Picks(s, excludeLimiters)|
    ensures x < |s|
  {
    if !Shown(s[0], excludeLimiters) then 1 + NthShown(s[1..], excludeLimiters, j)
    else if j == 0 then 0
    else 1 + NthShown(s[1..], excludeLimiters, j - 1)
  }

  /** `GetIthVisibleValue`: occurrences past the end are capped; `None` is the error. */
  function IthVisible(s: Text, occ: int, excludeLimiters: bool): (r: Option<nat>)
    ensures r.Some? ==> r.value < |s|
  {
    var n := |Picks(s, excludeLimiters)|;
    if occ < 0 || n == 0 then None
    else Some(NthShown(s, excludeLimiters, if occ < n then occ else n - 1))
  }

  /** The document as its reader sees it: the contents of the visible characters, in order. */
  function Values(s: Text): seq<string> {
    AlphaValues(Picks(s, true))
  }

  function AlphaValues(s: Text): (r: seq<string>)
    ensures |r| == |s| && forall i :: 0 <= i < |s| ==> r[i] == s[i].alphaValue
  {
    seq(|s|, i requires 0 <= i < |s| => s[i].alphaValue)
  }

  // ---------------------------------------------------------------- remote operations

  predicate Executable(s: Text, op: WootOperation) {
    (op.opType == Deletion && Contains(s, op.character.id)) ||
    (Contains(s, op.character.previousId) && Contains(s, op.character.nextId))
  }

  /**
   * The state after `computeExtOp`, and whether the operation was integrated or left pending;
   * `None` when the source fails on a nil character or recurses for ever.
   */
  ghost function ComputeExtOp(st: SiteState, op: WootOperation): Option<(SiteState, bool)> {
    if Executable(st.text, op) then
      match Integrate(st.text, op)
      case None => None
      case Some(t) => Some((st.(clock := Join(st.clock, op.id.clock), text := t), true))
    else Some((st.(pending := st.pending + [op]), false))
  }

  /** The first executable operation of a queue, from position `i` on. */
  function FirstExecutable(s: Text, q: Log, i: nat): (r: Option<nat>)
    requires i <= |q|
    ensures r.Some? ==> i <= r.value < |q|
    decreases |q| - i
  {
    if i == |q| then None
    else if Executable(s, q[i]) then Some(i)
    else FirstExecutable(s, q, i + 1)
  }

  /**
   * The queue after a pass that executed its `j`th operation: the blocked ones before it have
   * been appended a second time, because `computeExtOp` queues whatever it cannot execute.
   */
  function AfterPass(q: Log, j: nat): Log
    requires j < |q|
  {
    q[..j] + q[j + 1..] + q[..j]
  }

  /** One pass over the queue: `None` when nothing in it is executable, or what is cannot be integrated. */
  ghost function OnePass(st: SiteState): (r: Option<SiteState>)
    ensures r.Some? ==> |st.pending| <= |r.value.pending| + 1
  {
    match FirstExecutable(st.text, st.pending, 0)
    case None => None
    case Some(j) =>
      match Integrate(st.text, st.pending[j])
      case None => None
      case Some(t) =>
        Some(SiteState(st.siteId, Join(st.clock, st.pending[j].id.clock), t, AfterPass(st.pending, j)))
  }

  /** `tryComputePendings`, when at most `passes` passes are needed to empty the queue. */
  ghost function DrainWithin(st: SiteState, passes: nat): Option<SiteState>
    decreases passes
  {
    if st.pending == [] then Some(st)
    else if passes == 0 then None
    else
      match OnePass(st)
      case None => None
      case Some(st1) => DrainWithin(st1, passes - 1)
  }

  /** `tryComputePendings`; `None` when it never ends, or fails. */
  ghost function Drain(st: SiteState): Option<SiteState> {
    if passes: nat :| DrainWithin(st, passes).Some? then DrainWithin(st, passes) else None
  }

  // ---------------------------------------------------------------- local operations

  datatype Generation =
    | Generated(st: SiteState, op: WootOperation)
    | Refused(st: SiteState)   // an error is returned
    | Endless                  // the placement recurses for ever

  ghost function GenerateIns(st: SiteState, pos: int, str: string): Generation {
    var clock := Tick(st.clock, st.siteId);
    var ticked := st.(clock := clock);
    match (IthVisible(st.text, pos, false), IthVisible(st.text, pos + 1, false))
    case (Some(p), Some(n)) =>
      var c := WCharacterData(CharId(st.siteId, Get(clock, st.siteId)), str, true, st.text[p].id, st.text[n].id);
      var op := WootOperation(LogicalId(st.siteId, clock), Insertion, c);
      (match Integrate(st.text, op)
       case None => Endless
       case Some(t) => Generated(ticked.(text := t), op))
    case _ => Refused(ticked)
  }

  function GenerateDel(st: SiteState, pos: int): Generation {
    match IthVisible(st.text, pos, true)
    case None => Refused(st)
    case Some(i) =>
      var clock := Tick(st.clock, st.siteId);
      var c := st.text[i].(visible := false);
      Generated(st.(clock := clock, text := st.text[i := c]),
                WootOperation(LogicalId(st.siteId, clock), Deletion, c))
  }

  ghost function Generate(st: SiteState, edit: LocalOperation): Generation {
    if edit.opType == Insertion then GenerateIns(st, edit.pos, edit.content) else GenerateDel(st, edit.pos)
  }

  // ---------------------------------------------------------------- the replica

  datatype ReplicaState = ReplicaState(site: SiteState, log: Log)

  function NewReplica(siteId: string): ReplicaState {
    ReplicaState(NewSite(siteId), [])
  }

  /** A remote operation and the queue behind it. */
  ghost function Receive(st: SiteState, op: WootOperation): Option<SiteState> {
    match ComputeExtOp(st, op)
    case None => None
    case Some((st1, done)) => if done then Drain(st1) else Some(st1)
  }

  /** The loop of `UpdateState`: site, collected operations, and whether no error was met. */
  ghost function Absorb(log: Log, st: SiteState, collected: Log, ops: seq<CRDTOperation>)
    : Option<(SiteState, Log, bool)>
    decreases |ops|
  {
    if ops == [] then Some((st, collected, true))
    else if ContainsOp(log, ops[0].OpId()) then Absorb(log, st, collected, ops[1..])
    else
      match ops[0]
      case Woot(op) =>
        (match Receive(st, op)
         case None => None
         case Some(st1) => Absorb(log, st1, InsertOp(collected, op), ops[1..]))
      case Local(edit) =>
        (match Generate(st, edit)
         case Generated(st1, op) => Absorb(log, st1, InsertOp(collected, op), ops[1..])
         case Refused(st1) => Some((st1, collected, false))
         case Endless => None)
  }

  /** `UpdateState`; `None` when the source fails or never returns. */
  ghost function UpdateState(r: ReplicaState, ops: seq<CRDTOperation>): Option<(ReplicaState, bool)> {
    match Absorb(r.log, r.site, [], ops)
    case None => None
    case Some((st, collected, ok)) =>
      Some((ReplicaState(st, if ok then Merge(r.log, collected) else r.log), ok))
  }
}
