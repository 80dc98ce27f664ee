/** The anchor-publish reward collapse of src/anchor/reward_tracker.js: one reward row per logical anchor,
    kept by a per-anchor promise chain around a read-modify-write body. */
module AnchorRewards {
  import opened JsValues
  import opened Ordering
  import opened Pubkeys

  const ARCHIVE_REWARD_TYPE := "anchor_archive"
  const BUNDLE_REWARD_TYPE := "anchor_bundle"

  /** The block an archive reward is qualified by: its floor, or 0 when it is negative or no number. */
  function QualifyingBlock(n: Num): int {
    if n.Fin? && n.value >= 0.0 then n.value.Floor else 0
  }

  /** rewardRoundQualifier(rewardType, blockIndex || 0). */
  function RewardRoundQualifier(rewardType: string, snapshotBlock: Num): int {
    if rewardType == ARCHIVE_REWARD_TYPE then QualifyingBlock(snapshotBlock) else 0
  }

  /** A logical anchor: the (reward_type, round_number, round_qualifier) its rows are keyed by. */
  datatype Anchor = Anchor(rewardType: string, round: int, qualifier: int)

  datatype Row = Row(pubkey: string, amount: real, archived: bool)

  /** What is queued on a lock: a recordAnchorReward call, whose `amount` is what resolveAnchorRewardAmount answers,
      or the stamp sweep's retraction of this hub's own bundle row. */
  datatype Request =
    | Record(rewardType: string, round: int, pubkey: string, blockIndex: Num, amount: real)
    | Retract(round: int, pubkey: string)
  {
    function Type(): string { if Record? then rewardType else BUNDLE_REWARD_TYPE }

    function Target(): Anchor {
      Anchor(Type(), round, if Record? then RewardRoundQualifier(rewardType, blockIndex) else 0)
    }

    function LockKey(): (string, int) { (Type(), round) }

    function Key(): string { Lower(pubkey) }

    function NewRow(): Row
      requires Record?
    {
      Row(Key(), amount, false)
    }
  }

  /** Every writer of one anchor shares one lock; rewards of one lock are the same anchor, except archive rewards,
      which are told apart exactly by their floored blocks. */
  lemma QualifierSeparatesArchives(a: Request, b: Request)
    ensures a.Target() == b.Target() ==> a.LockKey() == b.LockKey()
    ensures a.LockKey() == b.LockKey() ==>
              (a.Target() == b.Target() <==>
               a.Type() != ARCHIVE_REWARD_TYPE || QualifyingBlock(a.blockIndex) == QualifyingBlock(b.blockIndex))
  {
  }

  /** The qualifier of an archive reward is its block rounded down; of any other reward, or of a block that is negative or
      no number, it is 0. */
  lemma QualifierIsTheHeight(rewardType: string, block: Num)
    ensures var q := RewardRoundQualifier(rewardType, block);
            if rewardType == "anchor_archive" && block.Fin? && block.value >= 0.0 then q as real <= block.value < q as real + 1.0
            else q == 0
  {
  }

  /** So archive rewards of one reissued round at two heights are one anchor exactly when the heights are equal. */
  lemma ArchivesByHeight(round: int, h: nat, k: nat, p: string, q: string, x: real, y: real)
    ensures var a, b := Record("anchor_archive", round, p, Fin(h as real), x), Record("anchor_archive", round, q, Fin(k as real), y);
            a.Target() == b.Target() <==> h == k
  {
  }

  // --------------------------------------------------------- the locked body

  function RowsOf(rows: map<Anchor, seq<Row>>, a: Anchor): seq<Row> { if a in rows then rows[a] else [] }

  function Keys(rows: seq<Row>): seq<string> { seq(|rows|, i requires 0 <= i < |rows| => Lower(rows[i].pubkey)) }

  datatype Decision = Nothing | Supersede | InsertNew

  predicate AnyArchived(rows: seq<Row>) { exists r :: r in rows && r.archived }

  function Decide(existing: seq<Row>, key: string): Decision {
    if key in Keys(existing) then Nothing
    else if existing == [] then InsertNew
    else if AnyArchived(existing) then Nothing
    else if StrLe(Smallest(existing), key) then Nothing
    else Supersede
  }

  function Smallest(existing: seq<Row>): string
    requires existing != []
  {
    SortElements(StrLe, Keys(existing));
    Sort(StrLe, Keys(existing))[0]
  }

  /** INSERT IGNORE under the unique key (pubkey, round, type, qualifier). */
  function InsertIgnore(rows: seq<Row>, row: Row): seq<Row> {
    if exists r :: r in rows && r.pubkey == row.pubkey then rows else rows + [row]
  }

  /** DELETE ... WHERE batch_seq IS NULL (src/db/validators.js). */
  function DeleteUnarchived(rows: seq<Row>): seq<Row> {
    if rows == [] then [] else (if rows[0].archived then [rows[0]] else []) + DeleteUnarchived(rows[1..])
  }

  /** DELETE ... WHERE validator_pubkey = ? AND batch_seq IS NULL */
  function DeleteOwn(rows: seq<Row>, key: string): seq<Row> {
    if rows == [] then []
    else (if rows[0].pubkey == key && !rows[0].archived then [] else [rows[0]]) + DeleteOwn(rows[1..], key)
  }

  /** The DELETEs take exactly the rows their WHERE names. */
  lemma {:induction false} DeletesExactly(rows: seq<Row>, key: string, r: Row)
    ensures multiset(DeleteUnarchived(rows))[r] == if r.archived then multiset(rows)[r] else 0
    ensures multiset(DeleteOwn(rows, key))[r] == if r.pubkey == key && !r.archived then 0 else multiset(rows)[r]
  {
    if rows != [] {
      DeletesExactly(rows[1..], key, r);
      assert rows == [rows[0]] + rows[1..];
    }
  }

  /** The rows of the anchor after the body's write, given what its read decided. */
  function Written(decision: Decision, rows: seq<Row>, row: Row): seq<Row> {
    match decision
    case Nothing => rows
    case Supersede => InsertIgnore(DeleteUnarchived(rows), row)
    case InsertNew => InsertIgnore(rows, row)
  }

  /** The locked body run without interruption: its rows and whether it settled without error. */
  function Body(rows: map<Anchor, seq<Row>>, r: Request, readOk: bool, writeOk: bool): (map<Anchor, seq<Row>>, bool)
    requires r.Record?
  {
    if r.amount <= 0.0 then (rows, true)
    else if !readOk then (rows, false)
    else
      var existing := RowsOf(rows, r.Target());
      var decision := Decide(existing, r.Key());
      if decision.Nothing? then (rows, true)
      else if !writeOk then (rows, false)
      else (rows[r.Target() := Written(decision, existing, r.NewRow())], true)
  }

  class RewardTable {
    var rows: map<Anchor, seq<Row>>

    constructor ()
      ensures rows == map[]
    {
      rows := map[];
    }

    /** recordAnchorRewardLocked; a failed read, insert or transaction rethrows (false). */
    method RecordAnchorRewardLocked(r: Request, readOk: bool, writeOk: bool) returns (settled: bool)
      requires r.Record?
      modifies this
      ensures (rows, settled) == Body(old(rows), r, readOk, writeOk)
    {
      if r.amount <= 0.0 { return true; }
      var anchor, key := r.Target(), r.Key();
      if !readOk { return false; }
      var existing := RowsOf(rows, anchor);
      if key in Keys(existing) { return true; }
      if |existing| > 0 {
        if AnyArchived(existing) { return true; }
        var minIncumbent := Smallest(existing);
        if StrLe(minIncumbent, key) { return true; }
        if !writeOk { return false; }
        var kept := DeleteUnarchived(existing);
        rows := rows[anchor := InsertIgnore(kept, r.NewRow())];
      } else {
        if !writeOk { return false; }
        rows := rows[anchor := InsertIgnore(existing, r.NewRow())];
      }
      settled := true;
    }

    /** The locked body of the stamp sweep's retraction, one statement. */
    method RetractOwnRow(r: Request, ok: bool) returns (settled: bool)
      requires r.Retract?
      modifies this
      ensures settled == ok
      ensures rows == if ok then old(rows)[r.Target() := DeleteOwn(RowsOf(old(rows), r.Target()), r.Key())] else old(rows)
    {
      if !ok { return false; }
      rows := rows[r.Target() := DeleteOwn(RowsOf(rows, r.Target()), r.Key())];
      settled := true;
    }
  }

  // ------------------------------------------------ interleaved executions

  /** Where a call stands: queued behind its predecessor's tail, running before its SELECT, between its
      SELECT and its write, or finished (with or without an error). */
  datatype Phase = Waiting | Running | Pending(decision: Decision) | Settled(ok: bool)

  datatype Call = Call(request: Request, prev: Option<nat>, phase: Phase)

  /** Calls in arrival order, the lock map of chain tails, the table, and, as history, the keys whose calls have
      completed for an anchor since it last lost its row to a retraction and while none of its rows was archived. */
  datatype State = State(calls: seq<Call>, tails: map<(string, int), nat>, rows: map<Anchor, seq<Row>>,
                         completed: map<Anchor, set<string>>)

  /** Stamp sets batch_seq on one public key's row and takes no lock; stamping one key under every qualifier at once
      is a sequence of these. */
  datatype Event =
    | Enter(request: Request)
    | Begin(id: nat)
    | Read(id: nat, ok: bool)
    | Write(id: nat, ok: bool)
    | Erase(id: nat, ok: bool)
    | Cleanup(id: nat)
    | Stamp(anchor: Anchor, pubkey: string)

  const Init := State([], map[], map[], map[])

  function CompletedFor(s: State, a: Anchor): set<string> { if a in s.completed then s.completed[a] else {} }

  function SetPhase(s: State, id: nat, phase: Phase): State
    requires id < |s.calls|
  {
    s.(calls := s.calls[id := s.calls[id].(phase := phase)])
  }

  /** Call `id` finishes without error; its key joins the history unless the anchor is already archived. */
  function Finish(s: State, id: nat): State
    requires id < |s.calls|
  {
    var a := s.calls[id].request.Target();
    var t := SetPhase(s, id, Settled(true));
    if AnyArchived(RowsOf(s.rows, a)) then t
    else t.(completed := s.completed[a := CompletedFor(s, a) + {s.calls[id].request.Key()}])
  }

  function StampRows(rows: seq<Row>, pubkey: string): seq<Row> {
    seq(|rows|, i requires 0 <= i < |rows| => if rows[i].pubkey == pubkey then rows[i].(archived := true) else rows[i])
  }

  predicate At(s: State, id: nat, phase: Phase) { id < |s.calls| && s.calls[id].phase == phase }

  /** One step; None when the event is not enabled. */
  function Next(s: State, e: Event): Option<State> {
    match e
    case Enter(r) => Some(NextEnter(s, r))
    case Begin(id) => NextBegin(s, id)
    case Read(id, ok) => NextRead(s, id, ok)
    case Write(id, ok) => NextWrite(s, id, ok)
    case Erase(id, ok) => NextErase(s, id, ok)
    case Cleanup(id) => NextCleanup(s, id)
    case Stamp(a, pubkey) =>
      Some(if a in s.rows then s.(rows := s.rows[a := StampRows(s.rows[a], pubkey)]) else s)
  }

  function NextEnter(s: State, r: Request): State {
    if r.Record? && !IsPubkey(r.pubkey) then s
    else
      var prev := if r.LockKey() in s.tails then Some(s.tails[r.LockKey()]) else None;
      s.(calls := s.calls + [Call(r, prev, Waiting)], tails := s.tails[r.LockKey() := |s.calls|])
  }

  function NextBegin(s: State, id: nat): Option<State> {
    if At(s, id, Waiting)
       && (s.calls[id].prev.None?
           || (s.calls[id].prev.value < |s.calls| && s.calls[s.calls[id].prev.value].phase.Settled?))
    then Some(SetPhase(s, id, if s.calls[id].request.Record? && s.calls[id].request.amount <= 0.0 then Settled(true) else Running))
    else None
  }

  function NextRead(s: State, id: nat, ok: bool): Option<State> {
    if !At(s, id, Running) || s.calls[id].request.Retract? then None
    else if !ok then Some(SetPhase(s, id, Settled(false)))
    else
      var r := s.calls[id].request;
      var decision := Decide(RowsOf(s.rows, r.Target()), r.Key());
      if decision.Nothing? then Some(Finish(s, id)) else Some(SetPhase(s, id, Pending(decision)))
  }

  function NextWrite(s: State, id: nat, ok: bool): Option<State> {
    if id >= |s.calls| || !s.calls[id].phase.Pending? || s.calls[id].request.Retract? then None
    else if !ok then Some(SetPhase(s, id, Settled(false)))
    else
      var r := s.calls[id].request;
      var after := Written(s.calls[id].phase.decision, RowsOf(s.rows, r.Target()), r.NewRow());
      Some(Finish(s, id).(rows := s.rows[r.Target() := after]))
  }

  function NextErase(s: State, id: nat, ok: bool): Option<State> {
    if !At(s, id, Running) || s.calls[id].request.Record? then None
    else if !ok then Some(SetPhase(s, id, Settled(false)))
    else
      var a := s.calls[id].request.Target();
      var rows := RowsOf(s.rows, a);
      var after := DeleteOwn(rows, s.calls[id].request.Key());
      Some(SetPhase(s, id, Settled(true)).(
        rows := s.rows[a := after],
        completed := if after == rows then s.completed else s.completed[a := {}]))
  }

  function NextCleanup(s: State, id: nat): Option<State> {
    if id < |s.calls| && s.calls[id].phase.Settled? then
      var k := s.calls[id].request.LockKey();
      Some(if k in s.tails && s.tails[k] == id then s.(tails := s.tails - {k}) else s)
    else None
  }

  /** A superseding write that goes through although its anchor's row has been archived since the body's SELECT. */
  predicate TornWrite(s: State, e: Event) {
    e.Write? && e.ok && At(s, e.id, Pending(Supersede)) && AnyArchived(RowsOf(s.rows, s.calls[e.id].request.Target()))
  }

  /** A run ends at its first event that is not enabled. */
  ghost predicate NoTornWrite(s: State, events: seq<Event>)
    decreases |events|
  {
    events == [] || Next(s, events[0]).None? || (!TornWrite(s, events[0]) && NoTornWrite(Next(s, events[0]).value, events[1..]))
  }

  function After(s: State, events: seq<Event>): State
    decreases |events|
  {
    if events == [] || Next(s, events[0]).None? then s else After(Next(s, events[0]).value, events[1..])
  }

  // -------------------------------------------------------- the lock chain

  predicate SameLock(s: State, i: nat, j: nat)
    requires i < |s.calls| && j < |s.calls|
  {
    s.calls[i].request.LockKey() == s.calls[j].request.LockKey()
  }

  /** Every earlier call on id's lock has settled. */
  ghost predicate Clear(s: State, id: nat)
    requires id < |s.calls|
  {
    forall i :: 0 <= i < id && SameLock(s, i, id) ==> s.calls[i].phase.Settled?
  }

  /** A call leaves the queue only once the lock is clear before it. */
  ghost predicate InOrder(s: State) {
    forall j :: 0 <= j < |s.calls| && !s.calls[j].phase.Waiting? ==> Clear(s, j)
  }

  /** The call waits on the latest earlier call of its lock, or on nothing when the lock was clear. */
  ghost predicate ChainedAt(s: State, j: nat)
    requires j < |s.calls|
  {
    match s.calls[j].prev
    case None => Clear(s, j)
    case Some(p) => p < j && SameLock(s, p, j) && forall i :: p < i < j ==> !SameLock(s, i, j)
  }

  ghost predicate Chained(s: State) {
    forall j :: 0 <= j < |s.calls| ==> ChainedAt(s, j)
  }

  /** The lock map points at the latest call of each lock; a lock it does not hold is idle. */
  ghost predicate TailsLatest(s: State) {
    && (forall k :: k in s.tails ==> s.tails[k] < |s.calls| && s.calls[s.tails[k]].request.LockKey() == k)
    && (forall i :: 0 <= i < |s.calls| && s.calls[i].request.LockKey() in s.tails ==> i <= s.tails[s.calls[i].request.LockKey()])
    && (forall i :: 0 <= i < |s.calls| && s.calls[i].request.LockKey() !in s.tails ==> s.calls[i].phase.Settled?)
  }

  ghost predicate LockInv(s: State) { InOrder(s) && Chained(s) && TailsLatest(s) }

  predicate Active(c: Call) { c.phase.Running? || c.phase.Pending? }

  lemma ActiveAlone(s: State, i: nat, j: nat)
    requires LockInv(s) && i < |s.calls| && j < |s.calls| && SameLock(s, i, j)
    requires Active(s.calls[i]) && Active(s.calls[j])
    ensures i == j
  {
  }

  lemma BeginIsClear(s: State, id: nat)
    requires LockInv(s) && Next(s, Begin(id)).Some?
    ensures Clear(s, id)
  {
    assert ChainedAt(s, id);
    if s.calls[id].prev.Some? {
      var p := s.calls[id].prev.value;
      assert Clear(s, p);
      forall i | 0 <= i < id && SameLock(s, i, id) ensures s.calls[i].phase.Settled? {
        if i < p { assert SameLock(s, i, p); }
      }
    }
  }

  lemma StepKeepsLock(s: State, e: Event)
    requires LockInv(s) && Next(s, e).Some?
    ensures LockInv(Next(s, e).value)
  {
    var t := Next(s, e).value;
    match e
    case Enter(r) => if r.Retract? || IsPubkey(r.pubkey) { EnterKeepsLock(s, r, t); }
    case Cleanup(id) => CleanupKeepsLock(s, id, t);
    case Stamp(a, pubkey) => SameCallsKeepLock(s, t);
    case _ => CallStepKeepsLock(s, e, t);
  }

  lemma CallStepKeepsLock(s: State, e: Event, t: State)
    requires LockInv(s) && Next(s, e) == Some(t) && (e.Begin? || e.Read? || e.Write? || e.Erase?)
    ensures LockInv(t)
  {
    if e.Begin? { BeginIsClear(s, e.id); } else { assert Clear(s, e.id); }
    PhaseKeepsLock(s, t, e.id);
  }

  lemma {:induction false} EveryRunKeepsLock(s: State, events: seq<Event>)
    requires LockInv(s)
    ensures LockInv(After(s, events))
    decreases |events|
  {
    if events != [] && Next(s, events[0]).Some? {
      StepKeepsLock(s, events[0]);
      EveryRunKeepsLock(Next(s, events[0]).value, events[1..]);
    }
  }

  /** In every run, bodies sharing a lock never overlap. */
  lemma MutualExclusion(events: seq<Event>, i: nat, j: nat)
    requires i < |After(Init, events).calls| && j < |After(Init, events).calls| && SameLock(After(Init, events), i, j)
    requires Active(After(Init, events).calls[i]) && Active(After(Init, events).calls[j])
    ensures i == j
  {
    EveryRunKeepsLock(Init, events);
    ActiveAlone(After(Init, events), i, j);
  }

  lemma SameCallsKeepLock(s: State, t: State)
    requires LockInv(s) && t.calls == s.calls && t.tails == s.tails
    ensures LockInv(t)
  {
    forall j | 0 <= j < |s.calls| ensures ChainedAt(t, j) && (Clear(s, j) ==> Clear(t, j)) {
      assert ChainedAt(s, j);
      assert forall i :: 0 <= i < j ==> SameLock(t, i, j) == SameLock(s, i, j);
    }
  }

  lemma CleanupKeepsLock(s: State, id: nat, t: State)
    requires LockInv(s) && Next(s, Cleanup(id)) == Some(t)
    ensures LockInv(t)
  {
    var k := s.calls[id].request.LockKey();
    forall j | 0 <= j < |s.calls| ensures ChainedAt(t, j) && (Clear(s, j) ==> Clear(t, j)) {
      assert ChainedAt(s, j);
      assert forall i :: 0 <= i < j ==> SameLock(t, i, j) == SameLock(s, i, j);
    }
    if k in s.tails && s.tails[k] == id {
      assert Clear(s, id);
      forall i | 0 <= i < |s.calls| && s.calls[i].request.LockKey() == k ensures s.calls[i].phase.Settled? {
        assert i <= id;
        if i < id { assert SameLock(s, i, id); }
      }
    }
  }

  lemma EnterKeepsLock(s: State, r: Request, t: State)
    requires LockInv(s) && (r.Retract? || IsPubkey(r.pubkey)) && Next(s, Enter(r)) == Some(t)
    ensures LockInv(t)
  {
    var n := |s.calls|;
    forall j | 0 <= j < n ensures ChainedAt(t, j) && (Clear(s, j) ==> Clear(t, j)) {
      assert ChainedAt(s, j);
      assert forall i :: 0 <= i < j ==> SameLock(t, i, j) == SameLock(s, i, j);
    }
    assert ChainedAt(t, n) by {
      if r.LockKey() in s.tails {
        assert SameLock(t, s.tails[r.LockKey()], n);
      }
    }
  }

  /** Only call id's phase changes, forward, and never while an earlier call on its lock is unsettled. */
  lemma PhaseKeepsLock(s: State, t: State, id: nat)
    requires LockInv(s) && id < |s.calls| && |t.calls| == |s.calls| && t.tails == s.tails
    requires forall i :: 0 <= i < |s.calls| && i != id ==> t.calls[i] == s.calls[i]
    requires t.calls[id] == s.calls[id].(phase := t.calls[id].phase)
    requires !s.calls[id].phase.Settled? && !t.calls[id].phase.Waiting? && Clear(s, id)
    ensures LockInv(t)
  {
    forall j | 0 <= j < |s.calls| ensures ChainedAt(t, j) && (Clear(s, j) ==> Clear(t, j)) {
      assert ChainedAt(s, j);
      assert forall i :: 0 <= i < j ==> SameLock(t, i, j) == SameLock(s, i, j);
    }
  }

  /** The next step of a call that has not settled, given how the database answers. */
  function NextStep(c: Call, id: nat, ok: bool): Event {
    match c.phase
    case Waiting => Begin(id)
    case Running => if c.request.Retract? then Erase(id, ok) else Read(id, ok)
    case _ => Write(id, ok)
  }

  /** Only record bodies pause between a SELECT and a write. */
  ghost predicate OnlyRecordsPend(s: State) {
    forall i :: 0 <= i < |s.calls| && s.calls[i].phase.Pending? ==> s.calls[i].request.Record?
  }

  lemma {:induction false} EveryRunPendsRecords(s: State, events: seq<Event>)
    requires OnlyRecordsPend(s)
    ensures OnlyRecordsPend(After(s, events))
    decreases |events|
  {
    if events != [] && Next(s, events[0]).Some? {
      StepPendsRecords(s, events[0]);
      EveryRunPendsRecords(Next(s, events[0]).value, events[1..]);
    }
  }

  lemma StepPendsRecords(s: State, e: Event)
    requires OnlyRecordsPend(s) && Next(s, e).Some?
    ensures OnlyRecordsPend(Next(s, e).value)
  {
  }

  lemma FirstUnsettled(s: State, k: nat, ok: bool) returns (id: nat)
    requires LockInv(s) && OnlyRecordsPend(s) && k < |s.calls| && !s.calls[k].phase.Settled?
    ensures id <= k && SameLock(s, id, k) && !s.calls[id].phase.Settled?
    ensures Next(s, NextStep(s.calls[id], id, ok)).Some?
  {
    if Clear(s, k) {
      id := k;
      assert ChainedAt(s, id);
    } else {
      var i :| 0 <= i < k && SameLock(s, i, k) && !s.calls[i].phase.Settled?;
      id := FirstUnsettled(s, i, ok);
    }
  }

  /** No failure blocks a lock: in every run, whenever some call has not settled, the first such call on its lock can
      take its next step, whatever its predecessors' outcomes and whatever its own outcome will be. */
  lemma LockNeverStalls(events: seq<Event>, k: nat, ok: bool) returns (id: nat)
    requires k < |After(Init, events).calls| && !After(Init, events).calls[k].phase.Settled?
    ensures var s := After(Init, events);
            && id <= k && SameLock(s, id, k) && !s.calls[id].phase.Settled?
            && Next(s, NextStep(s.calls[id], id, ok)).Some?
  {
    EveryRunKeepsLock(Init, events);
    EveryRunPendsRecords(Init, events);
    id := FirstUnsettled(After(Init, events), k, ok);
  }

  // ------------------------------------------------------ where rows come from

  /** The row is what call i asked for, and archived only if it was stamped. */
  ghost predicate AskedBy(c: Call, a: Anchor, r: Row, seen: seq<Event>) {
    && c.request.Record? && c.request.rewardType == a.rewardType && c.request.round == a.round && c.request.Target() == a
    && r.pubkey == Lower(c.request.pubkey) && r.amount == c.request.amount && r.amount > 0.0
    && (r.archived ==> Stamp(a, r.pubkey) in seen)
  }

  ghost predicate Asked(calls: seq<Call>, a: Anchor, r: Row, seen: seq<Event>) {
    exists i :: 0 <= i < |calls| && AskedBy(calls[i], a, r, seen)
  }

  /** A recorded call names a public key, and past its amount check a positive amount. */
  predicate Vetted(c: Call) { c.request.Record? ==> IsPubkey(c.request.pubkey) && (Active(c) ==> c.request.amount > 0.0) }

  /** Every row was asked for by a vetted call. */
  ghost predicate AllAsked(s: State, seen: seq<Event>) {
    && (forall a, r :: r in RowsOf(s.rows, a) ==> Asked(s.calls, a, r, seen))
    && forall i :: 0 <= i < |s.calls| ==> Vetted(s.calls[i])
  }

  /** Calls keep their requests, new ones only join, and more events have been seen. */
  lemma StillAsked(calls: seq<Call>, later: seq<Call>, a: Anchor, r: Row, seen: seq<Event>, more: seq<Event>)
    requires Asked(calls, a, r, seen) && |calls| <= |later|
    requires forall i :: 0 <= i < |calls| ==> later[i].request == calls[i].request
    requires forall e :: e in seen ==> e in more
    ensures Asked(later, a, r, more)
  {
    var i :| 0 <= i < |calls| && AskedBy(calls[i], a, r, seen);
    assert AskedBy(later[i], a, r, more);
  }

  lemma WrittenRows(decision: Decision, rows: seq<Row>, row: Row, r: Row)
    ensures r in Written(decision, rows, row) ==> r == row || r in rows
  {
    DeletesExactly(rows, "", r);
    assert r in DeleteUnarchived(rows) ==> multiset(DeleteUnarchived(rows))[r] > 0;
  }

  lemma WriteAsked(s: State, id: nat, t: State, seen: seq<Event>, a: Anchor, r: Row)
    requires AllAsked(s, seen) && Next(s, Write(id, true)) == Some(t) && r in RowsOf(t.rows, a)
    ensures Asked(s.calls, a, r, seen)
  {
    var q := s.calls[id].request;
    if a == q.Target() {
      WrittenRows(s.calls[id].phase.decision, RowsOf(s.rows, a), q.NewRow(), r);
      if r == q.NewRow() { assert AskedBy(s.calls[id], a, r, seen); }
    }
  }

  lemma EraseAsked(s: State, id: nat, t: State, a: Anchor, r: Row)
    requires Next(s, Erase(id, true)) == Some(t) && r in RowsOf(t.rows, a)
    ensures r in RowsOf(s.rows, a)
  {
    DeletesExactly(RowsOf(s.rows, a), s.calls[id].request.Key(), r);
    if a == s.calls[id].request.Target() { assert multiset(DeleteOwn(RowsOf(s.rows, a), s.calls[id].request.Key()))[r] > 0; }
  }

  lemma StampAsked(s: State, b: Anchor, pubkey: string, t: State, seen: seq<Event>, a: Anchor, r: Row)
    requires AllAsked(s, seen) && Next(s, Stamp(b, pubkey)) == Some(t) && r in RowsOf(t.rows, a)
    ensures Asked(s.calls, a, r, seen + [Stamp(b, pubkey)])
  {
    var rows := RowsOf(s.rows, a);
    var k :| 0 <= k < |RowsOf(t.rows, a)| && RowsOf(t.rows, a)[k] == r;
    assert rows[k] in rows;
    var i :| 0 <= i < |s.calls| && AskedBy(s.calls[i], a, rows[k], seen);
    assert AskedBy(s.calls[i], a, r, seen + [Stamp(b, pubkey)]);
  }

  lemma RequestsStay(s: State, e: Event, t: State)
    requires Next(s, e) == Some(t)
    ensures |s.calls| <= |t.calls| && forall i :: 0 <= i < |s.calls| ==> t.calls[i].request == s.calls[i].request
  {
  }

  /** Only a write, an erasure and a stamp touch rows. */
  lemma RowsStay(s: State, e: Event, t: State)
    requires Next(s, e) == Some(t) && !e.Stamp? && !(e.Write? && e.ok) && !(e.Erase? && e.ok)
    ensures t.rows == s.rows
  {
  }

  lemma RowStepAsked(s: State, e: Event, t: State, seen: seq<Event>, a: Anchor, r: Row)
    requires AllAsked(s, seen) && Next(s, e) == Some(t) && r in RowsOf(t.rows, a)
    ensures Asked(t.calls, a, r, seen + [e])
  {
    RequestsStay(s, e, t);
    if e.Stamp? {
      StampAsked(s, e.anchor, e.pubkey, t, seen, a, r);
      StillAsked(s.calls, t.calls, a, r, seen + [e], seen + [e]);
    } else {
      if e.Write? && e.ok {
        WriteAsked(s, e.id, t, seen, a, r);
      } else if e.Erase? && e.ok {
        EraseAsked(s, e.id, t, a, r);
      } else {
        RowsStay(s, e, t);
      }
      StillAsked(s.calls, t.calls, a, r, seen, seen + [e]);
    }
  }

  lemma StepAsked(s: State, e: Event, t: State, seen: seq<Event>)
    requires AllAsked(s, seen) && Next(s, e) == Some(t)
    ensures AllAsked(t, seen + [e])
  {
    forall a, r | r in RowsOf(t.rows, a) ensures Asked(t.calls, a, r, seen + [e]) {
      RowStepAsked(s, e, t, seen, a, r);
    }
    StepVetted(s, e, t);
  }

  lemma StepVetted(s: State, e: Event, t: State)
    requires Next(s, e) == Some(t)
    requires forall i :: 0 <= i < |s.calls| ==> Vetted(s.calls[i])
    ensures forall i :: 0 <= i < |t.calls| ==> Vetted(t.calls[i])
  {
  }

  lemma {:induction false} EveryRunAsked(s: State, seen: seq<Event>, events: seq<Event>)
    requires AllAsked(s, seen)
    ensures AllAsked(After(s, events), seen + events)
    decreases |events|
  {
    if events == [] || Next(s, events[0]).None? {
      forall a, r | r in RowsOf(s.rows, a) ensures Asked(s.calls, a, r, seen + events) {
        StillAsked(s.calls, s.calls, a, r, seen, seen + events);
      }
    } else {
      StepAsked(s, events[0], Next(s, events[0]).value, seen);
      EveryRunAsked(Next(s, events[0]).value, seen + [events[0]], events[1..]);
      assert seen + [events[0]] + events[1..] == seen + events;
    }
  }

  /** In every run each row of an anchor is what some recorded call asked for: that reward and round, the lower-cased key of
      that call, 64 hex digits, and exactly its positive amount; and it is archived only if that key was stamped for that anchor. */
  lemma EveryRowWasAskedFor(events: seq<Event>, a: Anchor, r: Row) returns (i: nat)
    requires r in RowsOf(After(Init, events).rows, a)
    ensures i < |After(Init, events).calls| && AskedBy(After(Init, events).calls[i], a, r, events)
    ensures IsPubkey(After(Init, events).calls[i].request.pubkey)
  {
    EveryRunAsked(Init, [], events);
    assert [] + events == events;
    i :| 0 <= i < |After(Init, events).calls| && AskedBy(After(Init, events).calls[i], a, r, events);
    assert Vetted(After(Init, events).calls[i]);
  }

  // ----------------------------------------------------- one row per anchor

  /** At most one row, present exactly when some call has completed, and holding the smallest key of them. */
  ghost predicate Collapsed(rows: seq<Row>, completed: set<string>) {
    && |rows| <= 1
    && (rows == [] <==> completed == {})
    && (rows != [] ==> rows[0].pubkey in completed && Lower(rows[0].pubkey) == rows[0].pubkey
                       && forall k :: k in completed ==> StrLe(rows[0].pubkey, k))
  }

  /** What a body's SELECT saw still holds when it writes. */
  ghost predicate Fresh(c: Call, rows: seq<Row>) {
    c.phase.Pending? ==>
      match c.phase.decision
      case Nothing => false
      case InsertNew => rows == []
      case Supersede =>
        |rows| == 1 && StrLe(c.request.Key(), rows[0].pubkey) && c.request.Key() != rows[0].pubkey
  }

  ghost predicate AllCollapsed(s: State) {
    forall a :: Collapsed(RowsOf(s.rows, a), CompletedFor(s, a))
  }

  ghost predicate FreshAt(s: State, i: nat)
    requires i < |s.calls|
  {
    Fresh(s.calls[i], RowsOf(s.rows, s.calls[i].request.Target()))
  }

  ghost predicate AllFresh(s: State) {
    forall i :: 0 <= i < |s.calls| ==> FreshAt(s, i)
  }

  ghost predicate Good(s: State) { LockInv(s) && AllCollapsed(s) && AllFresh(s) }

  lemma DecideOne(rows: seq<Row>, key: string)
    requires |rows| <= 1 && (rows != [] ==> Lower(rows[0].pubkey) == rows[0].pubkey)
    ensures rows == [] ==> Decide(rows, key) == InsertNew
    ensures rows != [] ==>
              && (Decide(rows, key) == Nothing <==> rows[0].archived || StrLe(rows[0].pubkey, key))
              && (Decide(rows, key) == Supersede ==> StrLe(key, rows[0].pubkey) && key != rows[0].pubkey)
              && Decide(rows, key) != InsertNew
  {
    StrLeIsTotalOrder();
    if rows != [] {
      var keys := Keys(rows);
      assert keys == [rows[0].pubkey];
      assert Sort(StrLe, keys[1..]) == [];
      assert Sort(StrLe, keys) == keys;
      assert AnyArchived(rows) <==> rows[0].archived;
      StrLeTotal(rows[0].pubkey, key);
      StrLeTotal(key, key);
    }
  }

  /** A completing call that wrote nothing leaves the smallest key in place. */
  lemma AddCompleted(rows: seq<Row>, completed: set<string>, key: string)
    requires Collapsed(rows, completed) && rows != [] && StrLe(rows[0].pubkey, key)
    ensures Collapsed(rows, completed + {key})
  {
  }

  lemma WriteCollapsed(decision: Decision, rows: seq<Row>, row: Row, completed: set<string>)
    requires Collapsed(rows, completed) && Lower(row.pubkey) == row.pubkey
    requires decision == InsertNew ==> rows == []
    requires decision == Supersede ==> |rows| == 1 && !rows[0].archived && StrLe(row.pubkey, rows[0].pubkey)
    requires decision != Nothing
    ensures Written(decision, rows, row) == [row]
    ensures Collapsed([row], completed + {row.pubkey})
  {
    StrLeIsTotalOrder();
    StrLeTotal(row.pubkey, row.pubkey);
    if decision == Supersede { assert DeleteUnarchived(rows) == DeleteUnarchived(rows[1..]) == []; }
  }

  /** While call id is between its SELECT and its write, no other call is there for the same anchor. */
  lemma AloneOnAnchor(s: State, id: nat, j: nat)
    requires LockInv(s) && id < |s.calls| && j < |s.calls| && j != id
    requires Active(s.calls[id]) && s.calls[j].request.Target() == s.calls[id].request.Target()
    ensures !s.calls[j].phase.Pending?
  {
    if Active(s.calls[j]) { ActiveAlone(s, id, j); }
  }

  lemma ReadKeepsGood(s: State, id: nat, ok: bool, t: State)
    requires AllCollapsed(s) && AllFresh(s) && Next(s, Read(id, ok)) == Some(t)
    ensures AllCollapsed(t) && AllFresh(t)
  {
    var r := s.calls[id].request;
    var rows, completed := RowsOf(s.rows, r.Target()), CompletedFor(s, r.Target());
    assert Collapsed(rows, completed);
    DecideOne(rows, r.Key());
    if ok && Decide(rows, r.Key()).Nothing? && !AnyArchived(rows) {
      assert !rows[0].archived;
      AddCompleted(rows, completed, r.Key());
    }
    forall i | 0 <= i < |t.calls| ensures FreshAt(t, i) {
      assert FreshAt(s, i);
    }
  }

  lemma WriteKeepsCollapsed(s: State, id: nat, t: State)
    requires AllCollapsed(s) && AllFresh(s) && Next(s, Write(id, true)) == Some(t) && !TornWrite(s, Write(id, true))
    ensures AllCollapsed(t)
  {
    var r := s.calls[id].request;
    var rows, completed := RowsOf(s.rows, r.Target()), CompletedFor(s, r.Target());
    assert Collapsed(rows, completed) && FreshAt(s, id);
    LowerIdempotent(r.pubkey);
    WriteCollapsed(s.calls[id].phase.decision, rows, r.NewRow(), completed);
    assert !AnyArchived(rows);
    forall a ensures Collapsed(RowsOf(t.rows, a), CompletedFor(t, a)) {
      assert Collapsed(RowsOf(s.rows, a), CompletedFor(s, a));
    }
  }

  lemma WriteKeepsFresh(s: State, id: nat, t: State)
    requires LockInv(s) && AllFresh(s) && Next(s, Write(id, true)) == Some(t)
    ensures AllFresh(t)
  {
    forall i | 0 <= i < |t.calls| ensures FreshAt(t, i) {
      assert FreshAt(s, i);
      if i != id && s.calls[i].request.Target() == s.calls[id].request.Target() { AloneOnAnchor(s, id, i); }
    }
  }

  lemma {:induction false} DeleteOwnOne(rows: seq<Row>, key: string)
    requires |rows| <= 1
    ensures DeleteOwn(rows, key) == if rows != [] && rows[0].pubkey == key && !rows[0].archived then [] else rows
  {
    if rows != [] { assert rows[1..] == [] && rows == [rows[0]]; }
  }

  lemma EraseKeepsGood(s: State, id: nat, t: State)
    requires Good(s) && Next(s, Erase(id, true)) == Some(t)
    ensures AllCollapsed(t) && AllFresh(t)
  {
    var own := s.calls[id].request.Target();
    DeleteOwnOne(RowsOf(s.rows, own), s.calls[id].request.Key());
    forall a ensures Collapsed(RowsOf(t.rows, a), CompletedFor(t, a)) {
      assert Collapsed(RowsOf(s.rows, a), CompletedFor(s, a));
    }
    forall i | 0 <= i < |t.calls| ensures FreshAt(t, i) {
      assert FreshAt(s, i);
      if i != id && s.calls[i].request.Target() == own { AloneOnAnchor(s, id, i); }
    }
  }

  lemma StampCollapsed(rows: seq<Row>, pubkey: string, completed: set<string>)
    requires Collapsed(rows, completed)
    ensures Collapsed(StampRows(rows, pubkey), completed)
  {
  }

  lemma StampFresh(c: Call, rows: seq<Row>, pubkey: string)
    requires Fresh(c, rows)
    ensures Fresh(c, StampRows(rows, pubkey))
  {
  }

  lemma StampKeepsGood(s: State, a: Anchor, pubkey: string, t: State)
    requires AllCollapsed(s) && AllFresh(s) && Next(s, Stamp(a, pubkey)) == Some(t)
    ensures AllCollapsed(t) && AllFresh(t)
  {
    forall b ensures Collapsed(RowsOf(t.rows, b), CompletedFor(t, b)) {
      assert Collapsed(RowsOf(s.rows, b), CompletedFor(s, b));
      StampCollapsed(RowsOf(s.rows, b), pubkey, CompletedFor(s, b));
    }
    forall i | 0 <= i < |t.calls| ensures FreshAt(t, i) {
      assert FreshAt(s, i);
      StampFresh(s.calls[i], RowsOf(s.rows, s.calls[i].request.Target()), pubkey);
    }
  }

  /** A step that touches neither the table nor the history, and leaves no new body before its write. */
  lemma QuietKeepsGood(s: State, t: State)
    requires AllCollapsed(s) && AllFresh(s) && t.rows == s.rows && t.completed == s.completed
    requires |s.calls| <= |t.calls|
    requires forall i :: 0 <= i < |t.calls| && t.calls[i].phase.Pending? ==> i < |s.calls| && t.calls[i] == s.calls[i]
    ensures AllCollapsed(t) && AllFresh(t)
  {
    forall b ensures Collapsed(RowsOf(t.rows, b), CompletedFor(t, b)) {
      assert Collapsed(RowsOf(s.rows, b), CompletedFor(s, b));
    }
    forall i | 0 <= i < |t.calls| ensures FreshAt(t, i) {
      if t.calls[i].phase.Pending? { assert FreshAt(s, i); }
    }
  }

  lemma StepKeepsGood(s: State, e: Event)
    requires Good(s) && Next(s, e).Some? && !TornWrite(s, e)
    ensures Good(Next(s, e).value)
  {
    StepKeepsLock(s, e);
    StepKeepsRows(s, e, Next(s, e).value);
  }

  lemma StepKeepsRows(s: State, e: Event, t: State)
    requires Good(s) && Next(s, e) == Some(t) && !TornWrite(s, e)
    ensures AllCollapsed(t) && AllFresh(t)
  {
    match e
    case Enter(r) => QuietKeepsGood(s, t);
    case Begin(id) => QuietKeepsGood(s, t);
    case Read(id, ok) => ReadKeepsGood(s, id, ok, t);
    case Write(id, ok) =>
      if ok {
        WriteKeepsCollapsed(s, id, t);
        WriteKeepsFresh(s, id, t);
      } else {
        QuietKeepsGood(s, t);
      }
    case Erase(id, ok) => if ok { EraseKeepsGood(s, id, t); } else { QuietKeepsGood(s, t); }
    case Cleanup(id) => QuietKeepsGood(s, t);
    case Stamp(a, pubkey) => StampKeepsGood(s, a, pubkey, t);
  }

  lemma TornLeavesTwo(rows: seq<Row>, row: Row)
    requires |rows| == 1 && rows[0].pubkey != row.pubkey && AnyArchived(rows)
    ensures Written(Supersede, rows, row) == rows + [row]
  {
    assert rows[0].archived;
    assert DeleteUnarchived(rows[1..]) == [];
    assert DeleteUnarchived(rows) == rows;
  }

  /** A torn write always leaves two rows: the DELETE spares the archived one and the INSERT goes ahead. */
  lemma TornWriteLeavesTwoRows(s: State, e: Event)
    requires AllFresh(s) && Next(s, e).Some? && TornWrite(s, e)
    ensures |RowsOf(Next(s, e).value.rows, s.calls[e.id].request.Target())| == 2
  {
    var r := s.calls[e.id].request;
    assert FreshAt(s, e.id);
    TornLeavesTwo(RowsOf(s.rows, r.Target()), r.NewRow());
  }

  /** Every state of the run has, for each anchor, at most one row: the smallest key among the calls completed since
      it last lost its row and before it was archived. */
  ghost predicate AlwaysCollapsed(s: State, events: seq<Event>)
    decreases |events|
  {
    AllCollapsed(s) && (events == [] || Next(s, events[0]).None? || AlwaysCollapsed(Next(s, events[0]).value, events[1..]))
  }

  lemma {:induction false} CollapsedFromGood(s: State, events: seq<Event>)
    requires Good(s)
    ensures AlwaysCollapsed(s, events) <==> NoTornWrite(s, events)
    decreases |events|
  {
    if events != [] && Next(s, events[0]).Some? {
      var t := Next(s, events[0]).value;
      if TornWrite(s, events[0]) {
        TornWriteLeavesTwoRows(s, events[0]);
        var a := s.calls[events[0].id].request.Target();
        assert !Collapsed(RowsOf(t.rows, a), CompletedFor(t, a));
      } else {
        StepKeepsGood(s, events[0]);
        CollapsedFromGood(t, events[1..]);
      }
    }
  }

  /** Over every interleaving of calls, retractions, stamps and failures, each anchor keeps at most one row, the
      deterministic one, if and only if no superseding write goes through on a row archived since it was read. */
  lemma OneRowPerAnchor(events: seq<Event>)
    ensures AlwaysCollapsed(Init, events) <==> NoTornWrite(Init, events)
  {
    CollapsedFromGood(Init, events);
  }

  // ------------------------------------------------------------ archived rows

  lemma {:induction false} DeletesSpareArchived(rows: seq<Row>, key: string, row: Row)
    requires row in rows && row.archived
    ensures row in DeleteUnarchived(rows) && row in DeleteOwn(rows, key)
  {
    if rows[0] != row {
      DeletesSpareArchived(rows[1..], key, row);
    } else {
      assert row in [rows[0]];
    }
  }

  lemma StampSparesArchived(rows: seq<Row>, pubkey: string, row: Row)
    requires row in rows && row.archived
    ensures row in StampRows(rows, pubkey)
  {
    var i :| 0 <= i < |rows| && rows[i] == row;
    assert StampRows(rows, pubkey)[i] == row;
  }

  lemma StepSparesArchived(s: State, e: Event, a: Anchor, row: Row)
    requires Next(s, e).Some? && row in RowsOf(s.rows, a) && row.archived
    ensures row in RowsOf(Next(s, e).value.rows, a)
  {
    match e
    case Write(id, ok) =>
      if ok && s.calls[id].request.Target() == a {
        DeletesSpareArchived(RowsOf(s.rows, a), "", row);
      }
    case Erase(id, ok) =>
      if ok && s.calls[id].request.Target() == a {
        DeletesSpareArchived(RowsOf(s.rows, a), s.calls[id].request.Key(), row);
      }
    case Stamp(b, pubkey) => if b == a { StampSparesArchived(RowsOf(s.rows, a), pubkey, row); }
    case _ =>
  }

  /** An archived row stays, unchanged, in every run from any state at all. */
  lemma {:induction false} ArchivedRowStays(s: State, events: seq<Event>, a: Anchor, row: Row)
    requires row in RowsOf(s.rows, a) && row.archived
    ensures row in RowsOf(After(s, events).rows, a)
    decreases |events|
  {
    if events != [] && Next(s, events[0]).Some? {
      StepSparesArchived(s, events[0], a, row);
      ArchivedRowStays(Next(s, events[0]).value, events[1..], a, row);
    }
  }

  lemma StepFreezesArchived(s: State, e: Event, a: Anchor, t: State)
    requires AllCollapsed(s) && AllCollapsed(t) && Next(s, e) == Some(t) && AnyArchived(RowsOf(s.rows, a))
    ensures RowsOf(t.rows, a) == RowsOf(s.rows, a)
  {
    var rows, after := RowsOf(s.rows, a), RowsOf(t.rows, a);
    assert Collapsed(rows, CompletedFor(s, a)) && Collapsed(after, CompletedFor(t, a));
    StepSparesArchived(s, e, a, rows[0]);
  }

  /** Once an anchor's row is archived and while no torn write occurs, nothing joins it either. */
  lemma {:induction false} ArchivedAnchorFrozen(s: State, events: seq<Event>, a: Anchor)
    requires Good(s) && NoTornWrite(s, events) && AnyArchived(RowsOf(s.rows, a))
    ensures RowsOf(After(s, events).rows, a) == RowsOf(s.rows, a)
    decreases |events|
  {
    if events != [] && Next(s, events[0]).Some? {
      StepKeepsGood(s, events[0]);
      StepFreezesArchived(s, events[0], a, Next(s, events[0]).value);
      ArchivedAnchorFrozen(Next(s, events[0]).value, events[1..], a);
    }
  }

  // ------------------------------------------------------ a torn run exists

  /** The incumbent records; the smaller key reads; the incumbent's row is archived; the smaller key writes. */
  function RaceEvents(first: Request, second: Request): seq<Event> {
    [Enter(first), Begin(0), Read(0, true), Write(0, true), Cleanup(0),
     Enter(second), Begin(1), Read(1, true), Stamp(first.Target(), first.Key()), Write(1, true)]
  }

  lemma FirstRecorded(first: Request) returns (s: State)
    requires first.Record? && IsPubkey(first.pubkey) && first.amount > 0.0
    ensures forall rest :: After(Init, [Enter(first), Begin(0), Read(0, true), Write(0, true), Cleanup(0)] + rest) == After(s, rest)
    ensures s.calls == [Call(first, None, Settled(true))] && s.tails == map[] && s.rows == map[first.Target() := [first.NewRow()]]
  {
    var s1 := Next(Init, Enter(first)).value;
    var s2 := Next(s1, Begin(0)).value;
    assert Keys([]) == [] && Decide([], first.Key()) == InsertNew;
    var s3 := Next(s2, Read(0, true)).value;
    assert InsertIgnore([], first.NewRow()) == [first.NewRow()];
    var s4 := Next(s3, Write(0, true)).value;
    s := Next(s4, Cleanup(0)).value;
    forall rest
      ensures After(Init, [Enter(first), Begin(0), Read(0, true), Write(0, true), Cleanup(0)] + rest) == After(s, rest)
    {
      FiveSteps(Init, Enter(first), Begin(0), Read(0, true), Write(0, true), Cleanup(0), rest, s1, s2, s3, s4, s);
    }
  }

  lemma FiveSteps(s0: State, a: Event, b: Event, c: Event, d: Event, e: Event, rest: seq<Event>,
                  s1: State, s2: State, s3: State, s4: State, s5: State)
    requires Next(s0, a) == Some(s1) && Next(s1, b) == Some(s2) && Next(s2, c) == Some(s3)
    requires Next(s3, d) == Some(s4) && Next(s4, e) == Some(s5)
    ensures After(s0, [a, b, c, d, e] + rest) == After(s5, rest)
  {
    assert [a, b, c, d, e] + rest == [a, b] + ([c, d, e] + rest);
    TwoSteps(s0, a, b, [c, d, e] + rest, s1, s2);
    assert [c, d, e] + rest == [c, d] + ([e] + rest);
    TwoSteps(s2, c, d, [e] + rest, s3, s4);
    OneStep(s4, e, rest, s5);
  }

  lemma TwoSteps(s0: State, a: Event, b: Event, rest: seq<Event>, s1: State, s2: State)
    requires Next(s0, a) == Some(s1) && Next(s1, b) == Some(s2)
    ensures After(s0, [a, b] + rest) == After(s2, rest)
  {
    assert [a, b] + rest == [a] + ([b] + rest);
    OneStep(s0, a, [b] + rest, s1);
    OneStep(s1, b, rest, s2);
  }

  lemma OneStep(s: State, e: Event, rest: seq<Event>, t: State)
    requires Next(s, e) == Some(t)
    ensures After(s, [e] + rest) == After(t, rest)
  {
    assert ([e] + rest)[1..] == rest;
  }

  /** Torn writes do occur: whenever two calls for one anchor arrive in falling key order, a stamp of the incumbent's
      row between the second one's SELECT and write leaves the anchor with both rows. */
  lemma RaceLeavesTwoRows(first: Request, second: Request)
    requires first.Record? && IsPubkey(first.pubkey) && first.amount > 0.0
    requires second.Record? && IsPubkey(second.pubkey) && second.amount > 0.0
    requires first.Target() == second.Target() && StrLe(second.Key(), first.Key()) && second.Key() != first.Key()
    ensures RowsOf(After(Init, RaceEvents(first, second)).rows, first.Target()) == [first.NewRow().(archived := true), second.NewRow()]
  {
    var a := first.Target();
    var s := FirstRecorded(first);
    var events := [Enter(second), Begin(1), Read(1, true), Stamp(a, first.Key()), Write(1, true)];
    assert RaceEvents(first, second) == [Enter(first), Begin(0), Read(0, true), Write(0, true), Cleanup(0)] + events;
    LowerIdempotent(first.pubkey);
    DecideOne([first.NewRow()], second.Key());
    StrLeTotal(first.Key(), second.Key());
    var s1 := Next(s, Enter(second)).value;
    var s2 := Next(s1, Begin(1)).value;
    var s3 := Next(s2, Read(1, true)).value;
    var s4 := Next(s3, Stamp(a, first.Key())).value;
    var archived := [first.NewRow().(archived := true)];
    assert RowsOf(s4.rows, a) == archived;
    assert archived[0] in archived;
    TornLeavesTwo(archived, second.NewRow());
    var s5 := Next(s4, Write(1, true)).value;
    FiveSteps(s, Enter(second), Begin(1), Read(1, true), Stamp(a, first.Key()), Write(1, true), [], s1, s2, s3, s4, s5);
    assert events + [] == events;
  }

  /** Every step of a record call whose turn has come, taken without interruption, is the locked method's specification. */
  lemma StepsAreTheBody(s: State, id: nat, readOk: bool, writeOk: bool)
    requires Next(s, Begin(id)).Some? && s.calls[id].request.Record?
    ensures var r := s.calls[id].request;
            var b := Next(s, Begin(id)).value;
            var t := if b.calls[id].phase.Running? then Next(b, Read(id, readOk)).value else b;
            var u := if t.calls[id].phase.Pending? then Next(t, Write(id, writeOk)).value else t;
            u.calls[id].phase.Settled? && (u.rows, u.calls[id].phase.ok) == Body(s.rows, r, readOk, writeOk)
  {
    var b := Next(s, Begin(id)).value;
    if b.calls[id].phase.Running? { RunningIsTheBody(b, id, readOk, writeOk); }
  }

  lemma RunningIsTheBody(s: State, id: nat, readOk: bool, writeOk: bool)
    requires At(s, id, Running) && s.calls[id].request.Record? && s.calls[id].request.amount > 0.0
    ensures var r := s.calls[id].request;
            var t := Next(s, Read(id, readOk)).value;
            var u := if t.calls[id].phase.Pending? then Next(t, Write(id, writeOk)).value else t;
            u.calls[id].phase.Settled? && (u.rows, u.calls[id].phase.ok) == Body(s.rows, r, readOk, writeOk)
  {
  }
}
