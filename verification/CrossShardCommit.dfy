/**
 Cross-shard atomic commit as a transition system: any number of coordinators
 (each may simply never step again), any number of resolver passes, and plain
 writers, all interleaved one replicated operation at a time.

 In-flight resolver work is a growing set of tasks: a task may be executed many
 times or never, which covers duplicated, delayed and abandoned passes.
 */
module CrossShardCommit {
  import opened Options
  import opened RefSlots

  datatype Phase =
    | Preparing(next: nat)
    | Voted(allYes: bool)
    | Finishing(commit: bool, next: nat)
    | Ending(commit: bool)
    | Replied(commit: bool)

  /** A running `commit_atomic`: its refs in prepare order, its coordinator shard. */
  datatype Coordinator = Coordinator(plan: seq<Mapping>, shard: ShardId, phase: Phase)

  datatype Task =
    | Listed(name: RefName, intent: Intent)
    | Doubtful(name: RefName, intent: Intent)
    | Resolved(name: RefName, intent: Intent, commit: bool)
    | EndRecord(shard: ShardId, owner: TxnId)

  function TaskTxn(k: Task): TxnId {
    match k
    case Listed(_, i) => i.txn
    case Doubtful(_, i) => i.txn
    case Resolved(_, i, _) => i.txn
    case EndRecord(_, t) => t
  }

  /** What happened to a transaction's refs, in order. */
  datatype Event =
    | CommitPoint(txn: TxnId)
    | Advanced(txn: TxnId, name: RefName, from: Option<ObjectId>, to: ObjectId)
    | Released(txn: TxnId, name: RefName)

  datatype State = State(
    slots: Slots,
    records: Records,
    coords: map<TxnId, Coordinator>,
    tasks: set<Task>,
    log: seq<Event>)

  datatype Action =
    | Begin(t: TxnId, plan: seq<Mapping>, shard: ShardId)
    | CoordPrepare(t: TxnId, hlc: nat)
    | CoordDecide(t: TxnId)
    | CoordFinish(t: TxnId)
    | CoordEnd(t: TxnId)
    | ListLock(name: RefName)
    | ReadDecision(name: RefName, intent: Intent, ttlMs: nat, nowMs: nat)
    | ResolverDecide(name: RefName, intent: Intent)
    | ResolverAct(name: RefName, intent: Intent, commit: bool)
    | ResolverEnd(shard: ShardId, t: TxnId)
    | Update(name: RefName, target: ObjectId, expected: Option<ObjectId>, hlc: nat)
    | Delete(name: RefName, current: ObjectId)
    | Batch(ops: seq<BatchOp>)

  const Initial := State(map[], map[], map[], {}, [])

  function PhaseOf(s: State, t: TxnId): Phase
    requires t in s.coords
  {
    s.coords[t].phase
  }

  function Key(s: State, t: TxnId): (ShardId, TxnId)
    requires t in s.coords
  {
    (s.coords[t].shard, t)
  }

  function WithPhase(s: State, t: TxnId, p: Phase): State
    requires t in s.coords
  {
    s.(coords := s.coords[t := s.coords[t].(phase := p)])
  }

  predicate Enabled(s: State, a: Action) {
    match a
    case Begin(t, plan, _) => t !in s.coords && plan != []
    case CoordPrepare(t, _) =>
      t in s.coords && PhaseOf(s, t).Preparing? && PhaseOf(s, t).next < |s.coords[t].plan|
    case CoordDecide(t) => t in s.coords && PhaseOf(s, t).Voted?
    case CoordFinish(t) =>
      t in s.coords && PhaseOf(s, t).Finishing? && PhaseOf(s, t).next < |s.coords[t].plan|
    case CoordEnd(t) => t in s.coords && PhaseOf(s, t).Ending?
    case ListLock(name) => Locked(s.slots, name)
    case ReadDecision(name, intent, _, _) => Listed(name, intent) in s.tasks
    case ResolverDecide(name, intent) => Doubtful(name, intent) in s.tasks
    case ResolverAct(name, intent, commit) => Resolved(name, intent, commit) in s.tasks
    case ResolverEnd(shard, t) => EndRecord(shard, t) in s.tasks
    case Update(_, _, _, _) => true
    case Delete(_, _) => true
    case Batch(_) => true
  }

  /** Promote or keep one ref for `t`, logging what really changed. */
  function CommitRef(s: State, t: TxnId, name: RefName): State {
    s.(slots := ApplyCommitPrepared(s.slots, t, name),
       log := if LockedBy(s.slots, name, t)
              then s.log + [Advanced(t, name, Visible(s.slots, name), s.slots[name].prepared.value.target)]
              else s.log)
  }

  function ReleaseRef(s: State, t: TxnId, name: RefName): State {
    s.(slots := ApplyAbortPrepared(s.slots, t, name),
       log := if LockedBy(s.slots, name, t) then s.log + [Released(t, name)] else s.log)
  }

  function Prepared(s: State, t: TxnId, hlc: nat): State
    requires Enabled(s, CoordPrepare(t, hlc))
  {
    var c := s.coords[t];
    var (slots, yes) := ApplyPrepare(s.slots, t, c.shard, c.plan[c.phase.next], hlc);
    var phase := if !yes then Voted(false)
                 else if c.phase.next + 1 == |c.plan| then Voted(true)
                 else Preparing(c.phase.next + 1);
    WithPhase(s.(slots := slots), t, phase)
  }

  /** The commit point: phase two follows the decision that was kept, not the
      coordinator's own vote count. */
  function Decided(s: State, t: TxnId): State
    requires Enabled(s, CoordDecide(t))
  {
    var records := ApplyDecide(s.records, Key(s, t), PhaseOf(s, t).allYes);
    var commit := records[Key(s, t)] == Commit;
    WithPhase(s.(records := records, log := if commit then s.log + [CommitPoint(t)] else s.log),
              t, Finishing(commit, 0))
  }

  function Finished(s: State, t: TxnId): State
    requires Enabled(s, CoordFinish(t))
  {
    var c := s.coords[t];
    var name := c.plan[c.phase.next].name;
    var s1 := if c.phase.commit then CommitRef(s, t, name) else ReleaseRef(s, t, name);
    WithPhase(s1, t, if c.phase.next + 1 == |c.plan| then Ending(c.phase.commit)
                     else Finishing(c.phase.commit, c.phase.next + 1))
  }

  function Read(s: State, name: RefName, intent: Intent, ttlMs: nat, nowMs: nat): State {
    match Lookup(s.records, (intent.coord, intent.txn))
    case Some(Commit) => s.(tasks := s.tasks + {Resolved(name, intent, true)})
    case Some(Abort) => s.(tasks := s.tasks + {Resolved(name, intent, false)})
    case _ =>
      if LockIsStale(intent, ttlMs, nowMs) then s.(tasks := s.tasks + {Doubtful(name, intent)}) else s
  }

  /** Presumed abort: the abort is recorded first, and the winner is honoured. */
  function Presumed(s: State, name: RefName, intent: Intent): State {
    var key := (intent.coord, intent.txn);
    var records := ApplyDecide(s.records, key, false);
    s.(records := records, tasks := s.tasks + {Resolved(name, intent, records[key] == Commit)})
  }

  function Next(s: State, a: Action): State
    requires Enabled(s, a)
  {
    match a
    case Begin(t, plan, shard) =>
      s.(records := s.records[(shard, t) := Pending],
         coords := s.coords[t := Coordinator(plan, shard, Preparing(0))])
    case CoordPrepare(t, hlc) => Prepared(s, t, hlc)
    case CoordDecide(t) => Decided(s, t)
    case CoordFinish(t) => Finished(s, t)
    case CoordEnd(t) => WithPhase(s.(records := s.records - {Key(s, t)}), t, Replied(PhaseOf(s, t).commit))
    case ListLock(name) => s.(tasks := s.tasks + {Listed(name, s.slots[name].prepared.value)})
    case ReadDecision(name, intent, ttlMs, nowMs) => Read(s, name, intent, ttlMs, nowMs)
    case ResolverDecide(name, intent) => Presumed(s, name, intent)
    case ResolverAct(name, intent, commit) =>
      if commit
      then CommitRef(s.(tasks := s.tasks + {EndRecord(intent.coord, intent.txn)}), intent.txn, name)
      else ReleaseRef(s, intent.txn, name)
    case ResolverEnd(shard, t) => s.(records := s.records - {(shard, t)})
    case Update(name, target, expected, hlc) => s.(slots := ApplyUpdate(s.slots, name, target, expected, hlc).0)
    case Delete(name, current) => s.(slots := ApplyDelete(s.slots, name, current).0)
    case Batch(ops) => s.(slots := ApplyBatch(s.slots, ops))
  }

  ghost predicate IsRun(s: State, actions: seq<Action>)
    decreases |actions|
  {
    actions == [] || (Enabled(s, actions[0]) && IsRun(Next(s, actions[0]), actions[1..]))
  }

  ghost function After(s: State, actions: seq<Action>): State
    requires IsRun(s, actions)
    decreases |actions|
  {
    if actions == [] then s else After(Next(s, actions[0]), actions[1..])
  }

  lemma {:induction false} RunAppends(s: State, actions: seq<Action>, more: seq<Action>)
    requires IsRun(s, actions) && IsRun(After(s, actions), more)
    ensures IsRun(s, actions + more) && After(s, actions + more) == After(After(s, actions), more)
    decreases |actions|
  {
    if actions == [] {
      assert actions + more == more;
    } else {
      RunAppends(Next(s, actions[0]), actions[1..], more);
      assert (actions + more)[1..] == actions[1..] + more;
    }
  }

  // ----- the two conditions the code does not enforce by itself ---------------

  ghost predicate Holds(s: State, t: TxnId) {
    exists name :: LockedBy(s.slots, name, t)
  }

  /** A resolver ends a record only when its transaction holds no lock anywhere. */
  ghost predicate EndsSafely(s: State, a: Action) {
    a.ResolverEnd? ==> !Holds(s, a.t)
  }

  /** A plain write on a locked ref does not name its committed value, and so is refused. */
  predicate WritesSafely(s: State, a: Action) {
    match a
    case Update(name, _, expected, _) => Locked(s.slots, name) ==> expected != Some(s.slots[name].committed.target)
    case Delete(name, current) => Locked(s.slots, name) ==> current != s.slots[name].committed.target
    case _ => true
  }

  ghost predicate EndsSafelyThroughout(s: State, actions: seq<Action>)
    requires IsRun(s, actions)
    decreases |actions|
  {
    actions == [] || (EndsSafely(s, actions[0]) && EndsSafelyThroughout(Next(s, actions[0]), actions[1..]))
  }

  ghost predicate WritesSafelyThroughout(s: State, actions: seq<Action>)
    requires IsRun(s, actions)
    decreases |actions|
  {
    actions == [] || (WritesSafely(s, actions[0]) && WritesSafelyThroughout(Next(s, actions[0]), actions[1..]))
  }
}
