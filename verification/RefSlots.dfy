/**
 The replicated ref state machine of one shard: committed entries, prepared
 two-phase-commit locks, and the coordinator shard's transaction records.
 Applying an entry is a pure function of the applied state and the op, so every
 op below is a function from the old state to the new state and its outcome.
 */
module RefSlots {
  import opened Options

  type RefName = string
  type ObjectId = nat
  type TxnId = nat
  type ShardId = nat

  /** A ref's durable value. Version 0 marks a slot that only carries a lock. */
  datatype RefEntry = RefEntry(target: ObjectId, hlc: nat, version: nat)

  /** The no-wait write lock a transaction holds on one ref. */
  datatype Intent = Intent(txn: TxnId, coord: ShardId, target: ObjectId, hlc: nat)

  datatype RefSlot = RefSlot(committed: RefEntry, prepared: Option<Intent>)

  type Slots = map<RefName, RefSlot>

  datatype Decision = Pending | Commit | Abort

  /** Records are kept per coordinator shard. */
  type Records = map<(ShardId, TxnId), Decision>

  datatype Outcome = Updated | Deleted | Conflict | NotFound

  datatype Mapping = Mapping(name: RefName, target: ObjectId, expected: Option<ObjectId>)

  /** The target a reader sees: a version-0 slot reads as absent. */
  function Visible(slots: Slots, name: RefName): Option<ObjectId> {
    if name in slots && slots[name].committed.version != 0
    then Some(slots[name].committed.target) else None
  }

  predicate Locked(slots: Slots, name: RefName) {
    name in slots && slots[name].prepared.Some?
  }

  predicate LockedBy(slots: Slots, name: RefName, t: TxnId) {
    Locked(slots, name) && slots[name].prepared.value.txn == t
  }

  // ----- plain writes -------------------------------------------------------

  /** The replicated update looks at the stored entry only: it neither refuses a
      locked ref nor hides a version-0 entry, and it installs an unlocked slot. */
  function ApplyUpdate(slots: Slots, name: RefName, target: ObjectId,
                       expected: Option<ObjectId>, hlc: nat): (Slots, Outcome)
  {
    if name in slots then
      if expected.None? || slots[name].committed.target != expected.value then (slots, Conflict)
      else (slots[name := RefSlot(RefEntry(target, hlc, slots[name].committed.version + 1), None)], Updated)
    else if expected.Some? then (slots, NotFound)
    else (slots[name := RefSlot(RefEntry(target, hlc, 1), None)], Updated)
  }

  /** The replicated delete likewise ignores a lock and removes the whole slot. */
  function ApplyDelete(slots: Slots, name: RefName, expected: ObjectId): (Slots, Outcome)
  {
    if name !in slots then (slots, NotFound)
    else if slots[name].committed.target != expected then (slots, Conflict)
    else (slots - {name}, Deleted)
  }

  predicate BatchOpHolds(slots: Slots, m: Mapping) {
    !Locked(slots, m.name) && Visible(slots, m.name) == m.expected
  }

  /** One op of a batch with the timestamp its leader stamped on it. */
  datatype BatchOp = BatchOp(change: Mapping, hlc: nat)

  function InstallBatch(now: Slots, snapshot: Slots, ops: seq<BatchOp>): Slots
    decreases |ops|
  {
    if ops == [] then now
    else
      var m := ops[0].change;
      var version := if m.name in snapshot then snapshot[m.name].committed.version + 1 else 1;
      InstallBatch(now[m.name := RefSlot(RefEntry(m.target, ops[0].hlc, version), None)], snapshot, ops[1..])
  }

  /** The single-shard batch: every precondition is read from one snapshot, and
      either all ops are installed or none. */
  function ApplyBatch(slots: Slots, ops: seq<BatchOp>): Slots {
    if forall i :: 0 <= i < |ops| ==> BatchOpHolds(slots, ops[i].change)
    then InstallBatch(slots, slots, ops) else slots
  }

  // ----- two-phase commit on one ref ----------------------------------------

  /** Vote yes and take the lock iff no other transaction holds it and the
      committed value matches; a vote no leaves the state alone. */
  function ApplyPrepare(slots: Slots, t: TxnId, coord: ShardId, m: Mapping, hlc: nat): (Slots, bool) {
    if Locked(slots, m.name) && slots[m.name].prepared.value.txn != t then (slots, false)
    else if Visible(slots, m.name) != m.expected then (slots, false)
    else
      var entry := if m.name in slots then slots[m.name].committed else RefEntry(m.target, 0, 0);
      (slots[m.name := RefSlot(entry, Some(Intent(t, coord, m.target, hlc)))], true)
  }

  /** Promote the staged value if `t` still holds the lock; otherwise nothing. */
  function ApplyCommitPrepared(slots: Slots, t: TxnId, name: RefName): Slots {
    if LockedBy(slots, name, t) then
      var intent := slots[name].prepared.value;
      slots[name := RefSlot(RefEntry(intent.target, intent.hlc, slots[name].committed.version + 1), None)]
    else slots
  }

  /** Release `t`'s lock if it is held; a slot that was only a lock disappears. */
  function ApplyAbortPrepared(slots: Slots, t: TxnId, name: RefName): Slots {
    if !LockedBy(slots, name, t) then slots
    else if slots[name].committed.version == 0 then slots - {name}
    else slots[name := RefSlot(slots[name].committed, None)]
  }

  // ----- transaction records ------------------------------------------------

  function Lookup(records: Records, key: (ShardId, TxnId)): Option<Decision> {
    if key in records then Some(records[key]) else None
  }

  /** The first terminal decision is kept; a missing record starts as pending. */
  function ApplyDecide(records: Records, key: (ShardId, TxnId), commit: bool): Records {
    if key in records && records[key] != Pending then records
    else records[key := if commit then Commit else Abort]
  }

  const HLC_LOGICAL_UNIT: nat := 0x100000

  /** A lock's age is measured from the milliseconds above the low 20 bits of its
      timestamp; a clock that ran backwards gives age zero. */
  predicate LockIsStale(intent: Intent, ttlMs: nat, nowMs: nat) {
    var createdMs := intent.hlc / HLC_LOGICAL_UNIT;
    ttlMs == 0 || (if nowMs <= createdMs then 0 else nowMs - createdMs) >= ttlMs
  }
}
