/**
 Atomicity: no transaction ever has one ref rolled forward and another released,
 in every run whose resolvers end a record only once its locks are gone.
 */
module CrossShardAtomicity {
  import opened Options
  import opened RefSlots
  import opened CrossShardCommit

  predicate Committed(s: State, t: TxnId) {
    CommitPoint(t) in s.log
  }

  ghost predicate NeverReleased(s: State, t: TxnId) {
    forall name :: Released(t, name) !in s.log
  }

  ghost predicate NeverAdvanced(s: State, t: TxnId) {
    forall name, from, to :: Advanced(t, name, from, to) !in s.log
  }

  predicate RecordIs(s: State, t: TxnId, d: Decision)
    requires t in s.coords
  {
    Lookup(s.records, Key(s, t)) == Some(d)
  }

  /** The transaction can no longer commit. */
  predicate Doomed(s: State, t: TxnId)
    requires t in s.coords
  {
    RecordIs(s, t, Abort) || PhaseOf(s, t) == Replied(false)
  }

  ghost predicate NoneResolved(s: State, t: TxnId, commit: bool) {
    forall k :: k in s.tasks && k.Resolved? && k.intent.txn == t ==> k.commit != commit
  }

  ghost predicate NoEndRecord(s: State, t: TxnId) {
    forall k :: k in s.tasks && k.EndRecord? ==> k.owner != t
  }

  predicate InPlan(c: Coordinator, name: RefName) {
    exists j :: 0 <= j < |c.plan| && c.plan[j].name == name
  }

  ghost predicate LocksInPlan(s: State, t: TxnId)
    requires t in s.coords
  {
    forall name :: LockedBy(s.slots, name, t) ==>
      InPlan(s.coords[t], name) && s.slots[name].prepared.value.coord == s.coords[t].shard
  }

  ghost predicate PhaseShape(s: State, t: TxnId)
    requires t in s.coords
  {
    var c := s.coords[t];
    c.plan != [] &&
    match c.phase
    case Preparing(next) => next < |c.plan|
    case Voted(_) => true
    case Finishing(_, next) => next < |c.plan| && forall j :: 0 <= j < next ==> !LockedBy(s.slots, c.plan[j].name, t)
    case Ending(_) => !Holds(s, t)
    case Replied(_) => !Holds(s, t)
  }

  predicate CommitPhase(p: Phase) {
    (p.Finishing? || p.Ending? || p.Replied?) && p.commit
  }

  ghost predicate CommittedShape(s: State, t: TxnId)
    requires t in s.coords
  {
    && NeverReleased(s, t)
    && CommitPhase(PhaseOf(s, t))
    && (RecordIs(s, t, Commit) || !Holds(s, t))
    && (Holds(s, t) ==> NoneResolved(s, t, false))
  }

  ghost predicate UncommittedShape(s: State, t: TxnId)
    requires t in s.coords
  {
    && NeverAdvanced(s, t)
    && !RecordIs(s, t, Commit)
    && !CommitPhase(PhaseOf(s, t))
    && NoneResolved(s, t, true)
    && NoEndRecord(s, t)
    && (!Doomed(s, t) ==> NoneResolved(s, t, false))
    && (!Doomed(s, t) ==> NeverReleased(s, t))
    && (PhaseOf(s, t).Finishing? || PhaseOf(s, t).Ending? ==> RecordIs(s, t, Abort))
  }

  ghost predicate TxnInv(s: State, t: TxnId)
    requires t in s.coords
  {
    && LocksInPlan(s, t)
    && PhaseShape(s, t)
    && (if Committed(s, t) then CommittedShape(s, t) else UncommittedShape(s, t))
  }

  /** Every lock, task, event and record belongs to a transaction that began. */
  ghost predicate Owned(s: State) {
    && (forall name :: Locked(s.slots, name) ==> s.slots[name].prepared.value.txn in s.coords)
    && (forall k :: k in s.tasks ==> TaskTxn(k) in s.coords)
    && (forall k :: k in s.tasks && !k.EndRecord? ==> k.intent.coord == s.coords[k.intent.txn].shard)
    && (forall k :: k in s.tasks && k.EndRecord? ==> k.shard == s.coords[k.owner].shard)
    && (forall e :: e in s.log ==> e.txn in s.coords)
  }

  ghost predicate Inv(s: State) {
    && Owned(s)
    && forall t :: t in s.coords ==> TxnInv(s, t)
  }

  /** Nothing that `TxnInv(_, t)` forbids was added on the way from `s` to `s'`. */
  ghost predicate SameFor(s: State, s': State, t: TxnId)
    requires t in s.coords
  {
    && t in s'.coords && s'.coords[t] == s.coords[t]
    && Lookup(s'.records, Key(s, t)) == Lookup(s.records, Key(s, t))
    && (forall name :: LockedBy(s'.slots, name, t) ==>
          LockedBy(s.slots, name, t) && s'.slots[name].prepared == s.slots[name].prepared)
    && (forall e :: e in s'.log && e.txn == t ==> e in s.log)
    && (forall e :: e in s.log ==> e in s'.log)
    && (forall k :: k in s'.tasks && TaskTxn(k) == t ==> k in s.tasks)
  }

  lemma Frame(s: State, s': State, t: TxnId)
    requires t in s.coords && TxnInv(s, t) && SameFor(s, s', t)
    ensures TxnInv(s', t)
  {
    if Holds(s', t) {
      var name :| LockedBy(s'.slots, name, t);
      assert LockedBy(s.slots, name, t);
    }
    assert Holds(s', t) ==> Holds(s, t);
    assert Committed(s', t) == Committed(s, t);
  }

  // ----- steps that add nothing for a transaction -----------------------------

  /** Enough to re-check the one transaction a step is about. */
  lemma Assemble(s: State, s': State, t: TxnId)
    requires Inv(s) && Owned(s') && t in s.coords && s'.coords.Keys == s.coords.Keys
    requires forall o :: o in s.coords && o != t ==> SameFor(s, s', o)
    requires TxnInv(s', t)
    ensures Inv(s')
  {
    forall o | o in s.coords ensures TxnInv(s', o) { if o != t { Frame(s, s', o); } }
  }

  /** Every lock of `after` is already in `before`. */
  ghost predicate NoNewLocks(before: Slots, after: Slots) {
    forall name :: Locked(after, name) ==> Locked(before, name) && after[name].prepared == before[name].prepared
  }

  lemma {:induction false} InstallBatchLocks(now: Slots, snapshot: Slots, ops: seq<BatchOp>)
    ensures NoNewLocks(now, InstallBatch(now, snapshot, ops))
    decreases |ops|
  {
    if ops != [] {
      var m := ops[0].change;
      var version := if m.name in snapshot then snapshot[m.name].committed.version + 1 else 1;
      InstallBatchLocks(now[m.name := RefSlot(RefEntry(m.target, ops[0].hlc, version), None)], snapshot, ops[1..]);
    }
  }

  /** Whatever else it touches, such a step keeps the invariant. */
  lemma OwnedFrame(s: State, s': State)
    requires Inv(s)
    requires s'.coords == s.coords && s'.records == s.records && s'.tasks == s.tasks && s'.log == s.log
    requires NoNewLocks(s.slots, s'.slots)
    ensures Inv(s')
  {
    forall t | t in s.coords ensures TxnInv(s', t) { Frame(s, s', t); }
  }

  lemma PlainWriteKeepsInv(s: State, a: Action)
    requires Inv(s) && Enabled(s, a) && (a.Update? || a.Delete? || a.Batch?)
    ensures Inv(Next(s, a))
  {
    if a.Batch? { InstallBatchLocks(s.slots, s.slots, a.ops); }
    OwnedFrame(s, Next(s, a));
  }

  lemma ListKeepsInv(s: State, a: Action)
    requires Inv(s) && Enabled(s, a) && a.ListLock?
    ensures Inv(Next(s, a))
  {
    var s' := Next(s, a);
    var i := s.slots[a.name].prepared.value;
    assert LockedBy(s.slots, a.name, i.txn);
    assert LocksInPlan(s, i.txn);
    forall t | t in s.coords ensures TxnInv(s', t) { ListedIsHarmless(s, t, Listed(a.name, i)); }
  }

  /** Tasks that carry no decision do not matter to the invariant. */
  lemma ListedIsHarmless(s: State, t: TxnId, k: Task)
    requires t in s.coords && TxnInv(s, t) && (k.Listed? || k.Doubtful?)
    ensures TxnInv(s.(tasks := s.tasks + {k}), t)
  {
    var s' := s.(tasks := s.tasks + {k});
    assert Holds(s', t) == Holds(s, t);
  }

  // ----- the coordinator -------------------------------------------------------

  lemma BeginKeepsInv(s: State, a: Action)
    requires Inv(s) && Enabled(s, a) && a.Begin?
    ensures Inv(Next(s, a))
  {
    var s' := Next(s, a);
    forall t | t in s.coords ensures TxnInv(s', t) { Frame(s, s', t); }
    assert !Committed(s', a.t);
    assert NeverAdvanced(s', a.t) && NeverReleased(s', a.t);
    assert LocksInPlan(s', a.t);
    assert UncommittedShape(s', a.t) by {
      forall k | k in s'.tasks ensures TaskTxn(k) != a.t {}
      assert NoneResolved(s', a.t, true) && NoneResolved(s', a.t, false) && NoEndRecord(s', a.t) by {
        assert forall k :: k in s'.tasks && k.Resolved? ==> TaskTxn(k) == k.intent.txn;
        assert forall k :: k in s'.tasks && k.EndRecord? ==> TaskTxn(k) == k.owner;
      }
    }
  }

  lemma PrepareKeepsInv(s: State, a: Action)
    requires Inv(s) && Enabled(s, a) && a.CoordPrepare?
    ensures Inv(Next(s, a))
  {
    PrepareKeepsOthers(s, a.t, a.hlc);
    PrepareKeepsTxnInv(s, a.t, a.hlc);
    hide TxnInv, Owned, SameFor, Next, Enabled;
    Assemble(s, Next(s, a), a.t);
  }

  lemma PrepareKeepsOthers(s: State, t: TxnId, hlc: nat)
    requires Owned(s) && Enabled(s, CoordPrepare(t, hlc))
    ensures var s' := Next(s, CoordPrepare(t, hlc));
      && t in s.coords && Owned(s') && s'.coords.Keys == s.coords.Keys && forall o :: o in s.coords && o != t ==> SameFor(s, s', o)
  {}

  lemma PrepareKeepsTxnInv(s: State, t: TxnId, hlc: nat)
    requires Inv(s) && Enabled(s, CoordPrepare(t, hlc))
    ensures TxnInv(Next(s, CoordPrepare(t, hlc)), t)
  {
    var s' := Next(s, CoordPrepare(t, hlc));
    var c := s.coords[t];
    assert TxnInv(s, t) && !Committed(s, t);
    hide Inv, Owned;
    assert LocksInPlan(s', t) by {
      assert InPlan(c, c.plan[c.phase.next].name);
      forall name | LockedBy(s'.slots, name, t)
        ensures InPlan(s'.coords[t], name) && s'.slots[name].prepared.value.coord == c.shard
      {
        if name != c.plan[c.phase.next].name { assert LockedBy(s.slots, name, t); }
      }
    }
    assert RecordIs(s', t, Abort) == RecordIs(s, t, Abort);
  }

  lemma DecideKeepsInv(s: State, a: Action)
    requires Inv(s) && Enabled(s, a) && a.CoordDecide?
    ensures Inv(Next(s, a))
  {
    DecideKeepsOthers(s, a.t);
    DecideKeepsTxnInv(s, a.t);
    hide TxnInv, Owned, SameFor, Next, Enabled;
    Assemble(s, Next(s, a), a.t);
  }

  lemma DecideKeepsOthers(s: State, t: TxnId)
    requires Owned(s) && Enabled(s, CoordDecide(t))
    ensures var s' := Next(s, CoordDecide(t));
      && t in s.coords && Owned(s') && s'.coords.Keys == s.coords.Keys && forall o :: o in s.coords && o != t ==> SameFor(s, s', o)
  {}

  lemma DecideKeepsTxnInv(s: State, t: TxnId)
    requires Inv(s) && Enabled(s, CoordDecide(t))
    ensures TxnInv(Next(s, CoordDecide(t)), t)
  {
    var s' := Next(s, CoordDecide(t));
    assert TxnInv(s, t) && !Committed(s, t);
    hide Inv, Owned;
    assert LocksInPlan(s', t) && PhaseShape(s', t) by { assert LocksInPlan(s, t); }
    if s'.records[Key(s, t)] == Commit {
      assert !Doomed(s, t);
      assert s'.log == s.log + [CommitPoint(t)];
      assert CommittedShape(s', t);
    } else {
      assert UncommittedShape(s', t);
    }
  }

  /** Resolving a ref of `t` only removes that lock, and frees `name` from `t`. */
  lemma ResolveRefLocks(s: State, t: TxnId, name: RefName)
    ensures NoNewLocks(s.slots, CommitRef(s, t, name).slots) && !LockedBy(CommitRef(s, t, name).slots, name, t)
    ensures NoNewLocks(s.slots, ReleaseRef(s, t, name).slots) && !LockedBy(ReleaseRef(s, t, name).slots, name, t)
  {}

  /** After the sweep has passed every planned ref, the transaction holds nothing. */
  lemma SweptHoldsNothing(s: State, t: TxnId)
    requires t in s.coords && LocksInPlan(s, t)
    requires forall j :: 0 <= j < |s.coords[t].plan| ==> !LockedBy(s.slots, s.coords[t].plan[j].name, t)
    ensures !Holds(s, t)
  {}

  /** Locks of `t` only went away, and the swept prefix stays swept. */
  lemma FewerLocks(s: State, s': State, t: TxnId)
    requires t in s.coords && LocksInPlan(s, t) && NoNewLocks(s.slots, s'.slots)
    requires t in s'.coords && s'.coords[t].plan == s.coords[t].plan && s'.coords[t].shard == s.coords[t].shard
    ensures LocksInPlan(s', t) && (Holds(s', t) ==> Holds(s, t))
    ensures forall name :: LockedBy(s'.slots, name, t) ==> LockedBy(s.slots, name, t)
  {
    forall n | LockedBy(s'.slots, n, t)
      ensures LockedBy(s.slots, n, t) && InPlan(s'.coords[t], n) && s'.slots[n].prepared.value.coord == s.coords[t].shard
    { assert LockedBy(s.slots, n, t) && InPlan(s.coords[t], n); }
  }

  lemma ResolveKeepsOthers(s: State, t: TxnId, name: RefName)
    requires Owned(s) && t in s.coords
    ensures forall s' :: s' == CommitRef(s, t, name) || s' == ReleaseRef(s, t, name) ==>
      Owned(s') && s'.coords.Keys == s.coords.Keys && forall o :: o in s.coords && o != t ==> SameFor(s, s', o)
  {}

  lemma CommitRefKeepsInv(s: State, t: TxnId, name: RefName)
    requires Inv(s) && t in s.coords && Committed(s, t)
    ensures Inv(CommitRef(s, t, name)) && Committed(CommitRef(s, t, name), t)
  {
    if LockedBy(s.slots, name, t) {
      ResolveKeepsOthers(s, t, name);
      CommitKeepsTxnInv(s, t, name);
      hide TxnInv, Owned, SameFor;
      Assemble(s, CommitRef(s, t, name), t);
    }
  }

  lemma CommitKeepsTxnInv(s: State, t: TxnId, name: RefName)
    requires Inv(s) && t in s.coords && LockedBy(s.slots, name, t) && Committed(s, t)
    ensures TxnInv(CommitRef(s, t, name), t)
  {
    assert TxnInv(s, t);
    hide Inv, Owned;
    ResolveRefLocks(s, t, name);
    FewerLocks(s, CommitRef(s, t, name), t);
  }

  lemma ReleaseRefKeepsInv(s: State, t: TxnId, name: RefName)
    requires Inv(s) && t in s.coords
    requires LockedBy(s.slots, name, t) ==> Doomed(s, t) && !Committed(s, t)
    ensures Inv(ReleaseRef(s, t, name)) && Committed(ReleaseRef(s, t, name), t) == Committed(s, t)
  {
    if LockedBy(s.slots, name, t) {
      ResolveKeepsOthers(s, t, name);
      ReleaseKeepsTxnInv(s, t, name);
      hide TxnInv, Owned, SameFor;
      Assemble(s, ReleaseRef(s, t, name), t);
    }
  }

  lemma ReleaseKeepsTxnInv(s: State, t: TxnId, name: RefName)
    requires Inv(s) && t in s.coords && LockedBy(s.slots, name, t) && Doomed(s, t) && !Committed(s, t)
    ensures TxnInv(ReleaseRef(s, t, name), t)
  {
    assert TxnInv(s, t);
    hide Inv, Owned;
    ResolveRefLocks(s, t, name);
    FewerLocks(s, ReleaseRef(s, t, name), t);
  }

  /** Moving on in the sweep, once `name` is free of `t`. */
  lemma SweepOnKeepsInv(s: State, t: TxnId, p: Phase)
    requires Inv(s) && t in s.coords && PhaseOf(s, t).Finishing?
    requires var c := s.coords[t]; !LockedBy(s.slots, c.plan[c.phase.next].name, t)
    requires var c := s.coords[t];
      p == if c.phase.next + 1 == |c.plan| then Ending(c.phase.commit) else Finishing(c.phase.commit, c.phase.next + 1)
    ensures Inv(WithPhase(s, t, p))
  {
    SweepOnKeepsTxnInv(s, t, p);
    PhaseKeepsOthers(s, t, p);
    hide TxnInv, Owned, SameFor;
    Assemble(s, WithPhase(s, t, p), t);
  }

  lemma PhaseKeepsOthers(s: State, t: TxnId, p: Phase)
    requires Owned(s) && t in s.coords
    ensures var s' := WithPhase(s, t, p);
      Owned(s') && s'.coords.Keys == s.coords.Keys && forall o :: o in s.coords && o != t ==> SameFor(s, s', o)
  {}

  lemma SweepOnKeepsTxnInv(s: State, t: TxnId, p: Phase)
    requires Inv(s) && t in s.coords && PhaseOf(s, t).Finishing?
    requires var c := s.coords[t]; !LockedBy(s.slots, c.plan[c.phase.next].name, t)
    requires var c := s.coords[t];
      p == if c.phase.next + 1 == |c.plan| then Ending(c.phase.commit) else Finishing(c.phase.commit, c.phase.next + 1)
    ensures TxnInv(WithPhase(s, t, p), t)
  {
    assert TxnInv(s, t);
    hide Inv, Owned;
    var s' := WithPhase(s, t, p);
    FewerLocks(s, s', t);
    if p.Ending? { SweptHoldsNothing(s', t); }
    assert PhaseShape(s', t);
  }

  lemma FinishKeepsInv(s: State, a: Action)
    requires Inv(s) && Enabled(s, a) && a.CoordFinish?
    ensures Inv(Next(s, a))
  {
    var t := a.t;
    var c := s.coords[t];
    var name := c.plan[c.phase.next].name;
    assert TxnInv(s, t);
    assert Committed(s, t) == c.phase.commit;
    var s1 := if c.phase.commit then CommitRef(s, t, name) else ReleaseRef(s, t, name);
    if c.phase.commit { CommitRefKeepsInv(s, t, name); } else { ReleaseRefKeepsInv(s, t, name); }
    ResolveRefLocks(s, t, name);
    SweepOnKeepsInv(s1, t, Next(s, a).coords[t].phase);
  }

  lemma EndKeepsInv(s: State, a: Action)
    requires Inv(s) && Enabled(s, a) && a.CoordEnd?
    ensures Inv(Next(s, a))
  {
    var s' := Next(s, a);
    forall t | t in s.coords && t != a.t ensures TxnInv(s', t) { Frame(s, s', t); }
    assert Holds(s', a.t) == Holds(s, a.t);
    assert LocksInPlan(s', a.t) by { assert LocksInPlan(s, a.t); }
  }

  // ----- resolvers -------------------------------------------------------------

  /** A task belongs to a transaction that began, on that one's shard. */
  lemma TaskOwner(s: State, k: Task)
    requires Owned(s) && k in s.tasks && !k.EndRecord?
    ensures k.intent.txn in s.coords && Key(s, k.intent.txn) == (k.intent.coord, k.intent.txn)
  {
    assert TaskTxn(k) == k.intent.txn;
  }

  /** A decision that matches the record may be acted on. */
  lemma ResolvedKeepsInv(s: State, k: Task)
    requires Inv(s) && k.Resolved? && k.intent.txn in s.coords && k.intent.coord == s.coords[k.intent.txn].shard
    requires RecordIs(s, k.intent.txn, if k.commit then Commit else Abort)
    ensures Inv(s.(tasks := s.tasks + {k}))
  {
    var s' := s.(tasks := s.tasks + {k});
    var t := k.intent.txn;
    assert TxnInv(s, t);
    FewerLocks(s, s', t);
    assert Holds(s', t) == Holds(s, t);
    assert TxnInv(s', t);
    Assemble(s, s', t);
  }

  lemma ReadKeepsInv(s: State, a: Action)
    requires Inv(s) && Enabled(s, a) && a.ReadDecision?
    ensures Inv(Next(s, a))
  {
    var t := a.intent.txn;
    TaskOwner(s, Listed(a.name, a.intent));
    match Lookup(s.records, Key(s, t)) {
      case Some(Commit) => ResolvedKeepsInv(s, Resolved(a.name, a.intent, true));
      case Some(Abort) => ResolvedKeepsInv(s, Resolved(a.name, a.intent, false));
      case _ =>
        forall o | o in s.coords ensures TxnInv(s.(tasks := s.tasks + {Doubtful(a.name, a.intent)}), o) {
          ListedIsHarmless(s, o, Doubtful(a.name, a.intent));
        }
    }
  }

  /** Recording the abort first: an undecided transaction becomes doomed. */
  lemma DecideAbortKeepsInv(s: State, t: TxnId)
    requires Inv(s) && t in s.coords
    ensures Inv(s.(records := ApplyDecide(s.records, Key(s, t), false)))
  {
    var s' := s.(records := ApplyDecide(s.records, Key(s, t), false));
    assert TxnInv(s, t);
    FewerLocks(s, s', t);
    assert Holds(s', t) == Holds(s, t);
    assert TxnInv(s', t);
    Assemble(s, s', t);
  }

  lemma PresumeKeepsInv(s: State, a: Action)
    requires Inv(s) && Enabled(s, a) && a.ResolverDecide?
    ensures Inv(Next(s, a))
  {
    var t := a.intent.txn;
    TaskOwner(s, Doubtful(a.name, a.intent));
    DecideAbortKeepsInv(s, t);
    var s1 := s.(records := ApplyDecide(s.records, Key(s, t), false));
    ResolvedKeepsInv(s1, Resolved(a.name, a.intent, s1.records[Key(s, t)] == Commit));
  }

  lemma EndTaskKeepsInv(s: State, t: TxnId)
    requires Inv(s) && t in s.coords && Committed(s, t)
    ensures Inv(s.(tasks := s.tasks + {EndRecord(s.coords[t].shard, t)}))
  {
    var s' := s.(tasks := s.tasks + {EndRecord(s.coords[t].shard, t)});
    assert TxnInv(s, t);
    FewerLocks(s, s', t);
    assert Holds(s', t) == Holds(s, t);
    assert TxnInv(s', t);
    Assemble(s, s', t);
  }

  lemma ActKeepsInv(s: State, a: Action)
    requires Inv(s) && Enabled(s, a) && a.ResolverAct?
    ensures Inv(Next(s, a))
  {
    var t := a.intent.txn;
    TaskOwner(s, Resolved(a.name, a.intent, a.commit));
    assert TxnInv(s, t);
    if a.commit {
      EndTaskKeepsInv(s, t);
      CommitRefKeepsInv(s.(tasks := s.tasks + {EndRecord(a.intent.coord, t)}), t, a.name);
    } else {
      assert LockedBy(s.slots, a.name, t) ==> Holds(s, t);
      ReleaseRefKeepsInv(s, t, a.name);
    }
  }

  lemma ResolverEndKeepsInv(s: State, a: Action)
    requires Inv(s) && Enabled(s, a) && a.ResolverEnd? && EndsSafely(s, a)
    ensures Inv(Next(s, a))
  {
    var s' := Next(s, a);
    var k := EndRecord(a.shard, a.t);
    assert TaskTxn(k) in s.coords && k.shard == s.coords[k.owner].shard;
    forall o | o in s.coords && o != a.t ensures TxnInv(s', o) { Frame(s, s', o); }
    assert Holds(s', a.t) == Holds(s, a.t);
    assert Committed(s, a.t);
  }

  // ----- every run ---------------------------------------------------------------

  lemma StepKeepsInv(s: State, a: Action)
    requires Inv(s) && Enabled(s, a) && EndsSafely(s, a)
    ensures Inv(Next(s, a))
  {
    match a
    case Begin(_, _, _) => BeginKeepsInv(s, a);
    case CoordPrepare(_, _) => PrepareKeepsInv(s, a);
    case CoordDecide(_) => DecideKeepsInv(s, a);
    case CoordFinish(_) => FinishKeepsInv(s, a);
    case CoordEnd(_) => EndKeepsInv(s, a);
    case ListLock(_) => ListKeepsInv(s, a);
    case ReadDecision(_, _, _, _) => ReadKeepsInv(s, a);
    case ResolverDecide(_, _) => PresumeKeepsInv(s, a);
    case ResolverAct(_, _, _) => ActKeepsInv(s, a);
    case ResolverEnd(_, _) => ResolverEndKeepsInv(s, a);
    case Update(_, _, _, _) => PlainWriteKeepsInv(s, a);
    case Delete(_, _) => PlainWriteKeepsInv(s, a);
    case Batch(_) => PlainWriteKeepsInv(s, a);
  }

  lemma {:induction false} RunKeepsInv(s: State, actions: seq<Action>)
    requires Inv(s) && IsRun(s, actions) && EndsSafelyThroughout(s, actions)
    ensures Inv(After(s, actions))
    decreases |actions|
  {
    if actions != [] {
      StepKeepsInv(s, actions[0]);
      RunKeepsInv(Next(s, actions[0]), actions[1..]);
    }
  }

  /** One ref rolled forward while another was released. */
  ghost predicate Split(s: State, t: TxnId) {
    !NeverAdvanced(s, t) && !NeverReleased(s, t)
  }

  /** No run splits a transaction, however coordinators stop and resolvers race. */
  lemma {:induction false} NoRunSplits(actions: seq<Action>, t: TxnId)
    requires IsRun(Initial, actions) && EndsSafelyThroughout(Initial, actions)
    ensures !Split(After(Initial, actions), t)
  {
    RunKeepsInv(Initial, actions);
    var s := After(Initial, actions);
    if t in s.coords { assert TxnInv(s, t); }
  }
}
