/**
 The condition of the atomicity result is exact. A resolver may end a transaction's
 record precisely when the locks it leaves behind cannot go one way while another ref
 went the other. The code does not check this, and a concrete run shows the failure.
 */
module CrossShardLimits {
  import opened Options
  import opened RefSlots
  import opened CrossShardCommit
  import opened CrossShardAtomicity
  import opened CrossShardReplies
  import opened CrossShardEffects

  ghost predicate Reachable(s: State) {
    exists actions :: IsRun(Initial, actions) && After(Initial, actions) == s
  }

  lemma ReachMore(s: State, more: seq<Action>)
    requires Reachable(s) && IsRun(s, more)
    ensures Reachable(After(s, more))
  {
    var actions :| IsRun(Initial, actions) && After(Initial, actions) == s;
    RunAppends(Initial, actions, more);
  }

  lemma ReachStep(s: State, a: Action)
    requires Reachable(s) && Enabled(s, a)
    ensures Reachable(Next(s, a))
  {
    assert [a][1..] == [];
    assert IsRun(Next(s, a), []) && After(Next(s, a), []) == Next(s, a);
    assert IsRun(s, [a]) && After(s, [a]) == Next(s, a);
    ReachMore(s, [a]);
  }

  lemma InitialReachable()
    ensures Reachable(Initial)
  {
    assert After(Initial, []) == Initial;
  }

  lemma PrependEnds(s: State, a: Action, rest: seq<Action>)
    requires Enabled(s, a) && IsRun(Next(s, a), rest) && EndsSafely(s, a)
    requires EndsSafelyThroughout(Next(s, a), rest)
    ensures IsRun(s, [a] + rest) && After(s, [a] + rest) == After(Next(s, a), rest)
    ensures EndsSafelyThroughout(s, [a] + rest)
  {
    assert ([a] + rest)[1..] == rest;
  }

  // ----- ending a record -----------------------------------------------------------

  /** No continuation that ends records safely from here on splits `t`. */
  ghost predicate NeverSplits(s: State, t: TxnId) {
    forall more :: IsRun(s, more) && EndsSafelyThroughout(s, more) ==> !Split(After(s, more), t)
  }

  /** The resolver pass that finds a lock whose record is gone: it presumes abort. */
  function OrphanPass(name: RefName, i: Intent): seq<Action> {
    [ListLock(name)] + ([ReadDecision(name, i, 0, 0)] + ([ResolverDecide(name, i)] + ([ResolverAct(name, i, false)] + [])))
  }

  lemma OrphanIsReleased(s: State, name: RefName, i: Intent)
    requires Locked(s.slots, name) && s.slots[name].prepared == Some(i) && (i.coord, i.txn) !in s.records
    ensures IsRun(s, OrphanPass(name, i)) && EndsSafelyThroughout(s, OrphanPass(name, i))
    ensures Released(i.txn, name) in After(s, OrphanPass(name, i)).log
    ensures forall e :: e in s.log ==> e in After(s, OrphanPass(name, i)).log
    ensures After(s, OrphanPass(name, i)).coords == s.coords
    ensures After(s, OrphanPass(name, i)).slots == ApplyAbortPrepared(s.slots, i.txn, name)
    ensures var slots := After(s, OrphanPass(name, i)).slots;
      && !Locked(slots, name) && (forall n :: Shown(slots, n) == Shown(s.slots, n))
      && forall n :: n != name ==> SameSlot(s.slots, slots, n)
  {
    ReleaseShows(s.slots, i.txn, name);
    var s1 := Next(s, ListLock(name));
    var s2 := Next(s1, ReadDecision(name, i, 0, 0));
    assert Doubtful(name, i) in s2.tasks;
    var s3 := Next(s2, ResolverDecide(name, i));
    assert s3.records[(i.coord, i.txn)] == Abort && Resolved(name, i, false) in s3.tasks;
    var s4 := Next(s3, ResolverAct(name, i, false));
    assert s4.log == s.log + [Released(i.txn, name)];
    PrependEnds(s3, ResolverAct(name, i, false), []);
    PrependEnds(s2, ResolverDecide(name, i), [ResolverAct(name, i, false)] + []);
    PrependEnds(s1, ReadDecision(name, i, 0, 0), [ResolverDecide(name, i)] + ([ResolverAct(name, i, false)] + []));
    PrependEnds(s, ListLock(name),
      [ReadDecision(name, i, 0, 0)] + ([ResolverDecide(name, i)] + ([ResolverAct(name, i, false)] + [])));
  }

  /** No lock is left, or a single one and nothing has moved: then whatever happens to it
      happens to the whole transaction. */
  ghost predicate MayEnd(s: State, t: TxnId) {
    forall name :: LockedBy(s.slots, name, t) ==>
      NeverAdvanced(s, t) && forall other :: LockedBy(s.slots, other, t) ==> other == name
  }

  /** The committing sweep comes to every ref that is still locked. */
  lemma {:induction false} SweepAdvances(s: State, t: TxnId, name: RefName, j: nat) returns (more: seq<Action>)
    requires t in s.coords && PhaseOf(s, t).Finishing? && PhaseOf(s, t).commit && LockedBy(s.slots, name, t)
    requires PhaseOf(s, t).next <= j < |s.coords[t].plan| && s.coords[t].plan[j].name == name
    ensures IsRun(s, more) && EndsSafelyThroughout(s, more) && !NeverAdvanced(After(s, more), t)
    ensures forall e :: e in s.log ==> e in After(s, more).log
    decreases j - PhaseOf(s, t).next
  {
    var a := CoordFinish(t);
    var s1 := Next(s, a);
    if s.coords[t].plan[PhaseOf(s, t).next].name == name {
      assert s1.log == s.log + [Advanced(t, name, Visible(s.slots, name), s.slots[name].prepared.value.target)];
      more := [a] + [];
      PrependEnds(s, a, []);
    } else {
      var rest := SweepAdvances(s1, t, name, j);
      more := [a] + rest;
      PrependEnds(s, a, rest);
    }
  }

  /** Ending a record with a lock left and a ref moved, or with two locks left, can split. */
  lemma EndingEarlySplits(s: State, t: TxnId)
    requires Inv(s) && t in s.coords && Committed(s, t) && !MayEnd(s, t)
    requires Enabled(s, ResolverEnd(s.coords[t].shard, t))
    ensures !NeverSplits(Next(s, ResolverEnd(s.coords[t].shard, t)), t)
  {
    var s' := Next(s, ResolverEnd(s.coords[t].shard, t));
    var name :| LockedBy(s.slots, name, t) &&
      (!NeverAdvanced(s, t) || exists other :: LockedBy(s.slots, other, t) && other != name);
    assert TxnInv(s, t);
    var i := s.slots[name].prepared.value;
    assert (i.coord, i.txn) == (s.coords[t].shard, t);
    if !NeverAdvanced(s, t) {
      hide Inv, TxnInv, OrphanPass, IsRun, After, EndsSafelyThroughout;
      OrphanIsReleased(s', name, i);
      var mid := After(s', OrphanPass(name, i));
      var n, from, to :| Advanced(t, n, from, to) in s.log;
      assert Advanced(t, n, from, to) in mid.log && Released(t, name) in mid.log;
      assert Split(mid, t);
    } else {
      var other :| LockedBy(s.slots, other, t) && other != name;
      var j := LockIsAhead(s, t, other);
      ReleaseThenAdvance(s', t, name, other, j);
    }
  }

  /** With the record gone, one lock is presumed aborted while the coordinator commits another. */
  lemma ReleaseThenAdvance(s: State, t: TxnId, name: RefName, other: RefName, j: nat)
    requires t in s.coords && PhaseOf(s, t).Finishing? && PhaseOf(s, t).commit && other != name
    requires LockedBy(s.slots, name, t) && LockedBy(s.slots, other, t)
    requires (s.slots[name].prepared.value.coord, t) !in s.records
    requires PhaseOf(s, t).next <= j < |s.coords[t].plan| && s.coords[t].plan[j].name == other
    ensures !NeverSplits(s, t)
  {
    hide OrphanPass, IsRun, After, EndsSafelyThroughout;
    var i := s.slots[name].prepared.value;
    OrphanIsReleased(s, name, i);
    var pass := OrphanPass(name, i);
    var mid := After(s, pass);
    assert LockedBy(mid.slots, other, t);
    var more := SweepAdvances(mid, t, other, j);
    RunAppends(s, pass, more);
    EndsAppend(s, pass, more);
    assert Released(t, name) in After(s, pass + more).log;
    assert Split(After(s, pass + more), t);
  }

  lemma LockIsAhead(s: State, t: TxnId, name: RefName) returns (j: nat)
    requires t in s.coords && TxnInv(s, t) && Committed(s, t) && LockedBy(s.slots, name, t)
    ensures PhaseOf(s, t).Finishing? && PhaseOf(s, t).commit
    ensures PhaseOf(s, t).next <= j < |s.coords[t].plan| && s.coords[t].plan[j].name == name
  {
    assert InPlan(s.coords[t], name);
    j :| 0 <= j < |s.coords[t].plan| && s.coords[t].plan[j].name == name;
  }

  lemma {:induction false} EndsAppend(s: State, actions: seq<Action>, more: seq<Action>)
    requires IsRun(s, actions) && IsRun(After(s, actions), more) && IsRun(s, actions + more)
    requires EndsSafelyThroughout(s, actions) && EndsSafelyThroughout(After(s, actions), more)
    ensures EndsSafelyThroughout(s, actions + more)
    decreases |actions|
  {
    if actions == [] {
      assert actions + more == more;
    } else {
      assert (actions + more)[1..] == actions[1..] + more;
      EndsAppend(Next(s, actions[0]), actions[1..], more);
    }
  }

  /** At most one ref of `t` is still open, and the others did not all go both ways. */
  ghost predicate OneOpen(s: State, t: TxnId, name: RefName) {
    && t in s.coords && !PhaseOf(s, t).Preparing? && !Split(s, t)
    && (forall n :: LockedBy(s.slots, n, t) ==> n == name)
    && (Holds(s, t) ==> NeverAdvanced(s, t) && NeverReleased(s, t))
  }

  /** A step that neither locks nor logs for `t`. */
  ghost predicate Idle(s: State, s': State, t: TxnId)
    requires t in s.coords
  {
    && t in s'.coords && (PhaseOf(s', t).Preparing? ==> PhaseOf(s, t).Preparing?)
    && (forall n :: LockedBy(s'.slots, n, t) ==> LockedBy(s.slots, n, t))
    && (forall e :: e in s'.log && e.txn == t && !e.CommitPoint? ==> e in s.log)
    && (forall e :: e in s.log ==> e in s'.log)
  }

  lemma IdleKeepsOneOpen(s: State, s': State, t: TxnId, name: RefName)
    requires OneOpen(s, t, name) && Idle(s, s', t)
    ensures OneOpen(s', t, name)
  {
    hide LockedBy;
    forall n, from, to | Advanced(t, n, from, to) in s'.log ensures Advanced(t, n, from, to) in s.log {}
    forall n | Released(t, n) in s'.log ensures Released(t, n) in s.log {}
  }

  /** Rolling the one open ref forward or back settles the transaction. */
  lemma SettleKeepsOneOpen(s: State, t: TxnId, n: RefName, name: RefName, commit: bool)
    requires OneOpen(s, t, name)
    ensures OneOpen(if commit then CommitRef(s, t, n) else ReleaseRef(s, t, n), t, name)
  {
    var s' := if commit then CommitRef(s, t, n) else ReleaseRef(s, t, n);
    if LockedBy(s.slots, n, t) {
      assert Holds(s, t) && n == name;
      ResolveRefLocks(s, t, n);
      assert forall m :: LockedBy(s'.slots, m, t) ==> LockedBy(s.slots, m, t);
      assert !Holds(s', t);
      if commit {
        forall m ensures Released(t, m) !in s'.log {}
      } else {
        forall m, from, to ensures Advanced(t, m, from, to) !in s'.log {}
      }
    }
  }

  lemma OtherRefIsIdle(s: State, o: TxnId, n: RefName, commit: bool, t: TxnId)
    requires t in s.coords && o != t
    ensures Idle(s, if commit then CommitRef(s, o, n) else ReleaseRef(s, o, n), t)
  {}

  lemma StepKeepsOneOpen(s: State, a: Action, t: TxnId, name: RefName)
    requires OneOpen(s, t, name) && Enabled(s, a)
    ensures OneOpen(Next(s, a), t, name)
  {
    if a.ResolverAct? {
      ActKeepsOneOpen(s, a, t, name);
    } else if a.CoordFinish? {
      FinishKeepsOneOpen(s, a, t, name);
    } else {
      hide OneOpen;
      assert t in s.coords && !PhaseOf(s, t).Preparing? by { OpenIsDecided(s, t, name); }
      OtherStepIsIdle(s, a, t);
      IdleKeepsOneOpen(s, Next(s, a), t, name);
    }
  }

  lemma OpenIsDecided(s: State, t: TxnId, name: RefName)
    requires OneOpen(s, t, name)
    ensures t in s.coords && !PhaseOf(s, t).Preparing?
  {}

  lemma OtherStepIsIdle(s: State, a: Action, t: TxnId)
    requires Enabled(s, a) && !a.ResolverAct? && !a.CoordFinish? && t in s.coords && !PhaseOf(s, t).Preparing?
    ensures Idle(s, Next(s, a), t)
  {
    if a.Batch? { InstallBatchLocks(s.slots, s.slots, a.ops); }
  }

  lemma ActKeepsOneOpen(s: State, a: Action, t: TxnId, name: RefName)
    requires OneOpen(s, t, name) && Enabled(s, a) && a.ResolverAct?
    ensures OneOpen(Next(s, a), t, name)
  {
    var s1 := if a.commit then s.(tasks := s.tasks + {EndRecord(a.intent.coord, a.intent.txn)}) else s;
    assert OneOpen(s1, t, name);
    hide OneOpen, CommitRef, ReleaseRef;
    if a.intent.txn == t {
      SettleKeepsOneOpen(s1, t, a.name, name, a.commit);
    } else {
      OpenIsDecided(s1, t, name);
      OtherRefIsIdle(s1, a.intent.txn, a.name, a.commit, t);
      IdleKeepsOneOpen(s1, Next(s, a), t, name);
    }
  }

  lemma FinishKeepsOneOpen(s: State, a: Action, t: TxnId, name: RefName)
    requires OneOpen(s, t, name) && Enabled(s, a) && a.CoordFinish?
    ensures OneOpen(Next(s, a), t, name)
  {
    var c := s.coords[a.t];
    var ref := c.plan[c.phase.next].name;
    var s1 := if c.phase.commit then CommitRef(s, a.t, ref) else ReleaseRef(s, a.t, ref);
    OpenIsDecided(s, t, name);
    hide OneOpen, CommitRef, ReleaseRef;
    if a.t == t {
      SettleKeepsOneOpen(s, t, ref, name, c.phase.commit);
    } else {
      OtherRefIsIdle(s, a.t, ref, c.phase.commit, t);
      IdleKeepsOneOpen(s, s1, t, name);
    }
    OpenIsDecided(s1, t, name);
    IdleKeepsOneOpen(s1, Next(s, a), t, name);
  }

  lemma {:induction false} RunKeepsOneOpen(s: State, actions: seq<Action>, t: TxnId, name: RefName)
    requires OneOpen(s, t, name) && IsRun(s, actions)
    ensures OneOpen(After(s, actions), t, name)
    decreases |actions|
  {
    hide OneOpen, Enabled, Next;
    if actions != [] {
      StepKeepsOneOpen(s, actions[0], t, name);
      RunKeepsOneOpen(Next(s, actions[0]), actions[1..], t, name);
    }
  }

  /** Whenever a resolver is about to end a record: no continuation splits the transaction
      exactly if no lock is left, or just one and nothing has moved. */
  lemma EndIsSafeIff(s: State, t: TxnId)
    requires Inv(s) && t in s.coords && Enabled(s, ResolverEnd(s.coords[t].shard, t))
    ensures NeverSplits(Next(s, ResolverEnd(s.coords[t].shard, t)), t) <==> MayEnd(s, t)
  {
    var s' := Next(s, ResolverEnd(s.coords[t].shard, t));
    assert TxnInv(s, t) && Committed(s, t);
    if MayEnd(s, t) {
      var name: RefName :| Holds(s, t) ==> LockedBy(s.slots, name, t);
      assert OneOpen(s', t, name);
      forall more | IsRun(s', more) && EndsSafelyThroughout(s', more) ensures !Split(After(s', more), t) {
        RunKeepsOneOpen(s', more, t, name);
      }
    } else {
      EndingEarlySplits(s, t);
    }
  }

  const PLAN := [Mapping("a", 1, None), Mapping("b", 2, None)]
  const LOCK_A := Intent(0, 0, 1, 0)
  const LOCK_B := Intent(0, 0, 2, 0)

  /** Both refs locked, the commit decided, nothing rolled forward yet. */
  const DecidedState := State(
    map["a" := RefSlot(RefEntry(1, 0, 0), Some(LOCK_A)), "b" := RefSlot(RefEntry(2, 0, 0), Some(LOCK_B))],
    map[(0, 0) := Commit], map[0 := Coordinator(PLAN, 0, Finishing(true, 0))], {}, [CommitPoint(0)])

  lemma DecidedStateReachable()
    ensures Reachable(DecidedState)
  {
    hide Reachable;
    InitialReachable();
    ReachStep(Initial, Begin(0, PLAN, 0));
    var s1 := State(map[], map[(0, 0) := Pending], map[0 := Coordinator(PLAN, 0, Preparing(0))], {}, []);
    assert Next(Initial, Begin(0, PLAN, 0)) == s1;
    ReachStep(s1, CoordPrepare(0, 0));
    var s2 := State(map["a" := RefSlot(RefEntry(1, 0, 0), Some(LOCK_A))], map[(0, 0) := Pending],
                    map[0 := Coordinator(PLAN, 0, Preparing(1))], {}, []);
    assert Next(s1, CoordPrepare(0, 0)) == s2;
    ReachStep(s2, CoordPrepare(0, 0));
    var s3 := State(DecidedState.slots, map[(0, 0) := Pending],
                    map[0 := Coordinator(PLAN, 0, Voted(true))], {}, []);
    assert Next(s2, CoordPrepare(0, 0)) == s3;
    ReachStep(s3, CoordDecide(0));
    assert Next(s3, CoordDecide(0)) == DecidedState;
  }

  /** A pass on the node that hosts only the first ref's shard. */
  lemma FirstPass() returns (s: State)
    ensures Reachable(s) && Advanced(0, "a", None, 1) in s.log
    ensures Locked(s.slots, "b") && s.slots["b"].prepared == Some(LOCK_B) && (0, 0) !in s.records
  {
    DecidedStateReachable();
    ReachStep(DecidedState, ListLock("a"));
    var s1 := Next(DecidedState, ListLock("a"));
    ReachStep(s1, ReadDecision("a", LOCK_A, 30000, 0));
    var s2 := s1.(tasks := s1.tasks + {Resolved("a", LOCK_A, true)});
    assert Next(s1, ReadDecision("a", LOCK_A, 30000, 0)) == s2;
    ReachStep(s2, ResolverAct("a", LOCK_A, true));
    var s3 := Next(s2, ResolverAct("a", LOCK_A, true));
    assert EndRecord(0, 0) in s3.tasks;
    ReachStep(s3, ResolverEnd(0, 0));
    s := Next(s3, ResolverEnd(0, 0));
  }

  /** Two new refs on two shards; the coordinator stops right after its commit
      point. One node rolls the first ref forward and ends the record; the other
      node's pass then finds no record and releases the second ref. */
  lemma ResolversCanSplit()
    ensures exists s :: Reachable(s) && Split(s, 0)
  {
    var s := FirstPass();
    OrphanIsReleased(s, "b", LOCK_B);
    ReachMore(s, OrphanPass("b", LOCK_B));
    assert Split(After(s, OrphanPass("b", LOCK_B)), 0);
  }
}
