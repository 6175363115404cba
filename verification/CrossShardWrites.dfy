/**
 Plain writes beside a transaction. The replicated update and delete look only at a
 ref's committed value, so one that names this value is accepted on a locked ref and
 drops the lock. In every phase in which the transaction can still commit, replies stay
 truthful precisely when no such write happens, or only on a ref it will lock again.
 */
module CrossShardWrites {
  import opened Options
  import opened RefSlots
  import opened CrossShardCommit
  import opened CrossShardAtomicity
  import opened CrossShardReplies
  import opened CrossShardLimits

  /** On a locked ref the shard accepts a plain write exactly if it names the committed value. */
  lemma AcceptedIffNamed(s: State, a: Action)
    requires (a.Update? || a.Delete?) && Locked(s.slots, a.name)
    ensures a.Update? ==> (ApplyUpdate(s.slots, a.name, a.target, a.expected, a.hlc).1 == Updated <==> !WritesSafely(s, a))
    ensures a.Delete? ==> (ApplyDelete(s.slots, a.name, a.current).1 == Deleted <==> !WritesSafely(s, a))
    ensures WritesSafely(s, a) ==> Next(s, a) == s
    ensures !WritesSafely(s, a) ==> !Locked(Next(s, a).slots, a.name)
  {}

  // ----- orderly continuations ---------------------------------------------------------

  /** Some run from `s` to `s'` ends records safely and writes no locked ref. */
  ghost predicate Leads(s: State, s': State) {
    exists more :: IsRun(s, more) && EndsSafelyThroughout(s, more) && WritesSafelyThroughout(s, more) && After(s, more) == s'
  }

  lemma LeadsToItself(s: State)
    ensures Leads(s, s)
  {
    assert IsRun(s, []) && EndsSafelyThroughout(s, []) && WritesSafelyThroughout(s, []) && After(s, []) == s;
  }

  lemma LeadsFirst(s: State, a: Action, s': State)
    requires Enabled(s, a) && EndsSafely(s, a) && WritesSafely(s, a) && Leads(Next(s, a), s')
    ensures Leads(s, s')
  {
    hide Enabled, EndsSafely, WritesSafely, Next;
    var s1 := Next(s, a);
    var rest :| IsRun(s1, rest) && EndsSafelyThroughout(s1, rest) && WritesSafelyThroughout(s1, rest) && After(s1, rest) == s';
    var more := [a] + rest;
    assert more[1..] == rest;
    assert IsRun(s, more) && EndsSafelyThroughout(s, more) && WritesSafelyThroughout(s, more) && After(s, more) == s';
  }

  lemma LeadsStep(s: State, a: Action)
    requires Enabled(s, a) && EndsSafely(s, a) && WritesSafely(s, a)
    ensures Leads(s, Next(s, a))
  {
    hide Leads, Enabled, EndsSafely, WritesSafely, Next;
    LeadsToItself(Next(s, a));
    LeadsFirst(s, a, Next(s, a));
  }

  lemma {:induction false} RunLeads(s: State, more: seq<Action>, s': State)
    requires IsRun(s, more) && EndsSafelyThroughout(s, more) && WritesSafelyThroughout(s, more) && Leads(After(s, more), s')
    ensures Leads(s, s')
    decreases |more|
  {
    hide Leads, Enabled, EndsSafely, WritesSafely, Next;
    if more != [] {
      RunLeads(Next(s, more[0]), more[1..], s');
      LeadsFirst(s, more[0], s');
    }
  }

  lemma LeadsOn(s: State, s': State, s'': State)
    requires Leads(s, s') && Leads(s', s'')
    ensures Leads(s, s'')
  {
    hide IsRun, EndsSafelyThroughout, WritesSafelyThroughout, After;
    var more :| IsRun(s, more) && EndsSafelyThroughout(s, more) && WritesSafelyThroughout(s, more) && After(s, more) == s';
    RunLeads(s, more, s'');
  }

  /** From here on, a committed reply to `t` would be truthful. */
  ghost predicate RepliesTruthfully(s: State, t: TxnId) {
    forall s' :: Leads(s, s') && HasReplied(s', t, true) ==> FullyAdvanced(s', t)
  }

  // ----- a transaction that lost a lock still commits --------------------------------------

  /** `t` has not moved `name` from the value `from` and, with the lock it may hold, will not. */
  ghost predicate Astray(s: State, t: TxnId, name: RefName, from: Option<ObjectId>) {
    && t in s.coords && (LockedBy(s.slots, name, t) ==> Visible(s.slots, name) != from)
    && forall to :: Advanced(t, name, from, to) !in s.log
  }

  /** The rest of a committing sweep with nobody else stepping. */
  lemma {:induction false} FinishAlone(s: State, t: TxnId, name: RefName, from: Option<ObjectId>) returns (s': State)
    requires Astray(s, t, name, from) && PhaseOf(s, t).Finishing? && PhaseOf(s, t).commit
    requires PhaseOf(s, t).next < |s.coords[t].plan|
    ensures Leads(s, s') && HasReplied(s', t, true) && Astray(s', t, name, from) && s'.coords[t].plan == s.coords[t].plan
    decreases |s.coords[t].plan| - PhaseOf(s, t).next
  {
    hide Leads;
    var s1 := Next(s, CoordFinish(t));
    assert Astray(s1, t, name, from);
    if PhaseOf(s1, t).Finishing? {
      s' := FinishAlone(s1, t, name, from);
    } else {
      s' := Next(s1, CoordEnd(t));
      LeadsStep(s1, CoordEnd(t));
    }
    LeadsFirst(s, CoordFinish(t), s');
  }

  /** Nothing has been decided yet. */
  predicate Undecided(s: State, t: TxnId)
    requires t in s.coords
  {
    Lookup(s.records, Key(s, t)) != Some(Abort) && Lookup(s.records, Key(s, t)) != Some(Commit)
  }

  lemma DecideAlone(s: State, t: TxnId, name: RefName, from: Option<ObjectId>) returns (s': State)
    requires Astray(s, t, name, from) && PhaseOf(s, t) == Voted(true) && Undecided(s, t) && s.coords[t].plan != []
    ensures Leads(s, s') && HasReplied(s', t, true) && Astray(s', t, name, from) && s'.coords[t].plan == s.coords[t].plan
  {
    hide Leads;
    var s1 := Next(s, CoordDecide(t));
    assert Astray(s1, t, name, from) && PhaseOf(s1, t) == Finishing(true, 0);
    s' := FinishAlone(s1, t, name, from);
    LeadsFirst(s, CoordDecide(t), s');
  }

  // ----- others can clear the way for the remaining votes ------------------------------------

  /** Only the slot of `ref` changed, and nothing that concerns `t`. */
  ghost predicate Beside(s: State, s': State, t: TxnId, ref: RefName) {
    && s'.coords == s.coords
    && (t in s.coords ==> Lookup(s'.records, Key(s, t)) == Lookup(s.records, Key(s, t)))
    && (forall n :: n != ref ==> (n in s'.slots <==> n in s.slots) && (n in s.slots ==> s'.slots[n] == s.slots[n]))
    && (forall n, from, to :: Advanced(t, n, from, to) in s'.log ==> Advanced(t, n, from, to) in s.log)
  }

  /** A resolver settles a lock that another transaction holds. */
  lemma SettleOther(s: State, t: TxnId, ref: RefName) returns (s': State)
    requires t in s.coords && Locked(s.slots, ref) && !LockedBy(s.slots, ref, t)
    ensures Leads(s, s') && Beside(s, s', t, ref) && !Locked(s'.slots, ref)
  {
    hide Leads;
    var i := s.slots[ref].prepared.value;
    var s1 := Next(s, ListLock(ref));
    var s2 := Next(s1, ReadDecision(ref, i, 0, 0));
    var decision := Lookup(s1.records, (i.coord, i.txn));
    if decision == Some(Commit) || decision == Some(Abort) {
      s' := ActAlone(s2, ref, i, decision == Some(Commit), t);
    } else {
      assert Doubtful(ref, i) in s2.tasks;
      var s3 := Next(s2, ResolverDecide(ref, i));
      assert Resolved(ref, i, false) in s3.tasks;
      s' := ActAlone(s3, ref, i, false, t);
      LeadsFirst(s2, ResolverDecide(ref, i), s');
    }
    LeadsFirst(s1, ReadDecision(ref, i, 0, 0), s');
    LeadsFirst(s, ListLock(ref), s');
  }

  lemma ActAlone(s: State, ref: RefName, i: Intent, commit: bool, t: TxnId) returns (s': State)
    requires Resolved(ref, i, commit) in s.tasks && Locked(s.slots, ref) && s.slots[ref].prepared == Some(i) && i.txn != t
    ensures Leads(s, s') && Beside(s, s', t, ref) && !Locked(s'.slots, ref)
  {
    hide Leads;
    s' := Next(s, ResolverAct(ref, i, commit));
    LeadsStep(s, ResolverAct(ref, i, commit));
  }

  /** Plain writers give a free ref any value, or none. */
  lemma SetFree(s: State, t: TxnId, ref: RefName, value: Option<ObjectId>) returns (s': State)
    requires t in s.coords && !Locked(s.slots, ref)
    ensures Leads(s, s') && Beside(s, s', t, ref) && !Locked(s'.slots, ref) && Visible(s'.slots, ref) == value
  {
    hide Leads;
    LeadsToItself(s);
    if Visible(s.slots, ref) == value { return s; }
    var s1 := s;
    if ref in s.slots {
      s1 := Next(s, Delete(ref, s.slots[ref].committed.target));
      LeadsStep(s, Delete(ref, s.slots[ref].committed.target));
    }
    if value.None? { return s1; }
    s' := Next(s1, Update(ref, value.value, None, 0));
    LeadsStep(s1, Update(ref, value.value, None, 0));
    LeadsOn(s, s1, s');
  }

  /** While preparing, a transaction has locked only refs it has come to, at the value it expected. */
  ghost predicate LocksBehind(s: State, t: TxnId) {
    t in s.coords && PhaseOf(s, t).Preparing? ==>
      forall name :: LockedBy(s.slots, name, t) ==> Came(s, t, name)
  }

  ghost predicate Came(s: State, t: TxnId, name: RefName)
    requires t in s.coords && PhaseOf(s, t).Preparing?
  {
    exists j :: 0 <= j < PhaseOf(s, t).next && j < |s.coords[t].plan| && s.coords[t].plan[j].name == name &&
      s.coords[t].plan[j].expected == Visible(s.slots, name)
  }

  /** From position `k` on, mappings of one ref expect the same of it. */
  predicate Agrees(plan: seq<Mapping>, k: nat) {
    forall i, j :: k <= i < j < |plan| && plan[i].name == plan[j].name ==> plan[i].expected == plan[j].expected
  }

  /** `t` is preparing, has lost ref `name` at the value `from`, and every vote to come can be yes. */
  ghost predicate Preparable(s: State, t: TxnId, name: RefName, from: Option<ObjectId>) {
    && Astray(s, t, name, from) && Undecided(s, t)
    && PhaseOf(s, t).Preparing? && PhaseOf(s, t).next < |s.coords[t].plan|
    && Agrees(s.coords[t].plan, PhaseOf(s, t).next) && !ComesAgain(s.coords[t].plan, name, from, PhaseOf(s, t).next)
    && (forall j :: PhaseOf(s, t).next <= j < |s.coords[t].plan| && LockedBy(s.slots, s.coords[t].plan[j].name, t) ==>
          Visible(s.slots, s.coords[t].plan[j].name) == s.coords[t].plan[j].expected)
  }

  lemma BesideKeepsPreparable(s: State, s': State, t: TxnId, ref: RefName, name: RefName, from: Option<ObjectId>)
    requires Preparable(s, t, name, from) && Beside(s, s', t, ref) && !Locked(s'.slots, ref)
    ensures Preparable(s', t, name, from)
  {
    hide Agrees, ComesAgain;
  }

  /** The next vote can be made a yes. */
  lemma ClearNext(s: State, t: TxnId, name: RefName, from: Option<ObjectId>) returns (s': State)
    requires Preparable(s, t, name, from)
    ensures Leads(s, s') && Preparable(s', t, name, from) && s'.coords == s.coords
    ensures var m := s.coords[t].plan[PhaseOf(s, t).next];
      (Locked(s'.slots, m.name) ==> LockedBy(s'.slots, m.name, t)) && Visible(s'.slots, m.name) == m.expected
  {
    hide Leads, Agrees, ComesAgain;
    var m := s.coords[t].plan[PhaseOf(s, t).next];
    LeadsToItself(s);
    if LockedBy(s.slots, m.name, t) { return s; }
    var s1 := s;
    if Locked(s.slots, m.name) {
      s1 := SettleOther(s, t, m.name);
      BesideKeepsPreparable(s, s1, t, m.name, name, from);
    }
    s' := SetFree(s1, t, m.name, m.expected);
    BesideKeepsPreparable(s1, s', t, m.name, name, from);
    LeadsOn(s, s1, s');
  }

  lemma {:induction false} PrepareAlone(s: State, t: TxnId, name: RefName, from: Option<ObjectId>) returns (s': State)
    requires Preparable(s, t, name, from)
    ensures Leads(s, s') && HasReplied(s', t, true) && Astray(s', t, name, from) && s'.coords[t].plan == s.coords[t].plan
    decreases |s.coords[t].plan| - PhaseOf(s, t).next
  {
    hide Leads;
    var s1 := ClearNext(s, t, name, from);
    var s2 := Next(s1, CoordPrepare(t, 0));
    PrepareMoves(s1, t, name, from);
    if PhaseOf(s2, t).Preparing? {
      s' := PrepareAlone(s2, t, name, from);
    } else {
      s' := DecideAlone(s2, t, name, from);
    }
    LeadsFirst(s1, CoordPrepare(t, 0), s');
    LeadsOn(s, s1, s');
  }

  lemma PrepareMoves(s: State, t: TxnId, name: RefName, from: Option<ObjectId>)
    requires Preparable(s, t, name, from)
    requires var m := s.coords[t].plan[PhaseOf(s, t).next];
      (Locked(s.slots, m.name) ==> LockedBy(s.slots, m.name, t)) && Visible(s.slots, m.name) == m.expected
    ensures var s', k := Next(s, CoordPrepare(t, 0)), PhaseOf(s, t).next;
      && Astray(s', t, name, from) && Undecided(s', t) && s'.coords[t].plan == s.coords[t].plan
      && (if k + 1 == |s.coords[t].plan| then PhaseOf(s', t) == Voted(true)
          else PhaseOf(s', t) == Preparing(k + 1) && Preparable(s', t, name, from))
  {}

  // ----- a transaction that cannot commit any more ---------------------------------------------

  predicate NoHope(s: State, t: TxnId)
    requires t in s.coords
  {
    !Committed(s, t) && (Doomed(s, t) || PhaseOf(s, t) == Voted(false))
  }

  lemma StepKeepsNoHope(s: State, a: Action, t: TxnId)
    requires Inv(s) && t in s.coords && NoHope(s, t) && Enabled(s, a)
    ensures t in Next(s, a).coords && NoHope(Next(s, a), t)
  {
    assert TxnInv(s, t);
    assert UncommittedShape(s, t) && PhaseShape(s, t);
    hide Inv, TxnInv, LocksInPlan;
    if a.CoordDecide? && a.t == t {
      NoHopeDecides(s, t);
    } else {
      NoHopeStays(s, a, t);
    }
  }

  lemma NoHopeDecides(s: State, t: TxnId)
    requires t in s.coords && UncommittedShape(s, t) && NoHope(s, t) && Enabled(s, CoordDecide(t))
    ensures NoHope(Next(s, CoordDecide(t)), t)
  {}

  lemma NoHopeStays(s: State, a: Action, t: TxnId)
    requires t in s.coords && UncommittedShape(s, t) && PhaseShape(s, t) && NoHope(s, t) && Enabled(s, a)
    requires !(a.CoordDecide? && a.t == t)
    ensures t in Next(s, a).coords && NoHope(Next(s, a), t)
  {
    hide NeverAdvanced, NeverReleased, NoneResolved;
    assert CommitPoint(t) in Next(s, a).log ==> CommitPoint(t) in s.log;
  }

  lemma {:induction false} RunKeepsNoHope(s: State, actions: seq<Action>, t: TxnId)
    requires Inv(s) && t in s.coords && NoHope(s, t) && IsRun(s, actions) && EndsSafelyThroughout(s, actions)
    ensures !HasReplied(After(s, actions), t, true)
    decreases |actions|
  {
    hide NoHope, Enabled, Next, EndsSafely;
    if actions == [] {
      NoHopeNoReply(s, t);
    } else {
      StepKeepsNoHope(s, actions[0], t);
      StepKeepsInv(s, actions[0]);
      RunKeepsNoHope(Next(s, actions[0]), actions[1..], t);
    }
  }

  lemma NoHopeNoReply(s: State, t: TxnId)
    requires Inv(s) && t in s.coords && NoHope(s, t)
    ensures !HasReplied(s, t, true)
  {
    assert TxnInv(s, t);
  }

  /** A vote still to come contradicts a lock of `t`, or another vote to come. */
  ghost predicate Stuck(s: State, t: TxnId)
    requires t in s.coords
  {
    var plan, phase := s.coords[t].plan, PhaseOf(s, t);
    && !Committed(s, t) && phase.Preparing? && phase.next < |plan|
    && (!Agrees(plan, phase.next) || exists j :: phase.next <= j < |plan| && Contradicts(s, t, plan[j]))
  }

  predicate Contradicts(s: State, t: TxnId, m: Mapping) {
    LockedBy(s.slots, m.name, t) && Visible(s.slots, m.name) != m.expected
  }

  lemma StepKeepsStuck(s: State, a: Action, t: TxnId)
    requires Inv(s) && t in s.coords && Stuck(s, t) && Enabled(s, a) && WritesSafely(s, a)
    ensures t in Next(s, a).coords && (Stuck(Next(s, a), t) || NoHope(Next(s, a), t))
  {
    var s' := Next(s, a);
    assert TxnInv(s, t);
    if a.CoordPrepare? && a.t == t {
      PrepareKeepsStuck(s, t, a.hlc);
    } else {
      StuckStays(s, a, t);
    }
  }

  lemma PrepareKeepsStuck(s: State, t: TxnId, hlc: nat)
    requires t in s.coords && Stuck(s, t) && Enabled(s, CoordPrepare(t, hlc))
    ensures var s' := Next(s, CoordPrepare(t, hlc)); Stuck(s', t) || NoHope(s', t)
  {
    var s', plan, k := Next(s, CoordPrepare(t, hlc)), s.coords[t].plan, PhaseOf(s, t).next;
    if PhaseOf(s', t) != Voted(false) {
      if j :| k <= j < |plan| && Contradicts(s, t, plan[j]) {
        assert j > k && Contradicts(s', t, plan[j]);
      } else {
        var i, j :| k <= i < j < |plan| && plan[i].name == plan[j].name && plan[i].expected != plan[j].expected;
        if i == k { assert Contradicts(s', t, plan[j]); }
      }
    }
  }

  lemma StuckStays(s: State, a: Action, t: TxnId)
    requires t in s.coords && UncommittedShape(s, t) && Stuck(s, t) && Enabled(s, a) && WritesSafely(s, a)
    requires !(a.CoordPrepare? && a.t == t)
    ensures t in Next(s, a).coords && (Stuck(Next(s, a), t) || NoHope(Next(s, a), t))
  {
    var s', plan, k := Next(s, a), s.coords[t].plan, PhaseOf(s, t).next;
    LocksStay(s, a, t);
    hide Agrees, Next, UncommittedShape;
    if !NoHope(s', t) {
      if j :| k <= j < |plan| && Contradicts(s, t, plan[j]) { assert Contradicts(s', t, plan[j]); }
    }
  }

  lemma PreparingStays(s: State, a: Action, t: TxnId)
    requires t in s.coords && PhaseOf(s, t).Preparing? && !Committed(s, t) && Enabled(s, a) && !(a.CoordPrepare? && a.t == t)
    ensures t in Next(s, a).coords && Next(s, a).coords[t] == s.coords[t] && !Committed(Next(s, a), t)
  {}

  /** Nothing but an abort takes a lock from a transaction that is still preparing. */
  lemma LocksStay(s: State, a: Action, t: TxnId)
    requires t in s.coords && UncommittedShape(s, t) && PhaseOf(s, t).Preparing? && !Committed(s, t)
    requires Enabled(s, a) && WritesSafely(s, a) && !(a.CoordPrepare? && a.t == t)
    ensures var s' := Next(s, a);
      && t in s'.coords && s'.coords[t] == s.coords[t] && !Committed(s', t)
      && (NoHope(s', t) || forall n :: LockedBy(s.slots, n, t) ==> n in s'.slots && s'.slots[n] == s.slots[n])
  {
    PreparingStays(s, a, t);
    if a.ResolverAct? && a.intent.txn == t {
      assert Doomed(s, t);
    } else if a.Batch? {
      BatchSparesLocks(s, a);
    }
    hide UncommittedShape, Committed, InstallBatch;
  }

  lemma BatchSparesLocks(s: State, a: Action)
    requires a.Batch?
    ensures forall n :: Locked(s.slots, n) ==> n in Next(s, a).slots && Next(s, a).slots[n] == s.slots[n]
  {
    if forall i :: 0 <= i < |a.ops| ==> BatchOpHolds(s.slots, a.ops[i].change) {
      forall n | Locked(s.slots, n) ensures n in Next(s, a).slots && Next(s, a).slots[n] == s.slots[n] {
        InstallBatchKeepsLocked(s.slots, s.slots, a.ops, n);
      }
    }
  }

  lemma {:induction false} StuckNeverReplies(s: State, actions: seq<Action>, t: TxnId)
    requires Inv(s) && t in s.coords && Stuck(s, t) && IsRun(s, actions)
    requires EndsSafelyThroughout(s, actions) && WritesSafelyThroughout(s, actions)
    ensures !HasReplied(After(s, actions), t, true)
    decreases |actions|
  {
    if actions != [] {
      hide NoHope, Enabled, Next, EndsSafely, Inv, WritesSafely, Stuck;
      StepKeepsStuck(s, actions[0], t);
      StepKeepsInv(s, actions[0]);
      if Stuck(Next(s, actions[0]), t) {
        StuckNeverReplies(Next(s, actions[0]), actions[1..], t);
      } else {
        RunKeepsNoHope(Next(s, actions[0]), actions[1..], t);
      }
    }
  }

  // ----- the exact condition ---------------------------------------------------------------------

  lemma AstrayIsNotAdvanced(s: State, t: TxnId, name: RefName, from: Option<ObjectId>, j: nat)
    requires Astray(s, t, name, from) && j < |s.coords[t].plan| && s.coords[t].plan[j].name == name && s.coords[t].plan[j].expected == from
    ensures !FullyAdvanced(s, t)
  {
    assert !AdvancedAsPlanned(s, t, j);
  }

  lemma WriteLeadsAstray(s: State, t: TxnId, a: Action, from: Option<ObjectId>)
    requires AdvancesOnce(s) && t in s.coords && (a.Update? || a.Delete?)
    requires LockedBy(s.slots, a.name, t) && !WritesSafely(s, a)
    ensures Astray(Next(s, a), t, a.name, from) && Next(s, a).coords == s.coords && Next(s, a).records == s.records
    ensures !Locked(Next(s, a).slots, a.name)
    ensures forall n :: n != a.name && n in s.slots ==> n in Next(s, a).slots && Next(s, a).slots[n] == s.slots[n]
    ensures forall n :: LockedBy(Next(s, a).slots, n, t) ==> n != a.name && LockedBy(s.slots, n, t)
  {
    LockedIsUnmoved(s, t, a.name);
  }

  lemma LockedIsUnmoved(s: State, t: TxnId, name: RefName)
    requires AdvancesOnce(s) && LockedBy(s.slots, name, t)
    ensures forall from, to :: Advanced(t, name, from, to) !in s.log
  {}

  /** The mappings to come will take the lost lock again as if nothing had happened. */
  predicate Retaken(s: State, t: TxnId, name: RefName)
    requires t in s.coords
  {
    PhaseOf(s, t).Preparing? && ComesAgain(s.coords[t].plan, name, Visible(s.slots, name), PhaseOf(s, t).next)
  }

  /** Two mappings of one ref expect different things of it; the later one is still to
      come, and the earlier one too unless it is of `name`. */
  predicate Clashes(s: State, t: TxnId, name: RefName)
    requires t in s.coords
  {
    var plan, phase := s.coords[t].plan, PhaseOf(s, t);
    phase.Preparing? && exists i, j :: 0 <= i < j < |plan| && phase.next <= j &&
                                       Differ(plan[i], plan[j]) && (phase.next <= i || plan[i].name != name)
  }

  predicate Differ(m: Mapping, m': Mapping) {
    m.name == m'.name && m.expected != m'.expected
  }

  /** Once such a write is accepted, there is a continuation whose committed reply is untrue. */
  lemma AcceptedWriteMisleads(s: State, t: TxnId, a: Action)
    requires Inv(s) && Progress(s) && LocksBehind(s, t) && t in s.coords && !NoHope(s, t)
    requires (a.Update? || a.Delete?) && LockedBy(s.slots, a.name, t) && !WritesSafely(s, a)
    requires !Retaken(s, t, a.name) && !Clashes(s, t, a.name)
    ensures !RepliesTruthfully(Next(s, a), t)
  {
    assert TxnInv(s, t) && InPlan(s.coords[t], a.name);
    var j := WhereLocked(s, t, a.name);
    var from := s.coords[t].plan[j].expected;
    WriteLeadsAstray(s, t, a, from);
    hide Leads, Next, Progress;
    var s1, s' := Next(s, a), s;
    if PhaseOf(s, t).Preparing? {
      LeavesPreparable(s, t, a, from);
      s' := PrepareAlone(s1, t, a.name, from);
    } else if PhaseOf(s, t).Voted? {
      s' := DecideAlone(s1, t, a.name, from);
    } else {
      s' := FinishAlone(s1, t, a.name, from);
    }
    AstrayIsNotAdvanced(s', t, a.name, from, j);
  }

  /** The mapping under which `t` took its lock on `name`. */
  lemma WhereLocked(s: State, t: TxnId, name: RefName) returns (j: nat)
    requires t in s.coords && LocksInPlan(s, t) && LocksBehind(s, t) && LockedBy(s.slots, name, t)
    ensures j < |s.coords[t].plan| && s.coords[t].plan[j].name == name
    ensures PhaseOf(s, t).Preparing? ==> j < PhaseOf(s, t).next && s.coords[t].plan[j].expected == Visible(s.slots, name)
  {
    if PhaseOf(s, t).Preparing? {
      assert Came(s, t, name);
      j :| 0 <= j < PhaseOf(s, t).next && j < |s.coords[t].plan| && s.coords[t].plan[j].name == name &&
        s.coords[t].plan[j].expected == Visible(s.slots, name);
    } else {
      assert InPlan(s.coords[t], name);
      j :| 0 <= j < |s.coords[t].plan| && s.coords[t].plan[j].name == name;
    }
  }

  lemma LeavesPreparable(s: State, t: TxnId, a: Action, from: Option<ObjectId>)
    requires AdvancesOnce(s) && t in s.coords && LocksInPlan(s, t) && LocksBehind(s, t) && Undecided(s, t)
    requires PhaseOf(s, t).Preparing? && PhaseOf(s, t).next < |s.coords[t].plan|
    requires (a.Update? || a.Delete?) && LockedBy(s.slots, a.name, t) && !WritesSafely(s, a)
    requires from == Visible(s.slots, a.name) && !Retaken(s, t, a.name) && !Clashes(s, t, a.name)
    ensures Preparable(Next(s, a), t, a.name, from)
  {
    WriteLeadsAstray(s, t, a, from);
    var s1, plan, k := Next(s, a), s.coords[t].plan, PhaseOf(s, t).next;
    hide Next, AdvancesOnce, LocksBehind, LocksInPlan;
    forall j | k <= j < |plan| && LockedBy(s1.slots, plan[j].name, t) ensures Visible(s1.slots, plan[j].name) == plan[j].expected {
      var i := WhereLocked(s, t, plan[j].name);
    }
  }

  lemma ProgressIsTruthful(s: State, t: TxnId)
    requires Inv(s) && Progress(s)
    ensures RepliesTruthfully(s, t)
  {
    hide Inv, Progress, Next, FullyAdvanced, IsRun, After, EndsSafelyThroughout, WritesSafelyThroughout;
    forall s' | Leads(s, s') && HasReplied(s', t, true) ensures FullyAdvanced(s', t) {
      var more :| IsRun(s, more) && EndsSafelyThroughout(s, more) && WritesSafelyThroughout(s, more) && After(s, more) == s';
      RunKeepsProgress(s, more);
      ReplyIsComplete(s', t);
    }
  }

  lemma SafeWriteIsHarmless(s: State, t: TxnId, a: Action)
    requires Inv(s) && Progress(s) && t in s.coords && (a.Update? || a.Delete?) && WritesSafely(s, a)
    ensures RepliesTruthfully(Next(s, a), t)
  {
    StepKeepsInv(s, a);
    StepKeepsProgress(s, a);
    hide Inv, Progress, Next, FullyAdvanced;
    ProgressIsTruthful(Next(s, a), t);
  }

  lemma HopelessIsTruthful(s: State, t: TxnId, a: Action)
    requires Inv(s) && t in s.coords && NoHope(s, t) && (a.Update? || a.Delete?)
    ensures RepliesTruthfully(Next(s, a), t)
  {
    StepKeepsInv(s, a);
    StepKeepsNoHope(s, a, t);
    hide Inv, NoHope, Next, FullyAdvanced, IsRun, After, EndsSafelyThroughout, WritesSafelyThroughout;
    var s1 := Next(s, a);
    forall s' | Leads(s1, s') ensures !HasReplied(s', t, true) {
      var more :| IsRun(s1, more) && EndsSafelyThroughout(s1, more) && WritesSafelyThroughout(s1, more) && After(s1, more) == s';
      RunKeepsNoHope(s1, more, t);
    }
  }

  /** A lock that will be taken again does not matter. */
  lemma RetakenIsHarmless(s: State, t: TxnId, a: Action)
    requires Inv(s) && Progress(s) && t in s.coords && !Committed(s, t)
    requires (a.Update? || a.Delete?) && LockedBy(s.slots, a.name, t) && !WritesSafely(s, a) && Retaken(s, t, a.name)
    ensures RepliesTruthfully(Next(s, a), t)
  {
    RetakenKeepsProgress(s, t, a);
    StepKeepsInv(s, a);
    hide Inv, Progress, Next, FullyAdvanced;
    ProgressIsTruthful(Next(s, a), t);
  }

  lemma RetakenKeepsProgress(s: State, t: TxnId, a: Action)
    requires Progress(s) && t in s.coords && !Committed(s, t)
    requires (a.Update? || a.Delete?) && LockedBy(s.slots, a.name, t) && !WritesSafely(s, a) && Retaken(s, t, a.name)
    ensures Progress(Next(s, a))
  {
    var s', plan, k := Next(s, a), s.coords[t].plan, PhaseOf(s, t).next;
    WriteLeadsAstray(s, t, a, None);
    assert AdvancesOnce(s');
    hide Next;
    forall o | o in s.coords && o != t ensures Undisturbed(s, s', o) {}
    if !Doomed(s, t) {
      forall j | 0 <= j < k ensures Ready(s', t, j, k) || ComesAgain(plan, plan[j].name, plan[j].expected, k) {
        if Ready(s, t, j, k) && plan[j].name != a.name { assert Ready(s', t, j, k); }
      }
    }
    assert TxnProgress(s', t);
    AssembleProgress(s, s', t);
  }

  /** A contradictory plan never commits. */
  lemma ClashIsHarmless(s: State, t: TxnId, a: Action)
    requires Inv(s) && Progress(s) && t in s.coords && !NoHope(s, t)
    requires (a.Update? || a.Delete?) && LockedBy(s.slots, a.name, t) && !WritesSafely(s, a) && Clashes(s, t, a.name)
    ensures RepliesTruthfully(Next(s, a), t)
  {
    ClashSticks(s, t, a);
    StepKeepsInv(s, a);
    hide Inv, Stuck, Next, FullyAdvanced, IsRun, After, EndsSafelyThroughout, WritesSafelyThroughout;
    var s1 := Next(s, a);
    forall s' | Leads(s1, s') ensures !HasReplied(s', t, true) {
      var more :| IsRun(s1, more) && EndsSafelyThroughout(s1, more) && WritesSafelyThroughout(s1, more) && After(s1, more) == s';
      StuckNeverReplies(s1, more, t);
    }
  }

  lemma ClashSticks(s: State, t: TxnId, a: Action)
    requires Inv(s) && Progress(s) && t in s.coords && !NoHope(s, t)
    requires (a.Update? || a.Delete?) && LockedBy(s.slots, a.name, t) && !WritesSafely(s, a) && Clashes(s, t, a.name)
    ensures t in Next(s, a).coords && Stuck(Next(s, a), t)
  {
    assert TxnInv(s, t) && TxnProgress(s, t);
    WriteLeadsAstray(s, t, a, None);
    var s' := Next(s, a);
    assert !Committed(s, t) && !Committed(s', t);
    hide Next, Inv, TxnInv, Clashes, Ready, ComesAgain;
    ClashSticksOn(s, s', t, a.name);
  }

  lemma ClashSticksOn(s: State, s': State, t: TxnId, name: RefName)
    requires t in s.coords && s'.coords == s.coords && !Committed(s', t) && Clashes(s, t, name)
    requires forall n :: n != name && n in s.slots ==> n in s'.slots && s'.slots[n] == s.slots[n]
    requires var plan, k := s.coords[t].plan, PhaseOf(s, t).next;
      k < |plan| && forall i :: 0 <= i < k ==> Ready(s, t, i, k) || ComesAgain(plan, plan[i].name, plan[i].expected, k)
    ensures Stuck(s', t)
  {
    var plan, k := s.coords[t].plan, PhaseOf(s, t).next;
    var i, j :| 0 <= i < j < |plan| && k <= j && Differ(plan[i], plan[j]) && (k <= i || plan[i].name != name);
    hide Agrees, ComesAgain, LastTarget;
    if i < k && Ready(s, t, i, k) {
      assert Contradicts(s', t, plan[j]);
    } else {
      ComingApart(plan, k, i, j);
    }
  }

  lemma ComingApart(plan: seq<Mapping>, k: nat, i: nat, j: nat)
    requires i < j < |plan| && k <= j && Differ(plan[i], plan[j])
    requires k <= i || ComesAgain(plan, plan[i].name, plan[i].expected, k)
    ensures !Agrees(plan, k)
  {
    var i' :| k <= i' < |plan| && plan[i'].name == plan[i].name && plan[i'].expected == plan[i].expected;
  }

  /** In every phase, a plain write on a ref that `t` has locked leaves committed replies
      truthful exactly if it does not name the committed value, or `t` cannot commit any
      more, be it for a contradiction in its plan, or `t` will take the lock again. */
  lemma WriteIsSafeIff(s: State, t: TxnId, a: Action)
    requires Inv(s) && Progress(s) && LocksBehind(s, t) && t in s.coords
    requires (a.Update? || a.Delete?) && LockedBy(s.slots, a.name, t)
    ensures RepliesTruthfully(Next(s, a), t) <==>
      WritesSafely(s, a) || NoHope(s, t) || Retaken(s, t, a.name) || Clashes(s, t, a.name)
  {
    assert TxnInv(s, t) && (PhaseOf(s, t).Preparing? ==> !Committed(s, t));
    hide Inv, Progress, LocksBehind, RepliesTruthfully, WritesSafely, NoHope, Next;
    if WritesSafely(s, a) {
      SafeWriteIsHarmless(s, t, a);
    } else if NoHope(s, t) {
      HopelessIsTruthful(s, t, a);
    } else if Retaken(s, t, a.name) {
      RetakenIsHarmless(s, t, a);
    } else if Clashes(s, t, a.name) {
      ClashIsHarmless(s, t, a);
    } else {
      AcceptedWriteMisleads(s, t, a);
    }
  }

  lemma StepKeepsLocksBehind(s: State, a: Action, t: TxnId)
    requires Inv(s) && LocksBehind(s, t) && Enabled(s, a)
    ensures LocksBehind(Next(s, a), t)
  {
    var s' := Next(s, a);
    assert a.Begin? && a.t == t ==> forall name :: !LockedBy(s.slots, name, t);
    hide Inv;
    if a.CoordPrepare? && a.t == t {
      PrepareKeepsLocksBehind(s, t, a.hlc);
    } else if t in s'.coords && PhaseOf(s', t).Preparing? {
      NoNewLocksFor(s, a, t);
      forall name | LockedBy(s'.slots, name, t) ensures Came(s', t, name) { assert LockedBy(s.slots, name, t) && Came(s, t, name); }
    }
  }

  lemma PrepareKeepsLocksBehind(s: State, t: TxnId, hlc: nat)
    requires LocksBehind(s, t) && Enabled(s, CoordPrepare(t, hlc))
    ensures LocksBehind(Next(s, CoordPrepare(t, hlc)), t)
  {
    var s', k := Next(s, CoordPrepare(t, hlc)), PhaseOf(s, t).next;
    if PhaseOf(s', t).Preparing? {
      forall name | LockedBy(s'.slots, name, t) ensures Came(s', t, name) {
        if name == s.coords[t].plan[k].name {
          assert s'.coords[t].plan[k].name == name && s'.coords[t].plan[k].expected == Visible(s'.slots, name);
        } else {
          assert LockedBy(s.slots, name, t) && Came(s, t, name);
          var j :| 0 <= j < k && j < |s.coords[t].plan| && s.coords[t].plan[j].name == name &&
            s.coords[t].plan[j].expected == Visible(s.slots, name);
          assert s'.coords[t].plan[j].name == name && s'.coords[t].plan[j].expected == Visible(s'.slots, name);
        }
      }
    }
  }

  lemma NoNewLocksFor(s: State, a: Action, t: TxnId)
    requires Enabled(s, a) && !(a.CoordPrepare? && a.t == t)
    requires t in Next(s, a).coords && PhaseOf(Next(s, a), t).Preparing?
    ensures forall name :: LockedBy(Next(s, a).slots, name, t) ==> LockedBy(s.slots, name, t) && Next(s, a).slots[name] == s.slots[name]
    ensures t in s.coords ==> Next(s, a).coords[t] == s.coords[t]
    ensures t !in s.coords ==> a.Begin? && a.t == t
  {
    if a.Batch? {
      InstallBatchLocks(s.slots, s.slots, a.ops);
      BatchSparesLocks(s, a);
    }
  }

  lemma {:induction false} RunKeepsLocksBehind(s: State, actions: seq<Action>, t: TxnId)
    requires Inv(s) && LocksBehind(s, t) && IsRun(s, actions) && EndsSafelyThroughout(s, actions)
    ensures LocksBehind(After(s, actions), t)
    decreases |actions|
  {
    hide Inv, LocksBehind, Enabled, Next, EndsSafely;
    if actions != [] {
      StepKeepsLocksBehind(s, actions[0], t);
      StepKeepsInv(s, actions[0]);
      RunKeepsLocksBehind(Next(s, actions[0]), actions[1..], t);
    }
  }

  /** At any point of any orderly run, whoever holds the lock. */
  lemma WriteIsSafeInRunsIff(actions: seq<Action>, t: TxnId, a: Action)
    requires IsRun(Initial, actions) && EndsSafelyThroughout(Initial, actions) && WritesSafelyThroughout(Initial, actions)
    requires (a.Update? || a.Delete?) && LockedBy(After(Initial, actions).slots, a.name, t) && t in After(Initial, actions).coords
    ensures var s := After(Initial, actions);
      RepliesTruthfully(Next(s, a), t) <==>
        WritesSafely(s, a) || NoHope(s, t) || Retaken(s, t, a.name) || Clashes(s, t, a.name)
  {
    hide IsRun, After, EndsSafelyThroughout, WritesSafelyThroughout, RepliesTruthfully, WritesSafely, NoHope, Next, Retaken, Clashes;
    RunKeepsProgress(Initial, actions);
    RunKeepsLocksBehind(Initial, actions, t);
    WriteIsSafeIff(After(Initial, actions), t, a);
  }

  // ----- a run that misleads ----------------------------------------------------------------------

  const MOVE := [Mapping("a", 1, Some(5)), Mapping("b", 2, None)]

  /** An existing ref and a new one, both locked by transaction 0, all votes yes. */
  const VotedState := State(
    map["a" := RefSlot(RefEntry(5, 0, 1), Some(LOCK_A)), "b" := RefSlot(RefEntry(2, 0, 0), Some(LOCK_B))],
    map[(0, 0) := Pending], map[0 := Coordinator(MOVE, 0, Voted(true))], {}, [])

  lemma VotedStateReachable()
    ensures Sound(VotedState)
  {
    hide Sound;
    assert Sound(Initial) by { InitialSound(); }
    SoundStep(Initial, Update("a", 5, None, 0));
    var free := map["a" := RefSlot(RefEntry(5, 0, 1), None)];
    var s1 := State(free, map[], map[], {}, []);
    assert Next(Initial, Update("a", 5, None, 0)) == s1;
    SoundStep(s1, Begin(0, MOVE, 0));
    var s2 := State(free, map[(0, 0) := Pending], map[0 := Coordinator(MOVE, 0, Preparing(0))], {}, []);
    assert Next(s1, Begin(0, MOVE, 0)) == s2;
    PrepareBoth(s2);
  }

  lemma PrepareBoth(s: State)
    requires Sound(s)
    requires s == State(map["a" := RefSlot(RefEntry(5, 0, 1), None)], map[(0, 0) := Pending],
                        map[0 := Coordinator(MOVE, 0, Preparing(0))], {}, [])
    ensures Sound(VotedState)
  {
    hide Sound;
    var s1 := State(map["a" := RefSlot(RefEntry(5, 0, 1), Some(LOCK_A))], map[(0, 0) := Pending],
                    map[0 := Coordinator(MOVE, 0, Preparing(1))], {}, []);
    assert Next(s, CoordPrepare(0, 0)) == s1;
    SoundStep(s, CoordPrepare(0, 0));
    PrepareSecond(s1);
  }

  lemma PrepareSecond(s: State)
    requires Sound(s)
    requires s == State(map["a" := RefSlot(RefEntry(5, 0, 1), Some(LOCK_A))], map[(0, 0) := Pending],
                        map[0 := Coordinator(MOVE, 0, Preparing(1))], {}, [])
    ensures Sound(VotedState)
  {
    hide Sound;
    assert Next(s, CoordPrepare(0, 0)) == VotedState;
    SoundStep(s, CoordPrepare(0, 0));
  }

  /** Reached from the empty cluster, with all that holds of orderly runs. */
  ghost predicate Sound(s: State) { Reachable(s) && Inv(s) && Progress(s) }

  lemma InitialSound()
    ensures Sound(Initial)
  {
    InitialReachable();
  }

  lemma SoundStep(s: State, a: Action)
    requires Sound(s) && Enabled(s, a) && EndsSafely(s, a) && WritesSafely(s, a)
    ensures Sound(Next(s, a))
  {
    hide Inv, Reachable, Progress, Next, Enabled, EndsSafely, WritesSafely;
    ReachStep(s, a);
    StepKeepsInv(s, a);
    StepKeepsProgress(s, a);
  }

  /** A plain update of the locked ref is accepted and drops the lock; the
      transaction still replies committed, without having moved that ref. */
  lemma PlainWriteCanMislead()
    ensures exists s :: Reachable(s) && HasReplied(s, 0, true) && !FullyAdvanced(s, 0)
  {
    VotedStateReachable();
    var a := Update("a", 9, Some(5), 0);
    AcceptedWriteMisleads(VotedState, 0, a);
    ReachStep(VotedState, a);
    var s := Next(VotedState, a);
    var s' :| Leads(s, s') && HasReplied(s', 0, true) && !FullyAdvanced(s', 0);
    var more :| IsRun(s, more) && After(s, more) == s';
    ReachMore(s, more);
  }
}
