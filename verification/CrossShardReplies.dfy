/**
 What a reply means. When resolvers end records safely and no plain write is
 accepted on a locked ref, a committed reply means every planned ref was advanced
 by the transaction exactly once, from the value it expected; an aborted reply
 means it advances nothing, then or later.
 */
module CrossShardReplies {
  import opened Options
  import opened RefSlots
  import opened CrossShardCommit
  import opened CrossShardAtomicity

  /** The target staged for `name` once the whole of `plan` has been prepared. */
  function LastTarget(plan: seq<Mapping>, name: RefName): Option<ObjectId>
    decreases |plan|
  {
    if plan == [] then None
    else if plan[|plan| - 1].name == name then Some(plan[|plan| - 1].target)
    else LastTarget(plan[..|plan| - 1], name)
  }

  /** The ref of mapping `j` is locked, unmoved, and staged as the first `k` mappings say. */
  predicate Ready(s: State, t: TxnId, j: nat, k: nat)
    requires t in s.coords && j < |s.coords[t].plan| && k <= |s.coords[t].plan|
  {
    var m := s.coords[t].plan[j];
    && LockedBy(s.slots, m.name, t)
    && Visible(s.slots, m.name) == m.expected
    && Some(s.slots[m.name].prepared.value.target) == LastTarget(s.coords[t].plan[..k], m.name)
  }

  /** From position `k` on, the plan names the ref again and expects the same of it. */
  predicate ComesAgain(plan: seq<Mapping>, name: RefName, expected: Option<ObjectId>, k: nat) {
    exists i :: k <= i < |plan| && plan[i].name == name && plan[i].expected == expected
  }

  predicate AdvancedAsPlanned(s: State, t: TxnId, j: nat)
    requires t in s.coords && j < |s.coords[t].plan|
  {
    var m := s.coords[t].plan[j];
    var to := LastTarget(s.coords[t].plan, m.name);
    to.Some? && Advanced(t, m.name, m.expected, to.value) in s.log
  }

  ghost predicate TxnProgress(s: State, t: TxnId)
    requires t in s.coords
  {
    var c := s.coords[t];
    if Committed(s, t) then forall j :: 0 <= j < |c.plan| ==> AdvancedAsPlanned(s, t, j) || Ready(s, t, j, |c.plan|)
    else if Doomed(s, t) then true
    else match c.phase
      case Preparing(next) =>
        next <= |c.plan| && forall j :: 0 <= j < next ==>
          Ready(s, t, j, next) || ComesAgain(c.plan, c.plan[j].name, c.plan[j].expected, next)
      case Voted(true) => forall j :: 0 <= j < |c.plan| ==> Ready(s, t, j, |c.plan|)
      case _ => true
  }

  predicate SameAdvance(e: Event, e': Event) {
    e.Advanced? && e'.Advanced? && e.txn == e'.txn && e.name == e'.name
  }

  ghost predicate AdvancesOnce(s: State) {
    && (forall i, j :: 0 <= i < j < |s.log| ==> !SameAdvance(s.log[i], s.log[j]))
    && (forall e :: e in s.log && e.Advanced? ==> !LockedBy(s.slots, e.name, e.txn))
  }

  ghost predicate Progress(s: State) {
    && AdvancesOnce(s)
    && forall t :: t in s.coords ==> TxnProgress(s, t)
  }

  /** The step left the locked refs of `t`, and its log entries, in place. */
  ghost predicate Undisturbed(s: State, s': State, t: TxnId)
    requires t in s.coords
  {
    && t in s'.coords && s'.coords[t] == s.coords[t]
    && Committed(s', t) == Committed(s, t)
    && (!Doomed(s', t) ==> !Doomed(s, t))
    && (forall name :: LockedBy(s.slots, name, t) ==> name in s'.slots && s'.slots[name] == s.slots[name])
    && (forall e :: e in s.log ==> e in s'.log)
  }

  lemma FrameProgress(s: State, s': State, t: TxnId)
    requires t in s.coords && TxnProgress(s, t) && Undisturbed(s, s', t)
    ensures TxnProgress(s', t)
  {
    var c := s.coords[t];
    assert forall j, k :: 0 <= j < |c.plan| && 0 <= k <= |c.plan| && Ready(s, t, j, k) ==> Ready(s', t, j, k);
    assert forall j :: 0 <= j < |c.plan| && AdvancedAsPlanned(s, t, j) ==> AdvancedAsPlanned(s', t, j);
  }

  lemma AssembleProgress(s: State, s': State, t: TxnId)
    requires Progress(s) && AdvancesOnce(s') && t in s.coords && s'.coords.Keys == s.coords.Keys
    requires forall o :: o in s.coords && o != t ==> Undisturbed(s, s', o)
    requires TxnProgress(s', t)
    ensures Progress(s')
  {
    forall o | o in s.coords ensures TxnProgress(s', o) { if o != t { FrameProgress(s, s', o); } }
  }

  /** Steps that neither lock nor log, and keep every locked slot. */
  lemma QuietKeepsProgress(s: State, s': State)
    requires Progress(s) && s'.coords == s.coords && s'.log == s.log && NoNewLocks(s.slots, s'.slots)
    requires forall name :: Locked(s.slots, name) ==> name in s'.slots && s'.slots[name] == s.slots[name]
    requires forall t :: t in s.coords && !Doomed(s', t) && !Committed(s, t) ==> !Doomed(s, t)
    ensures Progress(s')
  {
    forall t | t in s.coords ensures TxnProgress(s', t) {
      if Committed(s, t) || !Doomed(s', t) {
        var c := s.coords[t];
        assert forall j, k :: 0 <= j < |c.plan| && 0 <= k <= |c.plan| && Ready(s, t, j, k) ==> Ready(s', t, j, k);
        assert forall j :: 0 <= j < |c.plan| && AdvancedAsPlanned(s, t, j) ==> AdvancedAsPlanned(s', t, j);
      }
    }
  }

  lemma {:induction false} InstallBatchKeepsLocked(now: Slots, snapshot: Slots, ops: seq<BatchOp>, name: RefName)
    requires forall i :: 0 <= i < |ops| ==> ops[i].change.name != name
    requires name in now
    ensures name in InstallBatch(now, snapshot, ops) && InstallBatch(now, snapshot, ops)[name] == now[name]
    decreases |ops|
  {
    if ops != [] {
      var m := ops[0].change;
      var version := if m.name in snapshot then snapshot[m.name].committed.version + 1 else 1;
      InstallBatchKeepsLocked(now[m.name := RefSlot(RefEntry(m.target, ops[0].hlc, version), None)], snapshot, ops[1..], name);
    }
  }

  lemma PlainWriteKeepsProgress(s: State, a: Action)
    requires Progress(s) && Enabled(s, a) && (a.Update? || a.Delete? || a.Batch?) && WritesSafely(s, a)
    ensures Progress(Next(s, a))
  {
    if a.Batch? {
      InstallBatchLocks(s.slots, s.slots, a.ops);
      forall name | Locked(s.slots, name) ensures name in Next(s, a).slots && Next(s, a).slots[name] == s.slots[name] {
        if forall i :: 0 <= i < |a.ops| ==> BatchOpHolds(s.slots, a.ops[i].change) {
          InstallBatchKeepsLocked(s.slots, s.slots, a.ops, name);
        }
      }
    }
    QuietKeepsProgress(s, Next(s, a));
  }

  lemma TaskStepKeepsProgress(s: State, a: Action)
    requires Progress(s) && Inv(s) && Enabled(s, a)
    requires a.ListLock? || a.ReadDecision? || a.ResolverDecide? || (a.ResolverEnd? && EndsSafely(s, a))
    ensures Progress(Next(s, a))
  {
    hide Progress, Inv, Doomed, Committed;
    forall t | t in s.coords && !Doomed(Next(s, a), t) && !Committed(s, t) ensures !Doomed(s, t) {
      if Doomed(s, t) { TaskStepDoomStays(s, a, t); }
    }
    QuietKeepsProgress(s, Next(s, a));
  }

  lemma TaskStepDoomStays(s: State, a: Action, t: TxnId)
    requires Inv(s) && Enabled(s, a) && t in s.coords && !Committed(s, t) && Doomed(s, t)
    requires a.ListLock? || a.ReadDecision? || a.ResolverDecide? || (a.ResolverEnd? && EndsSafely(s, a))
    ensures Doomed(Next(s, a), t)
  {
    assert TxnInv(s, t) && NoEndRecord(s, t);
  }

  lemma BeginKeepsProgress(s: State, a: Action)
    requires Progress(s) && Inv(s) && Enabled(s, a) && a.Begin?
    ensures Progress(Next(s, a))
  {
    var s' := Next(s, a);
    forall t | t in s.coords ensures TxnProgress(s', t) { FrameProgress(s, s', t); }
    assert !Committed(s', a.t);
  }

  lemma PrepareReadies(s: State, t: TxnId, hlc: nat, j: nat)
    requires Enabled(s, CoordPrepare(t, hlc)) && j <= PhaseOf(s, t).next && PhaseOf(Prepared(s, t, hlc), t) != Voted(false)
    requires var plan, k := s.coords[t].plan, PhaseOf(s, t).next;
      Ready(s, t, j, k) || (plan[k].name == plan[j].name && plan[k].expected == plan[j].expected)
    ensures Ready(Prepared(s, t, hlc), t, j, PhaseOf(s, t).next + 1)
  {
    var plan, k := s.coords[t].plan, PhaseOf(s, t).next;
    assert plan[..k + 1][..k] == plan[..k];
  }

  lemma PrepareKeepsOwn(s: State, t: TxnId, hlc: nat)
    requires Progress(s) && Inv(s) && Enabled(s, CoordPrepare(t, hlc))
    ensures TxnProgress(Prepared(s, t, hlc), t)
  {
    var s', plan, k := Prepared(s, t, hlc), s.coords[t].plan, PhaseOf(s, t).next;
    assert TxnInv(s, t) && !Committed(s', t);
    assert Doomed(s', t) == Doomed(s, t);
    hide Inv, Doomed, Ready;
    if !Doomed(s, t) && PhaseOf(s', t) != Voted(false) {
      forall j | 0 <= j < k + 1 ensures Ready(s', t, j, k + 1) || ComesAgain(plan, plan[j].name, plan[j].expected, k + 1) {
        if j == k || Ready(s, t, j, k) {
          PrepareReadies(s, t, hlc, j);
        } else {
          var i :| k <= i < |plan| && plan[i].name == plan[j].name && plan[i].expected == plan[j].expected;
          if i == k { PrepareReadies(s, t, hlc, j); }
        }
      }
      assert plan[..|plan|] == plan;
    }
  }

  lemma PrepareKeepsProgress(s: State, a: Action)
    requires Progress(s) && Inv(s) && Enabled(s, a) && a.CoordPrepare?
    ensures Progress(Next(s, a))
  {
    PrepareKeepsOwn(s, a.t, a.hlc);
    PrepareAdvancesOnce(s, a.t, a.hlc);
    PrepareDisturbsNoOther(s, a.t, a.hlc);
    hide Inv, TxnProgress, Undisturbed, AdvancesOnce, Next, Enabled;
    AssembleProgress(s, Next(s, a), a.t);
  }

  lemma PrepareAdvancesOnce(s: State, t: TxnId, hlc: nat)
    requires AdvancesOnce(s) && Inv(s) && Enabled(s, CoordPrepare(t, hlc))
    ensures AdvancesOnce(Next(s, CoordPrepare(t, hlc)))
  {
    var s' := Next(s, CoordPrepare(t, hlc));
    assert TxnInv(s, t) && NeverAdvanced(s, t);
    hide Inv, TxnInv;
    forall e | e in s'.log && e.Advanced? ensures !LockedBy(s'.slots, e.name, e.txn) {
      assert e == Advanced(e.txn, e.name, e.from, e.to);
      assert !LockedBy(s.slots, e.name, e.txn);
    }
  }

  lemma PrepareDisturbsNoOther(s: State, t: TxnId, hlc: nat)
    requires Enabled(s, CoordPrepare(t, hlc))
    ensures var s' := Next(s, CoordPrepare(t, hlc));
      t in s.coords && s'.coords.Keys == s.coords.Keys && forall o :: o in s.coords && o != t ==> Undisturbed(s, s', o)
  {}

  lemma DecideKeepsProgress(s: State, a: Action)
    requires Progress(s) && Inv(s) && Enabled(s, a) && a.CoordDecide?
    ensures Progress(Next(s, a))
  {
    hide Inv, TxnProgress, LockedBy, Next, Undisturbed, AdvancesOnce;
    DecideKeepsOwn(s, a.t);
    DecideDisturbsNoOther(s, a.t);
    AssembleProgress(s, Next(s, a), a.t);
  }

  lemma DecideDisturbsNoOther(s: State, t: TxnId)
    requires AdvancesOnce(s) && Enabled(s, CoordDecide(t))
    ensures var s' := Next(s, CoordDecide(t));
      AdvancesOnce(s') && s'.coords.Keys == s.coords.Keys && forall o :: o in s.coords && o != t ==> Undisturbed(s, s', o)
  {}

  lemma DecideKeepsOwn(s: State, t: TxnId)
    requires Progress(s) && Inv(s) && Enabled(s, CoordDecide(t))
    ensures TxnProgress(Next(s, CoordDecide(t)), t)
  {
    var s' := Next(s, CoordDecide(t));
    var c := s.coords[t];
    assert TxnInv(s, t) && TxnProgress(s, t);
    if Committed(s', t) {
      assert !Doomed(s, t);
      forall j | 0 <= j < |c.plan| ensures Ready(s', t, j, |c.plan|) { assert Ready(s, t, j, |c.plan|); }
    }
  }

  /** Rolling one ref forward: the event records the expected and the staged value. */
  lemma CommitRefKeepsOwn(s: State, t: TxnId, name: RefName)
    requires Progress(s) && Inv(s) && t in s.coords && Committed(s, t) && LockedBy(s.slots, name, t)
    ensures TxnProgress(CommitRef(s, t, name), t)
  {
    var s' := CommitRef(s, t, name);
    var c := s.coords[t];
    forall j | 0 <= j < |c.plan| ensures AdvancedAsPlanned(s', t, j) || Ready(s', t, j, |c.plan|) {
      assert AdvancedAsPlanned(s, t, j) || Ready(s, t, j, |c.plan|);
      assert c.plan[..|c.plan|] == c.plan;
    }
  }

  lemma CommitRefKeepsProgress(s: State, t: TxnId, name: RefName)
    requires Progress(s) && Inv(s) && t in s.coords && Committed(s, t)
    ensures Progress(CommitRef(s, t, name))
  {
    if LockedBy(s.slots, name, t) {
      CommitRefKeepsOwn(s, t, name);
      CommitAdvancesOnce(s, t, name);
      ResolveDisturbsNoOther(s, t, name);
      hide Inv, TxnProgress, Undisturbed, AdvancesOnce;
      AssembleProgress(s, CommitRef(s, t, name), t);
    }
  }

  lemma CommitAdvancesOnce(s: State, t: TxnId, name: RefName)
    requires AdvancesOnce(s) && LockedBy(s.slots, name, t)
    ensures AdvancesOnce(CommitRef(s, t, name))
  {
    var s' := CommitRef(s, t, name);
    forall i, j | 0 <= i < j < |s'.log| ensures !SameAdvance(s'.log[i], s'.log[j]) {
      if j == |s.log| { assert s.log[i] in s.log; }
    }
  }

  lemma ResolveDisturbsNoOther(s: State, t: TxnId, name: RefName)
    requires t in s.coords
    ensures forall s' :: s' == CommitRef(s, t, name) || s' == ReleaseRef(s, t, name) ==>
      s'.coords.Keys == s.coords.Keys && forall o :: o in s.coords && o != t ==> Undisturbed(s, s', o)
  {}

  lemma ReleaseRefKeepsProgress(s: State, t: TxnId, name: RefName)
    requires Progress(s) && Inv(s) && t in s.coords
    requires LockedBy(s.slots, name, t) ==> Doomed(s, t) && !Committed(s, t)
    ensures Progress(ReleaseRef(s, t, name))
  {
    if LockedBy(s.slots, name, t) {
      ReleaseAdvancesOnce(s, t, name);
      ReleaseKeepsOwn(s, t, name);
      ResolveDisturbsNoOther(s, t, name);
      hide Inv, TxnProgress, Undisturbed, AdvancesOnce;
      AssembleProgress(s, ReleaseRef(s, t, name), t);
    }
  }

  lemma ReleaseAdvancesOnce(s: State, t: TxnId, name: RefName)
    requires AdvancesOnce(s)
    ensures AdvancesOnce(ReleaseRef(s, t, name))
  {}

  lemma ReleaseKeepsOwn(s: State, t: TxnId, name: RefName)
    requires t in s.coords && Doomed(s, t) && !Committed(s, t)
    ensures TxnProgress(ReleaseRef(s, t, name), t)
  {}

  lemma FinishKeepsProgress(s: State, a: Action)
    requires Progress(s) && Inv(s) && Enabled(s, a) && a.CoordFinish?
    ensures Progress(Next(s, a))
  {
    var t := a.t;
    var c := s.coords[t];
    var name := c.plan[c.phase.next].name;
    assert TxnInv(s, t) && Committed(s, t) == c.phase.commit;
    var s1 := if c.phase.commit then CommitRef(s, t, name) else ReleaseRef(s, t, name);
    if c.phase.commit {
      CommitRefKeepsProgress(s, t, name);
      CommitRefKeepsInv(s, t, name);
    } else {
      ReleaseRefKeepsProgress(s, t, name);
      ReleaseRefKeepsInv(s, t, name);
    }
    PhaseKeepsProgress(s1, t, Next(s, a).coords[t].phase);
  }

  /** After the decision, only the log and the locks matter. */
  lemma PhaseKeepsProgress(s: State, t: TxnId, p: Phase)
    requires Progress(s) && t in s.coords && (p.Finishing? || p.Ending? || p.Replied?)
    ensures Progress(WithPhase(s, t, p))
  {
    var s' := WithPhase(s, t, p);
    var c := s.coords[t];
    assert forall j :: 0 <= j < |c.plan| && Ready(s, t, j, |c.plan|) ==> Ready(s', t, j, |c.plan|);
    assert forall j :: 0 <= j < |c.plan| && AdvancedAsPlanned(s, t, j) ==> AdvancedAsPlanned(s', t, j);
    assert TxnProgress(s', t);
    AssembleProgress(s, s', t);
  }

  lemma EndKeepsProgress(s: State, a: Action)
    requires Progress(s) && Inv(s) && Enabled(s, a) && a.CoordEnd?
    ensures Progress(Next(s, a))
  {
    PhaseKeepsProgress(s, a.t, Replied(PhaseOf(s, a.t).commit));
    var s1 := WithPhase(s, a.t, Replied(PhaseOf(s, a.t).commit));
    assert TxnInv(s, a.t);
    QuietKeepsProgress(s1, Next(s, a));
  }

  lemma ActKeepsProgress(s: State, a: Action)
    requires Progress(s) && Inv(s) && Enabled(s, a) && a.ResolverAct?
    ensures Progress(Next(s, a))
  {
    var t := a.intent.txn;
    TaskOwner(s, Resolved(a.name, a.intent, a.commit));
    assert TxnInv(s, t);
    if a.commit {
      EndTaskKeepsInv(s, t);
      var s1 := s.(tasks := s.tasks + {EndRecord(a.intent.coord, t)});
      QuietKeepsProgress(s, s1);
      CommitRefKeepsProgress(s1, t, a.name);
    } else {
      assert LockedBy(s.slots, a.name, t) ==> Holds(s, t);
      ReleaseRefKeepsProgress(s, t, a.name);
    }
  }

  lemma StepKeepsProgress(s: State, a: Action)
    requires Progress(s) && Inv(s) && Enabled(s, a) && EndsSafely(s, a) && WritesSafely(s, a)
    ensures Progress(Next(s, a))
  {
    match a
    case Begin(_, _, _) => BeginKeepsProgress(s, a);
    case CoordPrepare(_, _) => PrepareKeepsProgress(s, a);
    case CoordDecide(_) => DecideKeepsProgress(s, a);
    case CoordFinish(_) => FinishKeepsProgress(s, a);
    case CoordEnd(_) => EndKeepsProgress(s, a);
    case ResolverAct(_, _, _) => ActKeepsProgress(s, a);
    case Update(_, _, _, _) => PlainWriteKeepsProgress(s, a);
    case Delete(_, _) => PlainWriteKeepsProgress(s, a);
    case Batch(_) => PlainWriteKeepsProgress(s, a);
    case _ => TaskStepKeepsProgress(s, a);
  }

  lemma {:induction false} RunKeepsProgress(s: State, actions: seq<Action>)
    requires Progress(s) && Inv(s) && IsRun(s, actions)
    requires EndsSafelyThroughout(s, actions) && WritesSafelyThroughout(s, actions)
    ensures Progress(After(s, actions)) && Inv(After(s, actions))
    decreases |actions|
  {
    if actions != [] {
      StepKeepsProgress(s, actions[0]);
      StepKeepsInv(s, actions[0]);
      RunKeepsProgress(Next(s, actions[0]), actions[1..]);
    }
  }

  // ----- replies ---------------------------------------------------------------

  predicate HasReplied(s: State, t: TxnId, commit: bool) {
    t in s.coords && PhaseOf(s, t) == Replied(commit)
  }

  /** Each mapping's ref moved from its expected value, and no other advance of
      that ref by `t` is in the log. */
  ghost predicate FullyAdvanced(s: State, t: TxnId)
    requires t in s.coords
  {
    forall j :: 0 <= j < |s.coords[t].plan| ==>
      AdvancedAsPlanned(s, t, j) &&
      exists i :: 0 <= i < |s.log| && AdvanceOf(s.log[i], t, s.coords[t].plan[j].name) &&
        forall i' :: 0 <= i' < |s.log| && AdvanceOf(s.log[i'], t, s.coords[t].plan[j].name) ==> i' == i
  }

  predicate AdvanceOf(e: Event, t: TxnId, name: RefName) {
    e.Advanced? && e.txn == t && e.name == name
  }

  lemma ReplyIsComplete(s: State, t: TxnId)
    requires Inv(s) && Progress(s) && HasReplied(s, t, true)
    ensures FullyAdvanced(s, t)
  {
    assert TxnInv(s, t) && TxnProgress(s, t);
    var plan := s.coords[t].plan;
    forall j | 0 <= j < |plan|
      ensures AdvancedAsPlanned(s, t, j)
      ensures exists i :: 0 <= i < |s.log| && AdvanceOf(s.log[i], t, plan[j].name) &&
                forall i' :: 0 <= i' < |s.log| && AdvanceOf(s.log[i'], t, plan[j].name) ==> i' == i
    {
      assert !Ready(s, t, j, |plan|);
      var e := Advanced(t, plan[j].name, plan[j].expected, LastTarget(plan, plan[j].name).value);
      var i :| 0 <= i < |s.log| && s.log[i] == e;
      forall i' | 0 <= i' < |s.log| && AdvanceOf(s.log[i'], t, plan[j].name) ensures i' == i {
        assert SameAdvance(s.log[i], s.log[i']) && SameAdvance(s.log[i'], s.log[i]);
      }
    }
  }

  lemma {:induction false} CommittedReplyAdvancedEveryRef(actions: seq<Action>, t: TxnId)
    requires IsRun(Initial, actions)
    requires EndsSafelyThroughout(Initial, actions) && WritesSafelyThroughout(Initial, actions)
    requires HasReplied(After(Initial, actions), t, true)
    ensures FullyAdvanced(After(Initial, actions), t)
  {
    RunKeepsProgress(Initial, actions);
    ReplyIsComplete(After(Initial, actions), t);
  }

  /** A reply is final. */
  lemma {:induction false} ReplyStays(s: State, actions: seq<Action>, t: TxnId, commit: bool)
    requires IsRun(s, actions) && HasReplied(s, t, commit)
    ensures HasReplied(After(s, actions), t, commit)
    decreases |actions|
  {
    if actions != [] {
      assert HasReplied(Next(s, actions[0]), t, commit);
      ReplyStays(Next(s, actions[0]), actions[1..], t, commit);
    }
  }

  /** Plain writes may even trample locks here: an aborted transaction never
      advances a ref, in the replying state or in any later one. */
  lemma {:induction false} AbortedReplyAdvancesNothing(actions: seq<Action>, later: seq<Action>, t: TxnId)
    requires IsRun(Initial, actions) && EndsSafelyThroughout(Initial, actions)
    requires HasReplied(After(Initial, actions), t, false)
    requires IsRun(After(Initial, actions), later) && EndsSafelyThroughout(After(Initial, actions), later)
    ensures NeverAdvanced(After(After(Initial, actions), later), t)
  {
    RunKeepsInv(Initial, actions);
    RunKeepsInv(After(Initial, actions), later);
    ReplyStays(After(Initial, actions), later, t, false);
    assert TxnInv(After(After(Initial, actions), later), t);
  }
}
