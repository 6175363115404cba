/**
 Collecting roots beside running transactions. Committed targets are read first and
 staged ones afterwards; a target whose transaction commits in between is in neither
 reading, although some ref or lock names it at every moment. Exactly the targets
 committed at the first reading are sure to be collected.
 */
module GcRoots {
  import opened Options
  import opened RefSlots
  import opened CrossShardCommit
  import opened CrossShardAtomicity
  import opened CrossShardReplies
  import opened CrossShardLimits

  function CommittedTargets(s: State): set<ObjectId> {
    set n | n in s.slots && Visible(s.slots, n).Some? :: Visible(s.slots, n).value
  }

  function StagedTargets(s: State): set<ObjectId> {
    set n | n in s.slots && Locked(s.slots, n) :: s.slots[n].prepared.value.target
  }

  /** What a pass collects if the two readings happen in states `s` and `s'`. */
  function Collected(s: State, s': State): set<ObjectId> { CommittedTargets(s) + StagedTargets(s') }

  predicate Shows(s: State, n: RefName, x: ObjectId) {
    n in s.slots && s.slots[n].committed.version != 0 && s.slots[n].committed.target == x
  }

  predicate Stages(s: State, n: RefName, x: ObjectId) {
    n in s.slots && s.slots[n].prepared.Some? && s.slots[n].prepared.value.target == x
  }

  /** A target is collected exactly if a ref shows it at the first reading or a lock stages it at the
      second. */
  lemma CollectedIs(s: State, s': State, x: ObjectId)
    ensures x in Collected(s, s') <==> (exists n :: Shows(s, n, x)) || (exists n :: Stages(s', n, x))
  {
    if n :| Shows(s, n, x) { assert Visible(s.slots, n) == Some(x); }
    if n :| Stages(s', n, x) { assert Locked(s'.slots, n); }
    if x in CommittedTargets(s) {
      var n :| n in s.slots && Visible(s.slots, n).Some? && Visible(s.slots, n).value == x;
      assert Shows(s, n, x);
    } else if x in StagedTargets(s') {
      var n :| n in s'.slots && Locked(s'.slots, n) && s'.slots[n].prepared.value.target == x;
      assert Stages(s', n, x);
    }
  }

  /** Some ref names `x`, or some lock is about to. */
  predicate Live(s: State, x: ObjectId) { x in CommittedTargets(s) || x in StagedTargets(s) }

  ghost predicate LiveThroughout(s: State, actions: seq<Action>, x: ObjectId)
    requires IsRun(s, actions)
    decreases |actions|
  {
    Live(s, x) && (actions != [] ==> LiveThroughout(Next(s, actions[0]), actions[1..], x))
  }

  // ----- which step loses a lock between the readings ---------------------------------------------

  predicate Staged(s: State, n: RefName, i: Intent) { n in s.slots && s.slots[n].prepared == Some(i) }

  /** The steps that take lock `i` off ref `n`: the second phase or a resolver settles it, its
      transaction stages the ref anew, or a plain write is accepted although the ref is locked. */
  predicate Takes(s: State, a: Action, n: RefName, i: Intent)
    requires Enabled(s, a)
  {
    match a
    case CoordFinish(t) => t == i.txn && s.coords[t].plan[PhaseOf(s, t).next].name == n
    case ResolverAct(name, intent, _) => name == n && intent.txn == i.txn
    case CoordPrepare(t, hlc) =>
      var m := s.coords[t].plan[PhaseOf(s, t).next];
      t == i.txn && m.name == n && Visible(s.slots, n) == m.expected && Intent(t, s.coords[t].shard, m.target, hlc) != i
    case Update(name, _, _, _) => name == n && !WritesSafely(s, a)
    case Delete(name, _) => name == n && !WritesSafely(s, a)
    case _ => false
  }

  lemma StepTakesIff(s: State, a: Action, n: RefName, i: Intent)
    requires Enabled(s, a) && Staged(s, n, i)
    ensures Staged(Next(s, a), n, i) <==> !Takes(s, a, n, i)
  {
    if a.Batch? && forall k :: 0 <= k < |a.ops| ==> BatchOpHolds(s.slots, a.ops[k].change) {
      InstallBatchKeepsLocked(s.slots, s.slots, a.ops, n);
    }
  }

  ghost predicate StagedThroughout(s: State, actions: seq<Action>, n: RefName, i: Intent)
    requires IsRun(s, actions)
    decreases |actions|
  {
    Staged(s, n, i) && (actions != [] ==> StagedThroughout(Next(s, actions[0]), actions[1..], n, i))
  }

  ghost predicate TakenWithin(s: State, actions: seq<Action>, n: RefName, i: Intent)
    requires IsRun(s, actions)
    decreases |actions|
  {
    actions != [] && (Takes(s, actions[0], n, i) || TakenWithin(Next(s, actions[0]), actions[1..], n, i))
  }

  /** In every run, a lock is in place at every moment exactly if no step of the run takes it; so a
      target that is staged at the first reading and not at the second lost each of its locks to
      such a step in between. */
  lemma {:induction false} StaysStagedIff(s: State, actions: seq<Action>, n: RefName, i: Intent)
    requires IsRun(s, actions) && Staged(s, n, i)
    ensures StagedThroughout(s, actions, n, i) <==> !TakenWithin(s, actions, n, i)
    ensures i.target !in StagedTargets(After(s, actions)) ==> TakenWithin(s, actions, n, i)
    decreases |actions|
  {
    if actions == [] {
      assert Locked(s.slots, n);
    } else {
      StepTakesIff(s, actions[0], n, i);
      hide Takes, Next, Enabled, StagedTargets;
      if !Takes(s, actions[0], n, i) {
        StaysStagedIff(Next(s, actions[0]), actions[1..], n, i);
      } else {
        NotStagedNow(Next(s, actions[0]), actions[1..], n, i);
      }
    }
  }

  /** A target whose lock no step takes is collected. */
  lemma UntakenIsCollected(s: State, actions: seq<Action>, n: RefName, i: Intent)
    requires IsRun(s, actions) && Staged(s, n, i) && !TakenWithin(s, actions, n, i)
    ensures i.target in Collected(s, After(s, actions))
  {
    hide TakenWithin;
    StaysStagedIff(s, actions, n, i);
  }

  lemma NotStagedNow(s: State, actions: seq<Action>, n: RefName, i: Intent)
    requires IsRun(s, actions) && !Staged(s, n, i)
    ensures !StagedThroughout(s, actions, n, i)
  {}

  // ----- the exact condition -------------------------------------------------------------------------

  /** However the run between the readings goes, `x` is collected if it was live all along. */
  ghost predicate AlwaysCollected(s: State, x: ObjectId) {
    forall actions :: IsRun(s, actions) && LiveThroughout(s, actions, x) ==> x in Collected(s, After(s, actions))
  }

  /** The same for runs that end records safely and write no locked ref. */
  ghost predicate CollectedInOrder(s: State, x: ObjectId) {
    forall actions :: IsRun(s, actions) && LiveThroughout(s, actions, x) && Orderly(s, actions) ==>
      x in Collected(s, After(s, actions))
  }

  ghost predicate Orderly(s: State, actions: seq<Action>)
    requires IsRun(s, actions)
  {
    EndsSafelyThroughout(s, actions) && WritesSafelyThroughout(s, actions)
  }

  /** An orderly run from `s` to `s'` during which `x` is live. */
  ghost predicate Passes(s: State, s': State, x: ObjectId) {
    exists more :: IsRun(s, more) && LiveThroughout(s, more, x) && Orderly(s, more) && After(s, more) == s'
  }

  lemma PassesNothing(s: State, x: ObjectId)
    requires Live(s, x)
    ensures Passes(s, s, x)
  {
    assert IsRun(s, []) && LiveThroughout(s, [], x) && Orderly(s, []) && After(s, []) == s;
  }

  lemma PassesFirst(s: State, a: Action, s': State, x: ObjectId)
    requires Enabled(s, a) && EndsSafely(s, a) && WritesSafely(s, a) && Live(s, x) && Passes(Next(s, a), s', x)
    ensures Passes(s, s', x)
  {
    hide Enabled, EndsSafely, WritesSafely, Next, Live;
    var rest :| IsRun(Next(s, a), rest) && LiveThroughout(Next(s, a), rest, x) && Orderly(Next(s, a), rest) && After(Next(s, a), rest) == s';
    var more := [a] + rest;
    assert more[1..] == rest;
    assert IsRun(s, more) && LiveThroughout(s, more, x) && Orderly(s, more) && After(s, more) == s';
  }

  lemma {:induction false} RunPasses(s: State, more: seq<Action>, s': State, x: ObjectId)
    requires IsRun(s, more) && LiveThroughout(s, more, x) && Orderly(s, more) && Passes(After(s, more), s', x)
    ensures Passes(s, s', x)
    decreases |more|
  {
    hide Passes, Enabled, EndsSafely, WritesSafely, Next, Live;
    if more != [] {
      RunPasses(Next(s, more[0]), more[1..], s', x);
      PassesFirst(s, more[0], s', x);
    }
  }

  lemma PassesOn(s: State, s': State, s'': State, x: ObjectId)
    requires Passes(s, s', x) && Passes(s', s'', x)
    ensures Passes(s, s'', x)
  {
    hide IsRun, LiveThroughout, Orderly, After;
    var more :| IsRun(s, more) && LiveThroughout(s, more, x) && Orderly(s, more) && After(s, more) == s';
    RunPasses(s, more, s'', x);
  }

  /** A free ref that names `x`. */
  predicate Anchored(s: State, f: RefName, x: ObjectId) { Visible(s.slots, f) == Some(x) && !Locked(s.slots, f) }

  lemma AnchoredIsLive(s: State, f: RefName, x: ObjectId)
    requires Anchored(s, f, x)
    ensures Live(s, x)
  {
    assert f in s.slots;
  }

  /** Only the slot of `ref` may have changed. */
  ghost predicate Elsewhere(s: State, s': State, ref: RefName) {
    forall n :: n != ref ==> (n in s'.slots <==> n in s.slots) && (n in s.slots ==> s'.slots[n] == s.slots[n])
  }

  /** One resolver pass over one lock. */
  lemma SettleLock(s: State, ref: RefName, f: RefName, x: ObjectId) returns (s': State)
    requires Locked(s.slots, ref) && Anchored(s, f, x)
    ensures Elsewhere(s, s', ref) && !Locked(s'.slots, ref) && Anchored(s', f, x)
    ensures Passes(s, s', x)
  {
    hide Passes, Live;
    var i := s.slots[ref].prepared.value;
    var s1 := Next(s, ListLock(ref));
    var s2 := Next(s1, ReadDecision(ref, i, 0, 0));
    var decision := Lookup(s1.records, (i.coord, i.txn));
    if decision == Some(Commit) || decision == Some(Abort) {
      s' := ActOn(s2, ref, i, decision == Some(Commit), f, x);
    } else {
      assert Doubtful(ref, i) in s2.tasks;
      var s3 := Next(s2, ResolverDecide(ref, i));
      assert Resolved(ref, i, false) in s3.tasks;
      s' := ActOn(s3, ref, i, false, f, x);
      AnchoredIsLive(s2, f, x);
      PassesFirst(s2, ResolverDecide(ref, i), s', x);
    }
    AnchoredIsLive(s1, f, x);
    AnchoredIsLive(s, f, x);
    PassesFirst(s1, ReadDecision(ref, i, 0, 0), s', x);
    PassesFirst(s, ListLock(ref), s', x);
  }

  lemma ActOn(s: State, ref: RefName, i: Intent, commit: bool, f: RefName, x: ObjectId) returns (s': State)
    requires Resolved(ref, i, commit) in s.tasks && Staged(s, ref, i) && Anchored(s, f, x)
    ensures Elsewhere(s, s', ref) && !Locked(s'.slots, ref) && Anchored(s', f, x)
    ensures Passes(s, s', x)
  {
    hide Passes, Live;
    s' := Next(s, ResolverAct(ref, i, commit));
    AnchoredIsLive(s, f, x);
    AnchoredIsLive(s', f, x);
    PassesNothing(s', x);
    PassesFirst(s, ResolverAct(ref, i, commit), s', x);
  }

  /** The refs whose locks stage `x`. */
  function StagingRefs(s: State, x: ObjectId): set<RefName> {
    set n | n in s.slots && Locked(s.slots, n) && s.slots[n].prepared.value.target == x
  }

  /** Passes over every lock that stages `x`, while a free ref names it. */
  lemma {:induction false} SettleAll(s: State, f: RefName, x: ObjectId) returns (s': State)
    requires Anchored(s, f, x)
    ensures Passes(s, s', x) && x !in StagedTargets(s')
    decreases |StagingRefs(s, x)|
  {
    var refs := StagingRefs(s, x);
    if refs == {} {
      s' := s;
      AnchoredIsLive(s, f, x);
      PassesNothing(s, x);
      assert forall n :: n in s.slots && Locked(s.slots, n) && s.slots[n].prepared.value.target == x ==> n in refs;
    } else {
      var ref :| ref in refs;
      var s1 := SettleLock(s, ref, f, x);
      assert StagingRefs(s1, x) == refs - {ref};
      s' := SettleAll(s1, f, x);
      PassesOn(s, s1, s', x);
    }
  }

  lemma {:induction false} LongerThanAll(names: set<RefName>) returns (n: RefName)
    ensures forall m :: m in names ==> |m| < |n|
    decreases |names|
  {
    n := "";
    if names != {} {
      var m :| m in names;
      n := LongerThanAll(names - {m});
      if |n| <= |m| { n := seq(|m| + 1, _ => 'x'); }
    }
  }

  /** A target that is only staged at the first reading is missed by some orderly run in which it is
      live throughout: a new ref takes it on, and resolvers settle its locks. */
  lemma StagedCanBeMissed(s: State, x: ObjectId) returns (actions: seq<Action>)
    requires x in StagedTargets(s) && x !in CommittedTargets(s)
    ensures IsRun(s, actions) && LiveThroughout(s, actions, x) && Orderly(s, actions)
    ensures x !in Collected(s, After(s, actions))
  {
    var f := LongerThanAll(s.slots.Keys);
    var a := Update(f, x, None, 0);
    var s1 := Next(s, a);
    assert Anchored(s1, f, x);
    var s' := SettleAll(s1, f, x);
    PassesFirst(s, a, s', x);
    hide IsRun, LiveThroughout, Orderly, After, CommittedTargets, StagedTargets;
    actions :| IsRun(s, actions) && LiveThroughout(s, actions, x) && Orderly(s, actions) && After(s, actions) == s';
  }

  /** Of what is live at the first reading, exactly the committed targets are sure to be collected,
      in all runs as in orderly ones. */
  lemma CollectedIff(s: State, x: ObjectId)
    requires Live(s, x)
    ensures AlwaysCollected(s, x) <==> x in CommittedTargets(s)
    ensures CollectedInOrder(s, x) <==> x in CommittedTargets(s)
  {
    hide IsRun, LiveThroughout, Orderly, After, CommittedTargets, StagedTargets;
    if x !in CommittedTargets(s) {
      var actions := StagedCanBeMissed(s, x);
    }
  }

  /** Two new refs are locked and their commit decided; the committed targets are read, the
      coordinator rolls both refs forward, the staged targets are read. The first ref's target
      was staged or committed all along, and was not collected. */
  lemma CommitHidesTarget() returns (s: State, actions: seq<Action>)
    ensures Reachable(s) && IsRun(s, actions) && LiveThroughout(s, actions, 1)
    ensures Visible(After(s, actions).slots, "a") == Some(1) && 1 !in Collected(s, After(s, actions))
  {
    hide Reachable;
    DecidedStateReachable();
    s, actions := DecidedState, [CoordFinish(0), CoordFinish(0)];
    assert s.slots["a"].prepared.value.target == 1 && "a" in s.slots && Locked(s.slots, "a");
    var s1 := State(map["a" := RefSlot(RefEntry(1, 0, 1), None), "b" := s.slots["b"]], s.records,
                    map[0 := Coordinator(PLAN, 0, Finishing(true, 1))], {}, s.log + [Advanced(0, "a", None, 1)]);
    assert Next(s, CoordFinish(0)) == s1;
    var s2 := Next(s1, CoordFinish(0));
    assert "a" in s1.slots && Visible(s1.slots, "a") == Some(1);
    assert s2.slots == map["a" := RefSlot(RefEntry(1, 0, 1), None), "b" := RefSlot(RefEntry(2, 0, 1), None)];
    assert "a" in s2.slots && Visible(s2.slots, "a") == Some(1);
    assert Live(s, 1) && Live(s1, 1) && Live(s2, 1);
    assert actions[1..] == [CoordFinish(0)] && [CoordFinish(0)][1..] == [];
    assert IsRun(s2, []) && After(s2, []) == s2 && LiveThroughout(s2, [], 1);
    assert IsRun(s1, [CoordFinish(0)]) && After(s1, [CoordFinish(0)]) == s2 && LiveThroughout(s1, [CoordFinish(0)], 1);
  }
}
