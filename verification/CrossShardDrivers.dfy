/**
 The coordinator's `commit_atomic` and the resolver's `resolve_once` as the loops they
 are, running against a cluster that others change between any two of their steps.
 Each is shown to be a run of the transition system, so what holds of every run holds
 of what they reply.
 */
module CrossShardDrivers {
  import opened Options
  import opened RefSlots
  import opened CrossShardCommit
  import opened CrossShardAtomicity
  import opened CrossShardReplies
  import opened CrossShardEffects

  /** Not a step of the coordinator that waits. */
  predicate Foreign(a: Action, me: Option<TxnId>) {
    (a.Begin? || a.CoordPrepare? || a.CoordDecide? || a.CoordFinish? || a.CoordEnd?) ==> Some(a.t) != me
  }

  /** What others do before the driver's n-th step. */
  type Schedule = nat -> seq<Action>

  function Flat(groups: seq<seq<Mapping>>): seq<Mapping> {
    if groups == [] then [] else Flat(groups[..|groups| - 1]) + groups[|groups| - 1]
  }

  /** The position in the plan of ref `j` of shard group `i`. */
  lemma {:induction false} FlatAt(groups: seq<seq<Mapping>>, i: nat, j: nat)
    requires i < |groups| && j <= |groups[i]|
    ensures |Flat(groups[..i])| + j <= |Flat(groups)|
    ensures j < |groups[i]| ==>
      |Flat(groups[..i])| + j < |Flat(groups)| && Flat(groups)[|Flat(groups[..i])| + j] == groups[i][j]
    ensures |Flat(groups[..i + 1])| == |Flat(groups[..i])| + |groups[i]|
    decreases |groups|
  {
    var rest := groups[..|groups| - 1];
    assert groups[..i + 1][..i] == groups[..i];
    if i < |rest| {
      FlatAt(rest, i, j);
      assert rest[..i] == groups[..i];
    }
  }

  lemma RunSnoc(s: State, actions: seq<Action>, a: Action)
    requires IsRun(s, actions) && Enabled(After(s, actions), a)
    ensures IsRun(s, actions + [a]) && After(s, actions + [a]) == Next(After(s, actions), a)
  {
    hide Enabled, Next;
    var last := After(s, actions);
    assert [a][1..] == [];
    assert IsRun(Next(last, a), []) && After(Next(last, a), []) == Next(last, a);
    RunAppends(s, actions, [a]);
  }

  /** Where the prepare phase is after `k` yes votes. */
  function AfterVotes(plan: seq<Mapping>, k: nat): Phase {
    if k == |plan| then Voted(true) else Preparing(k)
  }

  /** Where the second phase is after `k` refs. */
  function AfterRefs(plan: seq<Mapping>, commit: bool, k: nat): Phase {
    if k == |plan| then Ending(commit) else Finishing(commit, k)
  }

  lemma ForeignKeepsCoordinator(s: State, a: Action, t: TxnId)
    requires Enabled(s, a) && Foreign(a, Some(t))
    ensures t in Next(s, a).coords <==> t in s.coords
    ensures t in s.coords ==> Next(s, a).coords[t] == s.coords[t]
  {}

  lemma TasksGrow(s: State, a: Action)
    requires Enabled(s, a)
    ensures s.tasks <= Next(s, a).tasks
  {}

  datatype Reply = AllMoved(entries: seq<(RefName, RefEntry)>) | NoneMoved(conflicts: seq<RefName>, presumed: bool)

  /** Step `i` of the run asked for the lock of mapping `k`, and another held it or the ref did not show
      what the mapping expects. */
  ghost predicate RefusedAt(start: State, trace: seq<Action>, i: nat, t: TxnId, plan: seq<Mapping>, k: nat)
    requires k < |plan|
  {
    && i < |trace| && trace[i].CoordPrepare? && trace[i].t == t && IsRun(start, trace[..i])
    && var before := After(start, trace[..i]);
    && t in before.coords && before.coords[t].plan == plan && PhaseOf(before, t) == Preparing(k)
    && ((Locked(before.slots, plan[k].name) && !LockedBy(before.slots, plan[k].name, t)) ||
        Visible(before.slots, plan[k].name) != plan[k].expected)
  }

  ghost predicate Refused(start: State, trace: seq<Action>, t: TxnId, plan: seq<Mapping>, k: nat)
    requires k < |plan|
  {
    exists i: nat :: RefusedAt(start, trace, i, t, plan, k)
  }

  /** The refusal that a reply blames on one ref of the plan. */
  ghost predicate Blamed(start: State, trace: seq<Action>, t: TxnId, plan: seq<Mapping>, conflicts: seq<RefName>) {
    exists k :: 0 <= k < |plan| && conflicts == [plan[k].name] && Refused(start, trace, t, plan, k)
  }

  /** Step `i` of the run was the decision of `t`, and an abort was on record already. */
  ghost predicate OverruledAt(start: State, trace: seq<Action>, i: nat, t: TxnId) {
    && i < |trace| && trace[i] == CoordDecide(t) && IsRun(start, trace[..i])
    && var before := After(start, trace[..i]);
    && t in before.coords && Lookup(before.records, Key(before, t)) == Some(Abort)
  }

  ghost predicate Overruled(start: State, trace: seq<Action>, t: TxnId) { exists i: nat :: OverruledAt(start, trace, i, t) }

  /** Why none moved: a ref of the plan refused, or all agreed and an abort had been presumed. */
  ghost predicate HasCause(start: State, trace: seq<Action>, t: TxnId, plan: seq<Mapping>, conflicts: seq<RefName>, presumed: bool) {
    if presumed then conflicts == [] && Overruled(start, trace, t) else Blamed(start, trace, t, plan, conflicts)
  }

  lemma CauseIs(start: State, asked: seq<Action>, trace: seq<Action>, t: TxnId, plan: seq<Mapping>, conflicts: seq<RefName>, allYes: bool)
    requires asked <= trace
    requires if allYes then conflicts == [] && Overruled(start, trace, t) else Blamed(start, asked, t, plan, conflicts)
    ensures HasCause(start, trace, t, plan, conflicts, allYes)
  {
    if !allYes { CauseStays(start, asked, trace, t, plan, conflicts, false); }
  }

  lemma CauseStays(start: State, trace: seq<Action>, trace': seq<Action>, t: TxnId, plan: seq<Mapping>, conflicts: seq<RefName>, presumed: bool)
    requires trace <= trace' && HasCause(start, trace, t, plan, conflicts, presumed)
    ensures HasCause(start, trace', t, plan, conflicts, presumed)
  {
    if presumed {
      var i: nat :| OverruledAt(start, trace, i, t);
      assert trace'[..i] == trace[..i] && trace'[i] == trace[i];
      assert OverruledAt(start, trace', i, t);
    } else {
      var k :| 0 <= k < |plan| && conflicts == [plan[k].name] && Refused(start, trace, t, plan, k);
      var i: nat :| RefusedAt(start, trace, i, t, plan, k);
      assert trace'[..i] == trace[..i] && trace'[i] == trace[i];
      assert RefusedAt(start, trace', i, t, plan, k);
    }
  }

  /** The step of the second phase that committed mapping `j` of the plan, as number `i` of the
      run: the entry the ref had right after it, if it had one. */
  ghost predicate AnswerAt(start: State, trace: seq<Action>, i: nat, t: TxnId, plan: seq<Mapping>, j: nat, answer: Option<RefEntry>)
    requires j < |plan|
  {
    && i < |trace| && trace[i] == CoordFinish(t) && IsRun(start, trace[..i]) && IsRun(start, trace[..i + 1])
    && var before, after := After(start, trace[..i]), After(start, trace[..i + 1]).slots;
    && t in before.coords && before.coords[t].plan == plan && PhaseOf(before, t) == Finishing(true, j)
    && answer == if plan[j].name in after then Some(after[plan[j].name].committed) else None
  }

  ghost predicate Answered(start: State, trace: seq<Action>, t: TxnId, plan: seq<Mapping>, j: nat, answer: Option<RefEntry>)
    requires j < |plan|
  {
    exists i: nat :: AnswerAt(start, trace, i, t, plan, j, answer)
  }

  /** The refs that were answered with an entry, in plan order. */
  function Entries(plan: seq<Mapping>, answers: seq<Option<RefEntry>>): seq<(RefName, RefEntry)>
    requires |answers| <= |plan|
  {
    if answers == [] then []
    else
      var k := |answers| - 1;
      Entries(plan, answers[..k]) + if answers[k].Some? then [(plan[k].name, answers[k].value)] else []
  }

  /** `entries` is what the shards answered to the first `k` mappings: every ref with the entry it
      had right after its own step, left out only if it did not exist then. */
  ghost predicate ListsPlan(entries: seq<(RefName, RefEntry)>, plan: seq<Mapping>, k: nat, start: State, trace: seq<Action>, t: TxnId)
    requires k <= |plan|
  {
    exists answers :: ListsAnswers(entries, plan, k, start, trace, t, answers)
  }

  ghost predicate ListsAnswers(entries: seq<(RefName, RefEntry)>, plan: seq<Mapping>, k: nat, start: State, trace: seq<Action>, t: TxnId,
                               answers: seq<Option<RefEntry>>)
    requires k <= |plan|
  {
    && |answers| == k && entries == Entries(plan, answers)
    && forall j :: 0 <= j < k ==> Answered(start, trace, t, plan, j, answers[j])
  }

  lemma AnsweredStays(start: State, trace: seq<Action>, trace': seq<Action>, t: TxnId, plan: seq<Mapping>, j: nat, answer: Option<RefEntry>)
    requires j < |plan| && trace <= trace' && Answered(start, trace, t, plan, j, answer)
    ensures Answered(start, trace', t, plan, j, answer)
  {
    var i: nat :| AnswerAt(start, trace, i, t, plan, j, answer);
    assert trace'[..i] == trace[..i] && trace'[..i + 1] == trace[..i + 1] && trace'[i] == trace[i];
    assert AnswerAt(start, trace', i, t, plan, j, answer);
  }

  lemma ListsPlanStays(entries: seq<(RefName, RefEntry)>, plan: seq<Mapping>, k: nat, start: State,
                       trace: seq<Action>, trace': seq<Action>, t: TxnId)
    requires k <= |plan| && trace <= trace' && ListsPlan(entries, plan, k, start, trace, t)
    ensures ListsPlan(entries, plan, k, start, trace', t)
  {
    hide Answered, Entries;
    var answers :| ListsAnswers(entries, plan, k, start, trace, t, answers);
    forall j | 0 <= j < k ensures Answered(start, trace', t, plan, j, answers[j]) {
      AnsweredStays(start, trace, trace', t, plan, j, answers[j]);
    }
    assert ListsAnswers(entries, plan, k, start, trace', t, answers);
  }

  lemma ListsPlanGrows(entries: seq<(RefName, RefEntry)>, plan: seq<Mapping>, k: nat, start: State, trace: seq<Action>, t: TxnId,
                       entry: Option<RefEntry>)
    requires k < |plan| && ListsPlan(entries, plan, k, start, trace, t) && Answered(start, trace, t, plan, k, entry)
    ensures ListsPlan(if entry.Some? then entries + [(plan[k].name, entry.value)] else entries, plan, k + 1, start, trace, t)
  {
    hide Answered;
    var answers :| ListsAnswers(entries, plan, k, start, trace, t, answers);
    var more := answers + [entry];
    assert more[..k] == answers;
    assert ListsAnswers(if entry.Some? then entries + [(plan[k].name, entry.value)] else entries, plan, k + 1, start, trace, t, more);
  }

  lemma ListsNothing(plan: seq<Mapping>, start: State, trace: seq<Action>, t: TxnId)
    ensures ListsPlan([], plan, 0, start, trace, t)
  {
    assert ListsAnswers([], plan, 0, start, trace, t, []);
  }

  class Cluster {
    var state: State
    var steps: nat
    ghost const start: State
    ghost var trace: seq<Action>

    ghost predicate Valid()
      reads this
    {
      IsRun(start, trace) && state == After(start, trace) && steps == |trace|
    }

    constructor ()
      ensures Valid() && start == Initial && state == Initial
    {
      state, steps, start, trace := Initial, 0, Initial, [];
    }

    method Do(a: Action)
      requires Valid() && Enabled(state, a)
      modifies this
      ensures Valid() && trace == old(trace) + [a] && state == Next(old(state), a)
    {
      hide Enabled, Next;
      RunSnoc(start, trace, a);
      trace := trace + [a];
      state, steps := Next(state, a), steps + 1;
    }

    method Others(actions: seq<Action>, me: Option<TxnId>)
      requires Valid()
      modifies this
      ensures Valid() && old(trace) <= trace && old(state).tasks <= state.tasks
      ensures actions == [] ==> state == old(state) && trace == old(trace)
      ensures me.Some? ==> (me.value in state.coords <==> me.value in old(state).coords)
      ensures me.Some? && me.value in state.coords ==> state.coords[me.value] == old(state).coords[me.value]
    {
      hide Enabled, Next, Valid;
      for i := 0 to |actions|
        invariant Valid() && old(trace) <= trace && old(state).tasks <= state.tasks
        invariant actions == [] ==> state == old(state) && trace == old(trace)
        invariant me.Some? ==> (me.value in state.coords <==> me.value in old(state).coords)
        invariant me.Some? && me.value in state.coords ==> state.coords[me.value] == old(state).coords[me.value]
      {
        if Enabled(state, actions[i]) && Foreign(actions[i], me) {
          if me.Some? { ForeignKeepsCoordinator(state, actions[i], me.value); }
          TasksGrow(state, actions[i]);
          Do(actions[i]);
        }
      }
    }

    ghost predicate Stands(t: TxnId, plan: seq<Mapping>, shard: ShardId, p: Phase)
      reads this
    {
      t in state.coords && state.coords[t] == Coordinator(plan, shard, p)
    }

    method Open(t: TxnId, plan: seq<Mapping>, shard: ShardId, others: Schedule)
      requires Valid() && t !in state.coords && plan != []
      modifies this
      ensures Valid() && old(trace) <= trace && Stands(t, plan, shard, Preparing(0))
      ensures Quiet(others) ==> state.slots == old(state).slots && Lookup(state.records, (shard, t)) == Some(Pending)
    {
      hide IsRun, After;
      Others(others(steps), Some(t));
      Do(Begin(t, plan, shard));
    }

    method PrepareRef(t: TxnId, shard: ShardId, clock: nat -> nat, others: Schedule, ghost plan: seq<Mapping>, ghost k: nat)
        returns (yes: bool)
      requires Valid() && k < |plan| && Stands(t, plan, shard, Preparing(k))
      modifies this
      ensures Valid() && old(trace) <= trace
      ensures Stands(t, plan, shard, if yes then AfterVotes(plan, k + 1) else Voted(false))
      ensures !yes ==> Refused(start, trace, t, plan, k)
      ensures Quiet(others) ==> yes == Grants(old(state).slots, t, plan[k]) && SameGrants(old(state).slots, state.slots, t)
      ensures Quiet(others) ==> state.records == old(state).records
    {
      hide IsRun, After, Grants, SameGrants;
      Others(others(steps), Some(t));
      ghost var before := state.slots;
      Do(CoordPrepare(t, clock(steps)));
      yes := state.coords[t].phase != Voted(false);
      PrepareStages(before, t, shard, plan[k], clock(steps - 1));
      PrepareKeepsGrants(before, t, shard, plan[k], clock(steps - 1));
      if !yes {
        ghost var i := |trace| - 1;
        assert trace[..i] + [trace[i]] == trace;
        assert RefusedAt(start, trace, i, t, plan, k);
      }
    }

    /** Prepare in shard order; the first NO ends the phase. */
    method PreparePhase(t: TxnId, groups: seq<seq<Mapping>>, shard: ShardId, clock: nat -> nat, others: Schedule)
        returns (allYes: bool, conflicts: seq<RefName>)
      requires Valid() && Flat(groups) != [] && Stands(t, Flat(groups), shard, Preparing(0))
      modifies this
      ensures Valid() && old(trace) <= trace && Stands(t, Flat(groups), shard, Voted(allYes))
      ensures allYes ==> conflicts == []
      ensures !allYes ==> Blamed(start, trace, t, Flat(groups), conflicts)
      ensures Quiet(others) ==> (allYes <==> AllGrant(old(state).slots, t, Flat(groups))) && state.records == old(state).records
    {
      hide Valid, Stands, Flat, Refused, Grants;
      ghost var plan := Flat(groups);
      allYes, conflicts := true, [];
      FlatEnds(groups);
      for i := 0 to |groups|
        invariant Valid() && old(trace) <= trace && allYes && conflicts == []
        invariant |Flat(groups[..i])| <= |plan| && Stands(t, plan, shard, AfterVotes(plan, |Flat(groups[..i])|))
        invariant Quiet(others) ==> StillQuiet(old(state), state, t, plan[..|Flat(groups[..i])|])
      {
        FlatAt(groups, i, 0);
        for j := 0 to |groups[i]|
          invariant Valid() && old(trace) <= trace && allYes && conflicts == []
          invariant |Flat(groups[..i])| + j <= |plan| && Stands(t, plan, shard, AfterVotes(plan, |Flat(groups[..i])| + j))
          invariant Quiet(others) ==> StillQuiet(old(state), state, t, plan[..|Flat(groups[..i])| + j])
        {
          FlatAt(groups, i, j);
          ghost var k, before := |Flat(groups[..i])| + j, state;
          assert plan[..k + 1] == plan[..k] + [plan[k]];
          var yes := PrepareRef(t, shard, clock, others, plan, k);
          if Quiet(others) { QuietGoesOn(old(state), before, state, t, plan, k, yes); }
          if !yes {
            allYes, conflicts := false, [groups[i][j].name];
            assert conflicts == [plan[k].name];
            return;
          }
        }
        FlatAt(groups, i, |groups[i]|);
      }
      assert plan[..|plan|] == plan;
    }

    /** The commit point: the decision that was kept drives what follows. */
    method Decide(t: TxnId, shard: ShardId, others: Schedule, ghost plan: seq<Mapping>, ghost allYes: bool) returns (commit: bool)
      requires Valid() && Stands(t, plan, shard, Voted(allYes))
      modifies this
      ensures Valid() && old(trace) <= trace && Stands(t, plan, shard, Finishing(commit, 0))
      ensures allYes && !commit ==> Overruled(start, trace, t)
      ensures Quiet(others) && Lookup(old(state).records, (shard, t)) == Some(Pending) ==> commit == allYes
    {
      hide IsRun, After, ApplyDecide;
      Others(others(steps), Some(t));
      DecisionKept(state.records, (shard, t), allYes);
      Do(CoordDecide(t));
      commit := state.coords[t].phase.commit;
      if allYes && !commit {
        ghost var i := |trace| - 1;
        assert trace[..i] + [CoordDecide(t)] == trace;
        assert OverruledAt(start, trace, i, t);
      }
    }

    /** One ref of the second phase. A committing shard answers with the entry the ref then has,
        if it has one: the staged value if the lock was still held. */
    method FinishRef(t: TxnId, name: RefName, shard: ShardId, commit: bool, others: Schedule, ghost plan: seq<Mapping>, ghost k: nat)
        returns (entry: Option<RefEntry>, ghost before: State)
      requires Valid() && k < |plan| && plan[k].name == name && Stands(t, plan, shard, Finishing(commit, k))
      modifies this
      ensures Valid() && old(trace) <= trace && Stands(t, plan, shard, AfterRefs(plan, commit, k + 1))
      ensures !commit ==> entry.None?
      ensures commit ==> entry == if name in state.slots then Some(state.slots[name].committed) else None
      ensures commit ==> Answered(start, trace, t, plan, k, entry)
      ensures Enabled(before, CoordFinish(t)) && state == Next(before, CoordFinish(t))
      ensures commit && LockedBy(before.slots, name, t) ==>
        entry.Some? && entry.value.target == before.slots[name].prepared.value.target
        && entry.value.version == before.slots[name].committed.version + 1
    {
      hide IsRun, After;
      Others(others(steps), Some(t));
      before := state;
      Do(CoordFinish(t));
      entry := if commit && name in state.slots then Some(state.slots[name].committed) else None;
      if commit {
        ghost var i := |trace| - 1;
        assert trace[..i] + [CoordFinish(t)] == trace && trace[..i + 1] == trace;
        assert AnswerAt(start, trace, i, t, plan, k, entry);
      }
    }

    /** Roll every ref forward or back, and list the entries answered. */
    method FinishPhase(t: TxnId, groups: seq<seq<Mapping>>, shard: ShardId, commit: bool, others: Schedule)
        returns (entries: seq<(RefName, RefEntry)>)
      requires Valid() && Flat(groups) != [] && Stands(t, Flat(groups), shard, Finishing(commit, 0))
      modifies this
      ensures Valid() && old(trace) <= trace && Stands(t, Flat(groups), shard, Ending(commit))
      ensures if commit then ListsPlan(entries, Flat(groups), |Flat(groups)|, start, trace, t) else entries == []
    {
      hide Valid, Stands, Flat, ListsPlan, Answered, Next;
      ghost var plan := Flat(groups);
      entries := [];
      FlatEnds(groups);
      ListsNothing(plan, start, trace, t);
      for i := 0 to |groups|
        invariant Valid() && old(trace) <= trace
        invariant |Flat(groups[..i])| <= |plan| && Stands(t, plan, shard, AfterRefs(plan, commit, |Flat(groups[..i])|))
        invariant if commit then ListsPlan(entries, plan, |Flat(groups[..i])|, start, trace, t) else entries == []
      {
        FlatAt(groups, i, 0);
        for j := 0 to |groups[i]|
          invariant Valid() && old(trace) <= trace
          invariant |Flat(groups[..i])| + j <= |plan| && Stands(t, plan, shard, AfterRefs(plan, commit, |Flat(groups[..i])| + j))
          invariant if commit then ListsPlan(entries, plan, |Flat(groups[..i])| + j, start, trace, t) else entries == []
        {
          FlatAt(groups, i, j);
          ghost var k := |Flat(groups[..i])| + j;
          ghost var earlier := trace;
          var entry, _ := FinishRef(t, groups[i][j].name, shard, commit, others, plan, k);
          if commit {
            ListsPlanStays(entries, plan, k, start, earlier, trace, t);
            ListsPlanGrows(entries, plan, k, start, trace, t, entry);
          }
          if entry.Some? { entries := entries + [(groups[i][j].name, entry.value)]; }
        }
        FlatAt(groups, i, |groups[i]|);
      }
    }

    method Close(t: TxnId, shard: ShardId, others: Schedule, ghost plan: seq<Mapping>, ghost commit: bool)
      requires Valid() && Stands(t, plan, shard, Ending(commit))
      modifies this
      ensures Valid() && old(trace) <= trace && Stands(t, plan, shard, Replied(commit))
      ensures (shard, t) !in state.records
    {
      hide IsRun, After;
      Others(others(steps), Some(t));
      Do(CoordEnd(t));
    }

    /** Started empty, and every record was ended with no lock of its transaction left. */
    ghost predicate Orderly()
      requires Valid()
      reads this
    {
      start == Initial && EndsSafelyThroughout(start, trace)
    }

    /** One atomic commit over refs grouped by shard, whatever others do meanwhile. A reply that
        all moved means every ref moved exactly once, from the value expected to the value asked
        for; a reply that none moved means none did. */
    method CommitAtomic(t: TxnId, groups: seq<seq<Mapping>>, shard: ShardId, clock: nat -> nat, others: Schedule)
        returns (reply: Reply)
      requires Valid() && t !in state.coords && forall i :: 0 <= i < |groups| ==> groups[i] != []
      modifies this
      ensures Valid() && old(trace) <= trace
      ensures groups == [] ==> reply == AllMoved([]) && state == old(state)
      ensures |groups| == 1 ==> OneBatch(groups[0], clock, reply)
      ensures |groups| > 1 ==> HasReplied(state, t, reply.AllMoved?) && state.coords[t].plan == Flat(groups)
      ensures |groups| > 1 ==> (shard, t) !in state.records
      ensures |groups| > 1 && reply.AllMoved? ==> ListsPlan(reply.entries, Flat(groups), |Flat(groups)|, start, trace, t)
      ensures |groups| > 1 && Orderly() ==> !Split(state, t) && (reply.NoneMoved? ==> NeverAdvanced(state, t))
      ensures |groups| > 1 && Orderly() && WritesSafelyThroughout(start, trace) ==> (reply.AllMoved? ==> FullyAdvanced(state, t))
      ensures |groups| > 1 && reply.NoneMoved? ==> HasCause(start, trace, t, Flat(groups), reply.conflicts, reply.presumed)
      ensures |groups| > 1 && Quiet(others) ==> (reply.AllMoved? <==> AllGrant(old(state).slots, t, Flat(groups)))
      ensures |groups| > 1 && Orderly() && reply.NoneMoved? ==>
        RefsStay(old(state), state, trace[|old(trace)|..], t)
      ensures |groups| > 1 && Orderly() && WritesSafelyThroughout(start, trace) && reply.AllMoved? ==>
        RefsMoved(old(state), state, trace[|old(trace)|..], t, Flat(groups))
    {
      hide Valid, Flat, Orderly, WritesSafelyThroughout, FullyAdvanced, NeverAdvanced, Split, ListsPlan, OneBatch, RefsStay, RefsMoved, HasCause, AllGrant;
      if groups == [] { return AllMoved([]); }
      if |groups| == 1 {
        Others(others(steps), Some(t));
        reply := CommitSingleShard(groups[0], clock);
        return;
      }
      reply := CommitAcross(t, groups, shard, clock, others);
    }

    /** Up to the commit point. */
    method VoteAndDecide(t: TxnId, groups: seq<seq<Mapping>>, shard: ShardId, clock: nat -> nat, others: Schedule)
        returns (commit: bool, allYes: bool, conflicts: seq<RefName>)
      requires Valid() && t !in state.coords && Flat(groups) != []
      modifies this
      ensures Valid() && old(trace) <= trace && Stands(t, Flat(groups), shard, Finishing(commit, 0))
      ensures !commit ==> HasCause(start, trace, t, Flat(groups), conflicts, allYes)
      ensures Quiet(others) ==> (commit <==> AllGrant(old(state).slots, t, Flat(groups)))
    {
      hide Valid, Stands, Flat, Blamed, Overruled, AllGrant, HasCause;
      Open(t, Flat(groups), shard, others);
      allYes, conflicts := PreparePhase(t, groups, shard, clock, others);
      ghost var asked := trace;
      commit := Decide(t, shard, others, Flat(groups), allYes);
      if !commit { CauseIs(start, asked, trace, t, Flat(groups), conflicts, allYes); }
    }

    /** The same over several shards: two phases. */
    method CommitAcross(t: TxnId, groups: seq<seq<Mapping>>, shard: ShardId, clock: nat -> nat, others: Schedule)
        returns (reply: Reply)
      requires Valid() && t !in state.coords && groups != [] && groups[|groups| - 1] != []
      modifies this
      ensures Valid() && old(trace) <= trace
      ensures HasReplied(state, t, reply.AllMoved?) && state.coords[t].plan == Flat(groups)
      ensures (shard, t) !in state.records
      ensures reply.AllMoved? ==> ListsPlan(reply.entries, Flat(groups), |Flat(groups)|, start, trace, t)
      ensures Orderly() ==> !Split(state, t) && (reply.NoneMoved? ==> NeverAdvanced(state, t))
      ensures Orderly() && WritesSafelyThroughout(start, trace) ==> (reply.AllMoved? ==> FullyAdvanced(state, t))
      ensures Orderly() && reply.NoneMoved? ==> RefsStay(old(state), state, trace[|old(trace)|..], t)
      ensures Orderly() && WritesSafelyThroughout(start, trace) && reply.AllMoved? ==>
        RefsMoved(old(state), state, trace[|old(trace)|..], t, Flat(groups))
      ensures reply.NoneMoved? ==> HasCause(start, trace, t, Flat(groups), reply.conflicts, reply.presumed)
      ensures Quiet(others) ==> (reply.AllMoved? <==> AllGrant(old(state).slots, t, Flat(groups)))
    {
      ghost var s, before := state, trace;
      assert IsRun(start, before) && s == After(start, before);
      hide Valid, Flat, Orderly, WritesSafelyThroughout, FullyAdvanced, NeverAdvanced, Split, ListsPlan, RefsStay, RefsMoved, IsRun, After, AllGrant, HasCause;
      FlatIsLong(groups);
      var commit, allYes, conflicts := VoteAndDecide(t, groups, shard, clock, others);
      ghost var cause := trace;
      var entries := FinishPhase(t, groups, shard, commit, others);
      ghost var earlier := trace;
      Close(t, shard, others, Flat(groups), commit);
      if commit { ListsPlanStays(entries, Flat(groups), |Flat(groups)|, start, earlier, trace, t); }
      reply := if commit then AllMoved(entries) else NoneMoved(conflicts, allYes);
      if !commit { CauseStays(start, cause, trace, t, Flat(groups), conflicts, allYes); }
      ReplyIsTrue(t, commit);
      RefsAgree(s, before, t, commit, Flat(groups));
    }

    /** What the refs show agrees with the reply. */
    lemma RefsAgree(s: State, before: seq<Action>, t: TxnId, commit: bool, plan: seq<Mapping>)
      requires Valid() && before <= trace && IsRun(start, before) && s == After(start, before) && t !in s.coords
      requires HasReplied(state, t, commit) && state.coords[t].plan == plan
      ensures Orderly() && !commit ==> RefsStay(s, state, trace[|before|..], t)
      ensures Orderly() && WritesSafelyThroughout(start, trace) && commit ==> RefsMoved(s, state, trace[|before|..], t, plan)
    {
      if Orderly() {
        hide LastTarget, Shown, Visible, VersionOf, EndsSafelyThroughout, WritesSafelyThroughout;
        var more := trace[|before|..];
        assert before + more == trace;
        SplitRun(start, before, more);
        if !commit {
          forall n | LeftTo(s, state, more, t, n) ensures Shown(state.slots, n) == Shown(s.slots, n) {
            AbortedLeavesRefs(before, more, t, n);
          }
        } else if WritesSafelyThroughout(start, trace) {
          forall j | 0 <= j < |plan| && LeftTo(s, state, more, t, plan[j].name)
            ensures Visible(s.slots, plan[j].name) == plan[j].expected
            ensures Visible(state.slots, plan[j].name) == LastTarget(plan, plan[j].name)
            ensures VersionOf(state.slots, plan[j].name) == VersionOf(s.slots, plan[j].name) + 1
          {
            CommittedMovesRefs(before, more, t, j);
          }
        }
      }
    }

    lemma ReplyIsTrue(t: TxnId, commit: bool)
      requires Valid() && HasReplied(state, t, commit)
      ensures Orderly() ==> !Split(state, t) && (!commit ==> NeverAdvanced(state, t))
      ensures Orderly() && WritesSafelyThroughout(start, trace) && commit ==> FullyAdvanced(state, t)
    {
      hide FullyAdvanced, NeverAdvanced, Split;
      if Orderly() { ReplyMeans(trace, t, commit); }
    }

    /** The last step was one batch, which moved all refs if every precondition held when it was
        applied and none otherwise. The reply says which: it lists each ref with its new entry, one
        version on, or names every ref of the batch. */
    ghost predicate OneBatch(refs: seq<Mapping>, clock: nat -> nat, reply: Reply)
      reads this
    {
      && trace != [] && IsRun(start, trace[..|trace| - 1]) && trace[|trace| - 1].Batch?
      && var before := After(start, trace[..|trace| - 1]).slots;
        && (reply.AllMoved? <==> AsExpected(before, refs))
        && (if reply.AllMoved? then Installed(before, refs, clock, state.slots) else state.slots == before)
        && (if reply.AllMoved? then ListsNew(before, refs, clock, reply.entries) else NamesAll(refs, reply.conflicts))
    }

    /** One shard: one log entry, all or nothing. A batch that is refused answers for each of its
        refs with a conflict, also for those that were not to blame. */
    method CommitSingleShard(refs: seq<Mapping>, clock: nat -> nat) returns (reply: Reply)
      requires Valid()
      modifies this
      ensures Valid() && trace == old(trace) + [Batch(Stamp(refs, clock))] && OneBatch(refs, clock, reply)
    {
      hide IsRun, After;
      var before := state.slots;
      BatchShows(state, refs, clock);
      hide Next, AsExpected, Installed, ListsNew, NamesAll;
      Do(Batch(Stamp(refs, clock)));
      assert trace[..|trace| - 1] == old(trace);
      var held := AllHold(before, refs);
      var entries, conflicts := Answers(before, refs, clock);
      reply := if held then AllMoved(entries) else NoneMoved(conflicts, false);
    }

    /** The locks on locally hosted refs, as they are found. */
    method ListLocks(hosted: seq<RefName>, others: Schedule) returns (locks: seq<Lock>)
      requires Valid()
      modifies this
      ensures Valid() && old(trace) <= trace && |locks| <= |hosted|
      ensures forall l :: l in locks ==> Listed(l.name, l.intent) in state.tasks
      ensures Quiet(others) ==> AllListed(state.slots, hosted, locks)
    {
      hide Valid;
      locks := [];
      for i := 0 to |hosted|
        invariant Valid() && old(trace) <= trace && |locks| <= i
        invariant forall l :: l in locks ==> Listed(l.name, l.intent) in state.tasks
        invariant Quiet(others) ==> AllListed(state.slots, hosted[..i], locks)
      {
        Others(others(steps), None);
        if Locked(state.slots, hosted[i]) {
          var intent := state.slots[hosted[i]].prepared.value;
          Do(ListLock(hosted[i]));
          locks := locks + [Lock(hosted[i], intent)];
        }
        assert hosted[..i + 1] == hosted[..i] + [hosted[i]];
      }
      assert hosted[..|hosted|] == hosted;
    }

    /** The decision to follow: the recorded one or, for a stale lock without one, whichever
        wins when an abort is recorded. `None` leaves a fresh lock alone. */
    method Judge(l: Lock, ttlMs: nat, clock: nat -> nat, others: Schedule) returns (commit: Option<bool>)
      requires Valid() && Listed(l.name, l.intent) in state.tasks
      modifies this
      ensures Valid() && old(trace) <= trace && old(state).tasks <= state.tasks
      ensures commit.Some? ==> Resolved(l.name, l.intent, commit.value) in state.tasks
      ensures commit.None? ==> FreshSince(trace, |old(trace)|, l, ttlMs, clock)
      ensures Quiet(others) ==> state.slots == old(state).slots
    {
      hide IsRun, After;
      Others(others(steps), None);
      var decision, nowMs := Lookup(state.records, (l.intent.coord, l.intent.txn)), clock(steps);
      Do(ReadDecision(l.name, l.intent, ttlMs, nowMs));
      if decision == Some(Commit) || decision == Some(Abort) { return Some(decision == Some(Commit)); }
      if !LockIsStale(l.intent, ttlMs, nowMs) {
        assert FreshAt(trace, |trace| - 1, l, ttlMs, clock);
        return None;
      }
      Others(others(steps), None);
      Do(ResolverDecide(l.name, l.intent));
      commit := Some(state.records[(l.intent.coord, l.intent.txn)] == Commit);
    }

    method Settle(l: Lock, commit: bool, others: Schedule)
      requires Valid() && Resolved(l.name, l.intent, commit) in state.tasks
      modifies this
      ensures Valid() && old(trace) <= trace && old(state).tasks <= state.tasks
      ensures !LockedBy(state.slots, l.name, l.intent.txn)
      ensures commit ==> EndRecord(l.intent.coord, l.intent.txn) in state.tasks
      ensures SettledSince(trace, |old(trace)|, l, commit)
      ensures Quiet(others) ==> NoNewLocks(old(state).slots, state.slots)
    {
      hide IsRun, After;
      Others(others(steps), None);
      ResolveRefLocks(if commit then state.(tasks := state.tasks + {EndRecord(l.intent.coord, l.intent.txn)}) else state, l.intent.txn, l.name);
      Do(ResolverAct(l.name, l.intent, commit));
      assert SettledAt(trace, |trace| - 1, l, commit);
    }

    /** An end for each of these records. */
    method EndRecords(records: set<(ShardId, TxnId)>, others: Schedule)
      requires Valid() && forall e :: e in records ==> EndRecord(e.0, e.1) in state.tasks
      modifies this
      ensures Valid() && old(trace) <= trace
      ensures forall e :: e in records ==> EndedSince(trace, |old(trace)|, e)
      ensures Quiet(others) ==> state.slots == old(state).slots
    {
      hide Valid, EndedSince;
      var toEnd := records;
      while toEnd != {}
        invariant Valid() && old(trace) <= trace && toEnd <= records
        invariant forall e :: e in toEnd ==> EndRecord(e.0, e.1) in state.tasks
        invariant forall e :: e in records && e !in toEnd ==> EndedSince(trace, |old(trace)|, e)
        invariant Quiet(others) ==> state.slots == old(state).slots
        decreases toEnd
      {
        var e :| e in toEnd;
        toEnd := toEnd - {e};
        ghost var earlier := trace;
        Others(others(steps), None);
        Do(ResolverEnd(e.0, e.1));
        EndsStay(earlier, trace, |old(trace)|, e);
      }
    }

    /** One pass over the hosted locks, then an end for every transaction rolled forward. Every
        lock found is settled unless it is fresh; with nobody else acting and no waiting time,
        no hosted ref is locked afterwards. */
    method ResolveOnce(hosted: seq<RefName>, ttlMs: nat, clock: nat -> nat, others: Schedule)
        returns (resolved: nat, ghost locks: seq<Lock>, ghost left: seq<Lock>)
      requires Valid()
      modifies this
      ensures Valid() && old(trace) <= trace
      ensures |locks| == resolved + |left| <= |hosted|
      ensures forall l :: l in locks ==> l in left || DealtWith(trace, |old(trace)|, l, {})
      ensures forall l :: l in left ==> FreshSince(trace, |old(trace)|, l, ttlMs, clock)
      ensures Quiet(others) && ttlMs == 0 ==> forall name :: name in hosted ==> !Locked(state.slots, name)
      ensures Orderly() ==> forall t :: !Split(state, t)
    {
      hide Valid, Orderly, Split, DealtWith, SettledSince, FreshSince, EndedSince;
      ghost var from := |trace|;
      var found := ListLocks(hosted, others);
      var toEnd: set<(ShardId, TxnId)> := {};
      resolved, locks, left := 0, found, [];
      for i := 0 to |found|
        invariant Valid() && old(trace) <= trace && resolved + |left| == i
        invariant forall l :: l in found ==> Listed(l.name, l.intent) in state.tasks
        invariant forall e :: e in toEnd ==> EndRecord(e.0, e.1) in state.tasks
        invariant forall l :: l in found[..i] ==> l in left || DealtWith(trace, from, l, toEnd)
        invariant forall l :: l in left ==> FreshSince(trace, from, l, ttlMs, clock)
        invariant Quiet(others) && ttlMs == 0 ==> AllListed(state.slots, hosted, found[i..])
      {
        ghost var earlier := trace;
        var commit := Judge(found[i], ttlMs, clock, others);
        if commit == None {
          left := left + [found[i]];
          SinceStays(earlier, trace, from, |earlier|, ttlMs, clock);
          DealtStays(earlier, trace, from, toEnd, toEnd);
          assert found[..i + 1] == found[..i] + [found[i]];
          NoneFreshAtOnce(trace, from, found[i], ttlMs, clock);
          continue;
        }
        ghost var judged := trace;
        Settle(found[i], commit.value, others);
        SinceStays(earlier, trace, from, |judged|, ttlMs, clock);
        assert found[..i + 1] == found[..i] + [found[i]] && found[i..] == [found[i]] + found[i + 1..];
        resolved := resolved + 1;
        ghost var pending := toEnd;
        if commit.value { toEnd := toEnd + {(found[i].intent.coord, found[i].intent.txn)}; }
        DealtStays(earlier, trace, from, pending, toEnd);
        NowDealtWith(trace, from, |judged|, found[i], commit.value, toEnd);
      }
      assert found[..|found|] == found && found[|found|..] == [];
      ghost var earlier, pending := trace, toEnd;
      EndRecords(toEnd, others);
      SinceStays(earlier, trace, from, from, ttlMs, clock);
      DealtStays(earlier, trace, from, pending, {});
      NothingSplit();
    }

    lemma NothingSplit()
      requires Valid()
      ensures Orderly() ==> forall t :: !Split(state, t)
    {
      hide Split;
      if Orderly() { forall t ensures !Split(state, t) { NoRunSplits(trace, t); } }
    }
  }

  /** On the way from `s` to `s'` no plain write names the ref, and nobody but `t` moves it. */
  ghost predicate LeftTo(s: State, s': State, actions: seq<Action>, t: TxnId, n: RefName) {
    NoWritesTo(actions, n) && s.log <= s'.log && OnlyBy(s, s', t, n)
  }

  /** Every ref left to `t` shows the entry it showed before. */
  ghost predicate RefsStay(s: State, s': State, actions: seq<Action>, t: TxnId) {
    forall n :: LeftTo(s, s', actions, t, n) ==> Shown(s'.slots, n) == Shown(s.slots, n)
  }

  /** Every ref of the plan left to `t` stood where it was expected, and shows the last target the plan
      has for it, one version on. */
  ghost predicate RefsMoved(s: State, s': State, actions: seq<Action>, t: TxnId, plan: seq<Mapping>) {
    forall j :: 0 <= j < |plan| && LeftTo(s, s', actions, t, plan[j].name) ==>
      && Visible(s.slots, plan[j].name) == plan[j].expected
      && Visible(s'.slots, plan[j].name) == LastTarget(plan, plan[j].name)
      && VersionOf(s'.slots, plan[j].name) == VersionOf(s.slots, plan[j].name) + 1
  }

  lemma {:induction false} SplitRun(s: State, before: seq<Action>, more: seq<Action>)
    requires IsRun(s, before + more) && EndsSafelyThroughout(s, before + more)
    ensures IsRun(s, before) && IsRun(After(s, before), more) && EndsSafelyThroughout(s, before)
    decreases |before|
  {
    hide Enabled, Next, EndsSafely;
    if before == [] {
      assert before + more == more;
    } else {
      assert (before + more)[1..] == before[1..] + more;
      SplitRun(Next(s, before[0]), before[1..], more);
    }
  }

  datatype Lock = Lock(name: RefName, intent: Intent)

  /** Every ref of the plan can be prepared. */
  predicate AllGrant(slots: Slots, t: TxnId, plan: seq<Mapping>) { forall m :: m in plan ==> Grants(slots, t, m) }

  /** Nobody else acted, and those asked so far could all be prepared. */
  ghost predicate StillQuiet(s: State, now: State, t: TxnId, asked: seq<Mapping>) {
    SameGrants(s.slots, now.slots, t) && now.records == s.records && AllGrant(s.slots, t, asked)
  }

  lemma QuietGoesOn(s: State, before: State, now: State, t: TxnId, plan: seq<Mapping>, k: nat, yes: bool)
    requires k < |plan| && StillQuiet(s, before, t, plan[..k]) && now.records == before.records
    requires yes == Grants(before.slots, t, plan[k]) && SameGrants(before.slots, now.slots, t)
    ensures yes ==> StillQuiet(s, now, t, plan[..k + 1])
    ensures !yes ==> !AllGrant(s.slots, t, plan) && now.records == s.records
  {
    hide Grants;
    assert Grants(before.slots, t, plan[k]) == Grants(s.slots, t, plan[k]);
    assert plan[..k + 1] == plan[..k] + [plan[k]] && plan[k] in plan;
  }

  ghost predicate Quiet(others: Schedule) { forall n :: others(n) == [] }

  ghost predicate AllListed(slots: Slots, hosted: seq<RefName>, locks: seq<Lock>) {
    forall name :: name in hosted && Locked(slots, name) ==> Lock(name, slots[name].prepared.value) in locks
  }

  /** Step `i` rolled the lock forward or released it. */
  predicate SettledAt(trace: seq<Action>, i: nat, l: Lock, commit: bool) {
    i < |trace| && trace[i] == ResolverAct(l.name, l.intent, commit)
  }

  ghost predicate SettledSince(trace: seq<Action>, from: nat, l: Lock, commit: bool) {
    exists i: nat :: from <= i && SettledAt(trace, i, l, commit)
  }

  ghost predicate EndedSince(trace: seq<Action>, from: nat, e: (ShardId, TxnId)) {
    exists i: nat :: from <= i < |trace| && trace[i] == ResolverEnd(e.0, e.1)
  }

  /** The lock was released, or it was rolled forward and its record ended or is `pending` to be. */
  ghost predicate DealtWith(trace: seq<Action>, from: nat, l: Lock, pending: set<(ShardId, TxnId)>) {
    || SettledSince(trace, from, l, false)
    || (SettledSince(trace, from, l, true) &&
        ((l.intent.coord, l.intent.txn) in pending || EndedSince(trace, from, (l.intent.coord, l.intent.txn))))
  }

  /** Step `i` read the lock's decision, and by the clock reading it took with it the lock was
      too young to presume anything. */
  predicate FreshAt(trace: seq<Action>, i: nat, l: Lock, ttlMs: nat, clock: nat -> nat) {
    i < |trace| && trace[i] == ReadDecision(l.name, l.intent, ttlMs, clock(i)) && !LockIsStale(l.intent, ttlMs, clock(i))
  }

  ghost predicate FreshSince(trace: seq<Action>, from: nat, l: Lock, ttlMs: nat, clock: nat -> nat) {
    exists i: nat :: from <= i && FreshAt(trace, i, l, ttlMs, clock)
  }

  lemma NoneFreshAtOnce(trace: seq<Action>, from: nat, l: Lock, ttlMs: nat, clock: nat -> nat)
    requires FreshSince(trace, from, l, ttlMs, clock)
    ensures ttlMs > 0
  {}

  /** What happened since `from` stays, and what happened since a later point happened since `from`. */
  lemma SinceStays(trace: seq<Action>, trace': seq<Action>, from: nat, later: nat, ttlMs: nat, clock: nat -> nat)
    requires trace <= trace' && from <= later
    ensures forall l :: FreshSince(trace, from, l, ttlMs, clock) || FreshSince(trace', later, l, ttlMs, clock) ==>
      FreshSince(trace', from, l, ttlMs, clock)
  {
    forall l | FreshSince(trace, from, l, ttlMs, clock) ensures FreshSince(trace', from, l, ttlMs, clock) {
      var i: nat :| from <= i && FreshAt(trace, i, l, ttlMs, clock);
      assert FreshAt(trace', i, l, ttlMs, clock);
    }
  }

  lemma SettledStays(trace: seq<Action>, trace': seq<Action>, from: nat, l: Lock, commit: bool)
    requires trace <= trace' && SettledSince(trace, from, l, commit)
    ensures SettledSince(trace', from, l, commit)
  {
    var i: nat :| from <= i && SettledAt(trace, i, l, commit);
    assert SettledAt(trace', i, l, commit);
  }

  /** What was dealt with stays so, once what is no longer pending has been ended. */
  lemma DealtStays(trace: seq<Action>, trace': seq<Action>, from: nat, pending: set<(ShardId, TxnId)>, pending': set<(ShardId, TxnId)>)
    requires trace <= trace' && from <= |trace|
    requires forall e :: e in pending && e !in pending' ==> EndedSince(trace', |trace|, e)
    ensures forall l :: DealtWith(trace, from, l, pending) ==> DealtWith(trace', from, l, pending')
  {
    forall l | DealtWith(trace, from, l, pending) ensures DealtWith(trace', from, l, pending') {
      hide SettledSince;
      var e := (l.intent.coord, l.intent.txn);
      if SettledSince(trace, from, l, false) {
        SettledStays(trace, trace', from, l, false);
      } else {
        SettledStays(trace, trace', from, l, true);
        if e !in pending' {
          if e in pending {
            var i: nat :| |trace| <= i < |trace'| && trace'[i] == ResolverEnd(e.0, e.1);
          } else {
            var i: nat :| from <= i < |trace| && trace[i] == ResolverEnd(e.0, e.1);
            assert trace'[i] == ResolverEnd(e.0, e.1);
          }
        }
      }
    }
  }

  lemma EndsStay(trace: seq<Action>, trace': seq<Action>, from: nat, e: (ShardId, TxnId))
    requires trace < trace' && from <= |trace| && trace'[|trace'| - 1] == ResolverEnd(e.0, e.1)
    ensures EndedSince(trace', from, e) && forall e' :: EndedSince(trace, from, e') ==> EndedSince(trace', from, e')
  {
    forall e': (ShardId, TxnId) | EndedSince(trace, from, e') ensures EndedSince(trace', from, e') {
      var i: nat :| from <= i < |trace| && trace[i] == ResolverEnd(e'.0, e'.1);
      assert trace'[i] == ResolverEnd(e'.0, e'.1);
    }
  }

  lemma NowDealtWith(trace: seq<Action>, from: nat, later: nat, l: Lock, commit: bool, pending: set<(ShardId, TxnId)>)
    requires from <= later && SettledSince(trace, later, l, commit) && (commit ==> (l.intent.coord, l.intent.txn) in pending)
    ensures DealtWith(trace, from, l, pending)
  {
    var i: nat :| later <= i && SettledAt(trace, i, l, commit);
    assert SettledSince(trace, from, l, commit);
  }

  /** Every ref is unlocked and shows what is expected of it. */
  ghost predicate AsExpected(slots: Slots, refs: seq<Mapping>) {
    forall i :: 0 <= i < |refs| ==> !Locked(slots, refs[i].name) && Visible(slots, refs[i].name) == refs[i].expected
  }

  ghost predicate ListsNew(before: Slots, refs: seq<Mapping>, clock: nat -> nat, entries: seq<(RefName, RefEntry)>) {
    |entries| == |refs| && forall i :: 0 <= i < |refs| ==>
      entries[i] == (refs[i].name, RefEntry(refs[i].target, clock(i), VersionOf(before, refs[i].name) + 1))
  }

  ghost predicate NamesAll(refs: seq<Mapping>, names: seq<RefName>) {
    |names| == |refs| && forall i :: 0 <= i < |refs| ==> names[i] == refs[i].name
  }

  /** A batch moves every ref if all are as expected, and else none. */
  lemma BatchShows(s: State, refs: seq<Mapping>, clock: nat -> nat)
    ensures var slots := Next(s, Batch(Stamp(refs, clock))).slots;
      if AsExpected(s.slots, refs) then Installed(s.slots, refs, clock, slots) else slots == s.slots
  {
    var ops := Stamp(refs, clock);
    StampInstalls(s.slots, refs, clock);
    hide Installed, InstallBatch;
    if AsExpected(s.slots, refs) {
      forall i | 0 <= i < |ops| ensures BatchOpHolds(s.slots, ops[i].change) {}
    } else {
      var i :| 0 <= i < |refs| && (Locked(s.slots, refs[i].name) || Visible(s.slots, refs[i].name) != refs[i].expected);
      assert !BatchOpHolds(s.slots, ops[i].change);
    }
  }

  method AllHold(before: Slots, refs: seq<Mapping>) returns (held: bool)
    ensures held <==> AsExpected(before, refs)
  {
    held := true;
    for i := 0 to |refs|
      invariant held <==> forall k :: 0 <= k < i ==> BatchOpHolds(before, refs[k])
    {
      held := held && BatchOpHolds(before, refs[i]);
    }
  }

  /** What a batch answers for its refs: the new entries if it holds, else conflicts all round. */
  method Answers(before: Slots, refs: seq<Mapping>, clock: nat -> nat)
      returns (entries: seq<(RefName, RefEntry)>, conflicts: seq<RefName>)
    ensures ListsNew(before, refs, clock, entries) && NamesAll(refs, conflicts)
  {
    entries, conflicts := [], [];
    for i := 0 to |refs|
      invariant |entries| == |conflicts| == i && forall k :: 0 <= k < i ==> conflicts[k] == refs[k].name
      invariant forall k :: 0 <= k < i ==>
        entries[k] == (refs[k].name, RefEntry(refs[k].target, clock(k), VersionOf(before, refs[k].name) + 1))
    {
      entries := entries + [(refs[i].name, RefEntry(refs[i].target, clock(i), VersionOf(before, refs[i].name) + 1))];
      conflicts := conflicts + [refs[i].name];
    }
  }

  /** `slots` is `before` with each ref at the last target given for it, stamped and one version on. */
  ghost predicate Installed(before: Slots, refs: seq<Mapping>, clock: nat -> nat, slots: Slots) {
    && (forall i :: 0 <= i < |refs| && (forall j :: i < j < |refs| ==> refs[j].name != refs[i].name) ==>
          refs[i].name in slots &&
          slots[refs[i].name] == RefSlot(RefEntry(refs[i].target, clock(i), VersionOf(before, refs[i].name) + 1), None))
    && (forall n :: (forall i :: 0 <= i < |refs| ==> refs[i].name != n) ==> SameSlot(before, slots, n))
  }

  lemma StampInstalls(before: Slots, refs: seq<Mapping>, clock: nat -> nat)
    ensures Installed(before, refs, clock, InstallBatch(before, before, Stamp(refs, clock)))
  {
    hide InstallBatch;
    var ops := Stamp(refs, clock);
    InstallShows(before, before, ops);
    forall i | 0 <= i < |refs| && (forall j :: i < j < |refs| ==> refs[j].name != refs[i].name) ensures IsLast(ops, i, refs[i].name) {}
    forall n | forall i :: 0 <= i < |refs| ==> refs[i].name != n ensures !Touches(ops, n) {}
  }

  function Stamp(refs: seq<Mapping>, clock: nat -> nat): (ops: seq<BatchOp>)
    ensures |ops| == |refs| && forall i :: 0 <= i < |refs| ==> ops[i].change == refs[i] && ops[i].hlc == clock(i)
  {
    seq(|refs|, i requires 0 <= i < |refs| => BatchOp(refs[i], clock(i)))
  }

  lemma FlatEnds(groups: seq<seq<Mapping>>)
    ensures Flat(groups[..0]) == [] && groups[..|groups|] == groups
  {}

  lemma FlatIsLong(groups: seq<seq<Mapping>>)
    requires groups != [] && groups[|groups| - 1] != []
    ensures Flat(groups) != []
  {}

  lemma ReplyMeans(trace: seq<Action>, t: TxnId, commit: bool)
    requires IsRun(Initial, trace) && EndsSafelyThroughout(Initial, trace) && HasReplied(After(Initial, trace), t, commit)
    ensures !Split(After(Initial, trace), t)
    ensures !commit ==> NeverAdvanced(After(Initial, trace), t)
    ensures commit && WritesSafelyThroughout(Initial, trace) ==> FullyAdvanced(After(Initial, trace), t)
  {
    hide FullyAdvanced, NeverAdvanced, Split;
    NoRunSplits(trace, t);
    if !commit { AbortedReplyAdvancesNothing(trace, [], t); }
    if commit && WritesSafelyThroughout(Initial, trace) { CommittedReplyAdvancedEveryRef(trace, t); }
  }
}
