/**
 What refs show. The log of a run and the slots of its shards tell the same story: a
 ref shows a new entry exactly when a transaction advances it or a plain write is
 accepted, and then the entry that was staged or written. So a reply can be checked
 against the refs themselves.
 */
module CrossShardEffects {
  import opened Options
  import opened RefSlots
  import opened CrossShardCommit
  import opened CrossShardAtomicity
  import opened CrossShardReplies

  /** The entry a reader of the ref gets. */
  function Shown(slots: Slots, n: RefName): Option<RefEntry> {
    if n in slots && slots[n].committed.version != 0 then Some(slots[n].committed) else None
  }

  function VersionOf(slots: Slots, n: RefName): nat { if n in slots then slots[n].committed.version else 0 }

  predicate SameSlot(slots: Slots, slots': Slots, n: RefName) {
    (n in slots' <==> n in slots) && (n in slots ==> slots'[n] == slots[n])
  }

  // ----- plain writes --------------------------------------------------------------------------------

  /** An accepted update shows its target one version on, unlocked; a refused one changes nothing, and
      neither touches another ref. */
  lemma UpdateShows(slots: Slots, name: RefName, target: ObjectId, expected: Option<ObjectId>, hlc: nat)
    ensures var (slots', outcome) := ApplyUpdate(slots, name, target, expected, hlc);
      && (outcome == Updated <==> expected == if name in slots then Some(slots[name].committed.target) else None)
      && (outcome == Updated ==> Shown(slots', name) == Some(RefEntry(target, hlc, VersionOf(slots, name) + 1)) && !Locked(slots', name))
      && (outcome != Updated ==> slots' == slots && outcome == if name in slots then Conflict else NotFound)
      && forall n :: n != name ==> SameSlot(slots, slots', n)
  {}

  /** An accepted delete leaves neither entry nor lock. */
  lemma DeleteShows(slots: Slots, name: RefName, current: ObjectId)
    ensures var (slots', outcome) := ApplyDelete(slots, name, current);
      && (outcome == Deleted <==> name in slots && slots[name].committed.target == current)
      && (outcome == Deleted ==> name !in slots')
      && (outcome != Deleted ==> slots' == slots && outcome == if name in slots then Conflict else NotFound)
      && forall n :: n != name ==> SameSlot(slots, slots', n)
  {}

  /** The last operation of a batch that names `n`. */
  predicate IsLast(ops: seq<BatchOp>, i: nat, n: RefName) {
    i < |ops| && ops[i].change.name == n && forall j :: i < j < |ops| ==> ops[j].change.name != n
  }

  predicate Touches(ops: seq<BatchOp>, n: RefName) { exists i :: 0 <= i < |ops| && ops[i].change.name == n }

  /** A batch leaves each ref it names with the entry of the last operation that names it, unlocked and
      one version on from the snapshot, and every other slot as it was. */
  lemma {:induction false} InstallShows(now: Slots, snapshot: Slots, ops: seq<BatchOp>)
    ensures forall i: nat, n :: IsLast(ops, i, n) ==>
      n in InstallBatch(now, snapshot, ops) &&
      InstallBatch(now, snapshot, ops)[n] == RefSlot(RefEntry(ops[i].change.target, ops[i].hlc, VersionOf(snapshot, n) + 1), None)
    ensures forall n :: !Touches(ops, n) ==> SameSlot(now, InstallBatch(now, snapshot, ops), n)
    decreases |ops|
  {
    if ops != [] {
      var m, rest := ops[0].change, ops[1..];
      var first := now[m.name := RefSlot(RefEntry(m.target, ops[0].hlc, VersionOf(snapshot, m.name) + 1), None)];
      InstallShows(first, snapshot, rest);
      var all := InstallBatch(now, snapshot, ops);
      assert all == InstallBatch(first, snapshot, rest);
      hide InstallBatch;
      forall i: nat, n | IsLast(ops, i, n)
        ensures n in all && all[n] == RefSlot(RefEntry(ops[i].change.target, ops[i].hlc, VersionOf(snapshot, n) + 1), None)
      {
        if i > 0 {
          assert IsLast(rest, i - 1, n);
        } else {
          forall k | 0 <= k < |rest| ensures rest[k].change.name != n { assert rest[k] == ops[k + 1]; }
          assert SameSlot(first, all, n);
        }
      }
      forall n | !Touches(ops, n) ensures SameSlot(now, all, n) {
        assert ops[0].change.name != n;
        forall k | 0 <= k < |rest| ensures rest[k].change.name != n { assert rest[k] == ops[k + 1]; }
        assert SameSlot(first, all, n);
      }
    }
  }

  // ----- one step of the protocol ----------------------------------------------------------------------

  /** A prepare votes yes exactly if no other transaction holds the lock and the ref shows what was
      expected; then the lock stages the target with its timestamp. Readers see no difference. */
  lemma PrepareStages(slots: Slots, t: TxnId, coord: ShardId, m: Mapping, hlc: nat)
    ensures var (slots', yes) := ApplyPrepare(slots, t, coord, m, hlc);
      && (yes <==> (Locked(slots, m.name) ==> LockedBy(slots, m.name, t)) && Visible(slots, m.name) == m.expected)
      && (yes ==> m.name in slots' && slots'[m.name].prepared == Some(Intent(t, coord, m.target, hlc)))
      && (!yes ==> slots' == slots)
      && (forall n :: Shown(slots', n) == Shown(slots, n) && VersionOf(slots', n) == VersionOf(slots, n))
      && forall n :: n != m.name ==> SameSlot(slots, slots', n)
  {}

  /** `t` can take the lock for `m`. */
  predicate Grants(slots: Slots, t: TxnId, m: Mapping) {
    (Locked(slots, m.name) ==> LockedBy(slots, m.name, t)) && Visible(slots, m.name) == m.expected
  }

  ghost predicate SameGrants(slots: Slots, slots': Slots, t: TxnId) { forall m :: Grants(slots', t, m) == Grants(slots, t, m) }

  /** Preparing one ref changes nothing about which others can be prepared. */
  lemma PrepareKeepsGrants(slots: Slots, t: TxnId, coord: ShardId, m: Mapping, hlc: nat)
    ensures ApplyPrepare(slots, t, coord, m, hlc).1 == Grants(slots, t, m)
    ensures SameGrants(slots, ApplyPrepare(slots, t, coord, m, hlc).0, t)
  {}

  /** The first decision recorded is the one kept, and a decision to commit fails only against an abort. */
  lemma DecisionKept(records: Records, key: (ShardId, TxnId), commit: bool)
    ensures var records' := ApplyDecide(records, key, commit);
      && key in records'
      && (records'[key] == Commit <==> Lookup(records, key) == Some(Commit) || (commit && Lookup(records, key) != Some(Abort)))
      && (records'[key] == Abort <==> Lookup(records, key) == Some(Abort) || (!commit && Lookup(records, key) != Some(Commit)))
      && forall k :: k != key ==> Lookup(records', k) == Lookup(records, k)
  {}

  /** Rolling forward shows the staged entry, one version on. */
  lemma CommitShows(slots: Slots, t: TxnId, name: RefName)
    ensures var slots' := ApplyCommitPrepared(slots, t, name);
      && (LockedBy(slots, name, t) ==>
            var i := slots[name].prepared.value;
            Shown(slots', name) == Some(RefEntry(i.target, i.hlc, VersionOf(slots, name) + 1)) && !Locked(slots', name))
      && (!LockedBy(slots, name, t) ==> slots' == slots)
      && forall n :: n != name ==> SameSlot(slots, slots', n)
  {}

  /** Releasing a lock leaves what readers see as it was. */
  lemma ReleaseShows(slots: Slots, t: TxnId, name: RefName)
    ensures var slots' := ApplyAbortPrepared(slots, t, name);
      && !LockedBy(slots', name, t)
      && (!LockedBy(slots, name, t) ==> slots' == slots)
      && (forall n :: Shown(slots', n) == Shown(slots, n) && VersionOf(slots', n) == VersionOf(slots, n))
      && forall n :: n != name ==> SameSlot(slots, slots', n)
  {}

  /** The action is a plain write that names the ref. */
  predicate WritesTo(a: Action, n: RefName) {
    match a
    case Update(name, _, _, _) => name == n
    case Delete(name, _) => name == n
    case Batch(ops) => Touches(ops, n)
    case _ => false
  }

  predicate Advances(e: Event, n: RefName) { e.Advanced? && e.name == n }

  /** `t` advanced `n` in this step: the log says so, and the ref shows what the lock had staged. */
  predicate Moves(s: State, s': State, n: RefName, t: TxnId) {
    && LockedBy(s.slots, n, t)
    && var i := s.slots[n].prepared.value;
    && s'.log == s.log + [Advanced(t, n, Visible(s.slots, n), i.target)]
    && Shown(s'.slots, n) == Some(RefEntry(i.target, i.hlc, VersionOf(s.slots, n) + 1))
  }

  /** Readers of `n` see no difference, and the log says nothing of it. */
  predicate Rests(s: State, s': State, n: RefName) {
    && Shown(s'.slots, n) == Shown(s.slots, n) && VersionOf(s'.slots, n) == VersionOf(s.slots, n)
    && s.log <= s'.log && |s'.log| <= |s.log| + 1
    && forall e :: e in s'.log[|s.log|..] ==> !Advances(e, n)
  }

  /** A step that is no plain write on a ref changes what it shows exactly by advancing it. */
  lemma StepShows(s: State, a: Action, n: RefName)
    requires Enabled(s, a) && !WritesTo(a, n)
    ensures Rests(s, Next(s, a), n) || exists t :: Moves(s, Next(s, a), n, t)
  {
    match a
    case CoordPrepare(t, hlc) => PrepareStages(s.slots, t, s.coords[t].shard, s.coords[t].plan[PhaseOf(s, t).next], hlc);
    case CoordFinish(t) => SettleShows(s, t, s.coords[t].plan[PhaseOf(s, t).next].name, PhaseOf(s, t).commit, Next(s, a), n);
    case ResolverAct(name, intent, commit) => SettleShows(s, intent.txn, name, commit, Next(s, a), n);
    case Update(name, target, expected, hlc) => UpdateShows(s.slots, name, target, expected, hlc);
    case Delete(name, current) => DeleteShows(s.slots, name, current);
    case Batch(ops) => InstallShows(s.slots, s.slots, ops);
    case _ =>
  }

  lemma SettleShows(s: State, t: TxnId, name: RefName, commit: bool, s': State, n: RefName)
    requires s'.slots == (if commit then CommitRef(s, t, name) else ReleaseRef(s, t, name)).slots
    requires s'.log == (if commit then CommitRef(s, t, name) else ReleaseRef(s, t, name)).log
    ensures Rests(s, s', n) || exists o :: Moves(s, s', n, o)
  {
    if commit {
      CommitShows(s.slots, t, name);
      if n == name && LockedBy(s.slots, name, t) { assert Moves(s, s', n, t); }
    } else {
      ReleaseShows(s.slots, t, name);
    }
  }

  // ----- runs ------------------------------------------------------------------------------------------

  /** The value after some events, and how many of them moved the ref. */
  function Latest(v: Option<ObjectId>, events: seq<Event>, n: RefName): Option<ObjectId> {
    if events == [] then v
    else if Advances(events[|events| - 1], n) then Some(events[|events| - 1].to)
    else Latest(v, events[..|events| - 1], n)
  }

  function Count(events: seq<Event>, n: RefName): nat {
    if events == [] then 0 else Count(events[..|events| - 1], n) + if Advances(events[|events| - 1], n) then 1 else 0
  }

  /** Each advance starts from the value the one before it left. */
  ghost predicate Linked(v: Option<ObjectId>, events: seq<Event>, n: RefName) {
    forall k :: 0 <= k < |events| && Advances(events[k], n) ==> events[k].from == Latest(v, events[..k], n)
  }

  /** `slots'` shows of `n` what the events make of `slots`. */
  ghost predicate Follows(slots: Slots, events: seq<Event>, slots': Slots, n: RefName) {
    && Visible(slots', n) == Latest(Visible(slots, n), events, n)
    && VersionOf(slots', n) == VersionOf(slots, n) + Count(events, n)
    && Linked(Visible(slots, n), events, n)
    && (Count(events, n) == 0 ==> Shown(slots', n) == Shown(slots, n))
  }

  lemma FollowsNothing(slots: Slots, n: RefName)
    ensures Follows(slots, [], slots, n)
  {}

  lemma FollowsOn(slots: Slots, events: seq<Event>, s: State, s': State, n: RefName)
    requires Follows(slots, events, s.slots, n) && (Rests(s, s', n) || exists t :: Moves(s, s', n, t))
    ensures s.log <= s'.log && Follows(slots, events + s'.log[|s.log|..], s'.slots, n)
  {
    if t :| Moves(s, s', n, t) {
      hide Rests;
      var i := s.slots[n].prepared.value;
      assert s'.log[|s.log|..] == [Advanced(t, n, Visible(s.slots, n), i.target)];
      FollowsOne(slots, events, s.slots, Advanced(t, n, Visible(s.slots, n), i.target), s'.slots, n);
    } else if s'.log == s.log {
      assert events + s'.log[|s.log|..] == events;
    } else {
      var e := s'.log[|s.log|];
      assert s'.log[|s.log|..] == [e] && e in s'.log[|s.log|..];
      FollowsOne(slots, events, s.slots, e, s'.slots, n);
    }
  }

  /** One more event, which moves the ref from what it shows or leaves it alone. */
  lemma FollowsOne(slots: Slots, events: seq<Event>, now: Slots, e: Event, next: Slots, n: RefName)
    requires Follows(slots, events, now, n)
    requires if Advances(e, n)
      then e.from == Visible(now, n) && Visible(next, n) == Some(e.to) && VersionOf(next, n) == VersionOf(now, n) + 1
      else Shown(next, n) == Shown(now, n) && VersionOf(next, n) == VersionOf(now, n)
    ensures Follows(slots, events + [e], next, n)
  {
    hide Latest, Count, Shown;
    LatestOn(Visible(slots, n), events, e, n);
    ShownIsVisible(now, n);
    ShownIsVisible(next, n);
    var all := events + [e];
    forall k | 0 <= k < |all| && Advances(all[k], n) ensures all[k].from == Latest(Visible(slots, n), all[..k], n) {
      if k < |events| { assert all[..k] == events[..k]; } else { assert all[..k] == events; }
    }
  }

  lemma LatestOn(v: Option<ObjectId>, events: seq<Event>, e: Event, n: RefName)
    ensures Latest(v, events + [e], n) == if Advances(e, n) then Some(e.to) else Latest(v, events, n)
    ensures Count(events + [e], n) == Count(events, n) + if Advances(e, n) then 1 else 0
  {
    assert (events + [e])[..|events|] == events;
  }

  lemma ShownIsVisible(slots: Slots, n: RefName)
    ensures Visible(slots, n) == if Shown(slots, n).Some? then Some(Shown(slots, n).value.target) else None
    ensures Shown(slots, n).Some? ==> Shown(slots, n).value.version == VersionOf(slots, n)
  {}

  ghost predicate NoWritesTo(actions: seq<Action>, n: RefName) {
    forall i :: 0 <= i < |actions| ==> !WritesTo(actions[i], n)
  }

  lemma {:induction false} RunFollows(slots: Slots, events: seq<Event>, s: State, actions: seq<Action>, n: RefName)
    requires IsRun(s, actions) && NoWritesTo(actions, n) && Follows(slots, events, s.slots, n)
    ensures s.log <= After(s, actions).log
    ensures Follows(slots, events + After(s, actions).log[|s.log|..], After(s, actions).slots, n)
    decreases |actions|
  {
    hide Follows, Enabled, Next, WritesTo, Rests;
    if actions == [] {
      assert s.log[|s.log|..] == [] && events + [] == events;
    } else {
      var s1 := Next(s, actions[0]);
      assert !WritesTo(actions[0], n);
      StepShows(s, actions[0], n);
      FollowsOn(slots, events, s, s1, n);
      var more := events + s1.log[|s.log|..];
      forall i | 0 <= i < |actions[1..]| ensures !WritesTo(actions[1..][i], n) { assert actions[1..][i] == actions[i + 1]; }
      RunFollows(slots, more, s1, actions[1..], n);
      var end := After(s, actions);
      assert more + end.log[|s1.log|..] == events + end.log[|s.log|..];
    }
  }

  /** In a run without plain writes on a ref, the ref shows what the last advance in the log says, one
      version on for each, and each advance starts from the value the one before it left. */
  lemma RunShows(s: State, actions: seq<Action>, n: RefName)
    requires IsRun(s, actions) && NoWritesTo(actions, n)
    ensures s.log <= After(s, actions).log && Follows(s.slots, After(s, actions).log[|s.log|..], After(s, actions).slots, n)
  {
    hide Follows;
    FollowsNothing(s.slots, n);
    RunFollows(s.slots, [], s, actions, n);
    assert [] + After(s, actions).log[|s.log|..] == After(s, actions).log[|s.log|..];
  }

  // ----- replies ---------------------------------------------------------------------------------------

  /** Between `s` and `s'` nobody but `t` moved the ref. */
  ghost predicate OnlyBy(s: State, s': State, t: TxnId, n: RefName)
    requires s.log <= s'.log
  {
    forall e :: e in s'.log[|s.log|..] && Advances(e, n) ==> e.txn == t
  }

  lemma {:induction false} NoneCounted(events: seq<Event>, n: RefName)
    requires forall e :: e in events ==> !Advances(e, n)
    ensures Count(events, n) == 0
    decreases |events|
  {
    if events != [] { NoneCounted(events[..|events| - 1], n); }
  }

  lemma {:induction false} OneCounted(v: Option<ObjectId>, events: seq<Event>, n: RefName, i: nat)
    requires i < |events| && Advances(events[i], n) && forall j :: 0 <= j < |events| && Advances(events[j], n) ==> j == i
    ensures Latest(v, events, n) == Some(events[i].to) && Count(events, n) == 1
    decreases |events|
  {
    var k := |events| - 1;
    if i == k {
      forall e | e in events[..k] ensures !Advances(e, n) {
        var j :| 0 <= j < k && events[j] == e;
      }
      NoneCounted(events[..k], n);
    } else {
      OneCounted(v, events[..k], n, i);
    }
  }

  /** From the moment before a transaction begins to its reply: if it replied that none moved, each ref
      that nobody else touched shows the very entry it showed before. */
  lemma AbortedLeavesRefs(before: seq<Action>, more: seq<Action>, t: TxnId, n: RefName)
    requires IsRun(Initial, before) && IsRun(After(Initial, before), more) && IsRun(Initial, before + more)
    requires EndsSafelyThroughout(Initial, before + more) && HasReplied(After(Initial, before + more), t, false)
    requires NoWritesTo(more, n)
    ensures var s, s' := After(Initial, before), After(Initial, before + more);
      s.log <= s'.log && (OnlyBy(s, s', t, n) ==> Shown(s'.slots, n) == Shown(s.slots, n))
  {
    var s, s' := After(Initial, before), After(Initial, before + more);
    RunAppends(Initial, before, more);
    RunShows(s, more, n);
    NeverMoved(before + more, t);
    hide IsRun, After;
    if OnlyBy(s, s', t, n) {
      forall e | e in s'.log[|s.log|..] ensures !Advances(e, n) { NotByIt(s', t, n, e); }
      NoneCounted(s'.log[|s.log|..], n);
    }
  }

  lemma NotByIt(s: State, t: TxnId, n: RefName, e: Event)
    requires NeverAdvanced(s, t) && e in s.log
    ensures Advances(e, n) ==> e.txn != t
  {
    assert Advances(e, n) ==> e == Advanced(e.txn, n, e.from, e.to);
  }

  lemma NeverMoved(actions: seq<Action>, t: TxnId)
    requires IsRun(Initial, actions) && EndsSafelyThroughout(Initial, actions) && HasReplied(After(Initial, actions), t, false)
    ensures NeverAdvanced(After(Initial, actions), t)
  {
    hide NeverAdvanced;
    AbortedReplyAdvancesNothing(actions, [], t);
  }

  /** If it replied that all moved, each ref of the plan that nobody else touched shows the target asked
      for, one version on. */
  lemma CommittedMovesRefs(before: seq<Action>, more: seq<Action>, t: TxnId, j: nat)
    requires IsRun(Initial, before) && IsRun(After(Initial, before), more) && IsRun(Initial, before + more)
    requires EndsSafelyThroughout(Initial, before) && EndsSafelyThroughout(Initial, before + more)
    requires WritesSafelyThroughout(Initial, before + more) && HasReplied(After(Initial, before + more), t, true)
    requires t !in After(Initial, before).coords && j < |After(Initial, before + more).coords[t].plan|
    requires NoWritesTo(more, After(Initial, before + more).coords[t].plan[j].name)
    ensures var s, s' := After(Initial, before), After(Initial, before + more);
      var plan, n := s'.coords[t].plan, s'.coords[t].plan[j].name;
      s.log <= s'.log && (OnlyBy(s, s', t, n) ==>
        && Visible(s.slots, n) == plan[j].expected
        && Visible(s'.slots, n) == LastTarget(plan, n) && VersionOf(s'.slots, n) == VersionOf(s.slots, n) + 1)
  {
    var s, s' := After(Initial, before), After(Initial, before + more);
    var plan, n := s'.coords[t].plan, s'.coords[t].plan[j].name;
    RunAppends(Initial, before, more);
    RunShows(s, more, n);
    RunKeepsInv(Initial, before);
    assert forall e :: e in s.log ==> e.txn != t;
    CommittedReplyAdvancedEveryRef(before + more, t);
    hide IsRun, After, Inv, Follows, FullyAdvanced, Visible, VersionOf, LastTarget;
    if OnlyBy(s, s', t, n) { MovedOnce(s, s', t, j); }
  }

  lemma MovedOnce(s: State, s': State, t: TxnId, j: nat)
    requires t in s'.coords && j < |s'.coords[t].plan| && FullyAdvanced(s', t) && forall e :: e in s.log ==> e.txn != t
    requires s.log <= s'.log && OnlyBy(s, s', t, s'.coords[t].plan[j].name)
    requires Follows(s.slots, s'.log[|s.log|..], s'.slots, s'.coords[t].plan[j].name)
    ensures var plan, n := s'.coords[t].plan, s'.coords[t].plan[j].name;
      && Visible(s.slots, n) == plan[j].expected
      && Visible(s'.slots, n) == LastTarget(plan, n) && VersionOf(s'.slots, n) == VersionOf(s.slots, n) + 1
  {
    hide Latest, Count, LastTarget, Visible, VersionOf;
    var plan, n := s'.coords[t].plan, s'.coords[t].plan[j].name;
    var news := s'.log[|s.log|..];
    var e := Advanced(t, n, plan[j].expected, LastTarget(plan, n).value);
    assert AdvancedAsPlanned(s', t, j) && e in s'.log;
    var k :| 0 <= k < |s'.log| && s'.log[k] == e;
    assert k >= |s.log| && news[k - |s.log|] == e;
    OnlyOne(s, s', t, n, k);
    OneCounted(Visible(s.slots, n), news, n, k - |s.log|);
    NoneBefore(Visible(s.slots, n), news, n, k - |s.log|);
  }

  lemma OnlyOne(s: State, s': State, t: TxnId, n: RefName, k: nat)
    requires s.log <= s'.log && OnlyBy(s, s', t, n) && |s.log| <= k < |s'.log| && AdvanceOf(s'.log[k], t, n)
    requires exists i :: (0 <= i < |s'.log| && AdvanceOf(s'.log[i], t, n) &&
      forall i' :: 0 <= i' < |s'.log| && AdvanceOf(s'.log[i'], t, n) ==> i' == i)
    ensures var news := s'.log[|s.log|..];
      forall j :: 0 <= j < |news| && Advances(news[j], n) ==> j == k - |s.log|
  {
    var news := s'.log[|s.log|..];
    forall j | 0 <= j < |news| && Advances(news[j], n) ensures j == k - |s.log| {
      assert news[j] == s'.log[|s.log| + j] && news[j] in news;
      assert AdvanceOf(s'.log[|s.log| + j], t, n);
    }
  }

  lemma NoneBefore(v: Option<ObjectId>, events: seq<Event>, n: RefName, i: nat)
    requires i < |events| && Advances(events[i], n) && forall j :: 0 <= j < |events| && Advances(events[j], n) ==> j == i
    ensures Latest(v, events[..i], n) == v
  {
    forall e | e in events[..i] ensures !Advances(e, n) {
      var j :| 0 <= j < i && events[j] == e;
    }
    StaysLatest(v, events[..i], n);
  }

  lemma {:induction false} StaysLatest(v: Option<ObjectId>, events: seq<Event>, n: RefName)
    requires forall e :: e in events ==> !Advances(e, n)
    ensures Latest(v, events, n) == v
    decreases |events|
  {
    if events != [] { StaysLatest(v, events[..|events| - 1], n); }
  }

  // ----- the age of a lock --------------------------------------------------------------------------------

  /** A timestamp holds milliseconds above twenty bits of counter. A lock may be presumed dead once its
      time to live has passed since those milliseconds, or at once if it has none. */
  lemma StaleIff(intent: Intent, ms: nat, counter: nat, ttlMs: nat, nowMs: nat)
    requires counter < 1048576 && intent.hlc == ms * 1048576 + counter
    ensures LockIsStale(intent, ttlMs, nowMs) <==> ttlMs == 0 || ms + ttlMs <= nowMs
  {
    assert intent.hlc / 1048576 == ms;
  }
}
