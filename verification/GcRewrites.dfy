/**
 Delta rewrites beside a sweep. An object outlives a sweep exactly if no file that its
 delta chain rests on can still be unlinked; a kept object that is rewritten after the
 mark outlives it exactly if its new base does.
 */
module GcRewrites {
  import opened Bytes
  import opened Options
  import opened Delta
  import opened PackFormat
  import opened DeltaStore
  import opened DeltaChains
  import opened DeltaDepth
  import opened Gc
  import opened GcRaces
  import DeltaStranding

  /** Reading `x` comes to `y`. */
  ghost predicate OnWay(s: Disk, x: Oid, y: Oid) { exists h: nat :: ReadsThrough(s, x, y, h) }

  /** The files once the unlink that is pending has happened. */
  function Settled(n: Node): Disk { if n.pending.Some? then Swept(n.disk, {n.pending.value}) else n.disk }

  /** The sweep can still come to `y`, and nothing else holds it. */
  predicate MayGo(p: Pass, n: Node, y: Oid) {
    y in p.candidates && Sweepable(FenceOf(p, n), Settled(n), y) && !PackHolds(n.disk, y)
  }

  /** `x` rests on a file that is about to be unlinked, or may come to be. */
  ghost predicate Exposed(p: Pass, n: Node, x: Oid) {
    || (n.pending.Some? && OnWay(n.disk, x, n.pending.value) && !PackHolds(n.disk, n.pending.value))
    || exists y :: OnWay(Settled(n), x, y) && MayGo(p, n, y)
  }

  // ----- ways ------------------------------------------------------------------------------------------

  lemma WayToItself(s: Disk, x: Oid)
    ensures OnWay(s, x, x)
  {
    assert ReadsThrough(s, x, x, 0);
  }

  lemma WayBefore(s: Disk, x: Oid, y: Oid)
    requires x in s.loose && s.loose[x].DeltaFile? && x != y
    ensures OnWay(s, x, y) <==> OnWay(s, s.loose[x].base, y)
  {
    if OnWay(s, x, y) {
      var h: nat :| ReadsThrough(s, x, y, h);
      assert ReadsThrough(s, s.loose[x].base, y, h - 1);
    }
    if OnWay(s, s.loose[x].base, y) {
      var h: nat :| ReadsThrough(s, s.loose[x].base, y, h);
      assert ReadsThrough(s, x, y, h + 1);
    }
  }

  /** Every delta of `s'` is one of `s`. */
  ghost predicate NoNewDeltas(s: Disk, s': Disk) {
    forall x :: x in s'.loose && s'.loose[x].DeltaFile? ==> x in s.loose && s.loose[x] == s'.loose[x]
  }

  lemma {:induction false} WaysShrink(s: Disk, s': Disk, x: Oid, y: Oid, h: nat)
    requires NoNewDeltas(s, s') && ReadsThrough(s', x, y, h)
    ensures ReadsThrough(s, x, y, h)
    decreases h
  {
    if h > 0 { WaysShrink(s, s', s'.loose[x].base, y, h - 1); }
  }

  lemma NoNewWay(s: Disk, s': Disk, x: Oid, y: Oid)
    requires NoNewDeltas(s, s') && OnWay(s', x, y)
    ensures OnWay(s, x, y)
  {
    var h: nat :| ReadsThrough(s', x, y, h);
    WaysShrink(s, s', x, y, h);
  }

  /** The way up to a file does not depend on that file. */
  lemma {:induction false} WayUpTo(s: Disk, s': Disk, x: Oid, y: Oid, h: nat)
    requires Differ(s, s', y) && ReadsThrough(s, x, y, h)
    ensures ReadsThrough(s', x, y, h)
    decreases h
  {
    if h > 0 { WayUpTo(s, s', s.loose[x].base, y, h - 1); }
  }

  /** What rests on a file that is gone cannot be read. */
  lemma {:induction false} RestsOnNothing(env: Env, s: Disk, x: Oid, y: Oid, h: nat, l: nat)
    requires ReadsThrough(s, x, y, h) && y !in s.loose && !PackHolds(s, y)
    ensures Read(env, s, x, l).Corrupt?
    decreases h
  {
    hide ApplyDelta, Inflate;
    if h > 0 && l > 0 { RestsOnNothing(env, s, s.loose[x].base, y, h - 1, l - 1); }
  }

  /** Unlinking a file that is not on the way, or that a packfile also holds, changes nothing. */
  lemma {:induction false} UnlinkReads(env: Env, s: Disk, id: Oid, x: Oid, l: nat)
    requires EnvOk(env) && Faithful(env, s) && Read(env, s, x, l).Ok? && (OnWay(s, x, id) ==> PackHolds(s, id))
    ensures Read(env, Swept(s, {id}), x, l) == Read(env, s, x, l)
    decreases l
  {
    hide ApplyDelta, Inflate, OnWay;
    if x == id {
      WayToItself(s, x);
      ReadsItsName(env, s, x, l);
    } else if x in s.loose && s.loose[x].DeltaFile? {
      WayBefore(s, x, id);
      UnlinkReads(env, s, id, s.loose[x].base, l - 1);
    }
  }

  // ----- one step of the sweep ---------------------------------------------------------------------------

  lemma SettledReads(env: Env, p: Pass, n: Node, x: Oid, l: nat)
    requires EnvOk(env) && Faithful(env, n.disk) && Read(env, n.disk, x, l).Ok? && !Exposed(p, n, x)
    ensures Read(env, Settled(n), x, l) == Read(env, n.disk, x, l)
  {
    hide Read, EnvOk, Faithful, OnWay, MayGo;
    if n.pending.Some? { UnlinkReads(env, n.disk, n.pending.value, x, l); }
  }

  lemma StatStaysSafe(env: Env, p: Pass, n: Node, id: Oid, x: Oid)
    requires GcRaces.Enabled(p, n, Stat(id)) && !Exposed(p, n, x)
    ensures !Exposed(p, GcRaces.Next(env, p, n, Stat(id)), x)
  {
    hide OnWay, Age;
    var n' := GcRaces.Next(env, p, n, Stat(id));
    assert MayGo(p, n, id) || PackHolds(n.disk, id);
    forall y | OnWay(Settled(n'), x, y) ensures !MayGo(p, n', y) {
      NoNewWay(n.disk, Settled(n'), x, y);
      assert !MayGo(p, n, y);
    }
  }

  lemma UnlinkStaysSafe(env: Env, p: Pass, n: Node, x: Oid)
    requires n.pending.Some? && !Exposed(p, n, x)
    ensures !Exposed(p, GcRaces.Next(env, p, n, Unlink), x)
  {
    hide OnWay;
    var n' := GcRaces.Next(env, p, n, Unlink);
    forall y | MayGo(p, n', y) ensures MayGo(p, n, y) {}
  }

  /** A file written anew is in no more danger than what it replaces. */
  lemma NewFileStaysSafe(env: Env, p: Pass, n: Node, id: Oid, f: File, at: nat, x: Oid, l: nat)
    requires EnvOk(env) && Faithful(env, n.disk) && at >= p.now && Read(env, n.disk, x, l).Ok? && !Exposed(p, n, x)
    requires n.pending != Some(id) && OnWay(Settled(n), x, id)
    ensures !MayGo(p, n.(disk := n.disk.(loose := n.disk.loose[id := f]), mtime := n.mtime[id := at]), id)
  {
    SettledReads(env, p, n, x, l);
    hide Read, EnvOk, Faithful;
    if id in Settled(n).loose {
      assert !MayGo(p, n, id);
    } else if !PackHolds(n.disk, id) {
      var h: nat :| ReadsThrough(Settled(n), x, id, h);
      RestsOnNothing(env, Settled(n), x, id, h, l);
    }
  }

  lemma StoreStaysSafe(env: Env, p: Pass, n: Node, content: seq<byte>, at: nat, x: Oid, l: nat)
    requires EnvOk(env) && Faithful(env, n.disk) && GcRaces.Enabled(p, n, Store(content, at))
    requires Read(env, n.disk, x, l).Ok? && !Exposed(p, n, x)
    ensures !Exposed(p, GcRaces.Next(env, p, n, Store(content, at)), x)
  {
    var n', id := GcRaces.Next(env, p, n, Store(content, at)), env.hash(content);
    hide OnWay, EnvOk, Faithful, Read, Age;
    if n.pending.Some? && OnWay(n'.disk, x, n.pending.value) { NoNewWay(n.disk, n'.disk, x, n.pending.value); }
    forall y | OnWay(Settled(n'), x, y) ensures !MayGo(p, n', y) {
      NoNewWay(Settled(n), Settled(n'), x, y);
      if y == id && n.pending != Some(id) {
        NewFileStaysSafe(env, p, n, id, Stored(env, content), at, x, l);
      } else {
        SameDanger(p, n, n', y, id);
      }
    }
    hide MayGo, Settled;
  }

  lemma StepStaysSafe(env: Env, p: Pass, n: Node, step: Step, x: Oid, l: nat)
    requires EnvOk(env) && Faithful(env, n.disk) && GcRaces.Enabled(p, n, step)
    requires Read(env, n.disk, x, l).Ok? && !Exposed(p, n, x)
    ensures var n' := GcRaces.Next(env, p, n, step);
      Faithful(env, n'.disk) && Read(env, n'.disk, x, l) == Read(env, n.disk, x, l) && !Exposed(p, n', x)
  {
    match step
    case Stat(id) => StatStaysSafe(env, p, n, id, x);
    case Unlink =>
      SettledReads(env, p, n, x, l);
      SweptStaysFaithful(env, n.disk, {n.pending.value});
      UnlinkStaysSafe(env, p, n, x);
    case Store(content, at) =>
      WriteReads(env, n.disk, content, x, l);
      WriteStays(env, n.disk, content);
      StoreStaysSafe(env, p, n, content, at, x, l);
  }

  // ----- outliving a sweep ------------------------------------------------------------------------------------

  /** `x` reads as `c` at every point, however the sweep and the writers beside it go on. */
  ghost predicate Lasts(env: Env, p: Pass, n: Node, x: Oid, c: seq<byte>) {
    forall steps :: GcRaces.IsRun(env, p, n, steps) ==> ReadObject(env, GcRaces.After(env, p, n, steps).disk, x) == Ok(c)
  }

  lemma {:induction false} SafeLasts(env: Env, p: Pass, n: Node, steps: seq<Step>, x: Oid, c: seq<byte>)
    requires EnvOk(env) && Faithful(env, n.disk) && ReadObject(env, n.disk, x) == Ok(c) && !Exposed(p, n, x)
    requires GcRaces.IsRun(env, p, n, steps)
    ensures ReadObject(env, GcRaces.After(env, p, n, steps).disk, x) == Ok(c)
    decreases |steps|
  {
    hide EnvOk, Faithful, Read, Exposed, GcRaces.Enabled, GcRaces.Next;
    if steps != [] {
      StepStaysSafe(env, p, n, steps[0], x, MAX_CHAIN);
      SafeLasts(env, p, GcRaces.Next(env, p, n, steps[0]), steps[1..], x, c);
    }
  }

  lemma UnlinkLoses(env: Env, p: Pass, n: Node, x: Oid)
    requires n.pending.Some? && OnWay(n.disk, x, n.pending.value) && !PackHolds(n.disk, n.pending.value)
    ensures GcRaces.IsRun(env, p, n, [Unlink]) && ReadObject(env, GcRaces.After(env, p, n, [Unlink]).disk, x).Corrupt?
  {
    hide Read;
    var y := n.pending.value;
    OneStep(env, p, n, Unlink);
    var h: nat :| ReadsThrough(n.disk, x, y, h);
    WayUpTo(n.disk, Swept(n.disk, {y}), x, y, h);
    RestsOnNothing(env, Swept(n.disk, {y}), x, y, h, MAX_CHAIN);
  }

  lemma ExposedIsLost(env: Env, p: Pass, n: Node, x: Oid) returns (steps: seq<Step>)
    requires Exposed(p, n, x)
    ensures GcRaces.IsRun(env, p, n, steps) && ReadObject(env, GcRaces.After(env, p, n, steps).disk, x).Corrupt?
  {
    hide Read, OnWay, GcRaces.IsRun, GcRaces.After;
    if n.pending.Some? && OnWay(n.disk, x, n.pending.value) && !PackHolds(n.disk, n.pending.value) {
      UnlinkLoses(env, p, n, x);
      return [Unlink];
    }
    var y :| OnWay(Settled(n), x, y) && MayGo(p, n, y);
    var n1 := if n.pending.Some? then GcRaces.Next(env, p, n, Unlink) else n;
    assert n1.disk == Settled(n) && n1.pending.None? && GcRaces.Enabled(p, n1, Stat(y));
    var n2 := GcRaces.Next(env, p, n1, Stat(y));
    UnlinkLoses(env, p, n2, x);
    MoreSteps(env, p, n1, Stat(y), [Unlink]);
    steps := [Stat(y)] + [Unlink];
    if n.pending.Some? {
      MoreSteps(env, p, n, Unlink, steps);
      steps := [Unlink] + steps;
    }
  }

  /** Any readable object outlives the sweep exactly if nothing it rests on can still be unlinked. */
  lemma LastsIff(env: Env, p: Pass, n: Node, x: Oid, c: seq<byte>)
    requires EnvOk(env) && Faithful(env, n.disk) && ReadObject(env, n.disk, x) == Ok(c)
    ensures Lasts(env, p, n, x, c) <==> !Exposed(p, n, x)
  {
    hide EnvOk, Faithful, Read, Exposed, GcRaces.IsRun, GcRaces.After;
    if Exposed(p, n, x) {
      var steps := ExposedIsLost(env, p, n, x);
    } else {
      forall steps | GcRaces.IsRun(env, p, n, steps) ensures ReadObject(env, GcRaces.After(env, p, n, steps).disk, x) == Ok(c) {
        SafeLasts(env, p, n, steps, x, c);
      }
    }
  }

  // ----- rewrites -----------------------------------------------------------------------------------------------

  /** A rewrite of `t` as a delta against `b`, which passes its guards and its self-check. */
  predicate Rewrites(env: Env, p: Pass, n: Node, t: Oid, b: Oid, delta: seq<byte>, at: nat) {
    DeltaChains.Enabled(env, n.disk, Redelta(t, b, delta)) && Fits(Redelta(t, b, delta)) && at >= p.now
  }

  function AfterRewrite(env: Env, n: Node, t: Oid, b: Oid, delta: seq<byte>, at: nat): Node {
    n.(disk := Rewritten(env, n.disk, t, b, delta), mtime := n.mtime[t := at])
  }

  /** A way that does not pass `t` does not depend on its file. */
  lemma {:induction false} WayPast(s: Disk, s': Disk, t: Oid, x: Oid, y: Oid, h: nat)
    requires Differ(s, s', t) && !OnWay(s, x, t)
    ensures ReadsThrough(s', x, y, h) <==> ReadsThrough(s, x, y, h)
    decreases h
  {
    WayToItself(s, t);
    if h > 0 && x in s.loose && s.loose[x].DeltaFile? {
      WayBefore(s, x, t);
      WayPast(s, s', t, s.loose[x].base, y, h - 1);
    }
  }

  lemma SameWays(s: Disk, s': Disk, t: Oid, x: Oid, y: Oid)
    requires Differ(s, s', t) && !OnWay(s, x, t)
    ensures OnWay(s', x, y) <==> OnWay(s, x, y)
  {
    if h: nat :| ReadsThrough(s', x, y, h) { WayPast(s, s', t, x, y, h); }
    if h: nat :| ReadsThrough(s, x, y, h) { WayPast(s, s', t, x, y, h); }
  }

  lemma {:induction false} ClearWay(s: Disk, b: Oid, t: Oid, d: nat, h: nat)
    requires ClearOf(s, b, t, d)
    ensures !ReadsThrough(s, b, t, h)
    decreases d
  {
    if h > 0 && b in s.loose && s.loose[b].DeltaFile? { ClearWay(s, s.loose[b].base, t, d - 1, h - 1); }
  }

  lemma BaseIsPast(env: Env, p: Pass, n: Node, t: Oid, b: Oid, delta: seq<byte>, at: nat)
    requires EnvOk(env) && Faithful(env, n.disk) && Rewrites(env, p, n, t, b, delta, at)
    ensures !OnWay(n.disk, b, t) && !OnWay(Settled(n), b, t)
    ensures Faithful(env, AfterRewrite(env, n, t, b, delta, at).disk)
  {
    hide EnvOk, Faithful, Admits, Rebuilds, Read, Rewritten, HasDepth;
    var d := RewriteStays(env, n.disk, t, b, delta);
    forall h: nat ensures !ReadsThrough(n.disk, b, t, h) { ClearWay(n.disk, b, t, d, h); }
    if OnWay(Settled(n), b, t) { NoNewWay(n.disk, Settled(n), b, t); }
  }

  /** After the rewrite the target is read, within the limit on hops. */
  lemma RewrittenReads(env: Env, p: Pass, n: Node, t: Oid, b: Oid, delta: seq<byte>, at: nat)
    requires EnvOk(env) && Faithful(env, n.disk) && Rewrites(env, p, n, t, b, delta, at)
    ensures ReadObject(env, n.disk, t).Ok?
    ensures ReadObject(env, Rewritten(env, n.disk, t, b, delta), t) == ReadObject(env, n.disk, t)
  {
    TargetReads(env, n.disk, t, b, delta);
    hide EnvOk, Faithful, Admits, Rebuilds, Read, Rewritten, HasDepth, Hops, ClearOf;
    var d := RewriteStays(env, n.disk, t, b, delta);
    var k := RewrittenHops(env, n.disk, t, b, delta);
    var c := ReadObject(env, n.disk, t).value;
    assert Resolves(env, Rewritten(env, n.disk, t, b, delta), t, c);
    ReadableIffShort(env, Rewritten(env, n.disk, t, b, delta), t, k + 1, c);
  }

  /** A kept object that now rests on `b` is exposed exactly if `b` was. */
  lemma ExposedAsItsBase(env: Env, p: Pass, n: Node, t: Oid, b: Oid, delta: seq<byte>, at: nat)
    requires EnvOk(env) && Faithful(env, n.disk) && Rewrites(env, p, n, t, b, delta, at)
    requires t in p.keep && Spares(p, n)
    ensures Exposed(p, AfterRewrite(env, n, t, b, delta, at), t) <==> Exposed(p, n, b)
  {
    var n' := AfterRewrite(env, n, t, b, delta, at);
    BaseIsPast(env, p, n, t, b, delta, at);
    hide EnvOk, Faithful, Rewrites, OnWay;
    forall y ensures OnWay(n'.disk, b, y) <==> OnWay(n.disk, b, y) { SameWays(n.disk, n'.disk, t, b, y); }
    forall y ensures OnWay(Settled(n'), b, y) <==> OnWay(Settled(n), b, y) { SameWays(Settled(n), Settled(n'), t, b, y); }
    forall y | y != t ensures OnWay(n'.disk, t, y) <==> OnWay(n'.disk, b, y) { WayBefore(n'.disk, t, y); }
    forall y | y != t ensures OnWay(Settled(n'), t, y) <==> OnWay(Settled(n'), b, y) { WayBefore(Settled(n'), t, y); }
    forall y | y != t ensures MayGo(p, n', y) <==> MayGo(p, n, y) {}
    assert !MayGo(p, n', t) && !MayGo(p, n, t);
    hide MayGo, Settled;
  }

  /** Rewritten beside a sweep, a kept object outlives it exactly if its new base is not exposed. */
  lemma RewriteLastsIff(env: Env, p: Pass, n: Node, t: Oid, b: Oid, delta: seq<byte>, at: nat)
    requires EnvOk(env) && Faithful(env, n.disk) && Rewrites(env, p, n, t, b, delta, at)
    requires t in p.keep && Spares(p, n)
    ensures ReadObject(env, n.disk, t).Ok?
    ensures Lasts(env, p, AfterRewrite(env, n, t, b, delta, at), t, ReadObject(env, n.disk, t).value) <==> !Exposed(p, n, b)
  {
    hide EnvOk, Faithful, Rewrites, Exposed, Lasts, Read;
    var n' := AfterRewrite(env, n, t, b, delta, at);
    RewrittenReads(env, p, n, t, b, delta, at);
    BaseIsPast(env, p, n, t, b, delta, at);
    ExposedAsItsBase(env, p, n, t, b, delta, at);
    LastsIff(env, p, n', t, ReadObject(env, n.disk, t).value);
  }

  // ----- runs with rewrites -----------------------------------------------------------------------------------------

  datatype Event = Sweeps(step: Step) | Rewrite(target: Oid, base: Oid, delta: seq<byte>, at: nat)

  /** Rewrites choose bases that are not exposed. */
  ghost predicate Careful(env: Env, p: Pass, n: Node, e: Event) {
    match e
    case Sweeps(step) => GcRaces.Enabled(p, n, step)
    case Rewrite(t, b, delta, at) => Rewrites(env, p, n, t, b, delta, at) && !Exposed(p, n, b)
  }

  ghost function Then(env: Env, p: Pass, n: Node, e: Event): Node
    requires Careful(env, p, n, e)
  {
    match e
    case Sweeps(step) => GcRaces.Next(env, p, n, step)
    case Rewrite(t, b, delta, at) => AfterRewrite(env, n, t, b, delta, at)
  }

  ghost predicate CarefulRun(env: Env, p: Pass, n: Node, events: seq<Event>)
    decreases |events|
  {
    events != [] ==> Careful(env, p, n, events[0]) && CarefulRun(env, p, Then(env, p, n, events[0]), events[1..])
  }

  ghost function AfterAll(env: Env, p: Pass, n: Node, events: seq<Event>): Node
    requires CarefulRun(env, p, n, events)
    decreases |events|
  {
    if events == [] then n else AfterAll(env, p, Then(env, p, n, events[0]), events[1..])
  }

  /** A new way goes as before, or through the rewritten file and on from its base. */
  lemma {:induction false} NewWays(s: Disk, s': Disk, t: Oid, b: Oid, x: Oid, y: Oid, h: nat)
    requires Differ(s, s', t) && t in s'.loose && s'.loose[t].DeltaFile? && s'.loose[t].base == b && !OnWay(s, b, t)
    requires ReadsThrough(s', x, y, h)
    ensures OnWay(s, x, y) || (OnWay(s, x, t) && OnWay(s, b, y))
    decreases h
  {
    hide OnWay;
    WayToItself(s, x);
    if h > 0 {
      if x == t {
        assert OnWay(s', b, y) by { var k: nat := h - 1; assert ReadsThrough(s', b, y, k); LongWay(s', b, y, k); }
        SameWays(s, s', t, b, y);
      } else {
        NewWays(s, s', t, b, s'.loose[x].base, y, h - 1);
        WayBefore(s, x, y);
        WayBefore(s, x, t);
      }
    }
  }

  lemma LongWay(s: Disk, x: Oid, y: Oid, h: nat)
    requires ReadsThrough(s, x, y, h)
    ensures OnWay(s, x, y)
  {}

  lemma NewWay(s: Disk, s': Disk, t: Oid, b: Oid, x: Oid, y: Oid)
    requires Differ(s, s', t) && t in s'.loose && s'.loose[t].DeltaFile? && s'.loose[t].base == b && !OnWay(s, b, t)
    requires OnWay(s', x, y)
    ensures OnWay(s, x, y) || (OnWay(s, x, t) && OnWay(s, b, y))
  {
    var h: nat :| ReadsThrough(s', x, y, h);
    NewWays(s, s', t, b, x, y, h);
  }

  lemma RewriteStaysSafe(env: Env, p: Pass, n: Node, t: Oid, b: Oid, delta: seq<byte>, at: nat, x: Oid, l: nat)
    requires EnvOk(env) && Faithful(env, n.disk) && Rewrites(env, p, n, t, b, delta, at) && !Exposed(p, n, b)
    requires Read(env, n.disk, x, l).Ok? && !Exposed(p, n, x)
    ensures !Exposed(p, AfterRewrite(env, n, t, b, delta, at), x)
  {
    var n' := AfterRewrite(env, n, t, b, delta, at);
    BaseIsPast(env, p, n, t, b, delta, at);
    hide OnWay, EnvOk, Faithful, Read, Rewrites, MayGo, PackHolds, AfterRewrite;
    if n.pending.Some? && OnWay(n'.disk, x, n.pending.value) { PendingAfterRewrite(env, p, n, t, b, delta, at, x); }
    forall y | OnWay(Settled(n'), x, y) ensures !MayGo(p, n', y) { NoneMayGo(env, p, n, t, b, delta, at, x, y, l); }
    assert n'.pending == n.pending && n'.disk.packs == n.disk.packs by { RewriteKeepsRest(env, n, t, b, delta, at); }
    assert n.pending.Some? ==> PackHolds(n'.disk, n.pending.value) == PackHolds(n.disk, n.pending.value) by {
      if n.pending.Some? { SamePacks(n.disk, n'.disk, n.pending.value); }
    }
    hide Settled;
  }

  lemma RewriteKeepsRest(env: Env, n: Node, t: Oid, b: Oid, delta: seq<byte>, at: nat)
    ensures var n' := AfterRewrite(env, n, t, b, delta, at); n'.pending == n.pending && n'.disk.packs == n.disk.packs
  {}

  lemma SamePacks(s: Disk, s': Disk, id: Oid)
    requires s'.packs == s.packs
    ensures PackHolds(s', id) == PackHolds(s, id)
  {}

  lemma PendingAfterRewrite(env: Env, p: Pass, n: Node, t: Oid, b: Oid, delta: seq<byte>, at: nat, x: Oid)
    requires !Exposed(p, n, b) && !Exposed(p, n, x) && !OnWay(n.disk, b, t)
    requires n.pending.Some? && OnWay(AfterRewrite(env, n, t, b, delta, at).disk, x, n.pending.value)
    ensures PackHolds(n.disk, n.pending.value)
  {
    hide OnWay, MayGo, PackHolds;
    NewWay(n.disk, AfterRewrite(env, n, t, b, delta, at).disk, t, b, x, n.pending.value);
  }

  /** Nothing on the new way of `x` can go. */
  lemma NoneMayGo(env: Env, p: Pass, n: Node, t: Oid, b: Oid, delta: seq<byte>, at: nat, x: Oid, y: Oid, l: nat)
    requires EnvOk(env) && Faithful(env, n.disk) && at >= p.now && !Exposed(p, n, b) && !OnWay(Settled(n), b, t)
    requires Read(env, n.disk, x, l).Ok? && !Exposed(p, n, x) && OnWay(Settled(AfterRewrite(env, n, t, b, delta, at)), x, y)
    ensures !MayGo(p, AfterRewrite(env, n, t, b, delta, at), y)
  {
    hide OnWay, EnvOk, Faithful, Read;
    var n' := AfterRewrite(env, n, t, b, delta, at);
    if n.pending == Some(t) {
      assert Settled(n') == Settled(n);
      SameDanger(p, n, n', y, t);
    } else {
      NewWay(Settled(n), Settled(n'), t, b, x, y);
      if y == t {
        NewFileStaysSafe(env, p, n, t, DeltaFile(b, env.z.deflate(delta)), at, x, l);
      } else {
        SameDanger(p, n, n', y, t);
      }
    }
  }

  /** A new file of `t` does not change whether another can go; if it is about to go, none can. */
  lemma SameDanger(p: Pass, n: Node, n': Node, y: Oid, t: Oid)
    requires n'.pending == n.pending && n'.disk.packs == n.disk.packs && (y == t ==> n.pending == Some(t))
    requires forall id :: id != t ==>
      && (id in n'.disk.loose <==> id in n.disk.loose)
      && (id in n'.mtime <==> id in n.mtime) && (id in n.mtime ==> n'.mtime[id] == n.mtime[id])
    ensures MayGo(p, n', y) <==> MayGo(p, n, y)
  {}

  lemma CarefulStep(env: Env, p: Pass, n: Node, e: Event, x: Oid, l: nat) returns (l': nat)
    requires EnvOk(env) && Faithful(env, n.disk) && Careful(env, p, n, e) && Read(env, n.disk, x, l).Ok? && !Exposed(p, n, x)
    ensures var n' := Then(env, p, n, e);
      Faithful(env, n'.disk) && Read(env, n'.disk, x, l') == Read(env, n.disk, x, l) && !Exposed(p, n', x)
  {
    hide EnvOk, Faithful, Read, Exposed, Admits, Rebuilds, Rewritten, HasDepth, ClearOf, GcRaces.Next;
    match e
    case Sweeps(step) =>
      StepStaysSafe(env, p, n, step, x, l);
      l' := l;
    case Rewrite(t, b, delta, at) =>
      RewriteStaysSafe(env, p, n, t, b, delta, at, x, l);
      var d := RewriteStays(env, n.disk, t, b, delta);
      RewrittenReads(env, p, n, t, b, delta, at);
      var s' := Rewritten(env, n.disk, t, b, delta);
      ReadsItsName(env, s', t, MAX_CHAIN);
      l' := StaysResolved(env, n.disk, s', t, MAX_CHAIN, x, l);
  }

  /** With sweep, writers and careful rewrites interleaved in any way, whatever read and was not
      exposed at the start still resolves to the same content, and is still not exposed. */
  lemma {:induction false} CarefulRunsKeep(env: Env, p: Pass, n: Node, events: seq<Event>, x: Oid, l: nat)
    requires EnvOk(env) && Faithful(env, n.disk) && Read(env, n.disk, x, l).Ok? && !Exposed(p, n, x)
    requires CarefulRun(env, p, n, events)
    ensures Resolves(env, AfterAll(env, p, n, events).disk, x, Read(env, n.disk, x, l).value)
    ensures !Exposed(p, AfterAll(env, p, n, events), x)
    decreases |events|
  {
    hide EnvOk, Faithful, Read, Exposed, Careful, Then;
    if events != [] {
      var l' := CarefulStep(env, p, n, events[0], x, l);
      CarefulRunsKeep(env, p, Then(env, p, n, events[0]), events[1..], x, l');
    }
  }

  /** A packed object is kept and an old loose one is not; after the mark the first is rewritten as a
      delta on the second, and the sweep takes the second. Ten seconds of grace do not help. */
  lemma RewriteLosesKept(env: Env) returns (p: Pass, n: Node, t: Oid, b: Oid, delta: seq<byte>, steps: seq<Step>)
    requires EnvOk(env)
    ensures p.grace == 10 && t in p.keep && Faithful(env, n.disk) && BaseClosed(n.disk, p.keep) && Spares(p, n)
    ensures Rewrites(env, p, n, t, b, delta, p.now) && Exposed(p, n, b)
    ensures GcRaces.IsRun(env, p, AfterRewrite(env, n, t, b, delta, p.now), steps)
    ensures ReadObject(env, n.disk, t).Ok?
    ensures ReadObject(env, GcRaces.After(env, p, AfterRewrite(env, n, t, b, delta, p.now), steps).disk, t).Corrupt?
  {
    t, b, delta := env.hash([7]), env.hash([8]), DeltaStranding.Literal(7);
    assert t != b by { assert [7][0] != [8][0]; }
    p, n := Pass({t}, {b}, 20, 10), OldAndPacked(t, b);
    OldMayGo(p, t, b);
    SevenOnEight(env, p, t, b);
    hide EnvOk, Read, Exposed, GcRaces.IsRun, GcRaces.After, Rewrites, OldAndPacked;
    ExposedAsItsBase(env, p, n, t, b, delta, p.now);
    steps := ExposedIsLost(env, p, AfterRewrite(env, n, t, b, delta, p.now), t);
  }

  /** An object of a packfile, and one in a loose file from the beginning of time. */
  function OldAndPacked(t: Oid, b: Oid): Node {
    Node(Disk(map[b := Raw([8])], map[t := Packed([7], None)]), map[b := 0], None)
  }

  lemma OldMayGo(p: Pass, t: Oid, b: Oid)
    requires t != b && p == Pass({t}, {b}, 20, 10)
    ensures Exposed(p, OldAndPacked(t, b), b) && BaseClosed(OldAndPacked(t, b).disk, p.keep) && Spares(p, OldAndPacked(t, b))
  {
    hide OnWay;
    WayToItself(OldAndPacked(t, b).disk, b);
    assert MayGo(p, OldAndPacked(t, b), b);
  }

  lemma SevenOnEight(env: Env, p: Pass, t: Oid, b: Oid)
    requires t == env.hash([7]) && b == env.hash([8]) && t != b
    ensures Rewrites(env, p, OldAndPacked(t, b), t, b, DeltaStranding.Literal(7), p.now)
    ensures Faithful(env, OldAndPacked(t, b).disk) && ReadObject(env, OldAndPacked(t, b).disk, t).Ok?
  {
    hide ApplyDelta;
    DeltaStranding.LiteralApplies(8, 7);
  }
}
