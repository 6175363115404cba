/**
 Depth with annotated tags, exactly. The walk meets objects in the order of its queue:
 by the number of hops, and among equally many by the order in which wants and parents
 are listed. A tag costs a hop but no depth, so the first route to a commit need not be
 the shortest one; the walk is exact precisely if that never happens at the limit.
 */
module ShallowExact {
  import opened Options
  import opened GraphWalk
  import opened ObjectGraph
  import opened Shallow
  import opened ShallowDepth
  import opened ShallowTags

  // ----- queue order -----------------------------------------------------------------------------

  /** A way through the graph, given by the position of a want and then of each entry it leads to. */
  type Address = seq<nat>

  function Up(q: Address): Address
    requires q != []
  {
    q[..|q| - 1]
  }

  function Last(q: Address): nat
    requires q != []
  {
    q[|q| - 1]
  }

  predicate Lex(q: Address, r: Address)
    requires |q| == |r|
    decreases |q|
  {
    q != [] && (Lex(Up(q), Up(r)) || (Up(q) == Up(r) && Last(q) < Last(r)))
  }

  /** Fewer hops come first, and then the position at the first hop that differs decides. */
  predicate Before(q: Address, r: Address) { |q| < |r| || (|q| == |r| && Lex(q, r)) }

  lemma {:induction false} LexIsStrict(q: Address)
    ensures !Lex(q, q)
    decreases |q|
  {
    if q != [] { LexIsStrict(Up(q)); }
  }

  lemma {:induction false} LexGoesOn(a: Address, b: Address, c: Address)
    requires |a| == |b| == |c| && Lex(a, b) && Lex(b, c)
    ensures Lex(a, c)
    decreases |a|
  {
    if Lex(Up(a), Up(b)) && Lex(Up(b), Up(c)) { LexGoesOn(Up(a), Up(b), Up(c)); }
  }

  lemma {:induction false} LexDecides(a: Address, b: Address)
    requires |a| == |b|
    ensures Lex(a, b) || a == b || Lex(b, a)
    decreases |a|
  {
    if a == [] {
      assert a == b;
    } else {
      LexDecides(Up(a), Up(b));
      assert a == Up(a) + [Last(a)] && b == Up(b) + [Last(b)];
    }
  }

  lemma BeforeIsStrict(q: Address)
    ensures !Before(q, q)
  {
    LexIsStrict(q);
  }

  lemma BeforeGoesOn(a: Address, b: Address, c: Address)
    requires Before(a, b) && Before(b, c)
    ensures Before(a, c)
  {
    hide Lex;
    if |a| == |b| == |c| { LexGoesOn(a, b, c); }
  }

  lemma BeforeDecides(a: Address, b: Address)
    ensures Before(a, b) || a == b || Before(b, a)
  {
    hide Lex;
    if |a| == |b| { LexDecides(a, b); }
  }

  /** What follows from earlier places is earlier. */
  lemma ChildrenInOrder(q: Address, r: Address, i: nat, j: nat)
    requires Before(q, r) || (q == r && i < j)
    ensures Before(q + [i], r + [j])
  {
    assert Up(q + [i]) == q && Up(r + [j]) == r;
  }

  lemma {:induction false} LeastNat(s: iset<nat>, k: nat) returns (m: nat)
    requires k in s
    ensures m in s && forall j :: j in s ==> m <= j
    decreases k
  {
    m := k;
    if j :| j in s && j < k { m := LeastNat(s, j); }
  }

  predicate GoesOnWith(s: iset<Address>, p: Address, k: nat) { p + [k] in s }

  ghost predicate GoesOn(s: iset<Address>, p: Address) { exists k: nat :: GoesOnWith(s, p, k) }

  ghost predicate HasLength(s: iset<Address>, n: nat) { exists r :: r in s && |r| == n }

  lemma {:induction false} LexLeast(s: iset<Address>, n: nat, q: Address) returns (m: Address)
    requires q in s && |q| == n
    ensures m in s && |m| == n && forall r :: r in s && |r| == n ==> !Lex(r, m)
    decreases n
  {
    m := q;
    if n > 0 {
      var ups := iset p: Address | GoesOn(s, p);
      assert Up(q) + [Last(q)] == q && GoesOnWith(s, Up(q), Last(q));
      var p := LexLeast(ups, n - 1, Up(q));
      var k0: nat :| GoesOnWith(s, p, k0);
      var ks := iset k: nat | GoesOnWith(s, p, k);
      var k := LeastNat(ks, k0);
      m := p + [k];
      assert Up(m) == p && Last(m) == k;
      forall r | r in s && |r| == n ensures !Lex(r, m) {
        assert Up(r) + [Last(r)] == r && GoesOnWith(s, Up(r), Last(r)) && Up(r) in ups;
        assert Up(r) == p ==> Last(r) in ks;
      }
    }
  }

  /** Any set of addresses has a first one. */
  lemma Least(s: iset<Address>, q: Address) returns (m: Address)
    requires q in s
    ensures m in s && forall r :: r in s ==> !Before(r, m)
  {
    hide Lex;
    var ns := iset n: nat | HasLength(s, n);
    assert HasLength(s, |q|);
    var n := LeastNat(ns, |q|);
    var r0 :| r0 in s && |r0| == n;
    m := LexLeast(s, n, r0);
    forall r | r in s ensures !Before(r, m) { assert HasLength(s, |r|) && |r| in ns; }
  }

  // ----- addresses --------------------------------------------------------------------------------

  /** What the walk queues when it meets `x` at level `d`. */
  function Pushed(rq: Request, x: Sha, d: nat): seq<(Sha, nat)> {
    if x in rq.exclude then []
    else if IsTag(rq.repo, x) then At(TagTargets(rq.repo, x), d)
    else if d < rq.depth then At(LiveParents(rq, x), d + 1)
    else []
  }

  /** The object an address leads to, and its level on that way; nothing beyond the depth has one. */
  ghost function Entry(rq: Request, wants: seq<Sha>, q: Address): Option<(Sha, nat)>
    decreases |q|
  {
    if q == [] then None
    else if |q| == 1 then if q[0] < |wants| then Some((wants[q[0]], 1)) else None
    else
      match Entry(rq, wants, Up(q))
      case None => None
      case Some((x, d)) => if Last(q) < |Pushed(rq, x, d)| then Some(Pushed(rq, x, d)[Last(q)]) else None
  }

  ghost predicate LeadsTo(rq: Request, wants: seq<Sha>, q: Address, x: Sha) {
    Entry(rq, wants, q).Some? && Entry(rq, wants, q).value.0 == x && x !in rq.exclude
  }

  ghost function Level(rq: Request, wants: seq<Sha>, q: Address): nat
    requires Entry(rq, wants, q).Some?
  {
    Entry(rq, wants, q).value.1
  }

  /** The first way to `x` in queue order. */
  ghost predicate IsFirst(rq: Request, wants: seq<Sha>, q: Address, x: Sha) {
    LeadsTo(rq, wants, q, x) && forall r :: LeadsTo(rq, wants, r, x) ==> !Before(r, q)
  }

  lemma FirstExists(rq: Request, wants: seq<Sha>, q: Address, x: Sha) returns (f: Address)
    requires LeadsTo(rq, wants, q, x)
    ensures IsFirst(rq, wants, f, x) && (f == q || Before(f, q))
  {
    hide Before, LeadsTo;
    f := Least((iset r: Address | LeadsTo(rq, wants, r, x)), q);
    BeforeDecides(f, q);
  }

  /** Being cut off at the limit shows: parents are left out, or an old boundary stays one. */
  predicate Cuts(rq: Request, x: Sha) {
    IsCommit(rq.repo, x) && (LiveParents(rq, x) != [] || x in rq.boundaries)
  }

  /** The first way to `x` ends at the limit, and another one does not. */
  ghost predicate Late(rq: Request, wants: seq<Sha>, q: Address, x: Sha) {
    IsFirst(rq, wants, q, x) && Cuts(rq, x) && Level(rq, wants, q) == rq.depth && rq.depth > 1 && Near(rq, wants, x, rq.depth - 1)
  }

  /** No commit that would be cut off is first come to at the limit while it lies nearer. */
  ghost predicate InTime(rq: Request, wants: seq<Sha>) {
    forall q, x :: !Late(rq, wants, q, x)
  }

  // ----- addresses and routes ----------------------------------------------------------------------

  lemma ChildEntry(rq: Request, wants: seq<Sha>, q: Address, i: nat)
    requires Entry(rq, wants, q).Some?
    ensures var (x, d) := Entry(rq, wants, q).value;
      Entry(rq, wants, q + [i]) == if i < |Pushed(rq, x, d)| then Some(Pushed(rq, x, d)[i]) else None
  {
    assert Up(q + [i]) == q;
  }

  lemma {:induction false} AddressIsNear(rq: Request, wants: seq<Sha>, q: Address)
    requires Entry(rq, wants, q).Some? && Entry(rq, wants, q).value.0 !in rq.exclude && rq.depth > 0
    ensures var (x, d) := Entry(rq, wants, q).value; 0 < d <= rq.depth && Near(rq, wants, x, d)
    decreases |q|
  {
    hide Near, LiveParents, TagTargets, IsTag;
    var (x, d) := Entry(rq, wants, q).value;
    if |q| == 1 {
      NearWant(rq, wants, x, 1);
    } else {
      var (y, e) := Entry(rq, wants, Up(q)).value;
      AddressIsNear(rq, wants, Up(q));
      NearStep(rq, wants, y, e, x, d);
    }
  }

  lemma {:induction false} RouteHasAddress(rq: Request, wants: seq<Sha>, p: seq<Sha>) returns (q: Address)
    requires IsRoute(rq, wants, p) && Cost(rq, p) <= rq.depth
    ensures Entry(rq, wants, q) == Some((p[|p| - 1], Cost(rq, p)))
    decreases |p|
  {
    hide LiveParents, TagTargets, IsTag;
    if |p| == 1 {
      var i :| 0 <= i < |wants| && wants[i] == p[0];
      q := [i];
    } else {
      var p0, x := p[..|p| - 1], p[|p| - 1];
      var y := p0[|p0| - 1];
      assert y == p[|p| - 2];
      var q0 := RouteHasAddress(rq, wants, p0);
      NoParentsOfTags(rq, y);
      NoTargetsOfOthers(rq, y);
      var next := if IsTag(rq.repo, y) then TagTargets(rq.repo, y) else LiveParents(rq, y);
      var i :| 0 <= i < |next| && next[i] == x;
      ChildEntry(rq, wants, q0, i);
      q := q0 + [i];
    }
  }

  lemma NoTargetsOfOthers(rq: Request, s: Sha)
    ensures !IsTag(rq.repo, s) ==> TagTargets(rq.repo, s) == []
  {}

  lemma NearHasAddress(rq: Request, wants: seq<Sha>, x: Sha, k: nat) returns (q: Address)
    requires Near(rq, wants, x, k) && k <= rq.depth
    ensures LeadsTo(rq, wants, q, x) && Level(rq, wants, q) <= k
  {
    hide Entry, Cost;
    var p :| IsRoute(rq, wants, p) && p[|p| - 1] == x && Cost(rq, p) <= k;
    q := RouteHasAddress(rq, wants, p);
  }

  /** No late commit is come to before `q`. */
  ghost predicate OnTime(rq: Request, wants: seq<Sha>, q: Address) {
    forall f, y :: Before(f, q) ==> !Late(rq, wants, f, y)
  }

  /** An earlier way to an object goes on as a later one does, unless it ends at the limit. */
  lemma EarlierGoesOn(rq: Request, wants: seq<Sha>, q: Address, x: Sha, f: Address, y: Sha)
    requires rq.depth > 0 && |q| > 1 && LeadsTo(rq, wants, q, x) && LeadsTo(rq, wants, Up(q), y) && IsFirst(rq, wants, f, y)
    ensures LeadsTo(rq, wants, f + [Last(q)], x) || Late(rq, wants, f, y)
  {
    var d, e := Level(rq, wants, Up(q)), Level(rq, wants, f);
    assert q == Up(q) + [Last(q)];
    ChildEntry(rq, wants, f, Last(q));
    ChildEntry(rq, wants, Up(q), Last(q));
    AddressIsNear(rq, wants, f);
    AddressIsNear(rq, wants, Up(q));
    hide Near, LiveParents, IsTag, TagTargets, Entry, IsFirst;
    if !IsTag(rq.repo, y) && e == rq.depth {
      OnlyCommitsHaveParents(rq, y);
      NearMonotone(rq, wants, y, d, rq.depth - 1);
    }
  }

  /** Up to a late commit, first ways go through first ways. */
  lemma FirstWayUp(rq: Request, wants: seq<Sha>, q: Address, x: Sha) returns (y: Sha)
    requires rq.depth > 0 && IsFirst(rq, wants, q, x) && |q| > 1 && OnTime(rq, wants, q)
    ensures IsFirst(rq, wants, Up(q), y) && OnTime(rq, wants, Up(q)) && Before(Up(q), q)
  {
    y := Entry(rq, wants, Up(q)).value.0;
    assert LeadsTo(rq, wants, Up(q), y);
    assert q == Up(q) + [Last(q)] && Before(Up(q), q);
    hide Before, Entry, LeadsTo, Late;
    OnTimeEarlier(rq, wants, Up(q), q);
    var f := FirstExists(rq, wants, Up(q), y);
    EarlierGoesOn(rq, wants, q, x, f, y);
    if f != Up(q) {
      BeforeGoesOn(f, Up(q), q);
      ChildrenInOrder(f, Up(q), Last(q), Last(q));
    }
  }

  lemma OnTimeEarlier(rq: Request, wants: seq<Sha>, p: Address, q: Address)
    requires OnTime(rq, wants, q) && Before(p, q)
    ensures OnTime(rq, wants, p)
  {
    hide Before, Late;
    forall f, z | Before(f, p) ensures !Late(rq, wants, f, z) { BeforeGoesOn(f, p, q); }
  }

  // ----- the walk in queue order -----------------------------------------------------------------------

  /** `qa` are the addresses of the queue: in order, after everything met, the parent of each
      before the head. */
  ghost predicate Queues(rq: Request, wants: seq<Sha>, st: Scan, qa: seq<Address>, met: map<Sha, Address>) {
    && |qa| == |st.queue| && (forall i :: 0 <= i < |qa| ==> Entry(rq, wants, qa[i]) == Some(st.queue[i]))
    && InOrder(qa) && (qa != [] ==> forall y :: y in met ==> Before(met[y], qa[0]))
  }

  ghost predicate InOrder(qa: seq<Address>) {
    && (forall i, j :: 0 <= i < j < |qa| ==> Before(qa[i], qa[j]))
    && (forall q :: q in qa ==> q != [] && (|q| == 1 || Before(Up(q), qa[0])))
  }

  /** Objects with the address under which they were met, and what was reported of them. */
  ghost predicate Records(rq: Request, wants: seq<Sha>, st: Scan, met: map<Sha, Address>) {
    && met.Keys == st.seen && (forall y :: y in met ==> LeadsTo(rq, wants, met[y], y))
    && (forall x :: x in st.roots <==> x in met && Held(rq.repo, x))
    && (forall x :: x in st.shallow <==> x in met && LiveParents(rq, x) != [] && Level(rq, wants, met[x]) == rq.depth)
    && (forall x :: x in st.unshallow <==>
          x in met && IsCommit(rq.repo, x) && x in rq.boundaries && Level(rq, wants, met[x]) < rq.depth)
  }

  ghost predicate Handled(rq: Request, wants: seq<Sha>, st: Scan, qa: seq<Address>, q: Address) {
    Entry(rq, wants, q).Some? ==> q in qa || Entry(rq, wants, q).value.0 in st.seen + rq.exclude
  }

  /** The wants, and what each object met leads to, wait or are done with. */
  ghost predicate Offers(rq: Request, wants: seq<Sha>, st: Scan, qa: seq<Address>, met: map<Sha, Address>) {
    && (forall i: nat :: Handled(rq, wants, st, qa, [i]))
    && (forall y, i: nat :: y in met ==> Handled(rq, wants, st, qa, met[y] + [i]))
  }

  /** Up to a late commit, whatever comes first before the head has been met there. */
  ghost predicate CatchesUp(rq: Request, wants: seq<Sha>, qa: seq<Address>, met: map<Sha, Address>) {
    forall q, z :: IsFirst(rq, wants, q, z) && OnTime(rq, wants, q) && (qa == [] || Before(q, qa[0])) ==> z in met && met[z] == q
  }

  ghost predicate Tracks(rq: Request, wants: seq<Sha>, st: Scan, qa: seq<Address>, met: map<Sha, Address>) {
    && Queues(rq, wants, st, qa, met) && Records(rq, wants, st, met)
    && Offers(rq, wants, st, qa, met) && CatchesUp(rq, wants, qa, met)
  }

  function Children(q: Address, n: nat): (r: seq<Address>)
    ensures |r| == n && forall i :: 0 <= i < n ==> r[i] == q + [i]
  {
    seq(n, i requires 0 <= i < n => q + [i])
  }

  lemma VisitPushes(rq: Request, st: Scan)
    requires st.queue != [] && st.queue[0].0 !in st.seen && st.queue[0].0 !in rq.exclude && st.queue[0].1 <= rq.depth
    ensures var (s, d) := st.queue[0];
      var st' := Step(rq, st);
      && st'.queue == st.queue[1..] + Pushed(rq, s, d) && st'.seen == st.seen + {s}
      && st'.roots == st.roots + (if Held(rq.repo, s) then [s] else [])
      && st'.shallow == st.shallow + (if d == rq.depth && LiveParents(rq, s) != [] then [s] else [])
      && st'.unshallow == st.unshallow + (if d < rq.depth && IsCommit(rq.repo, s) && s in rq.boundaries then [s] else [])
  {
    hide Live;
  }

  lemma QueuesAfter(rq: Request, wants: seq<Sha>, st: Scan, qa: seq<Address>, met: map<Sha, Address>, pushed: seq<(Sha, nat)>,
                    st': Scan, met': map<Sha, Address>)
    requires Queues(rq, wants, st, qa, met) && qa != []
    requires pushed == [] || pushed == Pushed(rq, st.queue[0].0, st.queue[0].1)
    requires st'.queue == st.queue[1..] + pushed && (met' == met || met' == met[st.queue[0].0 := qa[0]])
    ensures Queues(rq, wants, st', qa[1..] + Children(qa[0], |pushed|), met')
  {
    var a, qa' := qa[0], qa[1..] + Children(qa[0], |pushed|);
    hide Entry, Before, Pushed;
    forall i | 0 <= i < |pushed| ensures Entry(rq, wants, a + [i]) == Some(pushed[i]) { ChildEntry(rq, wants, a, i); }
    forall i | 0 <= i < |qa'| ensures Entry(rq, wants, qa'[i]) == Some(st'.queue[i]) {}
    OrderAfter(qa, |pushed|);
    forall y | y in met' && qa' != [] ensures Before(met'[y], qa'[0]) {
      if y in met && met'[y] == met[y] { BeforeGoesOn(met[y], a, qa'[0]); }
    }
  }

  /** Replacing the head by its children at the end keeps the queue in order. */
  lemma OrderAfter(qa: seq<Address>, n: nat)
    requires qa != [] && InOrder(qa)
    ensures var qa' := qa[1..] + Children(qa[0], n); InOrder(qa') && (qa' != [] ==> Before(qa[0], qa'[0]))
  {
    var a, qa' := qa[0], qa[1..] + Children(qa[0], n);
    hide Lex;
    forall i, j | 0 <= i < j < |qa'| ensures Before(qa'[i], qa'[j]) { PairInOrder(qa, n, i, j); }
    if qa' != [] {
      assert Before(a, qa'[0]) by {
        if |qa| > 1 { assert qa'[0] == qa[1]; } else { OldBeforeNew(qa, a, 0); assert qa'[0] == a + [0]; }
      }
      forall q | q in qa' ensures q != [] && (|q| == 1 || Before(Up(q), qa'[0])) { UpBeforeHead(qa, qa', q, n); }
    }
  }

  lemma PairInOrder(qa: seq<Address>, n: nat, i: nat, j: nat)
    requires qa != [] && InOrder(qa) && i < j < |qa| - 1 + n
    ensures var qa' := qa[1..] + Children(qa[0], n); Before(qa'[i], qa'[j])
  {
    var a, qa' := qa[0], qa[1..] + Children(qa[0], n);
    hide Lex, Before;
    if i >= |qa| - 1 {
      ChildrenInOrder(a, a, i - (|qa| - 1), j - (|qa| - 1));
    } else if j >= |qa| - 1 {
      assert qa'[i] in qa && qa'[j] == a + [j - (|qa| - 1)];
      OldBeforeNew(qa, qa'[i], j - (|qa| - 1));
    } else {
      assert qa'[i] == qa[i + 1] && qa'[j] == qa[j + 1];
    }
  }

  lemma UpBeforeHead(qa: seq<Address>, qa': seq<Address>, q: Address, n: nat)
    requires qa != [] && InOrder(qa) && qa' == qa[1..] + Children(qa[0], n) && q in qa' && Before(qa[0], qa'[0])
    ensures q != [] && (|q| == 1 || Before(Up(q), qa'[0]))
  {
    hide Before;
    if q in qa {
      if |q| != 1 { BeforeGoesOn(Up(q), qa[0], qa'[0]); }
    } else {
      var i :| 0 <= i < n && q == Children(qa[0], n)[i];
      assert Up(q) == qa[0];
    }
  }

  lemma OldBeforeNew(qa: seq<Address>, q: Address, i: nat)
    requires qa != [] && InOrder(qa) && q in qa
    ensures Before(q, qa[0] + [i])
  {
    assert Up(qa[0] + [i]) == qa[0];
    var k :| 0 <= k < |qa| && qa[k] == q;
  }

  lemma OffersAfter(rq: Request, wants: seq<Sha>, st: Scan, qa: seq<Address>, met: map<Sha, Address>, st': Scan, qa': seq<Address>,
                    met': map<Sha, Address>)
    requires Offers(rq, wants, st, qa, met) && qa != [] && st.queue != [] && Entry(rq, wants, qa[0]) == Some(st.queue[0])
    requires qa[1..] <= qa' && st.seen <= st'.seen && st.queue[0].0 in st'.seen + rq.exclude
    requires met' == met || (met' == met[st.queue[0].0 := qa[0]] &&
      qa' == qa[1..] + Children(qa[0], |Pushed(rq, st.queue[0].0, st.queue[0].1)|))
    ensures Offers(rq, wants, st', qa', met')
  {
    hide Entry, Pushed;
    forall q | Handled(rq, wants, st, qa, q) ensures Handled(rq, wants, st', qa', q) {
      if q in qa && q != qa[0] {
        var k :| 0 <= k < |qa| && qa[k] == q;
        assert qa[1..][k - 1] == q && qa'[k - 1] == q;
      }
    }
    if met' != met {
      forall i: nat ensures Handled(rq, wants, st', qa', qa[0] + [i]) {
        ChildEntry(rq, wants, qa[0], i);
        if i < |Pushed(rq, st.queue[0].0, st.queue[0].1)| { assert qa'[|qa| - 1 + i] == qa[0] + [i]; }
      }
    }
  }

  /** The state after a step, with everything but the last condition established. */
  lemma {:induction false} Catches(rq: Request, wants: seq<Sha>, st: Scan, qa: seq<Address>, met: map<Sha, Address>,
                                   st': Scan, qa': seq<Address>, met': map<Sha, Address>, q: Address, z: Sha)
    requires rq.depth > 0 && Queues(rq, wants, st, qa, met) && qa != [] && CatchesUp(rq, wants, qa, met)
    requires Queues(rq, wants, st', qa', met') && Records(rq, wants, st', met') && Offers(rq, wants, st', qa', met')
    requires met' == met || (met' == met[st.queue[0].0 := qa[0]] && st.queue[0].0 !in met)
    requires IsFirst(rq, wants, q, z) && OnTime(rq, wants, q) && (qa' == [] || Before(q, qa'[0]))
    ensures z in met' && met'[z] == q
    decreases |q|
  {
    hide Before, Queues, Records, OnTime, CatchesUp, Handled, IsFirst;
    if |q| > 1 {
      var y := FirstWayUp(rq, wants, q, z);
      if qa' != [] { BeforeGoesOn(Up(q), q, qa'[0]); }
      Catches(rq, wants, st, qa, met, st', qa', met', Up(q), y);
      assert Up(q) + [Last(q)] == q;
      assert Handled(rq, wants, st', qa', met'[y] + [Last(q)]);
    } else {
      FirstIsSome(rq, wants, q, z);
      assert q == [q[0]];
    }
    hide Offers;
    HandledIsMet(rq, wants, st', qa', met', q, z);
    MetFirst(rq, wants, st, qa, met, met', q, z);
  }

  lemma FirstIsSome(rq: Request, wants: seq<Sha>, q: Address, z: Sha)
    requires IsFirst(rq, wants, q, z)
    ensures q != []
  {}

  /** What is done with, and comes before the head of the queue, has been met. */
  lemma HandledIsMet(rq: Request, wants: seq<Sha>, st: Scan, qa: seq<Address>, met: map<Sha, Address>, q: Address, z: Sha)
    requires Queues(rq, wants, st, qa, met) && Records(rq, wants, st, met) && Handled(rq, wants, st, qa, q)
    requires IsFirst(rq, wants, q, z) && (qa == [] || Before(q, qa[0]))
    ensures z in met && LeadsTo(rq, wants, met[z], z)
  {
    hide Entry, Before;
    NotInQueue(qa, q);
  }

  lemma NotInQueue(qa: seq<Address>, q: Address)
    requires forall i, j :: 0 <= i < j < |qa| ==> Before(qa[i], qa[j])
    requires qa == [] || Before(q, qa[0])
    ensures q !in qa
  {
    hide Before;
    if q in qa {
      var k :| 0 <= k < |qa| && qa[k] == q;
      BeforeIsStrict(q);
      if k > 0 { BeforeGoesOn(q, qa[0], q); }
    }
  }

  lemma MetFirst(rq: Request, wants: seq<Sha>, st: Scan, qa: seq<Address>, met: map<Sha, Address>, met': map<Sha, Address>, q: Address, z: Sha)
    requires Queues(rq, wants, st, qa, met) && qa != [] && CatchesUp(rq, wants, qa, met)
    requires met' == met || (met' == met[st.queue[0].0 := qa[0]] && st.queue[0].0 !in met)
    requires IsFirst(rq, wants, q, z) && OnTime(rq, wants, q) && z in met' && LeadsTo(rq, wants, met'[z], z)
    ensures met'[z] == q
  {
    hide Lex, Entry, OnTime;
    BeforeDecides(met'[z], q);
    if Before(q, met'[z]) && met'[z] != qa[0] { BeforeGoesOn(q, met'[z], qa[0]); }
  }

  lemma StepTracks(rq: Request, wants: seq<Sha>, st: Scan, qa: seq<Address>, met: map<Sha, Address>)
      returns (qa': seq<Address>, met': map<Sha, Address>)
    requires rq.depth > 0 && Tracks(rq, wants, st, qa, met) && st.queue != []
    ensures Tracks(rq, wants, Step(rq, st), qa', met')
  {
    hide Entry, Before, OnTime, IsFirst, Records, Offers, CatchesUp;
    var (s, d) := st.queue[0];
    var st' := Step(rq, st);
    assert qa != [] && Entry(rq, wants, qa[0]) == Some((s, d));
    hide Queues;
    MetIsSeen(rq, wants, st, met);
    var pushed := PushedAfter(rq, wants, st, qa[0]);
    met' := if s in rq.exclude || s in st.seen then met else met[s := qa[0]];
    qa' := qa[1..] + Children(qa[0], |pushed|);
    RecordsAfter(rq, wants, st, qa[0], met, met');
    hide Step, Pushed;
    QueuesAfter(rq, wants, st, qa, met, pushed, st', met');
    OffersAfter(rq, wants, st, qa, met, st', qa', met');
    CatchesUpAfter(rq, wants, st, qa, met, st', qa', met');
  }

  lemma MetIsSeen(rq: Request, wants: seq<Sha>, st: Scan, met: map<Sha, Address>)
    requires Records(rq, wants, st, met)
    ensures met.Keys == st.seen
  {}

  lemma PushedAfter(rq: Request, wants: seq<Sha>, st: Scan, a: Address) returns (pushed: seq<(Sha, nat)>)
    requires rq.depth > 0 && st.queue != [] && Entry(rq, wants, a) == Some(st.queue[0])
    ensures Step(rq, st).queue == st.queue[1..] + pushed && st.seen <= Step(rq, st).seen
    ensures st.queue[0].0 in Step(rq, st).seen + rq.exclude
    ensures if st.queue[0].0 in rq.exclude || st.queue[0].0 in st.seen then pushed == []
            else pushed == Pushed(rq, st.queue[0].0, st.queue[0].1)
  {
    if st.queue[0].0 in rq.exclude || st.queue[0].0 in st.seen {
      pushed := [];
    } else {
      AddressIsNear(rq, wants, a);
      VisitPushes(rq, st);
      hide Step;
      pushed := Pushed(rq, st.queue[0].0, st.queue[0].1);
    }
  }

  lemma CatchesUpAfter(rq: Request, wants: seq<Sha>, st: Scan, qa: seq<Address>, met: map<Sha, Address>,
                       st': Scan, qa': seq<Address>, met': map<Sha, Address>)
    requires rq.depth > 0 && Queues(rq, wants, st, qa, met) && qa != [] && CatchesUp(rq, wants, qa, met)
    requires Queues(rq, wants, st', qa', met') && Records(rq, wants, st', met') && Offers(rq, wants, st', qa', met')
    requires met' == met || (met' == met[st.queue[0].0 := qa[0]] && st.queue[0].0 !in met)
    ensures CatchesUp(rq, wants, qa', met')
  {
    forall q, z | IsFirst(rq, wants, q, z) && OnTime(rq, wants, q) && (qa' == [] || Before(q, qa'[0])) ensures z in met' && met'[z] == q {
      hide IsFirst, OnTime, Before, Queues, Records, Offers, CatchesUp;
      Catches(rq, wants, st, qa, met, st', qa', met', q, z);
    }
  }

  lemma RecordsAfter(rq: Request, wants: seq<Sha>, st: Scan, a: Address, met: map<Sha, Address>, met': map<Sha, Address>)
    requires Records(rq, wants, st, met) && st.queue != [] && rq.depth > 0 && Entry(rq, wants, a) == Some(st.queue[0])
    requires met' == if st.queue[0].0 in rq.exclude || st.queue[0].0 in st.seen then met else met[st.queue[0].0 := a]
    ensures Records(rq, wants, Step(rq, st), met')
  {
    if st.queue[0].0 !in rq.exclude && st.queue[0].0 !in st.seen {
      AddressIsNear(rq, wants, a);
      VisitPushes(rq, st);
      hide Step;
      RecordsGrow(rq, wants, st, a, met, Step(rq, st));
    }
  }

  lemma RecordsGrow(rq: Request, wants: seq<Sha>, st: Scan, a: Address, met: map<Sha, Address>, st': Scan)
    requires Records(rq, wants, st, met) && st.queue != [] && Entry(rq, wants, a) == Some(st.queue[0])
    requires st.queue[0].0 !in rq.exclude && st.queue[0].0 !in st.seen
    requires var (s, d) := st.queue[0];
      && st'.seen == st.seen + {s}
      && st'.roots == st.roots + (if Held(rq.repo, s) then [s] else [])
      && st'.shallow == st.shallow + (if d == rq.depth && LiveParents(rq, s) != [] then [s] else [])
      && st'.unshallow == st.unshallow + (if d < rq.depth && IsCommit(rq.repo, s) && s in rq.boundaries then [s] else [])
    ensures Records(rq, wants, st', met[st.queue[0].0 := a])
  {
    hide LiveParents, Entry, IsCommit;
  }

  lemma OnlyCommits(rq: Request, s: Sha)
    ensures LiveParents(rq, s) != [] ==> IsCommit(rq.repo, s)
  {}

  lemma {:induction false} FinishTracks(rq: Request, wants: seq<Sha>, st: Scan, qa: seq<Address>, met: map<Sha, Address>, universe: set<Sha>)
      returns (met': map<Sha, Address>)
    requires Shallow.Within(st, universe) && Bounds(Kids(rq.repo), universe) && rq.depth > 0 && Tracks(rq, wants, st, qa, met)
    ensures Tracks(rq, wants, Finish(rq, st, universe), [], met')
    decreases universe - st.seen, |st.queue|
  {
    if st.queue == [] {
      met' := met;
      assert qa == [];
    } else {
      hide Tracks, Step, Bounds;
      var qa1, met1 := StepTracks(rq, wants, st, qa, met);
      StepStays(rq, st, universe);
      assert Step(rq, st).seen != st.seen ==> st.queue[0].0 in universe - st.seen && st.queue[0].0 !in universe - Step(rq, st).seen;
      met' := FinishTracks(rq, wants, Step(rq, st), qa1, met1, universe);
    }
  }

  lemma {:induction false} NoWantsNoWay(rq: Request, wants: seq<Sha>, q: Address)
    requires Entry(rq, wants, q).Some?
    ensures wants != []
    decreases |q|
  {
    if |q| > 1 { NoWantsNoWay(rq, wants, Up(q)); }
  }

  lemma StartTracks(rq: Request, wants: seq<Sha>)
    ensures Tracks(rq, wants, Start(wants), Children([], |wants|), map[])
  {
    var qa := Children([], |wants|);
    forall i: nat ensures Handled(rq, wants, Start(wants), qa, [i]) {
      if i < |wants| { assert qa[i] == [] + [i] == [i]; }
    }
    forall i | 0 <= i < |wants| ensures qa[i] == [i] {}
    forall i, j | 0 <= i < j < |wants| ensures Before(qa[i], qa[j]) { ChildrenInOrder([], [], i, j); }
    forall q, z | IsFirst(rq, wants, q, z) ensures qa != [] && !Before(q, qa[0]) {
      NoWantsNoWay(rq, wants, q);
      assert qa[0] == [0];
    }
  }

  lemma WalkTracks(rq: Request, wants: seq<Sha>) returns (met: map<Sha, Address>)
    requires rq.depth > 0
    ensures Tracks(rq, wants, Walked(rq, wants), [], met)
  {
    hide Tracks, Universe, Bounds, Finish;
    StartStays(rq.repo, wants);
    StartTracks(rq, wants);
    met := FinishTracks(rq, wants, Start(wants), Children([], |wants|), map[], Universe(rq.repo, wants));
  }

  // ----- the exact condition ------------------------------------------------------------------------------

  lemma MetIffNear(rq: Request, wants: seq<Sha>, st: Scan, met: map<Sha, Address>, x: Sha)
    requires rq.depth > 0 && Tracks(rq, wants, st, [], met) && InTime(rq, wants)
    ensures x in met <==> Near(rq, wants, x, rq.depth)
    ensures Cuts(rq, x) && x in met ==> (Level(rq, wants, met[x]) < rq.depth <==> rq.depth > 1 && Near(rq, wants, x, rq.depth - 1))
  {
    hide Entry, Near, Cuts, Before;
    if x in met {
      AddressIsNear(rq, wants, met[x]);
      NearMonotone(rq, wants, x, Level(rq, wants, met[x]), rq.depth);
      if Level(rq, wants, met[x]) < rq.depth { NearMonotone(rq, wants, x, Level(rq, wants, met[x]), rq.depth - 1); }
    }
    if Near(rq, wants, x, rq.depth) {
      var q := NearHasAddress(rq, wants, x, rq.depth);
      var f := FirstExists(rq, wants, q, x);
      assert OnTime(rq, wants, f);
      assert met[x] == f && !Late(rq, wants, f, x);
    }
  }

  lemma InTimeIsExact(rq: Request, wants: seq<Sha>)
    requires rq.depth > 0 && InTime(rq, wants)
    ensures IsExact(rq, wants)
  {
    var st := Walked(rq, wants);
    var met := WalkTracks(rq, wants);
    hide Walked, Near, Queues, Offers, CatchesUp, LiveParents, InTime, Level;
    forall x
      ensures x in met <==> Near(rq, wants, x, rq.depth)
      ensures Cuts(rq, x) && x in met ==> (Level(rq, wants, met[x]) < rq.depth <==> rq.depth > 1 && Near(rq, wants, x, rq.depth - 1))
    {
      MetIffNear(rq, wants, st, met, x);
    }
    forall x ensures LiveParents(rq, x) != [] ==> IsCommit(rq.repo, x) { OnlyCommits(rq, x); }
    forall x | x in met ensures Level(rq, wants, met[x]) <= rq.depth { LevelBounded(rq, wants, met[x], x); }
    forall x | rq.depth > 1 && Near(rq, wants, x, rq.depth - 1) ensures Near(rq, wants, x, rq.depth) {
      NearMonotone(rq, wants, x, rq.depth - 1, rq.depth);
    }
  }

  lemma LevelBounded(rq: Request, wants: seq<Sha>, q: Address, x: Sha)
    requires rq.depth > 0 && LeadsTo(rq, wants, q, x)
    ensures Level(rq, wants, q) <= rq.depth
  {
    AddressIsNear(rq, wants, q);
  }

  ghost predicate SomeLate(rq: Request, wants: seq<Sha>, q: Address) { exists x :: Late(rq, wants, q, x) }

  /** The first late commit is met at the limit, and reported as if it lay there. */
  lemma LateIsInexact(rq: Request, wants: seq<Sha>, q0: Address, x0: Sha)
    requires rq.depth > 0 && Late(rq, wants, q0, x0)
    ensures !IsExact(rq, wants)
  {
    var st := Walked(rq, wants);
    var met := WalkTracks(rq, wants);
    hide Walked, Near, Queues, Offers, LiveParents, IsFirst, Entry, Before;
    var q := Least((iset q: Address | SomeLate(rq, wants, q)), q0);
    var x :| Late(rq, wants, q, x);
    forall f, y | Before(f, q) ensures !Late(rq, wants, f, y) { assert !SomeLate(rq, wants, f); }
    assert OnTime(rq, wants, q);
    assert met[x] == q;
  }

  /** With tags or without, at every depth: the walk is exact if and only if no commit that would be
      cut off is first come to at the limit while another way to it is shorter. */
  lemma ExactIff(rq: Request, wants: seq<Sha>)
    requires rq.depth > 0
    ensures IsExact(rq, wants) <==> InTime(rq, wants)
  {
    hide IsExact, Late;
    if InTime(rq, wants) {
      InTimeIsExact(rq, wants);
    } else {
      var q, x :| Late(rq, wants, q, x);
      LateIsInexact(rq, wants, q, x);
    }
  }
}
