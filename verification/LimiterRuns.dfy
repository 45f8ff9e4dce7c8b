/** What every run of the limiter keeps: its state invariant, its counters, and its promotion ledger. */
module LimiterRuns {
  import opened Bytes
  import opened Options
  import opened LruCaches
  import opened SourceKeys
  import opened TokenBuckets
  import opened RateLimiters

  ghost predicate GoodBucket(b: Bucket, rate: nat, capacity: nat) {
    b.Valid() && b.rate == rate as real && b.capacity == capacity as real
  }

  ghost predicate GoodTable(cfg: Config, t: Lru<SourceKey, Bucket>) {
    && t.Valid()
    && t.cap == cfg.capacity
    && forall k | k in t.vals :: GoodBucket(t.vals[k], cfg.perSourceRate, cfg.perSourceBurst)
  }

  ghost predicate GoodCandidates(cfg: Config, cs: Candidates) {
    && |cs| <= cfg.capacity
    && forall k | k in cs :: 1 <= cs[k].count < cfg.threshold
  }

  ghost predicate Inv(cfg: Config, s: Inner) {
    && GoodTable(cfg, s.tracked)
    && GoodCandidates(cfg, s.candidates)
    && (forall k | k in s.candidates :: k !in s.tracked.vals)
    && GoodBucket(s.global, cfg.globalRate, cfg.globalBurst)
  }

  lemma FreshIsGood(cfg: Config, now: real)
    requires cfg.Valid()
    ensures Inv(cfg, FreshInner(cfg, now))
  {}

  lemma BumpBounds(cfg: Config, s: Inner, key: SourceKey, now: real)
    requires cfg.Valid() && Inv(cfg, s)
    ensures var (count, kept) := Bump(cfg, s.candidates, key, now);
            && kept.Keys <= s.candidates.Keys
            && (forall k | k in kept :: kept[k] == s.candidates[k])
            && |kept| <= cfg.capacity
            && (count.Some? ==>
                  && count.value == 1 + (if key in kept then kept[key].count else 0) <= cfg.threshold
                  && |kept.Keys + {key}| <= cfg.capacity)
            && (count.None? ==> key !in kept)
  {
    var (count, kept) := Bump(cfg, s.candidates, key, now);
    SubsetSize(kept.Keys, s.candidates.Keys);
    if key in kept { assert kept.Keys + {key} == kept.Keys; }
  }

  lemma PushKeepsGood(cfg: Config, t: Lru<SourceKey, Bucket>, key: SourceKey, b: Bucket)
    requires cfg.Valid() && GoodTable(cfg, t) && key !in t.vals
    requires GoodBucket(b, cfg.perSourceRate, cfg.perSourceBurst)
    ensures GoodTable(cfg, t.Push(key, b).0)
    ensures var t' := t.Push(key, b).0;
            && t'.vals.Keys <= t.vals.Keys + {key}
            && forall k | k in t'.vals :: t'.vals[k] == if k == key then b else t.vals[k]
  {
    hide Lru.Push;
    var t' := t.Push(key, b).0;
    if |t.order| == t.cap {
      assert t'.vals == (t.vals - {t.order[t.cap - 1]})[key := b];
    }
    assert forall k | k in t'.vals :: t'.vals[k] == if k == key then b else t.vals[k];
  }

  lemma RecordKeepsGood(cfg: Config, cs: Candidates, key: SourceKey, c: Candidate)
    requires GoodCandidates(cfg, cs) && 1 <= c.count < cfg.threshold && |cs.Keys + {key}| <= cfg.capacity
    ensures GoodCandidates(cfg, cs[key := c])
  {
    assert cs[key := c].Keys == cs.Keys + {key};
  }

  lemma RemoveKeepsGood(cfg: Config, cs: Candidates, key: SourceKey)
    requires GoodCandidates(cfg, cs)
    ensures GoodCandidates(cfg, cs - {key})
  {
    SubsetSize((cs - {key}).Keys, cs.Keys);
  }

  lemma SettleKeepsInv(cfg: Config, s: Inner, key: SourceKey, count: nat, swept: Candidates, now: real)
    requires cfg.Valid() && Inv(cfg, s) && key !in s.tracked.vals
    requires count >= 1 && |s.candidates.Keys + {key}| <= cfg.capacity
    ensures Inv(cfg, Settle(cfg, s, key, count, swept, now).0)
  {
    hide Lru.Push, GoodCandidates;
    if count < cfg.threshold {
      RecordKeepsGood(cfg, s.candidates, key, Candidate(count, now));
    } else {
      RemoveKeepsGood(cfg, s.candidates, key);
      PushKeepsGood(cfg, s.tracked, key, FullBucket(cfg.perSourceRate, cfg.perSourceBurst, now));
    }
  }

  lemma CountKeepsInv(cfg: Config, s: Inner, key: SourceKey, now: real)
    requires cfg.Valid() && Inv(cfg, s) && key !in s.tracked.vals
    ensures Inv(cfg, Count(cfg, s, key, now).0)
  {
    hide Settle, Bump;
    BumpBounds(cfg, s, key, now);
    var (count, kept) := Bump(cfg, s.candidates, key, now);
    assert Inv(cfg, s.(candidates := kept));
    if count.Some? {
      SettleKeepsInv(cfg, s.(candidates := kept), key, count.value, s.candidates - kept.Keys, now);
    }
  }

  lemma StepKeepsInv(cfg: Config, s: Inner, key: SourceKey, now: real)
    requires cfg.Valid() && Inv(cfg, s)
    ensures Inv(cfg, Step(cfg, s, key, now).0)
  {
    if key in s.tracked.vals {
      ConsumeKeeps(s.tracked.vals[key], now);
    } else {
      ConsumeKeeps(s.global, now);
      var (g, d) := Consume(s.global, now);
      if d.Pass? { CountKeepsInv(cfg, s.(global := g), key, now); }
    }
  }

  // ----- runs without a panic -----

  datatype Arrival = Arrival(key: SourceKey, now: real)

  function Run(cfg: Config, s: Inner, es: seq<Arrival>): (r: (Inner, seq<Route>))
    requires cfg.Valid() && Inv(cfg, s)
    ensures Inv(cfg, r.0) && |r.1| == |es|
  {
    if es == [] then (s, [])
    else
      var (before, routes) := Run(cfg, s, es[..|es| - 1]);
      var e := es[|es| - 1];
      StepKeepsInv(cfg, before, e.key, e.now);
      var (after, route) := Step(cfg, before, e.key, e.now);
      (after, routes + [route])
  }

  /** The step a nonempty run ends with. */
  lemma {:induction false} RunLast(cfg: Config, s: Inner, es: seq<Arrival>)
    requires cfg.Valid() && Inv(cfg, s) && es != []
    ensures var (before, routes) := Run(cfg, s, es[..|es| - 1]);
            var e := es[|es| - 1];
            var (after, route) := Step(cfg, before, e.key, e.now);
            && Run(cfg, s, es) == (after, routes + [route])
            && Run(cfg, s, es).1[..|es| - 1] == routes
            && Run(cfg, s, es).1[|es| - 1] == route
  {
    hide Step, Inv;
  }

  /** The clock never goes back: arrivals are in time order and none is before `t0`. */
  ghost predicate Ordered(t0: real, es: seq<Arrival>) {
    && (forall i | 0 <= i < |es| :: t0 <= es[i].now)
    && forall i, j | 0 <= i < j < |es| :: es[i].now <= es[j].now
  }

  function Admitted(routes: seq<Route>): nat {
    if routes == [] then 0
    else Admitted(routes[..|routes| - 1]) + if routes[|routes| - 1].Outcome().Admit? then 1 else 0
  }

  function GlobalPasses(routes: seq<Route>): nat {
    if routes == [] then 0
    else GlobalPasses(routes[..|routes| - 1]) + if routes[|routes| - 1].GlobalPass() then 1 else 0
  }

  function TrackedPasses(routes: seq<Route>): nat {
    if routes == [] then 0
    else TrackedPasses(routes[..|routes| - 1]) + if routes[|routes| - 1] == Tracked(true) then 1 else 0
  }

  function Promotions(routes: seq<Route>): nat {
    if routes == [] then 0
    else Promotions(routes[..|routes| - 1]) + if routes[|routes| - 1].Promoted? then 1 else 0
  }

  /** Every admitted packet was admitted by exactly one of the two tiers. */
  lemma {:induction false} AdmittedSplits(routes: seq<Route>)
    ensures Admitted(routes) == GlobalPasses(routes) + TrackedPasses(routes)
  {
    if routes != [] { AdmittedSplits(routes[..|routes| - 1]); }
  }

  // ----- the promotion ledger -----

  ghost function SumCounts(cs: Candidates): nat {
    if cs == map[] then 0
    else
      var k :| k in cs;
      cs[k].count + SumCounts(cs - {k})
  }

  lemma {:induction false} SumWithout(cs: Candidates, k: SourceKey)
    requires k in cs
    ensures SumCounts(cs) == cs[k].count + SumCounts(cs - {k})
    decreases |cs|
  {
    var p :| p in cs && SumCounts(cs) == cs[p].count + SumCounts(cs - {p});
    if p != k {
      assert |cs - {p}| < |cs| && |cs - {k}| < |cs| by {
        assert (cs - {p}).Keys == cs.Keys - {p} && (cs - {k}).Keys == cs.Keys - {k};
      }
      SumWithout(cs - {p}, k);
      SumWithout(cs - {k}, p);
      assert cs - {p} - {k} == cs - {k} - {p};
    }
  }

  lemma RemoveFromBoth(cs: Candidates, kept: Candidates, k: SourceKey)
    requires kept.Keys <= cs.Keys && k in kept
    ensures (cs - {k}) - (kept - {k}).Keys == cs - kept.Keys
    ensures |kept - {k}| < |kept|
  {
    assert (kept - {k}).Keys == kept.Keys - {k};
  }

  lemma {:induction false} SumSplit(cs: Candidates, kept: Candidates)
    requires kept.Keys <= cs.Keys && forall k | k in kept :: kept[k] == cs[k]
    ensures SumCounts(cs) == SumCounts(kept) + SumCounts(cs - kept.Keys)
    decreases |kept|
  {
    if kept == map[] {
      assert cs - kept.Keys == cs;
    } else {
      hide SumCounts;
      var k :| k in kept;
      SumWithout(cs, k);
      SumWithout(kept, k);
      RemoveFromBoth(cs, kept, k);
      SumSplit(cs - {k}, kept - {k});
      assert SumCounts(cs) == SumCounts(kept) + SumCounts(cs - kept.Keys);
    }
  }

  lemma SumInsert(cs: Candidates, k: SourceKey, c: Candidate)
    ensures SumCounts(cs[k := c]) == c.count + SumCounts(cs - {k})
  {
    SumWithout(cs[k := c], k);
    assert cs[k := c] - {k} == cs - {k};
  }

  /** Counted passes that no longer lead anywhere: refused newcomers and swept candidates. */
  ghost function LostBy(route: Route): nat {
    match route
    case Refused(swept) => 1 + SumCounts(swept)
    case Counted(_, swept) => SumCounts(swept)
    case Promoted(swept, _) => SumCounts(swept)
    case _ => 0
  }

  ghost function Lost(routes: seq<Route>): nat {
    if routes == [] then 0 else Lost(routes[..|routes| - 1]) + LostBy(routes[|routes| - 1])
  }

  lemma SettleAccounts(cfg: Config, s: Inner, key: SourceKey, count: nat, swept: Candidates, now: real)
    requires cfg.Valid() && s.tracked.Valid() && s.tracked.cap >= 1 && count <= cfg.threshold
    ensures var (s', route) := Settle(cfg, s, key, count, swept, now);
            && route.GlobalPass() && LostBy(route) == SumCounts(swept)
            && count + SumCounts(s.candidates - {key})
               == (if route.Promoted? then cfg.threshold else 0) + SumCounts(s'.candidates)
  {
    hide Lru.Push, SumCounts;
    SumInsert(s.candidates, key, Candidate(count, now));
  }

  lemma CountAccounts(cfg: Config, s: Inner, key: SourceKey, now: real)
    requires cfg.Valid() && Inv(cfg, s)
    ensures var (s', route) := Count(cfg, s, key, now);
            && route.GlobalPass()
            && 1 + SumCounts(s.candidates)
               == (if route.Promoted? then cfg.threshold else 0) + SumCounts(s'.candidates) + LostBy(route)
  {
    hide Settle, SumCounts, Bump;
    var (count, kept) := Bump(cfg, s.candidates, key, now);
    BumpBounds(cfg, s, key, now);
    SumSplit(s.candidates, kept);
    if count.Some? {
      if key in kept {
        SumWithout(kept, key);
      } else {
        assert kept - {key} == kept;
      }
      SettleAccounts(cfg, s.(candidates := kept), key, count.value, s.candidates - kept.Keys, now);
    }
  }

  lemma StepAccounts(cfg: Config, s: Inner, key: SourceKey, now: real)
    requires cfg.Valid() && Inv(cfg, s)
    ensures var (s', route) := Step(cfg, s, key, now);
            && (if route.GlobalPass() then 1 else 0) + SumCounts(s.candidates)
               == (if route.Promoted? then cfg.threshold else 0) + SumCounts(s'.candidates) + LostBy(route)
  {
    hide Count, Consume;
    if key !in s.tracked.vals && Consume(s.global, now).1.Pass? {
      ConsumeKeeps(s.global, now);
      CountAccounts(cfg, s.(global := Consume(s.global, now).0), key, now);
    }
  }

  lemma OneMore(n: nat, k: nat)
    ensures n * (k + 1) == n * k + n
  {}

  /** How the last route moves the totals. */
  lemma LedgerLast(routes: seq<Route>)
    requires routes != []
    ensures var init, r := routes[..|routes| - 1], routes[|routes| - 1];
            && GlobalPasses(routes) == GlobalPasses(init) + (if r.GlobalPass() then 1 else 0)
            && TrackedPasses(routes) == TrackedPasses(init) + (if r == Tracked(true) then 1 else 0)
            && Promotions(routes) == Promotions(init) + (if r.Promoted? then 1 else 0)
            && Lost(routes) == Lost(init) + LostBy(r)
  {}

  /**
    Promotion accounting. In every run, each packet the global bucket passed is either part of a
    promotion (`threshold` of them each), still counted for a live candidate, or lost to a refusal
    or a sweep. Dropped packets contribute nothing.
   */
  lemma {:induction false} PromotionAccounting(cfg: Config, s: Inner, es: seq<Arrival>)
    requires cfg.Valid() && Inv(cfg, s)
    ensures var (s', routes) := Run(cfg, s, es);
            && GlobalPasses(routes) + SumCounts(s.candidates)
               == cfg.threshold * Promotions(routes) + SumCounts(s'.candidates) + Lost(routes)
  {
    hide Step, Inv, SumCounts, LostBy;
    if es != [] {
      var init, e := es[..|es| - 1], es[|es| - 1];
      PromotionAccounting(cfg, s, init);
      StepAccounts(cfg, Run(cfg, s, init).0, e.key, e.now);
      RunLast(cfg, s, es);
      LedgerLast(Run(cfg, s, es).1);
      OneMore(cfg.threshold, Promotions(Run(cfg, s, init).1));
    }
  }

  // ----- the whole limiter, with panics, recovery and counters -----

  datatype Action =
    | Arrive(ip: IpAddr, lockedAt: real, now: real)
    | Panic(torn: Inner, counted: Option<DropReason>)
      // a lock holder dies and leaves any state behind; it may already have counted its drop

  ghost predicate SystemInv(cfg: Config, s: System) {
    !s.poisoned ==> Inv(cfg, s.inner)
  }

  function Act(cfg: Config, s: System, a: Action): System
    requires cfg.Valid() && SystemInv(cfg, s)
  {
    match a
    case Arrive(ip, lockedAt, now) => Check(cfg, s, ip, lockedAt, now).0
    case Panic(torn, counted) => System(torn, CountDrop(s.stats, counted), true)
  }

  function CountDrop(st: Stats, counted: Option<DropReason>): Stats {
    match counted
    case None => st
    case Some(PerSourceExhausted) => st.(droppedPerSource := st.droppedPerSource + 1)
    case Some(GlobalExhausted) => st.(droppedGlobal := st.droppedGlobal + 1)
  }

  lemma ActKeepsInv(cfg: Config, s: System, a: Action)
    requires cfg.Valid() && SystemInv(cfg, s)
    ensures SystemInv(cfg, Act(cfg, s, a))
  {
    if a.Arrive? {
      FreshIsGood(cfg, a.lockedAt);
      StepKeepsInv(cfg, LockRecovering(cfg, s, a.lockedAt).inner, FromIp(a.ip, cfg.ipv6PrefixLen), a.now);
    }
  }

  function History(cfg: Config, t0: real, actions: seq<Action>): (s: System)
    requires cfg.Valid()
    ensures SystemInv(cfg, s)
  {
    if actions == [] then System(FreshInner(cfg, t0), NO_STATS, false)
    else
      var before := History(cfg, t0, actions[..|actions| - 1]);
      ActKeepsInv(cfg, before, actions[|actions| - 1]);
      Act(cfg, before, actions[|actions| - 1])
  }

  function Arrivals(actions: seq<Action>): nat {
    if actions == [] then 0
    else Arrivals(actions[..|actions| - 1]) + if actions[|actions| - 1].Arrive? then 1 else 0
  }

  /** The checks that panicked after counting their drop. */
  function CountedPanics(actions: seq<Action>): nat {
    if actions == [] then 0
    else
      var a := actions[|actions| - 1];
      CountedPanics(actions[..|actions| - 1]) + if a.Panic? && a.counted.Some? then 1 else 0
  }

  /** What one `check` does to the counters and to the size of the tracked table. */
  lemma CheckCounts(cfg: Config, s: System, ip: IpAddr, lockedAt: real, now: real)
    requires cfg.Valid() && SystemInv(cfg, s)
    ensures var s' := Check(cfg, s, ip, lockedAt, now).0;
            && s'.stats.allowed + s'.stats.droppedPerSource + s'.stats.droppedGlobal
               == s.stats.allowed + s.stats.droppedPerSource + s.stats.droppedGlobal + 1
            && (!s.poisoned ==>
                  s'.stats.promotions - s'.stats.evictions - |s'.inner.tracked.order|
                  == s.stats.promotions - s.stats.evictions - |s.inner.tracked.order|)
  {
    hide Step, FromIp;
    FreshIsGood(cfg, lockedAt);
    var key := FromIp(ip, cfg.ipv6PrefixLen);
    var s1 := LockRecovering(cfg, s, lockedAt);
    StepTracks(cfg, s1.inner, key, now);
    var (inner, route) := Step(cfg, s1.inner, key, now);
    assert Check(cfg, s, ip, lockedAt, now).0.inner == inner;
    assert Check(cfg, s, ip, lockedAt, now).0.stats == Tally(s.stats, key, route);
    if !s.poisoned && route.Promoted? {
      assert |inner.tracked.order| == |s.inner.tracked.order| + if route.evicted.None? then 1 else 0;
    }
  }

  lemma AllowedCountsAdmits(cfg: Config, s: System, ip: IpAddr, lockedAt: real, now: real)
    requires cfg.Valid() && SystemInv(cfg, s)
    ensures var (s', d) := Check(cfg, s, ip, lockedAt, now);
            s'.stats.allowed == s.stats.allowed + if d.Admit? then 1 else 0
  {
    hide Step, FromIp;
    FreshIsGood(cfg, lockedAt);
  }

  lemma StepTracks(cfg: Config, s: Inner, key: SourceKey, now: real)
    requires cfg.Valid() && Inv(cfg, s)
    ensures var (s', route) := Step(cfg, s, key, now);
            && (route.Promoted? && route.evicted.Some? ==> route.evicted.value != key)
            && |s'.tracked.order| == |s.tracked.order| + (if route.Promoted? && route.evicted.None? then 1 else 0)
  {}

  /**
    The limiter invariant in every reachable state, panics and recoveries included: the state is
    well formed whenever the lock is not poisoned, and the outcome counters add up to the completed
    checks plus those that panicked after counting their drop.
   */
  lemma {:induction false} ReachableStateIsGood(cfg: Config, t0: real, actions: seq<Action>)
    requires cfg.Valid()
    ensures var s := History(cfg, t0, actions);
            && (!s.poisoned ==> Inv(cfg, s.inner))
            && s.stats.allowed + s.stats.droppedPerSource + s.stats.droppedGlobal
               == Arrivals(actions) + CountedPanics(actions)
  {
    hide Check, Inv;
    if actions != [] {
      var a := actions[|actions| - 1];
      ReachableStateIsGood(cfg, t0, actions[..|actions| - 1]);
      if a.Arrive? { CheckCounts(cfg, History(cfg, t0, actions[..|actions| - 1]), a.ip, a.lockedAt, a.now); }
    }
  }

  /** Without a panic, the tracked table holds exactly the promoted sources not yet evicted. */
  lemma {:induction false} TrackedIsPromotedMinusEvicted(cfg: Config, t0: real, actions: seq<Action>)
    requires cfg.Valid() && forall i | 0 <= i < |actions| :: actions[i].Arrive?
    ensures var s := History(cfg, t0, actions);
            && !s.poisoned
            && s.stats.promotions - s.stats.evictions == |s.inner.tracked.order| <= cfg.capacity
  {
    hide Step;
    if actions != [] {
      var init, a := actions[..|actions| - 1], actions[|actions| - 1];
      TrackedIsPromotedMinusEvicted(cfg, t0, init);
      CheckCounts(cfg, History(cfg, t0, init), a.ip, a.lockedAt, a.now);
    }
  }

  /** The packets of a history, keyed as the limiter keys them. */
  function Keyed(cfg: Config, actions: seq<Action>): (es: seq<Arrival>)
    requires forall i | 0 <= i < |actions| :: actions[i].Arrive?
    ensures |es| == |actions|
  {
    if actions == [] then []
    else
      var a := actions[|actions| - 1];
      Keyed(cfg, actions[..|actions| - 1]) + [Arrival(FromIp(a.ip, cfg.ipv6PrefixLen), a.now)]
  }

  function TrackedDrops(routes: seq<Route>): nat {
    if routes == [] then 0
    else TrackedDrops(routes[..|routes| - 1]) + if routes[|routes| - 1] == Tracked(false) then 1 else 0
  }

  function GlobalDrops(routes: seq<Route>): nat {
    if routes == [] then 0
    else GlobalDrops(routes[..|routes| - 1]) + if routes[|routes| - 1] == GlobalDrop then 1 else 0
  }

  function Evictions(routes: seq<Route>): nat {
    if routes == [] then 0
    else
      var r := routes[|routes| - 1];
      Evictions(routes[..|routes| - 1]) + if r.Promoted? && r.evicted.Some? then 1 else 0
  }

  /** The counters say what happened to the packets. */
  ghost predicate Reflects(st: Stats, routes: seq<Route>) {
    && st.allowed == Admitted(routes)
    && st.droppedPerSource == TrackedDrops(routes)
    && st.droppedGlobal == GlobalDrops(routes)
    && st.promotions == Promotions(routes)
    && st.evictions == Evictions(routes)
  }

  lemma TallyReflects(st: Stats, routes: seq<Route>, key: SourceKey, route: Route)
    requires Reflects(st, routes) && (route.Promoted? && route.evicted.Some? ==> route.evicted.value != key)
    ensures Reflects(Tally(st, key, route), routes + [route])
  {
    assert (routes + [route])[..|routes|] == routes;
  }

  /** Without a panic, the limiter is the run of its keyed packets, and its counters reflect that run. */
  lemma {:induction false} HistoryIsRun(cfg: Config, t0: real, actions: seq<Action>)
    requires cfg.Valid() && forall i | 0 <= i < |actions| :: actions[i].Arrive?
    ensures Inv(cfg, FreshInner(cfg, t0))
    ensures var s := History(cfg, t0, actions);
            var (inner, routes) := Run(cfg, FreshInner(cfg, t0), Keyed(cfg, actions));
            !s.poisoned && s.inner == inner && Reflects(s.stats, routes)
  {
    hide Step, Inv, FromIp, Tally, Reflects;
    FreshIsGood(cfg, t0);
    if actions == [] {
      NothingReflected();
    } else {
      var init, a := actions[..|actions| - 1], actions[|actions| - 1];
      HistoryIsRun(cfg, t0, init);
      var es := Keyed(cfg, actions);
      assert es[..|es| - 1] == Keyed(cfg, init);
      var before := History(cfg, t0, init);
      var (inner, routes) := Run(cfg, FreshInner(cfg, t0), Keyed(cfg, init));
      GoodMeansValid(cfg, inner);
      StepTracks(cfg, inner, es[|es| - 1].key, a.now);
      TallyReflects(before.stats, routes, es[|es| - 1].key, Step(cfg, inner, es[|es| - 1].key, a.now).1);
    }
  }

  lemma GoodMeansValid(cfg: Config, s: Inner)
    requires cfg.Valid() && Inv(cfg, s)
    ensures s.tracked.Valid() && s.tracked.cap >= 1
  {}

  lemma NothingReflected()
    ensures Reflects(NO_STATS, [])
  {}

  /** The state after one packet. */
  function AfterPacket(cfg: Config, s: Inner, e: Arrival): (r: Inner)
    requires cfg.Valid() && Inv(cfg, s)
    ensures Inv(cfg, r)
  {
    StepKeepsInv(cfg, s, e.key, e.now);
    Step(cfg, s, e.key, e.now).0
  }
}
