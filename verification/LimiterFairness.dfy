/** What other sources can and cannot do to one source: isolation, promotion, and eviction. */
module LimiterFairness {
  import opened Bytes
  import opened Options
  import opened LruCaches
  import opened SourceKeys
  import opened TokenBuckets
  import opened RateLimiters
  import opened LimiterRuns
  import opened LimiterBound

  // ----- isolation of a tracked source -----

  /** The instants at which `k` sent packets. */
  function TimesOf(es: seq<Arrival>, k: SourceKey): seq<real> {
    if es == [] then []
    else
      var e := es[|es| - 1];
      var before := TimesOf(es[..|es| - 1], k);
      if e.key == k then before + [e.now] else before
  }

  /** The limiter's verdicts on the packets of `k`. */
  function VerdictsOn(es: seq<Arrival>, routes: seq<Route>, k: SourceKey): seq<BucketDecision>
    requires |es| == |routes|
  {
    if es == [] then []
    else
      var n := |es| - 1;
      var verdict := if routes[n].Outcome().Admit? then Pass else Drop;
      var before := VerdictsOn(es[..n], routes[..n], k);
      if es[n].key == k then before + [verdict] else before
  }

  /** `k` is tracked before, throughout and after the run. */
  ghost predicate StaysTracked(cfg: Config, s: Inner, es: seq<Arrival>, k: SourceKey)
    requires cfg.Valid() && Inv(cfg, s)
  {
    forall i | 0 <= i <= |es| :: k in Run(cfg, s, es[..i]).0.tracked.vals
  }

  lemma {:induction false} StaysTrackedInit(cfg: Config, s: Inner, es: seq<Arrival>, k: SourceKey)
    requires cfg.Valid() && Inv(cfg, s) && StaysTracked(cfg, s, es, k) && es != []
    ensures StaysTracked(cfg, s, es[..|es| - 1], k)
    ensures k in Run(cfg, s, es[..|es| - 1]).0.tracked.vals && k in Run(cfg, s, es).0.tracked.vals
  {
    hide Run, Inv;
    var init := es[..|es| - 1];
    forall i | 0 <= i <= |init| ensures k in Run(cfg, s, init[..i]).0.tracked.vals {
      assert init[..i] == es[..i];
    }
    assert es[..|es|] == es;
    assert init[..|init|] == init;
  }

  /** One packet moves the bucket of `k` only if it is a packet of `k`, and then by one `consume`. */
  lemma StepIsolated(cfg: Config, s: Inner, e: Arrival, k: SourceKey)
    requires cfg.Valid() && Inv(cfg, s) && k in s.tracked.vals
    requires k in Step(cfg, s, e.key, e.now).0.tracked.vals
    ensures var (s', route) := Step(cfg, s, e.key, e.now);
            if e.key == k then
              && s'.tracked.vals[k] == Consume(s.tracked.vals[k], e.now).0
              && route.Outcome().Admit? == Consume(s.tracked.vals[k], e.now).1.Pass?
            else s'.tracked.vals[k] == s.tracked.vals[k]
  {
    hide Consume, Count, Lru.Push;
    if e.key !in s.tracked.vals {
      UntrackedStep(cfg, s, e.key, e.now);
      PushKeepsGood(cfg, s.tracked, e.key, FullBucket(cfg.perSourceRate, cfg.perSourceBurst, e.now));
    }
  }

  /**
    Isolation: while `k` stays tracked, its verdicts are those of its own bucket fed only its own
    packets, whatever the other sources send in between.
   */
  lemma {:induction false} Isolation(cfg: Config, s: Inner, es: seq<Arrival>, k: SourceKey)
    requires cfg.Valid() && Inv(cfg, s) && StaysTracked(cfg, s, es, k)
    ensures k in s.tracked.vals && k in Run(cfg, s, es).0.tracked.vals
    ensures var (s', routes) := Run(cfg, s, es);
            (s'.tracked.vals[k], VerdictsOn(es, routes, k)) == Serve(s.tracked.vals[k], TimesOf(es, k))
  {
    hide Step, Inv, Consume;
    assert Run(cfg, s, es[..0]).0 == s;
    if es != [] {
      var init, e := es[..|es| - 1], es[|es| - 1];
      StaysTrackedInit(cfg, s, es, k);
      Isolation(cfg, s, init, k);
      RunLast(cfg, s, es);
      StepIsolated(cfg, Run(cfg, s, init).0, e, k);
      if e.key == k {
        ServeStep(s.tracked.vals[k], TimesOf(init, k), e.now);
      }
    } else {
      assert es[..|es|] == es;
    }
  }

  /** A promotion starts `k` on a full bucket of its own. */
  lemma PromotionStartsFull(cfg: Config, s: Inner, e: Arrival)
    requires cfg.Valid() && Inv(cfg, s) && Step(cfg, s, e.key, e.now).1.Promoted?
    ensures var t := Step(cfg, s, e.key, e.now).0.tracked;
            && e.key in t.vals && t.order[0] == e.key
            && t.vals[e.key] == FullBucket(cfg.perSourceRate, cfg.perSourceBurst, e.now)
  {
    hide Lru.Push, Count;
    UntrackedStep(cfg, s, e.key, e.now);
  }

  /**
    From its promotion until its eviction, the limiter treats a source exactly as the declarative
    arrival curve of a full bucket created at the promotion does.
   */
  lemma IsolationFromPromotion(cfg: Config, s: Inner, e: Arrival, es: seq<Arrival>)
    requires cfg.Valid() && Inv(cfg, s) && Step(cfg, s, e.key, e.now).1.Promoted?
    requires StaysTracked(cfg, AfterPacket(cfg, s, e), es, e.key)
    ensures var verdicts := VerdictsOn(es, Run(cfg, AfterPacket(cfg, s, e), es).1, e.key);
            var b := FullBucket(cfg.perSourceRate, cfg.perSourceBurst, e.now);
            && verdicts == Serve(b, TimesOf(es, e.key)).1
            && FollowsCurve(b, TimesOf(es, e.key), verdicts)
  {
    hide Step, Run, StaysTracked;
    var b := FullBucket(cfg.perSourceRate, cfg.perSourceBurst, e.now);
    PromotionStartsFull(cfg, s, e);
    Isolation(cfg, AfterPacket(cfg, s, e), es, e.key);
    CurveDeterminesDecisions(b, TimesOf(es, e.key), Serve(b, TimesOf(es, e.key)).1);
  }

  // ----- promotion of a candidate -----

  /** How many packets of `k` the global bucket passed. */
  function Counts(es: seq<Arrival>, routes: seq<Route>, k: SourceKey): nat
    requires |es| == |routes|
  {
    if es == [] then 0
    else
      var n := |es| - 1;
      Counts(es[..n], routes[..n], k) + if es[n].key == k && routes[n].GlobalPass() then 1 else 0
  }

  /** The instant of the latest globally passed packet of `k`, or `was` when there is none. */
  function LastCount(es: seq<Arrival>, routes: seq<Route>, k: SourceKey, was: real): real
    requires |es| == |routes|
  {
    if es == [] then was
    else
      var n := |es| - 1;
      if es[n].key == k && routes[n].GlobalPass() then es[n].now else LastCount(es[..n], routes[..n], k, was)
  }

  /** Every arrival, whoever sent it, comes within the TTL of the latest counted packet of `k`. */
  ghost predicate WithinTtl(es: seq<Arrival>, routes: seq<Route>, k: SourceKey, was: real)
    requires |es| == |routes|
  {
    forall i | 0 <= i < |es| :: es[i].now < LastCount(es[..i], routes[..i], k, was) + 60.0
  }

  /** A candidate's entry survives other sources' packets within the TTL, and its own packets bump it. */
  lemma {:induction false} StepOfCandidate(cfg: Config, s: Inner, e: Arrival, k: SourceKey)
    requires cfg.Valid() && Inv(cfg, s) && k in s.candidates
    requires s.candidates[k].lastSeen <= e.now < s.candidates[k].lastSeen + 60.0
    ensures var (s', route) := Step(cfg, s, e.key, e.now);
            var c := s.candidates[k].count;
            if e.key == k && route.GlobalPass() then
              if c + 1 < cfg.threshold then
                route.Counted? && k in s'.candidates && s'.candidates[k] == Candidate(c + 1, e.now)
              else route.Promoted? && k in s'.tracked.vals
            else
              && k in s'.candidates && s'.candidates[k] == s.candidates[k]
              && (e.key == k ==> route == GlobalDrop)
  {
    hide Consume, Lru.Push, Lru.Touch;
  }

  /**
    While every arrival comes within the TTL of the last counted packet of candidate `k`, its count
    grows by exactly its globally passed packets, until the threshold.
   */
  lemma {:induction false} CandidateCounts(cfg: Config, s: Inner, es: seq<Arrival>, k: SourceKey)
    requires cfg.Valid() && Inv(cfg, s) && k in s.candidates && Ordered(s.candidates[k].lastSeen, es)
    requires var routes := Run(cfg, s, es).1;
             && WithinTtl(es, routes, k, s.candidates[k].lastSeen)
             && s.candidates[k].count + Counts(es, routes, k) < cfg.threshold
    ensures var (s', routes) := Run(cfg, s, es);
            var was := s.candidates[k].lastSeen;
            && k in s'.candidates
            && s'.candidates[k]
               == Candidate(s.candidates[k].count + Counts(es, routes, k), LastCount(es, routes, k, was))
            && was <= LastCount(es, routes, k, was) <= At(was, es)
  {
    hide Step, Inv;
    if es != [] {
      var init, e := es[..|es| - 1], es[|es| - 1];
      var was := s.candidates[k].lastSeen;
      var (s0, routes0) := Run(cfg, s, init);
      RunLast(cfg, s, es);
      OrderedInit(was, es);
      WithinTtlInit(es, Run(cfg, s, es).1, k, was);
      CandidateCounts(cfg, s, init, k);
      StepOfCandidate(cfg, s0, e, k);
    }
  }

  lemma WithinTtlInit(es: seq<Arrival>, routes: seq<Route>, k: SourceKey, was: real)
    requires |es| == |routes| > 0 && WithinTtl(es, routes, k, was)
    ensures var n := |es| - 1;
            && WithinTtl(es[..n], routes[..n], k, was)
            && es[n].now < LastCount(es[..n], routes[..n], k, was) + 60.0
  {
    hide LastCount;
    var n := |es| - 1;
    forall i | 0 <= i < n
      ensures es[..n][i].now < LastCount(es[..n][..i], routes[..n][..i], k, was) + 60.0
    {
      assert es[..n][..i] == es[..i] && routes[..n][..i] == routes[..i];
    }
  }

  /** Successive counted packets of `k` come less than the TTL apart, starting from `was`. */
  ghost predicate Steady(es: seq<Arrival>, routes: seq<Route>, k: SourceKey, was: real)
    requires |es| == |routes|
  {
    forall i | 0 <= i < |es| && es[i].key == k && routes[i].GlobalPass() ::
      es[i].now < LastCount(es[..i], routes[..i], k, was) + 60.0
  }

  /** Between two counted packets of a steady source nobody's packet comes later than the TTL. */
  lemma {:induction false} SteadyIsWithinTtl(es: seq<Arrival>, routes: seq<Route>, k: SourceKey, was: real)
    requires |es| == |routes| > 0 && Ordered(was, es) && Steady(es, routes, k, was)
    requires es[|es| - 1].key == k && routes[|es| - 1].GlobalPass()
    ensures WithinTtl(es, routes, k, was)
  {
    forall i | 0 <= i < |es|
      ensures es[i].now < LastCount(es[..i], routes[..i], k, was) + 60.0
    {
      NextCount(es, routes, k, was, i);
    }
  }

  lemma {:induction false} NextCount(es: seq<Arrival>, routes: seq<Route>, k: SourceKey, was: real, i: nat)
    requires i < |es| == |routes| && Ordered(was, es) && Steady(es, routes, k, was)
    requires es[|es| - 1].key == k && routes[|es| - 1].GlobalPass()
    ensures es[i].now < LastCount(es[..i], routes[..i], k, was) + 60.0
    decreases |es| - i
  {
    if !(es[i].key == k && routes[i].GlobalPass()) {
      NextCount(es, routes, k, was, i + 1);
      assert es[..i + 1][..i] == es[..i] && routes[..i + 1][..i] == routes[..i];
    }
  }

  /**
    No starvation: once `k` is a candidate and its successive globally passed packets come less
    than 60 seconds apart, then under any interleaving of other sources its packet is the promotion
    exactly when it is the `threshold`-th one counted, and every earlier one is counted in turn.
   */
  lemma {:induction false} NoStarvation(cfg: Config, s: Inner, es: seq<Arrival>, k: SourceKey)
    requires cfg.Valid() && Inv(cfg, s) && k in s.candidates && es != []
    requires Ordered(s.candidates[k].lastSeen, es)
    requires var routes := Run(cfg, s, es).1;
             && es[|es| - 1].key == k && routes[|es| - 1].GlobalPass()
             && Steady(es, routes, k, s.candidates[k].lastSeen)
             && s.candidates[k].count + Counts(es, routes, k) <= cfg.threshold
    ensures var (s', routes) := Run(cfg, s, es);
            var total := s.candidates[k].count + Counts(es, routes, k);
            var last := routes[|es| - 1];
            if total == cfg.threshold then last.Promoted? && k in s'.tracked.vals
            else last.Counted? && k in s'.candidates && s'.candidates[k].count == total
  {
    hide Step, Inv, Run;
    var init, e := es[..|es| - 1], es[|es| - 1];
    var was := s.candidates[k].lastSeen;
    RunLast(cfg, s, es);
    var routes := Run(cfg, s, es).1;
    SteadyIsWithinTtl(es, routes, k, was);
    WithinTtlInit(es, routes, k, was);
    OrderedInit(was, es);
    CandidateCounts(cfg, s, init, k);
    StepOfCandidate(cfg, Run(cfg, s, init).0, e, k);
  }

  /** The first packet of an unknown source starts its count at 1 and dates it, or promotes it at once. */
  lemma FirstPacket(cfg: Config, s: Inner, e: Arrival)
    requires cfg.Valid() && Inv(cfg, s) && e.key !in s.tracked.vals && e.key !in s.candidates
    requires Consume(s.global, e.now).1.Pass? && |Live(s.candidates, e.now)| < cfg.capacity
    ensures var (s', route) := Step(cfg, s, e.key, e.now);
            if cfg.threshold == 1 then route.Promoted? && e.key in s'.tracked.vals
            else route.Counted? && e.key in s'.candidates && s'.candidates[e.key] == Candidate(1, e.now)
  {
    hide Consume, Lru.Push, Live;
    RefusedExactly(cfg, s, e);
  }

  /**
    From the very first packet: an unknown source that passes the global bucket, finds room among the
    live candidates and then sends less than 60 seconds apart is promoted by exactly the
    `threshold`-th of its globally passed packets, the first one included.
   */
  lemma NoStarvationFromUnknown(cfg: Config, s: Inner, e: Arrival, es: seq<Arrival>)
    requires cfg.Valid() && Inv(cfg, s) && e.key !in s.tracked.vals && e.key !in s.candidates
    requires Consume(s.global, e.now).1.Pass? && |Live(s.candidates, e.now)| < cfg.capacity
    requires cfg.threshold >= 2 && es != [] && Ordered(e.now, es)
    requires var routes := Run(cfg, AfterPacket(cfg, s, e), es).1;
             && es[|es| - 1].key == e.key && routes[|es| - 1].GlobalPass()
             && Steady(es, routes, e.key, e.now)
             && 1 + Counts(es, routes, e.key) <= cfg.threshold
    ensures var (s', routes) := Run(cfg, AfterPacket(cfg, s, e), es);
            var last := routes[|es| - 1];
            if 1 + Counts(es, routes, e.key) == cfg.threshold then last.Promoted? && e.key in s'.tracked.vals
            else last.Counted? && e.key in s'.candidates && s'.candidates[e.key].count == 1 + Counts(es, routes, e.key)
  {
    hide Step, Inv, Run, Steady, Counts, Consume, Live;
    FirstPacket(cfg, s, e);
    NoStarvation(cfg, AfterPacket(cfg, s, e), es, e.key);
  }

  /**
    The candidate table after any packet that passed the global bucket. Entries go only when a newcomer
    finds the table full, and then exactly those 60 seconds old; the sender's entry counts one more and
    is dated now, whatever its age was.
   */
  lemma CandidatesExactly(cfg: Config, s: Inner, e: Arrival)
    requires cfg.Valid() && Inv(cfg, s) && e.key !in s.tracked.vals && Consume(s.global, e.now).1.Pass?
    ensures var (s', route) := Step(cfg, s, e.key, e.now);
            var (cs, cs') := (s.candidates, s'.candidates);
            var room := e.key in cs || |cs| < cfg.capacity;
            && (forall k | k != e.key ::
                  (k in cs' <==> k in cs && (room || e.now - cs[k].lastSeen < 60.0)) && (k in cs' ==> cs'[k] == cs[k]))
            && (e.key in cs' <==> route.Counted?)
            && (route.Counted? ==> cs'[e.key] == Candidate(CountOf(cs, e.key) + 1, e.now))
  {
    hide Consume, Lru.Push;
  }

  function CountOf(cs: Candidates, k: SourceKey): nat {
    if k in cs then cs[k].count else 0
  }

  lemma CountBumpsAtMostOne(cfg: Config, s: Inner, key: SourceKey, now: real, k: SourceKey)
    requires cfg.Valid() && Inv(cfg, s)
    ensures var (s', route) := Count(cfg, s, key, now);
            if key == k && route.Promoted? then CountOf(s.candidates, k) + 1 >= cfg.threshold
            else CountOf(s'.candidates, k) <= CountOf(s.candidates, k) + if key == k then 1 else 0
  {
    hide Lru.Push, Bump, Inv;
    BumpBounds(cfg, s, key, now);
    var (count, kept) := Bump(cfg, s.candidates, key, now);
    assert CountOf(kept, k) <= CountOf(s.candidates, k);
  }

  /** How one packet moves the count of `k` upwards. */
  lemma {:induction false} StepCountsAtMostOne(cfg: Config, s: Inner, e: Arrival, k: SourceKey)
    requires cfg.Valid() && Inv(cfg, s) && k !in s.tracked.vals
    ensures var (s', route) := Step(cfg, s, e.key, e.now);
            var c := CountOf(s.candidates, k);
            if e.key == k && route.Promoted? then c + 1 >= cfg.threshold
            else
              && k !in s'.tracked.vals
              && CountOf(s'.candidates, k) <= c + if e.key == k && route.GlobalPass() then 1 else 0
  {
    hide Consume, Lru.Push, Count, CountOf, Without;
    if e.key !in s.tracked.vals {
      UntrackedStaysOut(cfg, s, e, k);
      ConsumeKeeps(s.global, e.now);
      CountBumpsAtMostOne(cfg, s.(global := Consume(s.global, e.now).0), e.key, e.now, k);
      StepGlobal(cfg, s, e.key, e.now);
    }
  }

  lemma UntrackedStaysOut(cfg: Config, s: Inner, e: Arrival, k: SourceKey)
    requires cfg.Valid() && Inv(cfg, s) && k !in s.tracked.vals && e.key !in s.tracked.vals
    ensures var (s', route) := Step(cfg, s, e.key, e.now);
            !(e.key == k && route.Promoted?) ==> k !in s'.tracked.vals
  {
    hide Step, Lru.Push;
    UntrackedStep(cfg, s, e.key, e.now);
    PushKeepsGood(cfg, s.tracked, e.key, FullBucket(cfg.perSourceRate, cfg.perSourceBurst, e.now));
  }

  /** Never earlier: an untracked source is promoted only on at least `threshold` globally passed packets. */
  lemma {:induction false} PromotionNeedsThreshold(cfg: Config, s: Inner, es: seq<Arrival>, k: SourceKey)
    requires cfg.Valid() && Inv(cfg, s) && k !in s.tracked.vals && k !in s.candidates
    requires var routes := Run(cfg, s, es).1;
             forall i | 0 <= i < |es| - 1 && es[i].key == k :: !routes[i].Promoted?
    ensures var (s', routes) := Run(cfg, s, es);
            if es != [] && es[|es| - 1].key == k && routes[|es| - 1].Promoted? then
              Counts(es, routes, k) >= cfg.threshold
            else
              k !in s'.tracked.vals && CountOf(s'.candidates, k) <= Counts(es, routes, k)
  {
    hide Step, Inv;
    if es != [] {
      var init, e := es[..|es| - 1], es[|es| - 1];
      RunLast(cfg, s, es);
      PromotionNeedsThreshold(cfg, s, init, k);
      assert init != [] ==> init[|init| - 1] == es[|init| - 1];
      StepCountsAtMostOne(cfg, Run(cfg, s, init).0, e, k);
    }
  }

  // ----- eviction -----

  /** The sources, other than `k`, that hit or entered the tracked table. */
  function Touched(es: seq<Arrival>, routes: seq<Route>, k: SourceKey): set<SourceKey>
    requires |es| == |routes|
  {
    if es == [] then {}
    else
      var n := |es| - 1;
      Touched(es[..n], routes[..n], k)
      + if (routes[n].Tracked? || routes[n].Promoted?) && es[n].key != k then {es[n].key} else {}
  }

  lemma AheadAfterTouch(t: Lru<SourceKey, Bucket>, x: SourceKey, b: Bucket, k: SourceKey)
    requires t.Valid() && x in t.vals && k in t.vals && x != k
    ensures Before(t.Touch(x, b).order, k) <= Before(t.order, k) + {x}
  {
    BeforeWithout(t.order, x, k);
    assert ([x] + Without(t.order, x))[1..] == Without(t.order, x);
  }

  lemma AheadAfterPush(t: Lru<SourceKey, Bucket>, x: SourceKey, b: Bucket, k: SourceKey)
    requires t.Valid() && t.cap >= 1 && x !in t.vals && k in t.vals
    ensures var (t', gone) := t.Push(x, b);
            if gone == Some(k) then |Before(t.order, k)| == t.cap - 1 && x !in Before(t.order, k)
            else k in t'.vals && Before(t'.order, k) <= Before(t.order, k) + {x}
  {
    hide Lru.Push, Before;
    if k in t.Push(x, b).0.vals {
      PushKeepsKey(t, x, b, k);
    } else {
      PushEvictsLast(t, x, b, k);
    }
  }

  /** One packet of another source puts at most that source ahead of `k`, and only by touching the table. */
  lemma {:induction false} StepAhead(cfg: Config, s: Inner, e: Arrival, k: SourceKey)
    requires cfg.Valid() && Inv(cfg, s) && k in s.tracked.vals && e.key != k
    ensures var (s', route) := Step(cfg, s, e.key, e.now);
            var touched := if route.Tracked? || route.Promoted? then {e.key} else {};
            if route.Promoted? && route.evicted == Some(k) then
              |Before(s.tracked.order, k)| == cfg.capacity - 1 && e.key !in Before(s.tracked.order, k)
            else
              k in s'.tracked.vals && Before(s'.tracked.order, k) <= Before(s.tracked.order, k) + touched
  {
    hide Consume, Lru.Push, Count, Without, Before;
    if e.key in s.tracked.vals {
      AheadAfterTouch(s.tracked, e.key, Consume(s.tracked.vals[e.key], e.now).0, k);
    } else {
      UntrackedStep(cfg, s, e.key, e.now);
      AheadAfterPush(s.tracked, e.key, FullBucket(cfg.perSourceRate, cfg.perSourceBurst, e.now), k);
    }
  }

  /** From a front position, `capacity` distinct others must touch the table before `k` can go. */
  lemma {:induction false} EvictionFromFront(cfg: Config, s: Inner, es: seq<Arrival>, k: SourceKey)
    requires cfg.Valid() && Inv(cfg, s) && s.tracked.order != [] && s.tracked.order[0] == k
    requires forall i | 0 <= i < |es| :: es[i].key != k
    requires var routes := Run(cfg, s, es).1;
             forall i | 0 <= i < |es| - 1 && routes[i].Promoted? :: routes[i].evicted != Some(k)
    ensures var (s', routes) := Run(cfg, s, es);
            if es != [] && routes[|es| - 1].Promoted? && routes[|es| - 1].evicted == Some(k) then
              |Touched(es, routes, k)| >= cfg.capacity
            else
              k in s'.tracked.vals && Before(s'.tracked.order, k) <= Touched(es, routes, k)
  {
    hide Step, Inv, Before;
    if es == [] {
      FrontIsAlone(cfg, s, k);
    } else {
      var init, e := es[..|es| - 1], es[|es| - 1];
      var s0 := Run(cfg, s, init).0;
      RunLast(cfg, s, es);
      EvictionFromFront(cfg, s, init, k);
      StepAhead(cfg, s0, e, k);
      var routes := Run(cfg, s, es).1;
      if routes[|es| - 1].Promoted? && routes[|es| - 1].evicted == Some(k) {
        assert |Before(s0.tracked.order, k) + {e.key}| == cfg.capacity;
        SubsetSize(Before(s0.tracked.order, k) + {e.key}, Touched(es, routes, k));
      }
    }
  }

  lemma FrontIsAlone(cfg: Config, s: Inner, k: SourceKey)
    requires Inv(cfg, s) && s.tracked.order != [] && s.tracked.order[0] == k
    ensures k in s.tracked.vals && Before(s.tracked.order, k) == {}
  {}

  /** Every packet of a tracked source, passed or dropped, makes it the most recent one. */
  lemma PacketRefreshes(cfg: Config, s: Inner, e: Arrival)
    requires cfg.Valid() && Inv(cfg, s) && e.key in Step(cfg, s, e.key, e.now).0.tracked.vals
    ensures var t := Step(cfg, s, e.key, e.now).0.tracked; t.order != [] && t.order[0] == e.key
  {
    hide Lru.Push, Count;
    if e.key !in s.tracked.vals { UntrackedStep(cfg, s, e.key, e.now); }
  }

  /**
    LRU eviction law: after its last packet `e`, a tracked source is evicted only once at least
    `tracked_sources_capacity` distinct other sources have hit or entered the tracked table.
   */
  lemma {:induction false} EvictionLaw(cfg: Config, s: Inner, e: Arrival, es: seq<Arrival>)
    requires cfg.Valid() && Inv(cfg, s) && e.key in AfterPacket(cfg, s, e).tracked.vals
    requires forall i | 0 <= i < |es| :: es[i].key != e.key
    requires var routes := Run(cfg, AfterPacket(cfg, s, e), es).1;
             && (forall i | 0 <= i < |es| - 1 && routes[i].Promoted? :: routes[i].evicted != Some(e.key))
             && es != [] && routes[|es| - 1].Promoted? && routes[|es| - 1].evicted == Some(e.key)
    ensures |Touched(es, Run(cfg, AfterPacket(cfg, s, e), es).1, e.key)| >= cfg.capacity
  {
    hide Step, Run, Inv;
    PacketRefreshes(cfg, s, e);
    EvictionFromFront(cfg, AfterPacket(cfg, s, e), es, e.key);
  }

  // ----- refusal of a newcomer -----

  /** Candidates seen within the TTL. */
  function Live(cs: Candidates, now: real): set<SourceKey> {
    set k | k in cs && now - cs[k].lastSeen < 60.0
  }

  /**
    A source that passes the global bucket goes uncounted exactly when it is new and the candidate
    table is full of live candidates: stale ones always make room.
   */
  lemma RefusedExactly(cfg: Config, s: Inner, e: Arrival)
    requires cfg.Valid() && Inv(cfg, s) && e.key !in s.tracked.vals && Consume(s.global, e.now).1.Pass?
    ensures Step(cfg, s, e.key, e.now).1.Refused? <==>
              e.key !in s.candidates && |Live(s.candidates, e.now)| >= cfg.capacity
  {
    hide Consume, Lru.Push;
    var cs := s.candidates;
    assert Live(cs, e.now) <= cs.Keys;
    SubsetSize(Live(cs, e.now), cs.Keys);
    assert Sweep(cs, e.now).Keys == Live(cs, e.now);
  }

  // ----- what a flood of newcomers can get -----

  /** No source sends twice. */
  ghost predicate DistinctSources(es: seq<Arrival>) {
    forall i, j | 0 <= i < j < |es| :: es[i].key != es[j].key
  }

  /** Between two arrivals the global bucket earns at least a token. */
  ghost predicate Spaced(cfg: Config, es: seq<Arrival>) {
    forall i | 0 < i < |es| :: Earned(cfg.globalRate as real, es[i].now - es[i - 1].now) >= 1.0
  }

  /** A newcomer is admitted when the global bucket has had time to earn a token, or is full. */
  lemma NewcomerAdmitted(cfg: Config, s: Inner, e: Arrival)
    requires cfg.Valid() && Inv(cfg, s) && e.key !in s.tracked.vals && s.global.lastRefill <= e.now
    requires s.global.tokens >= 1.0 || Earned(cfg.globalRate as real, e.now - s.global.lastRefill) >= 1.0
    ensures var (s', route) := Step(cfg, s, e.key, e.now);
            && route.GlobalPass() && route.Outcome().Admit? && s'.global.lastRefill == e.now
            && s'.tracked.vals.Keys <= s.tracked.vals.Keys + {e.key}
  {
    hide Count, Lru.Push, Earned, Step, Inv;
    UntrackedStep(cfg, s, e.key, e.now);
    StepGlobal(cfg, s, e.key, e.now);
    GlobalIsGood(cfg, s);
    Earns(s.global.rate, e.now - s.global.lastRefill);
    TableIsGood(cfg, s);
    PushKeepsGood(cfg, s.tracked, e.key, FullBucket(cfg.perSourceRate, cfg.perSourceBurst, e.now));
  }

  lemma TableIsGood(cfg: Config, s: Inner)
    requires Inv(cfg, s)
    ensures GoodTable(cfg, s.tracked)
  {}

  function SourcesOf(es: seq<Arrival>): set<SourceKey> {
    if es == [] then {} else SourcesOf(es[..|es| - 1]) + {es[|es| - 1].key}
  }

  lemma {:induction false} SourcesAre(es: seq<Arrival>, k: SourceKey)
    requires forall i | 0 <= i < |es| :: es[i].key != k
    ensures k !in SourcesOf(es)
  {
    if es != [] { SourcesAre(es[..|es| - 1], k); }
  }

  /** From boot, packets of distinct sources at the global rate are all admitted, for as long as they come. */
  lemma {:induction false} NewcomersAdmitted(cfg: Config, t0: real, es: seq<Arrival>)
    requires cfg.Valid() && Ordered(t0, es) && DistinctSources(es) && Spaced(cfg, es)
    ensures Inv(cfg, FreshInner(cfg, t0))
    ensures var (s, routes) := Run(cfg, FreshInner(cfg, t0), es);
            && Admitted(routes) == |es|
            && s.global.lastRefill == At(t0, es) && (es == [] ==> s.global.tokens >= 1.0)
            && s.tracked.vals.Keys <= SourcesOf(es)
  {
    hide Step, Inv, Earned, Route.Outcome, Route.GlobalPass;
    FreshIsGood(cfg, t0);
    if es != [] {
      var init, e := es[..|es| - 1], es[|es| - 1];
      NewcomersAdmitted(cfg, t0, init);
      RunLast(cfg, FreshInner(cfg, t0), es);
      SourcesAre(init, e.key);
      NewcomerAdmitted(cfg, Run(cfg, FreshInner(cfg, t0), init).0, e);
    }
  }

  // ----- the verdict and its reason -----

  /**
    A packet of a tracked source is judged by that source's bucket, any other by the global one. It is
    admitted exactly when the bucket, refilled to `now` and capped at its burst, holds a whole token;
    otherwise the reason names the bucket.
   */
  lemma VerdictExactly(cfg: Config, s: Inner, e: Arrival)
    requires cfg.Valid() && Inv(cfg, s)
    ensures var tracked := e.key in s.tracked.vals;
            var b := if tracked then s.tracked.vals[e.key] else s.global;
            Step(cfg, s, e.key, e.now).1.Outcome()
            == if HoldsToken(b, e.now) then Admit
               else Deny(if tracked then PerSourceExhausted else GlobalExhausted)
  {
    hide Inv, Lru.Push, Count, Consume, HoldsToken;
    var b := if e.key in s.tracked.vals then s.tracked.vals[e.key] else s.global;
    JudgeIsGood(cfg, s, e.key);
    PassesExactly(b, e.now);
    if e.key !in s.tracked.vals {
      StepGlobal(cfg, s, e.key, e.now);
    }
  }

  lemma JudgeIsGood(cfg: Config, s: Inner, key: SourceKey)
    requires Inv(cfg, s)
    ensures s.global.Valid() && (key in s.tracked.vals ==> s.tracked.vals[key].Valid())
  {}

  lemma PassesExactly(b: Bucket, now: real)
    requires b.Valid()
    ensures Consume(b, now).1.Pass? <==> HoldsToken(b, now)
  {}

  predicate HoldsToken(b: Bucket, now: real) {
    var earned := if b.lastRefill <= now then b.rate * (now - b.lastRefill) else 0.0;
    b.capacity >= 1.0 && b.tokens + earned >= 1.0
  }

  /** After a panic under the lock nothing learnt is left, the counters stay, and the next packet gets in. */
  lemma RecoveryAdmits(cfg: Config, s: System, ip: IpAddr, lockedAt: real, now: real)
    requires cfg.Valid() && s.poisoned && lockedAt <= now
    ensures var recovered := LockRecovering(cfg, s, lockedAt);
            && recovered.inner.tracked.vals == map[] && recovered.inner.candidates == map[]
            && recovered.inner.global.tokens == cfg.globalBurst as real
            && recovered.inner.global.lastRefill == lockedAt
            && recovered.stats == s.stats && !recovered.poisoned
    ensures var (s', d) := Check(cfg, s, ip, lockedAt, now);
            d == Admit && s'.stats.allowed == s.stats.allowed + 1 && !s'.poisoned
  {
    hide Consume, Count, Lru.Push, HoldsToken;
    var e := Arrival(FromIp(ip, cfg.ipv6PrefixLen), now);
    FreshIsGood(cfg, lockedAt);
    VerdictExactly(cfg, FreshInner(cfg, lockedAt), e);
    FullHoldsToken(cfg, lockedAt, now);
    UntrackedStep(cfg, FreshInner(cfg, lockedAt), e.key, now);
  }

  lemma FullHoldsToken(cfg: Config, t0: real, now: real)
    requires cfg.Valid() && t0 <= now
    ensures HoldsToken(FreshInner(cfg, t0).global, now)
  {
    assert cfg.globalRate as real * (now - t0) >= 0.0;
  }
}
