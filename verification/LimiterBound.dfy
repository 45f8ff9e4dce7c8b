/** The total admission bound, by a potential-function argument over whole runs. */
module LimiterBound {
  import opened LruCaches
  import opened SourceKeys
  import opened TokenBuckets
  import opened RateLimiters
  import opened LimiterRuns

  /** `x` added up `n` times. */
  function Times(n: nat, x: real): real {
    if n == 0 then 0.0 else x + Times(n - 1, x)
  }

  lemma {:induction false} TimesIsProduct(n: nat, x: real)
    ensures Times(n, x) == n as real * x
  {
    if n > 0 { TimesIsProduct(n - 1, x); }
  }

  lemma {:induction false} TimesMonotone(n: nat, m: nat, x: real)
    requires n <= m && x >= 0.0
    ensures Times(n, x) <= Times(m, x)
  {
    if n < m { TimesMonotone(n, m - 1, x); }
  }

  lemma {:induction false} TimesAdds(n: nat, x: real, y: real)
    ensures Times(n, x + y) == Times(n, x) + Times(n, y)
  {
    if n > 0 { TimesAdds(n - 1, x, y); }
  }

  /** The level of a bucket at `now`, once refilled and capped. */
  ghost function Held(b: Bucket, now: real): real {
    Refill(b, now).tokens
  }

  lemma HeldIsLevel(b: Bucket, now: real)
    requires b.Valid()
    ensures 0.0 <= Held(b, now) <= b.capacity
  {
    hide Earned;
    if now >= b.lastRefill { Earns(b.rate, now - b.lastRefill); }
  }

  /** As time passes, a bucket earns at most its rate. */
  lemma HeldLater(b: Bucket, was: real, now: real)
    requires b.Valid() && b.lastRefill <= was <= now
    ensures Held(b, now) <= Held(b, was) + Earned(b.rate, now - was)
  {
    hide Earned;
    Distribute(b.rate, b.lastRefill, was, now);
    Earns(b.rate, now - was);
  }

  ghost function HeldBy(vals: map<SourceKey, Bucket>, k: SourceKey, now: real): real {
    if k in vals then Held(vals[k], now) else 0.0
  }

  /** The potential of the tracked table: what all its buckets hold together. */
  ghost function Credit(order: seq<SourceKey>, vals: map<SourceKey, Bucket>, now: real): real {
    if order == [] then 0.0 else HeldBy(vals, order[0], now) + Credit(order[1..], vals, now)
  }

  lemma {:induction false} CreditWithout(order: seq<SourceKey>, vals: map<SourceKey, Bucket>, k: SourceKey, now: real)
    requires k in order
    ensures Credit(order, vals, now) == HeldBy(vals, k, now) + Credit(Without(order, k), vals, now)
  {
    hide HeldBy;
    if order[0] != k {
      CreditWithout(order[1..], vals, k, now);
      assert Without(order, k)[1..] == Without(order[1..], k);
    }
  }

  lemma {:induction false} CreditFrame(order: seq<SourceKey>, vals: map<SourceKey, Bucket>, vals': map<SourceKey,
                                       Bucket>, now: real)
    requires forall k | k in order :: HeldBy(vals, k, now) == HeldBy(vals', k, now)
    ensures Credit(order, vals, now) == Credit(order, vals', now)
  {
    hide HeldBy;
    if order != [] { CreditFrame(order[1..], vals, vals', now); }
  }

  lemma {:induction false} CreditLast(order: seq<SourceKey>, vals: map<SourceKey, Bucket>, now: real)
    requires order != []
    ensures Credit(order, vals, now)
         == Credit(order[..|order| - 1], vals, now) + HeldBy(vals, order[|order| - 1], now)
  {
    hide HeldBy;
    if |order| > 1 {
      CreditLast(order[1..], vals, now);
      assert order[1..][..|order| - 2] == order[..|order| - 1][1..];
    }
  }

  /** As time passes, each tracked bucket earns at most its rate. */
  lemma {:induction false} CreditLater(order: seq<SourceKey>, vals: map<SourceKey, Bucket>, rate: real,
                                       was: real, now: real)
    requires was <= now && forall k | k in order :: k in vals && vals[k].Valid() && vals[k].rate == rate
    requires forall k | k in order :: vals[k].lastRefill <= was
    ensures Credit(order, vals, now) <= Credit(order, vals, was) + Times(|order|, Earned(rate, now - was))
  {
    hide Earned, Held;
    if order != [] {
      CreditLater(order[1..], vals, rate, was, now);
      HeldLater(vals[order[0]], was, now);
    }
  }

  /** A table of buckets holds at most a burst each. */
  lemma {:induction false} CreditAtMost(order: seq<SourceKey>, vals: map<SourceKey, Bucket>, burst: real, now: real)
    requires burst >= 0.0 && forall k | k in vals :: vals[k].Valid() && vals[k].capacity == burst
    ensures Credit(order, vals, now) <= Times(|order|, burst)
  {
    hide Held;
    if order != [] {
      CreditAtMost(order[1..], vals, burst, now);
      if order[0] in vals { HeldIsLevel(vals[order[0]], now); }
    }
  }

  /** No bucket was refilled after `now`. */
  ghost predicate NotAhead(s: Inner, now: real) {
    s.global.lastRefill <= now && forall k | k in s.tracked.vals :: s.tracked.vals[k].lastRefill <= now
  }

  lemma ConsumePays(b: Bucket, now: real)
    requires b.Valid() && b.lastRefill <= now
    ensures var (b', d) := Consume(b, now);
            Held(b', now) + (if d.Pass? then 1.0 else 0.0) <= Held(b, now)
  {
    Nothing(b.rate);
  }

  lemma Nothing(rate: real)
    ensures Earned(rate, 0.0) == 0.0
  {}

  lemma {:induction false} TouchPays(t: Lru<SourceKey, Bucket>, k: SourceKey, b: Bucket, now: real)
    requires t.Valid() && k in t.vals
    ensures var t' := t.Touch(k, b);
            Credit(t'.order, t'.vals, now) == Credit(t.order, t.vals, now) - Held(t.vals[k], now) + Held(b, now)
  {
    hide Held;
    var t' := t.Touch(k, b);
    CreditWithout(t.order, t.vals, k, now);
    CreditFrame(Without(t.order, k), t.vals, t'.vals, now);
    assert t'.order[1..] == Without(t.order, k);
  }

  lemma {:induction false} PushPays(t: Lru<SourceKey, Bucket>, k: SourceKey, b: Bucket, now: real)
    requires t.Valid() && t.cap >= 1 && k !in t.vals
    requires forall x | x in t.vals :: Held(t.vals[x], now) >= 0.0
    ensures var t' := t.Push(k, b).0;
            Credit(t'.order, t'.vals, now) <= Credit(t.order, t.vals, now) + Held(b, now)
  {
    hide Held, Lru.Push;
    var t' := t.Push(k, b).0;
    var rest := t'.order[1..];
    if |t.order| == t.cap {
      CreditLast(t.order, t.vals, now);
    }
    forall x | x in rest ensures HeldBy(t.vals, x, now) == HeldBy(t'.vals, x, now) {
      assert x in t.order && x in t.vals;
    }
    CreditFrame(rest, t.vals, t'.vals, now);
  }

  ghost function CreditOf(s: Inner, now: real): real {
    Credit(s.tracked.order, s.tracked.vals, now)
  }

  /** What a packet of an untracked source can do to the tracked table. */
  lemma UntrackedStep(cfg: Config, s: Inner, key: SourceKey, now: real)
    requires cfg.Valid() && Inv(cfg, s) && key !in s.tracked.vals
    ensures var (s', route) := Step(cfg, s, key, now);
            && !route.Tracked?
            && s'.global == Consume(s.global, now).0
            && (route.Promoted? ==>
                  route.evicted == s.tracked.Push(key, FullBucket(cfg.perSourceRate, cfg.perSourceBurst, now)).1)
            && s'.tracked == if route.Promoted?
                             then s.tracked.Push(key, FullBucket(cfg.perSourceRate, cfg.perSourceBurst, now)).0
                             else s.tracked
  {
    hide Consume, Lru.Push, Bump;
  }

  lemma PromotionPays(cfg: Config, s: Inner, key: SourceKey, now: real)
    requires cfg.Valid() && Inv(cfg, s) && NotAhead(s, now) && key !in s.tracked.vals
    ensures var t := s.tracked.Push(key, FullBucket(cfg.perSourceRate, cfg.perSourceBurst, now)).0;
            && Credit(t.order, t.vals, now) <= CreditOf(s, now) + cfg.perSourceBurst as real
            && forall k | k in t.vals :: t.vals[k].lastRefill <= now
  {
    hide Held, Credit, Lru.Push;
    var b := FullBucket(cfg.perSourceRate, cfg.perSourceBurst, now);
    TableNonNegative(cfg, s, now);
    PushPays(s.tracked, key, b, now);
    FullHolds(cfg, now);
    PushKeepsGood(cfg, s.tracked, key, b);
  }

  /** At a fixed instant a packet adds credit only by a promotion, and every tracked pass spends one. */
  lemma {:induction false} StepPays(cfg: Config, s: Inner, key: SourceKey, now: real)
    requires cfg.Valid() && Inv(cfg, s) && NotAhead(s, now)
    ensures var (s', route) := Step(cfg, s, key, now);
            && CreditOf(s', now) + (if route == Tracked(true) then 1.0 else 0.0)
               <= CreditOf(s, now) + (if route.Promoted? then cfg.perSourceBurst as real else 0.0)
            && NotAhead(s', now)
  {
    hide Held, Credit, Lru.Push, Count;
    if key in s.tracked.vals {
      var b := s.tracked.vals[key];
      ConsumePays(b, now);
      ConsumeKeeps(b, now);
      TouchPays(s.tracked, key, Consume(b, now).0, now);
    } else {
      ConsumeKeeps(s.global, now);
      UntrackedStep(cfg, s, key, now);
      PromotionPays(cfg, s, key, now);
    }
  }

  lemma FullHolds(cfg: Config, now: real)
    ensures Held(FullBucket(cfg.perSourceRate, cfg.perSourceBurst, now), now) == cfg.perSourceBurst as real
  {
    Nothing(cfg.perSourceRate as real);
  }

  lemma TableNonNegative(cfg: Config, s: Inner, now: real)
    requires Inv(cfg, s) && NotAhead(s, now)
    ensures forall k | k in s.tracked.vals :: Held(s.tracked.vals[k], now) >= 0.0
    ensures CreditOf(s, now) >= 0.0
  {
    hide Held;
    forall k | k in s.tracked.vals ensures Held(s.tracked.vals[k], now) >= 0.0 {
      HeldIsLevel(s.tracked.vals[k], now);
    }
    CreditNonNegative(s.tracked.order, s.tracked.vals, now);
  }

  lemma {:induction false} CreditNonNegative(order: seq<SourceKey>, vals: map<SourceKey, Bucket>, now: real)
    requires forall k | k in vals :: Held(vals[k], now) >= 0.0
    ensures Credit(order, vals, now) >= 0.0
  {
    hide Held;
    if order != [] { CreditNonNegative(order[1..], vals, now); }
  }

  /** The instant a run has reached. */
  function At(t0: real, es: seq<Arrival>): real {
    if es == [] then t0 else es[|es| - 1].now
  }

  /** The bound of the tracked tier, with the credit of its buckets as potential, `base` of it at the start. */
  ghost predicate TrackedBounded(cfg: Config, base: real, t0: real, now: real, s: Inner, routes: seq<Route>) {
    && NotAhead(s, now)
    && TrackedPasses(routes) as real + CreditOf(s, now)
       <= base + Times(Promotions(routes), cfg.perSourceBurst as real)
          + Times(cfg.capacity, Earned(cfg.perSourceRate as real, now - t0))
  }

  lemma TrackedBoundedAtStart(cfg: Config, s: Inner, t0: real)
    requires NotAhead(s, t0)
    ensures TrackedBounded(cfg, CreditOf(s, t0), t0, t0, s, [])
  {
    Nothing(cfg.perSourceRate as real);
    TimesMonotone(0, cfg.capacity, 0.0);
  }

  lemma {:induction false} TrackedBoundedStep(cfg: Config, base: real, t0: real, was: real, s: Inner,
                                              routes: seq<Route>, key: SourceKey, now: real)
    requires cfg.Valid() && Inv(cfg, s) && was <= now && TrackedBounded(cfg, base, t0, was, s, routes)
    ensures var (s', route) := Step(cfg, s, key, now);
            TrackedBounded(cfg, base, t0, now, s', routes + [route])
  {
    hide Step, Earned, Times, Credit;
    AdvanceCredit(cfg, s, t0, was, now);
    StepPays(cfg, s, key, now);
    var (s', route) := Step(cfg, s, key, now);
    assert (routes + [route])[..|routes|] == routes;
    LedgerLast(routes + [route]);
    TimesStep(Promotions(routes), cfg.perSourceBurst as real);
  }

  /** From any state: the passes of the tracked tier and the credit left are paid for. */
  lemma {:induction false} TrackedTierBound(cfg: Config, s0: Inner, t0: real, es: seq<Arrival>)
    requires cfg.Valid() && Inv(cfg, s0) && NotAhead(s0, t0) && Ordered(t0, es)
    ensures var (s, routes) := Run(cfg, s0, es);
            TrackedBounded(cfg, CreditOf(s0, t0), t0, At(t0, es), s, routes)
  {
    hide TrackedBounded, Step, Inv, Ordered, CreditOf, NotAhead;
    if es == [] {
      TrackedBoundedAtStart(cfg, s0, t0);
    } else {
      var init, e := es[..|es| - 1], es[|es| - 1];
      OrderedInit(t0, es);
      TrackedTierBound(cfg, s0, t0, init);
      var (s, routes) := Run(cfg, s0, init);
      TrackedBoundedStep(cfg, CreditOf(s0, t0), t0, At(t0, init), s, routes, e.key, e.now);
    }
  }

  lemma OrderedInit(t0: real, es: seq<Arrival>)
    requires es != [] && Ordered(t0, es)
    ensures var init, e := es[..|es| - 1], es[|es| - 1];
            Ordered(t0, init) && t0 <= At(t0, init) <= e.now && At(t0, es) == e.now
  {}

  lemma TimesStep(n: nat, x: real)
    ensures Times(n + 1, x) == Times(n, x) + x
  {}

  /** Letting time pass from `was` to `now` earns at most `capacity * rate` per second. */
  lemma {:induction false} AdvanceCredit(cfg: Config, s: Inner, t0: real, was: real, now: real)
    requires cfg.Valid() && Inv(cfg, s) && NotAhead(s, was) && was <= now
    ensures NotAhead(s, now)
    ensures CreditOf(s, now) - CreditOf(s, was)
         <= Times(cfg.capacity, Earned(cfg.perSourceRate as real, now - t0))
            - Times(cfg.capacity, Earned(cfg.perSourceRate as real, was - t0))
  {
    hide Earned, Times, Credit, Held;
    var rate := cfg.perSourceRate as real;
    CreditLater(s.tracked.order, s.tracked.vals, rate, was, now);
    Distribute(rate, t0, was, now);
    Earns(rate, now - was);
    TimesMonotone(|s.tracked.order|, cfg.capacity, Earned(rate, now - was));
    TimesAdds(cfg.capacity, Earned(rate, was - t0), Earned(rate, now - was));
  }

  lemma StepGlobal(cfg: Config, s: Inner, key: SourceKey, now: real)
    requires cfg.Valid() && Inv(cfg, s)
    ensures var (s', route) := Step(cfg, s, key, now);
            && (key in s.tracked.vals ==> s'.global == s.global && !route.GlobalPass())
            && (key !in s.tracked.vals ==>
                  s'.global == Consume(s.global, now).0 && route.GlobalPass() == Consume(s.global, now).1.Pass?)
  {
    hide Consume, Lru.Push, Bump;
  }

  /** The global tier passes no more than its burst plus what it earned. */
  ghost predicate GlobalBounded(cfg: Config, t0: real, now: real, s: Inner, routes: seq<Route>) {
    && s.global.lastRefill <= now
    && GlobalPasses(routes) as real + Held(s.global, now)
       <= cfg.globalBurst as real + Earned(cfg.globalRate as real, now - t0)
  }

  lemma GlobalBoundedAtStart(cfg: Config, s: Inner, t0: real)
    requires Inv(cfg, s) && NotAhead(s, t0)
    ensures GlobalBounded(cfg, t0, t0, s, [])
  {
    Nothing(cfg.globalRate as real);
    HeldIsLevel(s.global, t0);
  }

  lemma {:induction false} GlobalBoundedStep(cfg: Config, t0: real, was: real, s: Inner, routes: seq<Route>,
                                             key: SourceKey, now: real)
    requires cfg.Valid() && Inv(cfg, s) && was <= now && GlobalBounded(cfg, t0, was, s, routes)
    ensures var (s', route) := Step(cfg, s, key, now);
            GlobalBounded(cfg, t0, now, s', routes + [route])
  {
    hide Step, Earned, Consume, Held;
    StepGlobal(cfg, s, key, now);
    GlobalIsGood(cfg, s);
    HeldLater(s.global, was, now);
    Distribute(cfg.globalRate as real, t0, was, now);
    ConsumePays(s.global, now);
    ConsumeKeeps(s.global, now);
    var (s', route) := Step(cfg, s, key, now);
    assert (routes + [route])[..|routes|] == routes;
    LedgerLast(routes + [route]);
  }

  /** From any state: the global tier's passes and the tokens left stay within burst plus earnings. */
  lemma {:induction false} GlobalTierBound(cfg: Config, s0: Inner, t0: real, es: seq<Arrival>)
    requires cfg.Valid() && Inv(cfg, s0) && NotAhead(s0, t0) && Ordered(t0, es)
    ensures var (s, routes) := Run(cfg, s0, es);
            GlobalBounded(cfg, t0, At(t0, es), s, routes)
  {
    hide GlobalBounded, Step, Inv, Ordered, NotAhead;
    if es == [] {
      GlobalBoundedAtStart(cfg, s0, t0);
    } else {
      var init, e := es[..|es| - 1], es[|es| - 1];
      OrderedInit(t0, es);
      GlobalTierBound(cfg, s0, t0, init);
      var (s, routes) := Run(cfg, s0, init);
      GlobalBoundedStep(cfg, t0, At(t0, init), s, routes, e.key, e.now);
    }
  }

  lemma GlobalIsGood(cfg: Config, s: Inner)
    requires Inv(cfg, s)
    ensures GoodBucket(s.global, cfg.globalRate, cfg.globalBurst)
  {}

  /** Promotions cost `threshold` counted packets each, of this run or counted before it. */
  lemma PromotionsBound(cfg: Config, s0: Inner, es: seq<Arrival>)
    requires cfg.Valid() && Inv(cfg, s0)
    ensures var routes := Run(cfg, s0, es).1;
            cfg.threshold * Promotions(routes) <= GlobalPasses(routes) + SumCounts(s0.candidates)
  {
    hide Run;
    PromotionAccounting(cfg, s0, es);
  }

  /** `G`: what the global bucket can pass in `T` seconds. */
  function GlobalAllowance(cfg: Config, T: real): real {
    cfg.globalBurst as real + cfg.globalRate as real * T
  }

  lemma ScaleBound(p: nat, n: nat, x: real, g: real)
    requires n >= 1 && x >= 0.0 && (n * p) as real <= g
    ensures p as real * x <= x * (g / n as real)
  {
    var q := g / n as real;
    assert q * n as real == g;
    assert p as real <= q by {
      if q < p as real { Grow(q, p as real, n as real); }
    }
    Scale(p as real, q, x);
  }

  lemma Grow(a: real, b: real, n: real)
    requires a < b && n > 0.0
    ensures a * n < b * n
  {}

  lemma Scale(a: real, b: real, x: real)
    requires a <= b && x >= 0.0
    ensures a * x <= b * x
  {}

  lemma EarnedMonotone(rate: real, a: real, b: real)
    requires rate >= 0.0 && a <= b
    ensures Earned(rate, a) <= Earned(rate, b)
  {
    hide Earned;
    Earns(rate, b - a);
    Distribute(rate, 0.0, a, b);
  }

  /** A run's global passes, promotions and tracked earnings, each within its share of the bound. */
  lemma {:induction false} SharesOfBound(cfg: Config, s0: Inner, t0: real, es: seq<Arrival>, T: real)
    requires cfg.Valid() && Inv(cfg, s0) && NotAhead(s0, t0) && Ordered(t0, es) && At(t0, es) <= t0 + T
    ensures var routes := Run(cfg, s0, es).1;
            && GlobalPasses(routes) as real <= GlobalAllowance(cfg, T)
            && cfg.threshold * Promotions(routes) <= GlobalPasses(routes) + SumCounts(s0.candidates)
            && TrackedPasses(routes) as real
               <= CreditOf(s0, t0) + Times(Promotions(routes), cfg.perSourceBurst as real)
                  + Times(cfg.capacity, Earned(cfg.perSourceRate as real, T))
  {
    hide Run, Step, Inv, Ordered, Times, Held, CreditOf;
    var (s, routes) := Run(cfg, s0, es);
    var now := At(t0, es);
    GlobalTierBound(cfg, s0, t0, es);
    GlobalIsGood(cfg, s);
    HeldIsLevel(s.global, now);
    EarnedMonotone(cfg.globalRate as real, now - t0, T);
    PromotionsBound(cfg, s0, es);
    TrackedTierBound(cfg, s0, t0, es);
    TableNonNegative(cfg, s, now);
    EarnedMonotone(cfg.perSourceRate as real, now - t0, T);
    TimesGrows(cfg.capacity, Earned(cfg.perSourceRate as real, now - t0), Earned(cfg.perSourceRate as real, T));
  }

  lemma {:induction false} TimesGrows(n: nat, x: real, y: real)
    requires x <= y
    ensures Times(n, x) <= Times(n, y)
  {
    if n > 0 { TimesGrows(n - 1, x, y); }
  }

  /** One burst per possible promotion out of `counted` packets. */
  function Bursts(cfg: Config, counted: real): real
    requires cfg.Valid()
  {
    cfg.perSourceBurst as real * (counted / cfg.threshold as real)
  }

  /** What a full table of tracked buckets earns in `T` seconds. */
  function Earnings(cfg: Config, T: real): real {
    cfg.capacity as real * (cfg.perSourceRate as real * T)
  }

  lemma EarningsAre(cfg: Config, T: real)
    ensures Times(cfg.capacity, Earned(cfg.perSourceRate as real, T)) == Earnings(cfg, T)
  {
    TimesIsProduct(cfg.capacity, Earned(cfg.perSourceRate as real, T));
  }

  lemma PromotionShare(cfg: Config, promotions: nat, counted: nat, G: real)
    requires cfg.Valid() && cfg.threshold * promotions <= counted && counted as real <= G
    ensures Times(promotions, cfg.perSourceBurst as real) <= Bursts(cfg, G)
  {
    hide Times;
    TimesIsProduct(promotions, cfg.perSourceBurst as real);
    ScaleBound(promotions, cfg.threshold, cfg.perSourceBurst as real, G);
  }

  /** What `T` seconds can admit, given `credit` in the tracked buckets and `counted` candidate packets. */
  function Allowance(cfg: Config, T: real, credit: real, counted: real): real
    requires cfg.Valid()
  {
    var G := GlobalAllowance(cfg, T);
    G + Bursts(cfg, G + counted) + credit + Earnings(cfg, T)
  }

  /**
    Total admission bound from any state: in any run of length `T` without a panic, from any number of
    sources in any order, the packets admitted stay within `G`, plus one burst per possible promotion,
    plus what the tracked buckets hold at the start, plus what `capacity` of them earn in `T` seconds.
   */
  lemma AdmissionFrom(cfg: Config, s0: Inner, t0: real, es: seq<Arrival>, T: real)
    requires cfg.Valid() && Inv(cfg, s0) && NotAhead(s0, t0) && Ordered(t0, es) && At(t0, es) <= t0 + T
    ensures Admitted(Run(cfg, s0, es).1) as real
         <= Allowance(cfg, T, CreditOf(s0, t0), SumCounts(s0.candidates) as real)
  {
    hide Run, Ordered, Inv, NotAhead, CreditOf, Times, GlobalAllowance, SumCounts, Bursts, Earnings, Earned;
    SharesOfBound(cfg, s0, t0, es, T);
    var routes := Run(cfg, s0, es).1;
    AdmittedSplits(routes);
    PromotionShare(cfg, Promotions(routes), GlobalPasses(routes) + SumCounts(s0.candidates),
                   GlobalAllowance(cfg, T) + SumCounts(s0.candidates) as real);
    EarningsAre(cfg, T);
  }

  /**
    From boot, where no bucket is tracked and nothing is counted: at most
    `G + burst * G / threshold + capacity * rate * T`.
   */
  lemma AdmissionBound(cfg: Config, t0: real, es: seq<Arrival>, T: real)
    requires cfg.Valid() && Ordered(t0, es) && At(t0, es) <= t0 + T
    ensures Inv(cfg, FreshInner(cfg, t0))
    ensures var routes := Run(cfg, FreshInner(cfg, t0), es).1;
            var G := GlobalAllowance(cfg, T);
            Admitted(routes) as real
            <= G + cfg.perSourceBurst as real * (G / cfg.threshold as real)
                 + cfg.capacity as real * (cfg.perSourceRate as real * T)
  {
    hide Run, Ordered, Inv, GlobalAllowance, CreditOf, SumCounts;
    FreshIsGood(cfg, t0);
    FreshHoldsNothing(cfg, t0);
    AdmissionFrom(cfg, FreshInner(cfg, t0), t0, es, T);
    assert GlobalAllowance(cfg, T) + 0.0 == GlobalAllowance(cfg, T);
  }

  lemma FreshHoldsNothing(cfg: Config, t0: real)
    ensures var s := FreshInner(cfg, t0);
            CreditOf(s, t0) == 0.0 && SumCounts(s.candidates) == 0 && NotAhead(s, t0)
  {}

  // ----- any window of a run -----

  lemma {:induction false} RunConcat(cfg: Config, s: Inner, a: seq<Arrival>, b: seq<Arrival>)
    requires cfg.Valid() && Inv(cfg, s)
    ensures var (s1, r1) := Run(cfg, s, a);
            var (s2, r2) := Run(cfg, s1, b);
            Run(cfg, s, a + b) == (s2, r1 + r2)
  {
    hide Step, Inv;
    if b == [] {
      assert a + b == a && Run(cfg, s, a).1 + [] == Run(cfg, s, a).1;
    } else {
      var init := b[..|b| - 1];
      RunConcat(cfg, s, a, init);
      RunLast(cfg, s, a + b);
      RunLast(cfg, Run(cfg, s, a).0, b);
      assert (a + b)[..|a + b| - 1] == a + init;
      var (s1, r1) := Run(cfg, s, a);
      var r := Run(cfg, s1, b).1;
      assert r1 + r == (r1 + r[..|b| - 1]) + [r[|b| - 1]];
    }
  }

  lemma {:induction false} SumAtMost(cs: Candidates, top: nat)
    requires forall k | k in cs :: cs[k].count <= top
    ensures SumCounts(cs) <= top * |cs|
    decreases |cs|
  {
    if cs == map[] {
      NothingCounted();
    } else {
      hide SumCounts;
      var k :| k in cs;
      var rest := cs - {k};
      SumWithout(cs, k);
      assert rest.Keys == cs.Keys - {k};
      assert |rest| == |cs| - 1;
      SumAtMost(rest, top);
      OneMore(top, |rest|);
      assert SumCounts(cs) <= top * |cs|;
    }
  }

  lemma NothingCounted()
    ensures SumCounts(map[]) == 0
  {}

  /** What any reachable state can hold: a burst per tracked source, and `threshold - 1` counts per candidate. */
  lemma HoldsAtMost(cfg: Config, s: Inner, now: real)
    requires cfg.Valid() && Inv(cfg, s)
    ensures CreditOf(s, now) <= FullTable(cfg) && SumCounts(s.candidates) <= NearlyPromoted(cfg)
  {
    hide Held, Times, SumCounts, Credit;
    var burst := cfg.perSourceBurst as real;
    CreditAtMost(s.tracked.order, s.tracked.vals, burst, now);
    TimesMonotone(|s.tracked.order|, cfg.capacity, burst);
    TimesIsProduct(cfg.capacity, burst);
    CountsAtMost(cfg, s);
  }

  lemma CountsAtMost(cfg: Config, s: Inner)
    requires cfg.Valid() && Inv(cfg, s)
    ensures SumCounts(s.candidates) <= (cfg.threshold - 1) * cfg.capacity
  {
    hide SumCounts;
    SumAtMost(s.candidates, cfg.threshold - 1);
    Product(cfg.threshold - 1, |s.candidates|, cfg.capacity);
  }

  lemma Product(c: nat, a: nat, b: nat)
    requires a <= b
    ensures c * a <= c * b
  {}

  lemma AllowanceGrows(cfg: Config, T: real, credit: real, credit': real, counted: real, counted': real)
    requires cfg.Valid() && credit <= credit' && counted <= counted'
    ensures Allowance(cfg, T, credit, counted) <= Allowance(cfg, T, credit', counted')
  {
    hide GlobalAllowance, Earnings, Bursts;
    var G := GlobalAllowance(cfg, T);
    BurstsGrow(cfg, G + counted, G + counted');
  }

  lemma BurstsGrow(cfg: Config, a: real, b: real)
    requires cfg.Valid() && a <= b
    ensures Bursts(cfg, a) <= Bursts(cfg, b)
  {
    Divided(a, b, cfg.threshold as real);
    ScaleLeft(cfg.perSourceBurst as real, a / cfg.threshold as real, b / cfg.threshold as real);
  }

  lemma ScaleLeft(x: real, a: real, b: real)
    requires a <= b && x >= 0.0
    ensures x * a <= x * b
  {}

  lemma Divided(a: real, b: real, n: real)
    requires a <= b && n > 0.0
    ensures a / n <= b / n
  {}

  /** A full table of full tracked buckets. */
  function FullTable(cfg: Config): real {
    cfg.capacity as real * cfg.perSourceBurst as real
  }

  /** A full table of candidates, each one packet short of promotion. */
  function NearlyPromoted(cfg: Config): nat
    requires cfg.Valid()
  {
    (cfg.threshold - 1) * cfg.capacity
  }

  /** The most that any `T` seconds of any run can admit. */
  function WindowAllowance(cfg: Config, T: real): real
    requires cfg.Valid()
  {
    Allowance(cfg, T, FullTable(cfg), NearlyPromoted(cfg) as real)
  }

  /**
    In the last `T` seconds of any run, however long and whatever came before, the packets admitted stay
    within the same bound with full tracked buckets and nearly promoted candidates to start with.
   */
  lemma AdmissionInWindow(cfg: Config, t0: real, before: seq<Arrival>, t: real, es: seq<Arrival>, T: real)
    requires cfg.Valid() && Ordered(t0, before) && At(t0, before) <= t && Ordered(t, es) && At(t, es) <= t + T
    ensures Inv(cfg, FreshInner(cfg, t0))
    ensures Admitted(Run(cfg, FreshInner(cfg, t0), before + es).1[|before|..]) as real <= WindowAllowance(cfg, T)
  {
    hide Run, Ordered, Inv, CreditOf, Allowance, SumCounts, FullTable, NearlyPromoted;
    FreshIsGood(cfg, t0);
    var s0 := FreshInner(cfg, t0);
    var s := Run(cfg, s0, before).0;
    RunConcat(cfg, s0, before, es);
    var routes := Run(cfg, s, es).1;
    assert Run(cfg, s0, before + es).1[|before|..] == routes;
    TrackedTierBound(cfg, s0, t0, before);
    AdmissionFrom(cfg, s, t, es, T);
    HoldsAtMost(cfg, s, t);
    AllowanceGrows(cfg, T, CreditOf(s, t), FullTable(cfg),
                   SumCounts(s.candidates) as real, NearlyPromoted(cfg) as real);
  }

  /** The bound from boot on the limiter's own `allowed` counter. */
  lemma AllowedBound(cfg: Config, t0: real, actions: seq<Action>, T: real)
    requires cfg.Valid() && forall i | 0 <= i < |actions| :: actions[i].Arrive?
    requires var es := Keyed(cfg, actions); Ordered(t0, es) && At(t0, es) <= t0 + T
    ensures var G := GlobalAllowance(cfg, T);
            History(cfg, t0, actions).stats.allowed as real
            <= G + cfg.perSourceBurst as real * (G / cfg.threshold as real)
                 + cfg.capacity as real * (cfg.perSourceRate as real * T)
  {
    hide Run, History, Ordered, GlobalAllowance, Promotions, Admitted;
    HistoryIsRun(cfg, t0, actions);
    AdmissionBound(cfg, t0, Keyed(cfg, actions), T);
  }
}
