/**
  Replay protection under any flood. The rate limiter bounds how many datagrams of any window can
  reach the cache, so a cache larger than that bound never evicts a nonce that still matters.
 */
module FloodSafety {
  import opened Bytes
  import opened LruCaches
  import opened ReplayCaches
  import opened Wire
  import opened DaemonConfigs
  import opened Authorize
  import opened ReplayWindow
  import opened PrivsepProtocol
  import Bound = LimiterBound
  import Fairness = LimiterFairness
  import Limiter = RateLimiters
  import Runs = LimiterRuns
  import SourceKeys

  // ----- what the limiter lets through, and when -----

  /** The datagrams of a schedule, as the limiter sees them. */
  function Captures(cfg: DaemonConfig, steps: seq<Step>): (es: seq<Runs.Arrival>) {
    if steps == [] then []
    else
      var es := Captures(cfg, steps[..|steps| - 1]);
      match steps[|steps| - 1]
      case Capture(datagram, _, instant) =>
        es + [Runs.Arrival(SourceKeys.FromIp(datagram.source, cfg.rateLimit.ipv6PrefixLen), instant)]
      case _ => es
  }

  /** The instants of the admitted arrivals. */
  function AdmittedAt(es: seq<Runs.Arrival>, routes: seq<Limiter.Route>): (ts: seq<real>)
    requires |es| == |routes|
    ensures |ts| == Runs.Admitted(routes)
  {
    if es == [] then []
    else
      var n := |es| - 1;
      AdmittedAt(es[..n], routes[..n]) + if routes[n].Outcome().Admit? then [es[n].now] else []
  }

  lemma {:induction false} AdmittedConcat(a: seq<Runs.Arrival>, ra: seq<Limiter.Route>,
                                          b: seq<Runs.Arrival>, rb: seq<Limiter.Route>)
    requires |a| == |ra| && |b| == |rb|
    ensures AdmittedAt(a + b, ra + rb) == AdmittedAt(a, ra) + AdmittedAt(b, rb)
  {
    hide Limiter.Route.Outcome, Runs.Admitted;
    if b == [] {
      assert a + b == a && ra + rb == ra;
    } else {
      var n := |b| - 1;
      AdmittedConcat(a, ra, b[..n], rb[..n]);
      assert (a + b)[..|a| + n] == a + b[..n] && (ra + rb)[..|a| + n] == ra + rb[..n];
    }
  }

  lemma {:induction false} AdmittedBefore(es: seq<Runs.Arrival>, routes: seq<Limiter.Route>, t: real)
    requires |es| == |routes| && forall i | 0 <= i < |es| :: es[i].now < t
    ensures forall i | 0 <= i < |AdmittedAt(es, routes)| :: AdmittedAt(es, routes)[i] < t
  {
    if es != [] { AdmittedBefore(es[..|es| - 1], routes[..|es| - 1], t); }
  }

  /** Where the arrivals at or after `t` begin. */
  lemma {:induction false} SplitAt(t0: real, es: seq<Runs.Arrival>, t: real) returns (k: nat)
    requires Runs.Ordered(t0, es)
    ensures k <= |es| && (forall i | 0 <= i < k :: es[i].now < t) && forall i | k <= i < |es| :: es[i].now >= t
  {
    if es == [] || es[|es| - 1].now < t {
      k := |es|;
    } else {
      k := SplitAt(t0, es[..|es| - 1], t);
    }
  }

  /** The positions of the instants at or after `t`. */
  function Recent(ts: seq<real>, t: real): (r: set<nat>)
    ensures forall i: nat :: i in r <==> i < |ts| && ts[i] >= t
  {
    if ts == [] then {}
    else
      var n := |ts| - 1;
      Recent(ts[..n], t) + if ts[n] >= t then {n} else {}
  }

  lemma RecentLast(ts: seq<real>, t: real)
    requires ts != []
    ensures |Recent(ts, t)| <= |Recent(ts[..|ts| - 1], t)| + 1
  {}

  lemma {:induction false} RecentSize(a: seq<real>, b: seq<real>, t: real)
    requires forall i | 0 <= i < |a| :: a[i] < t
    ensures |Recent(a + b, t)| <= |b|
  {
    hide Recent;
    if b == [] {
      assert a + b == a && Recent(a, t) == {};
    } else {
      var n := |b| - 1;
      RecentSize(a, b[..n], t);
      RecentLast(a + b, t);
      assert (a + b)[..|a| + n] == a + b[..n];
    }
  }

  /** In the last `T` seconds the limiter admits no more than its window allowance. */
  lemma RecentAtMost(cfg: Limiter.Config, t0: real, es: seq<Runs.Arrival>, t: real, T: real)
    requires cfg.Valid() && Runs.Ordered(t0, es) && Bound.At(t0, es) <= t + T && t0 <= t + T && T >= 0.0
    ensures Runs.Inv(cfg, Limiter.FreshInner(cfg, t0))
    ensures var routes := Runs.Run(cfg, Limiter.FreshInner(cfg, t0), es).1;
            |Recent(AdmittedAt(es, routes), t)| as real <= Bound.WindowAllowance(cfg, T)
  {
    hide Runs.Run, Runs.Inv, Runs.Ordered, Bound.At, Bound.WindowAllowance, AdmittedAt, Recent;
    Runs.FreshIsGood(cfg, t0);
    var s0 := Limiter.FreshInner(cfg, t0);
    var from := if t >= t0 then t else t0;
    var k := SplitAt(t0, es, from);
    var a, b := es[..k], es[k..];
    assert es == a + b;
    SplitIsOrdered(t0, es, from, k, t + T);
    Bound.AdmissionInWindow(cfg, t0, a, from, b, T);
    var (s1, ra) := Runs.Run(cfg, s0, a);
    var rb := Runs.Run(cfg, s1, b).1;
    Bound.RunConcat(cfg, s0, a, b);
    assert (ra + rb)[k..] == rb;
    AdmittedConcat(a, ra, b, rb);
    AdmittedBefore(a, ra, from);
    var ts := AdmittedAt(a, ra) + AdmittedAt(b, rb);
    RecentSize(AdmittedAt(a, ra), AdmittedAt(b, rb), from);
    assert Recent(ts, t) == Recent(ts, from) by {
      OrderedSince(t0, es);
      AdmittedSince(es, ra + rb, t0);
    }
  }

  lemma SplitIsOrdered(t0: real, es: seq<Runs.Arrival>, t: real, k: nat, end: real)
    requires Runs.Ordered(t0, es) && Bound.At(t0, es) <= end && t0 <= t && k <= |es|
    requires (forall i | 0 <= i < k :: es[i].now < t) && forall i | k <= i < |es| :: es[i].now >= t
    ensures Runs.Ordered(t0, es[..k]) && Runs.Ordered(t, es[k..]) && Bound.At(t0, es[..k]) <= t
    ensures Bound.At(t, es[k..]) <= end || Bound.At(t, es[k..]) == t
  {}

  lemma OrderedSince(t0: real, es: seq<Runs.Arrival>)
    requires Runs.Ordered(t0, es)
    ensures forall i | 0 <= i < |es| :: es[i].now >= t0
  {}

  lemma {:induction false} AdmittedSince(es: seq<Runs.Arrival>, routes: seq<Limiter.Route>, t: real)
    requires |es| == |routes| && forall i | 0 <= i < |es| :: es[i].now >= t
    ensures forall i | 0 <= i < |AdmittedAt(es, routes)| :: AdmittedAt(es, routes)[i] >= t
  {
    if es != [] { AdmittedSince(es[..|es| - 1], routes[..|es| - 1], t); }
  }

  // ----- the limiter inside a schedule -----

  /** The instants of the datagrams a schedule's limiter has passed. */
  ghost function Instants(cfg: DaemonConfig, t0: real, steps: seq<Step>): seq<real>
    requires Valid(cfg) && cfg.rateLimit.enabled
  {
    ValidRateLimit(cfg);
    Runs.FreshIsGood(cfg.rateLimit, t0);
    var es := Captures(cfg, steps);
    AdmittedAt(es, Runs.Run(cfg.rateLimit, Limiter.FreshInner(cfg.rateLimit, t0), es).1)
  }

  function Datagrams(steps: seq<Step>): (ds: seq<Packet>) {
    if steps == [] then []
    else
      var ds := Datagrams(steps[..|steps| - 1]);
      match steps[|steps| - 1] case Capture(datagram, _, _) => ds + [datagram] case _ => ds
  }

  /** What the workers get of a datagram: its source, and its first 1500 bytes. */
  function Delivered(d: Packet): Packet {
    Packet(d.source, if |d.data| <= 1500 then d.data else d.data[..1500])
  }

  function DeliveredOf(ds: seq<Packet>, admitted: seq<bool>): seq<Packet>
    requires |ds| == |admitted|
  {
    if ds == [] then []
    else
      var n := |ds| - 1;
      DeliveredOf(ds[..n], admitted[..n]) + if admitted[n] then [Delivered(ds[n])] else []
  }

  function Admits(routes: seq<Limiter.Route>): (r: seq<bool>)
    ensures |r| == |routes| && forall i | 0 <= i < |r| :: r[i] == routes[i].Outcome().Admit?
  {
    if routes == [] then [] else Admits(routes[..|routes| - 1]) + [routes[|routes| - 1].Outcome().Admit?]
  }

  /** Which datagrams of a schedule the limiter admits: those of its run, or all when it is switched off. */
  ghost function Admissions(cfg: DaemonConfig, t0: real, steps: seq<Step>): (r: seq<bool>)
    requires Valid(cfg)
    ensures |r| == |Captures(cfg, steps)|
  {
    var es := Captures(cfg, steps);
    if !cfg.rateLimit.enabled then seq(|es|, _ => true)
    else
      ValidRateLimit(cfg);
      Runs.FreshIsGood(cfg.rateLimit, t0);
      Admits(Runs.Run(cfg.rateLimit, Limiter.FreshInner(cfg.rateLimit, t0), es).1)
  }

  lemma {:induction false} OneArrivalEach(cfg: DaemonConfig, steps: seq<Step>)
    ensures |Datagrams(steps)| == |Captures(cfg, steps)|
  {
    hide SourceKeys.FromIp;
    if steps != [] { OneArrivalEach(cfg, steps[..|steps| - 1]); }
  }

  /** What one step does to the limiter and to the datagrams passed. */
  lemma TakeLimiter(suite: Suite, cfg: DaemonConfig, s: State, step: Step)
    requires Valid(cfg) && Ready(cfg, s) && cfg.rateLimit.enabled && !s.limiter.poisoned
    ensures s.limiter.inner.tracked.Valid() && s.limiter.inner.tracked.cap >= 1
    ensures var r := Take(suite, cfg, s, step);
            if step.Capture? then
              var key := SourceKeys.FromIp(step.datagram.source, cfg.rateLimit.ipv6PrefixLen);
              var (inner, route) := Limiter.Step(cfg.rateLimit, s.limiter.inner, key, step.instant);
              && r.limiter.inner == inner && !r.limiter.poisoned
              && r.passed == s.passed + if route.Outcome().Admit? then [Delivered(step.datagram)] else []
            else r.limiter == s.limiter && r.passed == s.passed
  {
    hide SourceKeys.FromIp, Limiter.Step, ValidateCapture, HandleCrypto, Prune, Valid;
    ValidRateLimit(cfg);
    Runs.GoodMeansValid(cfg.rateLimit, s.limiter.inner);
  }

  /** The limiter of a schedule is the run of its captures, and `Instants` lists exactly the datagrams passed. */
  lemma {:induction false} LimiterIsRun(suite: Suite, cfg: DaemonConfig, store: Store, t0: real, steps: seq<Step>)
    requires Valid(cfg) && Good(store.mem) && cfg.rateLimit.enabled
    ensures cfg.rateLimit.Valid() && Runs.Inv(cfg.rateLimit, Limiter.FreshInner(cfg.rateLimit, t0))
    ensures var s := Schedule(suite, cfg, store, t0, steps);
            && !s.limiter.poisoned
            && s.limiter.inner
               == Runs.Run(cfg.rateLimit, Limiter.FreshInner(cfg.rateLimit, t0), Captures(cfg, steps)).0
            && |Instants(cfg, t0, steps)| == |s.passed|
            && (steps != [] ==> Instants(cfg, t0, steps[..|steps| - 1]) <= Instants(cfg, t0, steps))
  {
    hide Take, Limiter.Step, Valid, SourceKeys.FromIp, Limiter.Route.Outcome, Schedule, Inv, Runs.Inv;
    ValidRateLimit(cfg);
    Runs.FreshIsGood(cfg.rateLimit, t0);
    if steps == [] {
      NothingTaken(suite, cfg, store, t0);
    } else {
      LastTaken(suite, cfg, store, t0, steps);
      var init, step := steps[..|steps| - 1], steps[|steps| - 1];
      LimiterIsRun(suite, cfg, store, t0, init);
      var s := Schedule(suite, cfg, store, t0, init);
      InvIsReady(suite, cfg, s);
      TakeLimiter(suite, cfg, s, step);
      var es := Captures(cfg, steps);
      if step.Capture? {
        assert es[..|es| - 1] == Captures(cfg, init);
        Runs.RunLast(cfg.rateLimit, Limiter.FreshInner(cfg.rateLimit, t0), es);
      }
    }
  }

  // ----- the cache keeps its entries in the order of their stamps -----

  /** Newest first. */
  ghost predicate Sorted(order: seq<Nonce>, vals: Entries) {
    order != [] ==>
      && order[0] in vals
      && (forall k | k in order[1..] :: k in vals && vals[order[0]] >= vals[k])
      && Sorted(order[1..], vals)
  }

  lemma {:induction false} SortedFrame(order: seq<Nonce>, vals: Entries, vals': Entries)
    requires Sorted(order, vals) && forall k | k in order :: k in vals' && vals'[k] == vals[k]
    ensures Sorted(order, vals')
  {
    if order != [] {
      assert order == [order[0]] + order[1..];
      SortedFrame(order[1..], vals, vals');
    }
  }

  lemma {:induction false} SortedInit(order: seq<Nonce>, vals: Entries)
    requires Sorted(order, vals) && order != []
    ensures Sorted(order[..|order| - 1], vals)
  {
    if |order| > 1 {
      SortedInit(order[1..], vals);
      assert order[..|order| - 1][1..] == order[1..][..|order| - 2];
    }
  }

  lemma {:induction false} LastIsOldest(order: seq<Nonce>, vals: Entries, k: Nonce)
    requires Sorted(order, vals) && k in order && order[|order| - 1] in vals && k in vals
    ensures vals[k] >= vals[order[|order| - 1]]
  {
    if |order| > 1 {
      assert order == [order[0]] + order[1..];
      if k == order[0] {
        assert order[|order| - 1] in order[1..];
      } else {
        LastIsOldest(order[1..], vals, k);
      }
    }
  }

  lemma {:induction false} WithoutSorted(order: seq<Nonce>, vals: Entries, k: Nonce)
    requires Sorted(order, vals) && Distinct(order)
    ensures Sorted(Without(order, k), vals)
  {
    if order != [] {
      assert order == [order[0]] + order[1..];
      if order[0] != k {
        WithoutSorted(order[1..], vals, k);
        assert Without(order, k)[1..] == Without(order[1..], k);
      }
    }
  }

  lemma PopSorted(mem: Memory, k: Nonce)
    requires mem.Valid() && Sorted(mem.order, mem.vals)
    ensures var r := mem.Pop(k); Sorted(r.order, r.vals)
  {
    hide Without, Sorted;
    WithoutSorted(mem.order, mem.vals, k);
    SortedFrame(Without(mem.order, k), mem.vals, mem.vals - {k});
  }

  lemma {:induction false} PopAllSorted(mem: Memory, ks: seq<Nonce>)
    requires mem.Valid() && Sorted(mem.order, mem.vals)
    ensures var r := PopAll(mem, ks); Sorted(r.order, r.vals)
  {
    hide Lru.Pop, Sorted;
    if ks != [] {
      PopAllSorted(mem, ks[..|ks| - 1]);
      PopSorted(PopAll(mem, ks[..|ks| - 1]), ks[|ks| - 1]);
    }
  }

  lemma InsertSorted(s: Store, n: Nonce, now: nat, saveOk: bool)
    requires Good(s.mem) && Sorted(s.mem.order, s.mem.vals) && forall k | k in s.mem.vals :: s.mem.vals[k] <= now
    ensures var s' := CheckAndInsert(s, true, n, now, saveOk).0;
            && Good(s'.mem) && Sorted(s'.mem.order, s'.mem.vals)
            && forall k | k in s'.mem.vals && k != n :: k in s.mem.vals && s'.mem.vals[k] == s.mem.vals[k]
  {
    hide Lru.Push, Lru.Pop, Sorted;
    if n !in s.mem.vals {
      PushSorted(s.mem, n, now);
      PopSorted(s.mem.Push(n, now).0, n);
    }
  }

  lemma PushSorted(mem: Memory, n: Nonce, now: nat)
    requires Good(mem) && Sorted(mem.order, mem.vals) && n !in mem.vals
    requires forall k | k in mem.vals :: mem.vals[k] <= now
    ensures var r := mem.Push(n, now).0; Sorted(r.order, r.vals)
  {
    hide Lru.Push;
    var r := mem.Push(n, now).0;
    var rest := r.order[1..];
    assert Sorted(rest, mem.vals) by {
      if |mem.order| == mem.cap { SortedInit(mem.order, mem.vals); }
    }
    forall k | k in rest ensures k in mem.vals && k in r.vals && r.vals[k] == mem.vals[k] {
      assert k in mem.order && k in r.order;
    }
    SortedFrame(rest, mem.vals, r.vals);
  }

  // ----- every cached nonce stems from its own datagram -----

  /** Entry `n` stems from datagram `i`, which was captured at most `delay` seconds before the entry's stamp. */
  ghost predicate StemsFrom(mem: Memory, i: nat, ts: seq<real>, delay: nat, clock: nat, n: Nonce)
    requires n in mem.vals
  {
    i < |ts| && ts[i] >= (mem.vals[n] - delay) as real && mem.vals[n] <= clock
  }

  /** Every entry stems from a datagram of its own, numbered below `next`. */
  ghost predicate Dated(mem: Memory, src: map<Nonce, nat>, ts: seq<real>, delay: nat, clock: nat, next: nat) {
    && Good(mem) && Sorted(mem.order, mem.vals)
    && (forall n | n in mem.vals :: n in src && src[n] < next && StemsFrom(mem, src[n], ts, delay, clock, n))
    && forall n, m | n in mem.vals && m in mem.vals && src[n] == src[m] :: n == m
  }

  lemma DatedLater(mem: Memory, src: map<Nonce, nat>, ts: seq<real>, ts': seq<real>, delay: nat, clock: nat,
                   later: nat, next: nat)
    requires Dated(mem, src, ts, delay, clock, next) && ts <= ts' && clock <= later
    ensures Dated(mem, src, ts', delay, later, next)
  {
    hide Sorted;
    forall n | n in mem.vals ensures StemsFrom(mem, src[n], ts', delay, later, n) {
      assert StemsFrom(mem, src[n], ts, delay, clock, n);
    }
  }

  /** A nonce new to the cache stems from the datagram being handled. */
  function SourcesAfter(s: Store, src: map<Nonce, nat>, n: Nonce, i: nat): map<Nonce, nat> {
    if n in s.mem.vals then src else src[n := i]
  }

  lemma DatedInsert(s: Store, src: map<Nonce, nat>, ts: seq<real>, delay: nat, clock: nat, next: nat,
                    n: Nonce, at: nat, saveOk: bool, i: nat)
    requires Dated(s.mem, src, ts, delay, clock, next) && clock <= at
    requires next <= i < |ts| && ts[i] >= (at - delay) as real
    ensures var s' := CheckAndInsert(s, true, n, at, saveOk).0;
            Dated(s'.mem, SourcesAfter(s, src, n, i), ts, delay, at, i + 1)
  {
    hide Sorted, CheckAndInsert;
    var mem, src' := CheckAndInsert(s, true, n, at, saveOk).0.mem, SourcesAfter(s, src, n, i);
    forall k | k in s.mem.vals ensures s.mem.vals[k] <= at && src[k] < i {
      assert StemsFrom(s.mem, src[k], ts, delay, clock, k);
    }
    InsertSorted(s, n, at, saveOk);
    InsertStamps(s, n, at, saveOk);
    forall k | k in mem.vals ensures k in src' && src'[k] < i + 1 && StemsFrom(mem, src'[k], ts, delay, at, k) {
      if k in s.mem.vals { assert StemsFrom(s.mem, src[k], ts, delay, clock, k); }
    }
  }

  lemma InsertStamps(s: Store, n: Nonce, now: nat, saveOk: bool)
    requires Good(s.mem)
    ensures var s' := CheckAndInsert(s, true, n, now, saveOk).0;
            n in s'.mem.vals ==> s'.mem.vals[n] == if n in s.mem.vals then s.mem.vals[n] else now
  {
    hide Lru.Push;
  }

  lemma DatedPrune(s: Store, src: map<Nonce, nat>, ts: seq<real>, delay: nat, clock: nat, next: nat,
                   maxAge: nat, second: nat, saveOk: bool)
    requires Dated(s.mem, src, ts, delay, clock, next) && clock <= second
    ensures Dated(Prune(s, true, maxAge, second, saveOk).0.mem, src, ts, delay, second, next)
  {
    hide PopAll, Stale, Sorted;
    var cutoff := Cutoff(second, maxAge);
    ExpireDropsStale(s.mem, cutoff);
    PopAllSorted(s.mem, Stale(s.mem.order, s.mem.vals, cutoff));
    var mem := Prune(s, true, maxAge, second, saveOk).0.mem;
    forall n | n in mem.vals ensures StemsFrom(mem, src[n], ts, delay, second, n) {
      assert StemsFrom(s.mem, src[n], ts, delay, clock, n);
    }
  }

  // ----- a cache larger than the allowance forgets nothing that matters -----

  lemma {:induction false} ImageSize(keys: set<Nonce>, src: map<Nonce, nat>)
    requires keys <= src.Keys && forall n, m | n in keys && m in keys && src[n] == src[m] :: n == m
    ensures |set n | n in keys :: src[n]| == |keys|
  {
    if keys != {} {
      var k :| k in keys;
      var rest := keys - {k};
      ImageSize(rest, src);
      assert (set n | n in keys :: src[n]) == (set n | n in rest :: src[n]) + {src[k]};
    }
  }

  /** The seconds an entry can matter, plus what its datagram may have spent on the way. */
  function Horizon(cfg: DaemonConfig, wait: nat, delay: nat): real {
    (MAX_SKEW + MaxAgeSeconds(cfg) + wait + delay + 1) as real
  }

  /** The stamp of the entry that the next insertion into a full cache evicts. */
  ghost function OldestStamp(mem: Memory): nat
    requires Good(mem) && |mem.order| == mem.cap
  {
    mem.vals[mem.order[mem.cap - 1]]
  }

  lemma EntryIsRecent(mem: Memory, src: map<Nonce, nat>, ts: seq<real>, delay: nat, clock: nat, next: nat, n: Nonce)
    requires Dated(mem, src, ts, delay, clock, next) && |mem.order| == mem.cap && n in mem.vals
    ensures src[n] in Recent(ts, (OldestStamp(mem) - delay) as real)
    ensures OldestStamp(mem) <= mem.vals[n] <= clock
  {
    hide Recent;
    assert StemsFrom(mem, src[n], ts, delay, clock, n);
    assert n in mem.order && mem.order[mem.cap - 1] in mem.order;
    LastIsOldest(mem.order, mem.vals, n);
  }

  /** When datagram `i` meets a full cache, it and the entries stem from that many recent datagrams. */
  lemma FullCacheIsRecent(mem: Memory, src: map<Nonce, nat>, ts: seq<real>, delay: nat, clock: nat, i: nat, t: nat)
    requires Dated(mem, src, ts, delay, clock, i) && clock <= t && i < |ts| && ts[i] >= (t - delay) as real
    requires |mem.order| == mem.cap
    ensures |Recent(ts, (OldestStamp(mem) - delay) as real)| > mem.cap
  {
    hide Recent, Sorted, StemsFrom, OldestStamp;
    var recent := Recent(ts, (OldestStamp(mem) - delay) as real);
    var image := set n | n in mem.vals.Keys :: src[n];
    forall n | n in mem.vals ensures src[n] in recent {
      EntryIsRecent(mem, src, ts, delay, clock, i, n);
    }
    assert mem.order[mem.cap - 1] in mem.vals;
    EntryIsRecent(mem, src, ts, delay, clock, i, mem.order[mem.cap - 1]);
    ImageSize(mem.vals.Keys, src);
    mem.SizeOfOrder();
    assert i !in image && i in recent;
    SubsetSize(image + {i}, recent);
  }

  /** So a cache at least as large as the limiter's allowance for the horizon evicts only old entries. */
  lemma RecentCanForget(mode: Mode, cfg: DaemonConfig, mem: Memory, src: map<Nonce, nat>, t0: real,
                        es: seq<Runs.Arrival>, delay: nat, clock: nat, i: nat, t: nat)
    requires cfg.rateLimit.Valid() && Runs.Inv(cfg.rateLimit, Limiter.FreshInner(cfg.rateLimit, t0))
    requires var ts := AdmittedAt(es, Runs.Run(cfg.rateLimit, Limiter.FreshInner(cfg.rateLimit, t0), es).1);
             Dated(mem, src, ts, delay, clock, i) && clock <= t && i < |ts| && ts[i] >= (t - delay) as real
    requires Runs.Ordered(t0, es) && Bound.At(t0, es) <= t as real + 1.0 && t0 <= t as real + 1.0
    requires mem.cap as real >= Bound.WindowAllowance(cfg.rateLimit, Horizon(cfg, mode.Lag(), delay))
    ensures CanForget(mode, cfg, mem, t)
  {
    hide Recent, Bound.WindowAllowance, MaxAgeSeconds, AdmittedAt, Runs.Run, Runs.Inv, Runs.Ordered, Sorted, StemsFrom;
    var ts := AdmittedAt(es, Runs.Run(cfg.rateLimit, Limiter.FreshInner(cfg.rateLimit, t0), es).1);
    if |mem.order| == mem.cap && OldestStamp(mem) + MAX_SKEW + MaxAgeSeconds(cfg) + mode.Lag() >= t {
      FullCacheIsRecent(mem, src, ts, delay, clock, i, t);
      RecentAtMost(cfg.rateLimit, t0, es, (OldestStamp(mem) - delay) as real, Horizon(cfg, mode.Lag(), delay));
    }
  }

  // ----- the three processes -----

  /** The cache is dated below everything in flight. */
  ghost predicate Sourced(s: State, src: map<Nonce, nat>, ts: seq<real>, delay: nat, clock: nat, next: nat) {
    && Dated(s.store.mem, src, ts, delay, clock, next) && next <= |ts|
    && (forall k | 0 <= k < |s.toParent| :: next <= s.toParent[k].index)
    && forall k | 0 <= k < |s.toCrypto| :: next <= s.toCrypto[k].index
  }

  /**
    The parent's clock does not go back; a message it handles was judged at most `wait` seconds before and
    captured at most `delay` seconds before; and no capture so far is from the future, to the second.
   */
  ghost predicate PacedStep(wait: nat, delay: nat, s: State, ts: seq<real>, latest: real, clock: nat, step: Step) {
    match step
    case Parent(insertedAt, _) =>
      && clock <= insertedAt
      && (s.toParent != [] ==>
            var m := s.toParent[0];
            && SaneClock(m.item.now) && m.item.now <= insertedAt <= m.item.now + wait
            && m.index < |ts| && ts[m.index] >= (insertedAt - delay) as real
            && latest <= insertedAt as real + 1.0)
    case PruneTick(second, _) => clock <= second
    case _ => true
  }

  function NextClock(clock: nat, step: Step): nat {
    match step case Parent(t, _) => t case PruneTick(t, _) => t case _ => clock
  }

  lemma QuietKeepsSourced(suite: Suite, cfg: DaemonConfig, s: State, step: Step, src: map<Nonce, nat>,
                          ts: seq<real>, ts': seq<real>, delay: nat, clock: nat, next: nat)
    requires Valid(cfg) && PrivsepProtocol.Inv(suite, cfg, s) && Sourced(s, src, ts, delay, clock, next)
    requires ts <= ts' && |ts| == |s.passed| && (step.Capture? || step.Crypto? || step.ParentDrop?)
    ensures Sourced(Take(suite, cfg, s, step), src, ts', delay, clock, next)
  {
    hide ValidateCapture, CheckSource, Valid, PrivsepProtocol.Inv, Dated;
    InvIsReady(suite, cfg, s);
    DatedLater(s.store.mem, src, ts, ts', delay, clock, clock, next);
  }

  lemma ParentKeepsSourced(suite: Suite, cfg: DaemonConfig, s: State, src: map<Nonce, nat>, ts: seq<real>,
                           delay: nat, clock: nat, next: nat, insertedAt: nat, saveOk: bool)
    returns (src': map<Nonce, nat>)
    requires PrivsepProtocol.Inv(suite, cfg, s) && Sourced(s, src, ts, delay, clock, next) && clock <= insertedAt
    requires s.toParent != [] && s.toParent[0].index < |ts| && ts[s.toParent[0].index] >= (insertedAt - delay) as real
    ensures Sourced(ParentStep(cfg, s, insertedAt, saveOk), src', ts, delay, insertedAt, s.toParent[0].index + 1)
  {
    hide CheckAndInsert, FindStanza, RuleFor, PrivsepProtocol.Inv, Sorted, StemsFrom;
    var head := s.toParent[0];
    HeadIsOldest(suite, cfg, s);
    src' := src;
    if head.item.msg.ValidRequest? {
      src' := SourcesAfter(s.store, src, head.item.msg.payload.nonce, head.index);
      DatedInsert(s.store, src, ts, delay, clock, next, head.item.msg.payload.nonce, insertedAt, saveOk, head.index);
    } else {
      DatedLater(s.store.mem, src, ts, ts, delay, clock, insertedAt, next);
    }
  }

  /** The message at the head of the parent's queue judges the oldest datagram in flight. */
  lemma HeadIsOldest(suite: Suite, cfg: DaemonConfig, s: State)
    requires PrivsepProtocol.Inv(suite, cfg, s) && s.toParent != []
    ensures forall k | 0 < k < |s.toParent| :: s.toParent[0].index < s.toParent[k].index
    ensures forall k | 0 <= k < |s.toCrypto| :: s.toParent[0].index < s.toCrypto[k].index
  {
    hide ValidateCapture, Tags, Backed, Verdict, Stems;
    var h := |s.handled|;
    forall k | 0 < k < |s.toParent| ensures s.toParent[0].index < s.toParent[k].index {
      assert Pipe(s)[h] == s.toParent[0].index && Pipe(s)[h + k] == s.toParent[k].index;
    }
    forall k | 0 <= k < |s.toCrypto| ensures s.toParent[0].index < s.toCrypto[k].index {
      assert Pipe(s)[h] == s.toParent[0].index && Pipe(s)[h + |s.toParent| + k] == s.toCrypto[k].index;
    }
  }

  lemma StepKeepsSourced(suite: Suite, cfg: DaemonConfig, s: State, step: Step, src: map<Nonce, nat>, ts: seq<real>,
                         ts': seq<real>, latest: real, wait: nat, delay: nat, clock: nat, next: nat)
    returns (src': map<Nonce, nat>, next': nat)
    requires Valid(cfg) && PrivsepProtocol.Inv(suite, cfg, s) && Sourced(s, src, ts, delay, clock, next)
    requires PacedStep(wait, delay, s, ts, latest, clock, step) && ts <= ts' && |ts| == |s.passed|
    requires !step.Capture? ==> ts' == ts
    ensures Sourced(Take(suite, cfg, s, step), src', ts', delay, NextClock(clock, step), next')
  {
    hide Dated, ParentStep, CaptureStep, CryptoStep, Prune, Valid, ValidateCapture;
    src', next' := src, next;
    match step
    case Parent(insertedAt, saveOk) =>
      if s.toParent != [] {
        src' := ParentKeepsSourced(suite, cfg, s, src, ts, delay, clock, next, insertedAt, saveOk);
        next' := s.toParent[0].index + 1;
      } else {
        EmptyParent(cfg, s, insertedAt, saveOk) by { InvIsReady(suite, cfg, s); }
        DatedLater(s.store.mem, src, ts, ts, delay, clock, insertedAt, next);
      }
    case PruneTick(second, saveOk) =>
      DatedPrune(s.store, src, ts, delay, clock, next, WholeSeconds(cfg.replayMaxAge), second, saveOk);
    case _ => QuietKeepsSourced(suite, cfg, s, step, src, ts, ts', delay, clock, next);
  }

  /** The pace of a whole schedule. */
  ghost predicate Paced(suite: Suite, cfg: DaemonConfig, store: Store, t0: real, wait: nat, delay: nat, start: nat,
                        steps: seq<Step>)
    requires Valid(cfg) && Good(store.mem) && cfg.rateLimit.enabled
  {
    steps != [] ==>
      var init := steps[..|steps| - 1];
      && Paced(suite, cfg, store, t0, wait, delay, start, init)
      && PacedStep(wait, delay, Schedule(suite, cfg, store, t0, init), Instants(cfg, t0, init),
                   Bound.At(t0, Captures(cfg, init)), Clock(start, init), steps[|steps| - 1])
  }

  lemma CapturesPrefix(cfg: DaemonConfig, t0: real, steps: seq<Step>)
    requires steps != [] && Runs.Ordered(t0, Captures(cfg, steps))
    ensures Runs.Ordered(t0, Captures(cfg, steps[..|steps| - 1]))
  {
    hide SourceKeys.FromIp;
    var es, init := Captures(cfg, steps), Captures(cfg, steps[..|steps| - 1]);
    assert init <= es;
  }

  lemma {:induction false} ScheduleIsSourced(suite: Suite, cfg: DaemonConfig, store: Store, t0: real, wait: nat,
                                             delay: nat, start: nat, steps: seq<Step>)
    returns (src: map<Nonce, nat>, next: nat)
    requires Valid(cfg) && Good(store.mem) && cfg.rateLimit.enabled && store.mem.vals == map[]
    requires Paced(suite, cfg, store, t0, wait, delay, start, steps)
    ensures Sourced(Schedule(suite, cfg, store, t0, steps), src, Instants(cfg, t0, steps), delay,
                    Clock(start, steps), next)
  {
    hide Take, PrivsepProtocol.Inv, Valid, Sourced, PacedStep, Instants, Captures, Clock, Schedule;
    if steps == [] {
      src, next := map[], 0;
      BootIsSourced(cfg, store, t0, Instants(cfg, t0, steps), delay, start);
      NoSteps(suite, cfg, store, t0, start);
    } else {
      var init, step := steps[..|steps| - 1], steps[|steps| - 1];
      var src0, next0 := ScheduleIsSourced(suite, cfg, store, t0, wait, delay, start, init);
      LimiterIsRun(suite, cfg, store, t0, init);
      LimiterIsRun(suite, cfg, store, t0, steps);
      if !step.Capture? { InstantsStay(cfg, t0, steps); }
      LastStep(suite, cfg, store, t0, start, steps);
      src, next := StepKeepsSourced(suite, cfg, Schedule(suite, cfg, store, t0, init), step, src0,
                                    Instants(cfg, t0, init), Instants(cfg, t0, steps),
                                    Bound.At(t0, Captures(cfg, init)), wait, delay, Clock(start, init), next0);
    }
  }

  lemma NoSteps(suite: Suite, cfg: DaemonConfig, store: Store, t0: real, start: nat)
    requires Valid(cfg) && Good(store.mem)
    ensures Schedule(suite, cfg, store, t0, []) == Boot(cfg, store, t0) && Clock(start, []) == start
  {
    hide PrivsepProtocol.Inv, Valid;
  }

  lemma LastStep(suite: Suite, cfg: DaemonConfig, store: Store, t0: real, start: nat, steps: seq<Step>)
    requires Valid(cfg) && Good(store.mem) && steps != []
    ensures var init, step := steps[..|steps| - 1], steps[|steps| - 1];
            var s := Schedule(suite, cfg, store, t0, init);
            && Ready(cfg, s) && Schedule(suite, cfg, store, t0, steps) == Take(suite, cfg, s, step)
            && Clock(start, steps) == NextClock(Clock(start, init), step)
  {
    hide Take, PrivsepProtocol.Inv, Valid;
    InvIsReady(suite, cfg, Schedule(suite, cfg, store, t0, steps[..|steps| - 1]));
  }

  lemma InstantsStay(cfg: DaemonConfig, t0: real, steps: seq<Step>)
    requires Valid(cfg) && cfg.rateLimit.enabled && steps != [] && !steps[|steps| - 1].Capture?
    ensures Instants(cfg, t0, steps) == Instants(cfg, t0, steps[..|steps| - 1])
  {
    hide Valid, Runs.Run, AdmittedAt;
  }

  lemma BootIsSourced(cfg: DaemonConfig, store: Store, t0: real, ts: seq<real>, delay: nat, start: nat)
    requires Good(store.mem) && store.mem.vals == map[]
    ensures Sourced(Boot(cfg, store, t0), map[], ts, delay, start, 0)
  {
    store.mem.SizeOfOrder();
  }

  lemma TakeKeepsCap(suite: Suite, cfg: DaemonConfig, s: State, step: Step)
    requires Valid(cfg) && Ready(cfg, s)
    ensures Take(suite, cfg, s, step).store.mem.cap == s.store.mem.cap
  {
    hide CheckSource, ValidateCapture, FindStanza, RuleFor, Lru.Push, Valid, Expire;
    match step
    case PruneTick(second, _) => ExpireDropsStale(s.store.mem, Cutoff(second, WholeSeconds(cfg.replayMaxAge)));
    case _ =>
  }

  lemma {:induction false} CapStays(suite: Suite, cfg: DaemonConfig, store: Store, t0: real, steps: seq<Step>)
    requires Valid(cfg) && Good(store.mem)
    ensures Schedule(suite, cfg, store, t0, steps).store.mem.cap == store.mem.cap
  {
    hide Take, Valid, PrivsepProtocol.Inv;
    if steps != [] {
      var init, step := steps[..|steps| - 1], steps[|steps| - 1];
      CapStays(suite, cfg, store, t0, init);
      InvIsReady(suite, cfg, Schedule(suite, cfg, store, t0, init));
      TakeKeepsCap(suite, cfg, Schedule(suite, cfg, store, t0, init), step);
    }
  }

  /** With a cache at least as large as the limiter's allowance for the horizon, evictions only hit old entries. */
  lemma PacedCanForget(suite: Suite, cfg: DaemonConfig, store: Store, t0: real, wait: nat, delay: nat, start: nat,
                       steps: seq<Step>, t: nat)
    requires Valid(cfg) && Good(store.mem) && cfg.rateLimit.enabled && store.mem.vals == map[]
    requires Paced(suite, cfg, store, t0, wait, delay, start, steps) && Runs.Ordered(t0, Captures(cfg, steps))
    requires cfg.rateLimit.Valid()
    requires store.mem.cap as real >= Bound.WindowAllowance(cfg.rateLimit, Horizon(cfg, wait, delay))
    requires var s := Schedule(suite, cfg, store, t0, steps);
             var ts := Instants(cfg, t0, steps);
             && s.toParent != [] && Clock(start, steps) <= t
             && s.toParent[0].index < |ts| && ts[s.toParent[0].index] >= (t - delay) as real
             && Bound.At(t0, Captures(cfg, steps)) <= t as real + 1.0 && t0 <= t as real + 1.0
    ensures CanForget(Privsep(wait), cfg, Schedule(suite, cfg, store, t0, steps).store.mem, t)
  {
    hide Schedule, Paced, Valid, PrivsepProtocol.Inv, Captures, Bound.WindowAllowance, CanForget, Clock, Dated;
    var src, next := ScheduleIsSourced(suite, cfg, store, t0, wait, delay, start, steps);
    var s, ts := Schedule(suite, cfg, store, t0, steps), Instants(cfg, t0, steps);
    CapStays(suite, cfg, store, t0, steps);
    DatedBelow(s.store.mem, src, ts, delay, Clock(start, steps), next, s.toParent[0].index);
    RecentCanForget(Privsep(wait), cfg, s.store.mem, src, t0, Captures(cfg, steps), delay, Clock(start, steps),
                    s.toParent[0].index, t);
  }

  lemma DatedBelow(mem: Memory, src: map<Nonce, nat>, ts: seq<real>, delay: nat, clock: nat, next: nat, i: nat)
    requires Dated(mem, src, ts, delay, clock, next) && next <= i
    ensures Dated(mem, src, ts, delay, clock, i)
  {
    hide Sorted, StemsFrom;
  }

  /** So a paced schedule is a prompt one: the condition on evictions discharges itself. */
  lemma {:induction false} PacedIsPrompt(suite: Suite, cfg: DaemonConfig, store: Store, t0: real, wait: nat, delay: nat,
                                         start: nat, steps: seq<Step>)
    requires Valid(cfg) && Good(store.mem) && cfg.rateLimit.enabled && store.mem.vals == map[]
    requires Paced(suite, cfg, store, t0, wait, delay, start, steps) && Runs.Ordered(t0, Captures(cfg, steps))
    requires cfg.rateLimit.Valid() && t0 <= start as real + 1.0
    requires store.mem.cap as real >= Bound.WindowAllowance(cfg.rateLimit, Horizon(cfg, wait, delay))
    ensures Prompt(suite, cfg, store, t0, wait, start, steps) && start <= Clock(start, steps)
  {
    hide Schedule, Valid, PrivsepProtocol.Inv, Instants, CanForget, Captures, Bound.WindowAllowance, Runs.Ordered;
    if steps != [] {
      var init, step := steps[..|steps| - 1], steps[|steps| - 1];
      CapturesPrefix(cfg, t0, steps);
      PacedIsPrompt(suite, cfg, store, t0, wait, delay, start, init);
      if step.Parent? && Schedule(suite, cfg, store, t0, init).toParent != [] {
        PacedCanForget(suite, cfg, store, t0, wait, delay, start, init, step.insertedAt);
      }
    }
  }

  /**
    Replay protection under any flood. Start the three processes with an empty cache whose capacity is at
    least what the rate limiter admits in the horizon: the time a packet stays timely (30 seconds of skew
    and `max_spa_packet_age`), the wait for the parent, the delay since capture and one second of clock
    resolution. If nonces are kept as long as packets stay timely, then whatever is sent, from however
    many sources, no payload is granted twice.
   */
  lemma NoGrantTwiceUnderFlood(suite: Suite, cfg: DaemonConfig, store: Store, t0: real, wait: nat, delay: nat,
                               start: nat, steps: seq<Step>)
    requires Valid(cfg) && Good(store.mem) && cfg.rateLimit.enabled && cfg.rateLimit.Valid()
    requires store.mem.vals == map[] && t0 <= start as real + 1.0
    requires Paced(suite, cfg, store, t0, wait, delay, start, steps) && Runs.Ordered(t0, Captures(cfg, steps))
    requires store.mem.cap as real >= Bound.WindowAllowance(cfg.rateLimit, Horizon(cfg, wait, delay))
    requires WholeSeconds(cfg.replayMaxAge) >= MaxAgeSeconds(cfg) + MAX_SKEW + wait
    ensures var gs := Schedule(suite, cfg, store, t0, steps).granted;
            forall i, j | 0 <= i < j < |gs| :: gs[i].payload != gs[j].payload
  {
    hide Schedule, Paced, Prompt, Captures, Bound.WindowAllowance, Runs.Ordered, Valid;
    PacedIsPrompt(suite, cfg, store, t0, wait, delay, start, steps);
    NoGrantTwice(suite, cfg, store, t0, wait, start, steps);
  }

  // ----- the default parameters -----

  /** The default parameters of the limiter (crates/fwknox-config/src/daemon.rs). */
  const DEFAULT_LIMITS := Limiter.Config(true, 10, 20, 1024, 500, 1000, 5, 64)

  /** The premise of the flood theorem does not hold for the defaults: the allowance exceeds 10,000 entries. */
  lemma DefaultsFallShort(cfg: DaemonConfig, wait: nat, delay: nat)
    requires cfg.rateLimit == DEFAULT_LIMITS && WholeSeconds(cfg.maxSpaPacketAge) == 120
    ensures cfg.rateLimit.Valid()
    ensures Bound.WindowAllowance(cfg.rateLimit, Horizon(cfg, wait, delay)) > DEFAULT_MAX_ENTRIES as real
  {
    var T := Horizon(cfg, wait, delay);
    assert T >= 151.0;
    assert Bound.GlobalAllowance(cfg.rateLimit, T) >= 76500.0;
  }

  /** The `i`-th of 65,536 IPv4 sources, one packet every two milliseconds. */
  function FloodPacket(t0: real, i: nat): Runs.Arrival
    requires i < 0x1_0000
  {
    Runs.Arrival(SourceKeys.FromIp(V4([10, 0, i / 256, i % 256]), 64), t0 + i as real * 0.002)
  }

  function FloodPackets(t0: real, n: nat): (es: seq<Runs.Arrival>)
    requires n <= 0x1_0000
    ensures |es| == n && forall i | 0 <= i < n :: es[i] == FloodPacket(t0, i)
  {
    if n == 0 then [] else FloodPackets(t0, n - 1) + [FloodPacket(t0, n - 1)]
  }

  lemma FloodSourcesDiffer(t0: real, i: nat, j: nat)
    requires i < j < 0x1_0000
    ensures FloodPacket(t0, i).key != FloodPacket(t0, j).key
    ensures FloodPacket(t0, i).now < FloodPacket(t0, j).now
  {
    SourceKeys.KeysAgree(V4([10, 0, i / 256, i % 256]), V4([10, 0, j / 256, j % 256]), 64);
    assert [10, 0, i / 256, i % 256][2] == i / 256 && [10, 0, j / 256, j % 256][2] == j / 256;
    assert [10, 0, i / 256, i % 256][3] == i % 256 && [10, 0, j / 256, j % 256][3] == j % 256;
  }

  /**
    And the defaults do admit that much: from boot the default limiter admits 10,001 packets of distinct
    sources within 20 seconds, one more than the cache holds and well within the time a packet stays timely.
   */
  lemma DefaultsAdmitFlood(t0: real)
    ensures DEFAULT_LIMITS.Valid() && Runs.Inv(DEFAULT_LIMITS, Limiter.FreshInner(DEFAULT_LIMITS, t0))
    ensures var es := FloodPackets(t0, DEFAULT_MAX_ENTRIES + 1);
            && Runs.Ordered(t0, es) && Bound.At(t0, es) <= t0 + 20.0
            && Runs.Admitted(Runs.Run(DEFAULT_LIMITS, Limiter.FreshInner(DEFAULT_LIMITS, t0), es).1)
               == DEFAULT_MAX_ENTRIES + 1
  {
    hide FloodPackets, FloodPacket, Runs.Run, Runs.Admitted;
    var es := FloodPackets(t0, DEFAULT_MAX_ENTRIES + 1);
    forall i, j | 0 <= i < j < |es| ensures es[i].key != es[j].key && es[i].now <= es[j].now {
      FloodSourcesDiffer(t0, i, j);
    }
    forall i | 0 <= i < |es| ensures es[i].now == t0 + i as real * 0.002 { FloodTimes(t0, i); }
    assert Fairness.Spaced(DEFAULT_LIMITS, es);
    Fairness.NewcomersAdmitted(DEFAULT_LIMITS, t0, es);
  }

  lemma FloodTimes(t0: real, i: nat)
    requires i < 0x1_0000
    ensures FloodPacket(t0, i).now == t0 + i as real * 0.002
  {}

  // ----- from captured datagrams to grants -----

  /** The verdict on the last datagram is added to those before it. */
  lemma AdmissionsLast(cfg: DaemonConfig, t0: real, steps: seq<Step>)
    requires Valid(cfg) && steps != []
    ensures var init := steps[..|steps| - 1];
            if steps[|steps| - 1].Capture? then
              |Admissions(cfg, t0, steps)| > 0 && Admissions(cfg, t0, steps)[..|Admissions(cfg, t0, steps)| - 1]
                                                  == Admissions(cfg, t0, init)
            else Admissions(cfg, t0, steps) == Admissions(cfg, t0, init)
  {
    hide Valid, Limiter.Step, Limiter.Route.Outcome, SourceKeys.FromIp;
    ValidRateLimit(cfg);
    var es := Captures(cfg, steps);
    if cfg.rateLimit.enabled && steps[|steps| - 1].Capture? {
      Runs.FreshIsGood(cfg.rateLimit, t0);
      assert es[..|es| - 1] == Captures(cfg, steps[..|steps| - 1]);
      Runs.RunLast(cfg.rateLimit, Limiter.FreshInner(cfg.rateLimit, t0), es);
    }
  }

  /** One step passes its datagram exactly when the limiter admits it. */
  lemma TakePasses(suite: Suite, cfg: DaemonConfig, store: Store, t0: real, steps: seq<Step>)
    requires Valid(cfg) && Good(store.mem) && steps != []
    ensures var passed := Schedule(suite, cfg, store, t0, steps[..|steps| - 1]).passed;
            var admitted := Admissions(cfg, t0, steps);
            var step := steps[|steps| - 1];
            Schedule(suite, cfg, store, t0, steps).passed
            == if step.Capture? && admitted != [] && admitted[|admitted| - 1] then passed + [Delivered(step.datagram)]
               else passed
  {
    hide Valid, Inv, Delivered, Take, Schedule, Captures, Admissions, Limiter.Step, Limiter.Route.Outcome, Runs.Run;
    hide SourceKeys.FromIp, Runs.Inv, Ready;
    var init, step := steps[..|steps| - 1], steps[|steps| - 1];
    var s := Schedule(suite, cfg, store, t0, init);
    InvIsReady(suite, cfg, s);
    LastTaken(suite, cfg, store, t0, steps);
    if cfg.rateLimit.enabled {
      LimiterIsRun(suite, cfg, store, t0, init);
      TakeLimiter(suite, cfg, s, step);
      if step.Capture? { LastVerdict(cfg, t0, steps); }
    } else {
      TakeUnlimited(suite, cfg, s, step);
      if step.Capture? { NoLimiterAdmits(cfg, t0, steps); }
    }
  }

  lemma LastTaken(suite: Suite, cfg: DaemonConfig, store: Store, t0: real, steps: seq<Step>)
    requires Valid(cfg) && Good(store.mem) && steps != []
    ensures var s := Schedule(suite, cfg, store, t0, steps[..|steps| - 1]);
            Ready(cfg, s) && Schedule(suite, cfg, store, t0, steps) == Take(suite, cfg, s, steps[|steps| - 1])
  {
    hide Valid, Take, Inv;
    InvIsReady(suite, cfg, Schedule(suite, cfg, store, t0, steps[..|steps| - 1]));
  }

  lemma NoLimiterAdmits(cfg: DaemonConfig, t0: real, steps: seq<Step>)
    requires Valid(cfg) && !cfg.rateLimit.enabled && steps != [] && steps[|steps| - 1].Capture?
    ensures var admitted := Admissions(cfg, t0, steps); admitted != [] && admitted[|admitted| - 1]
  {
    hide Valid, SourceKeys.FromIp;
  }

  lemma TakeUnlimited(suite: Suite, cfg: DaemonConfig, s: State, step: Step)
    requires Valid(cfg) && Ready(cfg, s) && !cfg.rateLimit.enabled
    ensures Take(suite, cfg, s, step).passed == s.passed + if step.Capture? then [Delivered(step.datagram)] else []
  {
    hide Valid, ValidateCapture, HandleCrypto, Prune;
  }

  lemma LastVerdict(cfg: DaemonConfig, t0: real, steps: seq<Step>)
    requires Valid(cfg) && cfg.rateLimit.enabled && steps != [] && steps[|steps| - 1].Capture?
    ensures cfg.rateLimit.Valid() && Runs.Inv(cfg.rateLimit, Limiter.FreshInner(cfg.rateLimit, t0))
    ensures var admitted := Admissions(cfg, t0, steps);
            var step := steps[|steps| - 1];
            var key := SourceKeys.FromIp(step.datagram.source, cfg.rateLimit.ipv6PrefixLen);
            var inner := Runs.Run(cfg.rateLimit, Limiter.FreshInner(cfg.rateLimit, t0),
                                  Captures(cfg, steps[..|steps| - 1])).0;
            && inner.tracked.Valid() && inner.tracked.cap >= 1
            && admitted != []
            && admitted[|admitted| - 1]
               == Limiter.Step(cfg.rateLimit, inner, key, step.instant).1.Outcome().Admit?
  {
    hide Valid, Limiter.Step, Limiter.Route.Outcome, SourceKeys.FromIp;
    ValidRateLimit(cfg);
    Runs.FreshIsGood(cfg.rateLimit, t0);
    var es := Captures(cfg, steps);
    assert es[..|es| - 1] == Captures(cfg, steps[..|steps| - 1]);
    Runs.RunLast(cfg.rateLimit, Limiter.FreshInner(cfg.rateLimit, t0), es);
    var init := es[..|es| - 1];
    Runs.GoodMeansValid(cfg.rateLimit, Runs.Run(cfg.rateLimit, Limiter.FreshInner(cfg.rateLimit, t0), init).0);
  }

  /**
    Under every interleaving, what goes down the pipe is exactly the captured datagrams that the limiter
    admits, in the order captured, each with its own source and its first 1500 bytes.
   */
  lemma {:induction false} PassedIsCaptured(suite: Suite, cfg: DaemonConfig, store: Store, t0: real, steps: seq<Step>)
    requires Valid(cfg) && Good(store.mem)
    ensures |Datagrams(steps)| == |Admissions(cfg, t0, steps)|
    ensures Schedule(suite, cfg, store, t0, steps).passed == DeliveredOf(Datagrams(steps), Admissions(cfg, t0, steps))
  {
    hide Valid, Inv, Delivered, Admissions, Captures;
    OneArrivalEach(cfg, steps);
    if steps == [] {
      NothingTaken(suite, cfg, store, t0);
    } else {
      hide Schedule;
      var init := steps[..|steps| - 1];
      PassedIsCaptured(suite, cfg, store, t0, init);
      AdmissionsLast(cfg, t0, steps);
      TakePasses(suite, cfg, store, t0, steps);
      var ds := Datagrams(steps);
      assert steps[|steps| - 1].Capture? ==> ds[..|ds| - 1] == Datagrams(init);
      assert Schedule(suite, cfg, store, t0, steps).passed == DeliveredOf(ds, Admissions(cfg, t0, steps));
    }
  }

  lemma NothingTaken(suite: Suite, cfg: DaemonConfig, store: Store, t0: real)
    requires Valid(cfg) && Good(store.mem)
    ensures Schedule(suite, cfg, store, t0, []) == Boot(cfg, store, t0)
  {
    hide Valid, Inv;
  }
}
