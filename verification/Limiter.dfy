/**
  The two-tier rate limiter (crates/fwknox-ratelimit/src/limiter.rs and stats.rs): exact
  buckets for hot sources in an LRU table, one global bucket for everyone else, and a bounded
  table of candidates on their way to promotion.
 */
module RateLimiters {
  import opened Bytes
  import opened Options
  import opened LruCaches
  import opened SourceKeys
  import opened TokenBuckets

  const CANDIDATE_TTL := 60.0
  const U32_MAX: nat := 0xFFFF_FFFF
  type u32 = n: nat | n <= U32_MAX

  datatype Config = Config(
    enabled: bool,
    perSourceRate: nat,
    perSourceBurst: nat,
    capacity: nat,        // tracked_sources_capacity
    globalRate: nat,
    globalBurst: nat,
    threshold: u32,       // promotion_threshold
    ipv6PrefixLen: nat
  )
  {
    /** What `DaemonConfig::validate` demands of an enabled limiter. */
    predicate Valid() {
      && 1 <= perSourceRate <= perSourceBurst
      && 1 <= globalRate <= globalBurst
      && 1 <= capacity
      && 1 <= threshold
      && 1 <= ipv6PrefixLen <= 128
    }
  }

  datatype DropReason = PerSourceExhausted | GlobalExhausted
  datatype Decision = Admit | Deny(reason: DropReason)

  datatype Candidate = Candidate(count: nat, lastSeen: real)
  type Candidates = map<SourceKey, Candidate>

  datatype Inner = Inner(tracked: Lru<SourceKey, Bucket>, candidates: Candidates, global: Bucket)

  datatype Stats = Stats(allowed: nat, droppedPerSource: nat, droppedGlobal: nat, promotions: nat, evictions: nat)

  const NO_STATS := Stats(0, 0, 0, 0, 0)

  /** Which way one packet went through `check`; `swept` are the stale candidates it reclaimed. */
  datatype Route =
    | Tracked(pass: bool)
    | GlobalDrop
    | Refused(swept: Candidates)
    | Counted(count: nat, swept: Candidates)
    | Promoted(swept: Candidates, evicted: Option<SourceKey>)
  {
    predicate GlobalPass() {
      Refused? || Counted? || Promoted?
    }

    function Outcome(): Decision {
      match this
      case Tracked(pass) => if pass then Admit else Deny(PerSourceExhausted)
      case GlobalDrop => Deny(GlobalExhausted)
      case _ => Admit
    }
  }

  function FreshInner(cfg: Config, now: real): Inner {
    Inner(Lru(cfg.capacity, [], map[]), map[], FullBucket(cfg.globalRate, cfg.globalBurst, now))
  }

  function Elapsed(now: real, since: real): real {
    if now >= since then now - since else 0.0
  }

  function Sweep(cs: Candidates, now: real): (kept: Candidates) {
    map k | k in cs && Elapsed(now, cs[k].lastSeen) < CANDIDATE_TTL :: cs[k]
  }

  function SaturatingAdd(n: nat): nat {
    if n < U32_MAX then n + 1 else U32_MAX
  }

  /** One `check` under the lock, as a function of the state, the source and the clock reading. */
  function Step(cfg: Config, s: Inner, key: SourceKey, now: real): (r: (Inner, Route))
    requires s.tracked.Valid() && s.tracked.cap >= 1
  {
    if key in s.tracked.vals then
      var (b, d) := Consume(s.tracked.vals[key], now);
      (s.(tracked := s.tracked.Touch(key, b)), Tracked(d.Pass?))
    else
      var (g, d) := Consume(s.global, now);
      if d.Drop? then (s.(global := g), GlobalDrop)
      else Count(cfg, s.(global := g), key, now)
  }

  /**
    The new count of a source that passed the global bucket, and the candidates it counts among.
    A full table is swept first; if it stays full, the newcomer gets no count.
   */
  function Bump(cfg: Config, cs: Candidates, key: SourceKey, now: real): (r: (Option<nat>, Candidates)) {
    if key in cs then (Some(SaturatingAdd(cs[key].count)), cs)
    else
      var kept := if |cs| >= cfg.capacity then Sweep(cs, now) else cs;
      (if |kept| >= cfg.capacity then None else Some(1), kept)
  }

  /** The packet passed the global bucket: count it towards the promotion of its source. */
  function Count(cfg: Config, s: Inner, key: SourceKey, now: real): (r: (Inner, Route))
    requires s.tracked.Valid() && s.tracked.cap >= 1
  {
    var (count, kept) := Bump(cfg, s.candidates, key, now);
    var swept := s.candidates - kept.Keys;
    if count.None? then (s.(candidates := kept), Refused(swept))
    else Settle(cfg, s.(candidates := kept), key, count.value, swept, now)
  }

  /** Record the new count, or promote the source when it reaches the threshold. */
  function Settle(cfg: Config, s: Inner, key: SourceKey, count: nat, swept: Candidates, now: real): (r: (Inner, Route))
    requires s.tracked.Valid() && s.tracked.cap >= 1
  {
    if count >= cfg.threshold then
      var (t, evicted) := s.tracked.Push(key, FullBucket(cfg.perSourceRate, cfg.perSourceBurst, now));
      (s.(tracked := t, candidates := s.candidates - {key}), Promoted(swept, evicted))
    else
      (s.(candidates := s.candidates[key := Candidate(count, now)]), Counted(count, swept))
  }

  function Tally(st: Stats, key: SourceKey, route: Route): Stats {
    match route
    case Tracked(true) => st.(allowed := st.allowed + 1)
    case Tracked(false) => st.(droppedPerSource := st.droppedPerSource + 1)
    case GlobalDrop => st.(droppedGlobal := st.droppedGlobal + 1)
    case Refused(_) => st.(allowed := st.allowed + 1)
    case Counted(_, _) => st.(allowed := st.allowed + 1)
    case Promoted(_, evicted) =>
      var evicts := evicted.Some? && evicted.value != key;
      st.(allowed := st.allowed + 1, promotions := st.promotions + 1,
          evictions := st.evictions + if evicts then 1 else 0)
  }

  /** The limiter with its lock: `poisoned` after a panic while the lock was held. */
  datatype System = System(inner: Inner, stats: Stats, poisoned: bool)

  function LockRecovering(cfg: Config, s: System, now: real): System {
    if s.poisoned then System(FreshInner(cfg, now), s.stats, false) else s
  }

  function Check(cfg: Config, s: System, ip: IpAddr, lockedAt: real, now: real): (r: (System, Decision))
    requires cfg.capacity >= 1
    requires !s.poisoned ==> s.inner.tracked.Valid() && s.inner.tracked.cap >= 1
  {
    var key := FromIp(ip, cfg.ipv6PrefixLen);
    var s1 := LockRecovering(cfg, s, lockedAt);
    var (inner, route) := Step(cfg, s1.inner, key, now);
    (System(inner, Tally(s1.stats, key, route), false), route.Outcome())
  }

  /** The limiter object. The tracked table owns its buckets, so they are values in it. */
  class RateLimiter {
    const config: Config
    var tracked: Lru<SourceKey, Bucket>
    var candidates: Candidates
    var global: TokenBucket
    var stats: Stats
    var poisoned: bool

    /** A panic may have left any table behind a poisoned lock; a disabled limiter may have any capacity. */
    ghost predicate Valid()
      reads `tracked, `poisoned
    {
      && tracked.cap == config.capacity
      && (config.enabled ==> config.capacity >= 1)
      && (!poisoned ==> tracked.Valid())
    }

    /** The lock is held. */
    ghost predicate Locked()
      reads `tracked, `poisoned
    {
      Valid() && config.enabled && !poisoned
    }

    ghost function View(): System
      reads this, global
    {
      System(Inner(tracked, candidates, global.View()), stats, poisoned)
    }

    /** `with_clock`; `capacity >= 1` is its `expect`. */
    constructor (cfg: Config, now: real)
      requires cfg.enabled ==> cfg.capacity >= 1
      ensures config == cfg && Valid() && fresh(global)
      ensures View() == System(FreshInner(cfg, now), NO_STATS, false)
    {
      config := cfg;
      tracked := Lru(cfg.capacity, [], map[]);
      candidates := map[];
      global := new TokenBucket(cfg.globalRate, cfg.globalBurst, now);
      stats := NO_STATS;
      poisoned := false;
    }

    method SweepExpiredCandidates(now: real)
      modifies `candidates
      ensures candidates == Sweep(old(candidates), now)
    {
      candidates := map k | k in candidates && Elapsed(now, candidates[k].lastSeen) < CANDIDATE_TTL :: candidates[k];
    }

    /** `lock_recovering`: after a panic, live state is rebuilt from the configuration. */
    method Lock(now: real)
      requires Valid() && config.enabled
      modifies this
      ensures Locked() && (global == old(global) || fresh(global))
      ensures View() == LockRecovering(config, old(View()), now)
    {
      if poisoned {
        tracked := Lru(tracked.cap, [], map[]);
        candidates := map[];
        global := new TokenBucket(config.globalRate, config.globalBurst, now);
        poisoned := false;
      }
    }

    method CheckIp(ip: IpAddr, lockedAt: real, now: real) returns (d: Decision)
      requires Valid()
      modifies this, global
      ensures Valid() && (global == old(global) || fresh(global))
      ensures !config.enabled ==>
                d == Admit && View() == old(View()).(stats := old(stats).(allowed := old(stats).allowed + 1))
      ensures config.enabled ==> (View(), d) == Check(config, old(View()), ip, lockedAt, now)
    {
      if !config.enabled {
        stats := stats.(allowed := stats.allowed + 1);
        return Admit;
      }
      var key := FromIp(ip, config.ipv6PrefixLen);
      Lock(lockedAt);
      if key in tracked.vals {
        d := HitTracked(key, now);
      } else {
        d := HitGlobal(key, now);
      }
    }

    method HitTracked(key: SourceKey, now: real) returns (d: Decision)
      requires Locked() && key in tracked.vals
      modifies `tracked, `stats
      ensures Locked()
      ensures var (inner, route) := Step(config, old(View()).inner, key, now);
              View() == System(inner, Tally(old(stats), key, route), old(poisoned)) && d == route.Outcome()
    {
      var (bucket, decision) := Consume(tracked.vals[key], now);
      tracked := tracked.Touch(key, bucket);
      match decision
      case Pass =>
        stats := stats.(allowed := stats.allowed + 1);
        d := Admit;
      case Drop =>
        stats := stats.(droppedPerSource := stats.droppedPerSource + 1);
        d := Deny(PerSourceExhausted);
    }

    method HitGlobal(key: SourceKey, now: real) returns (d: Decision)
      requires Locked() && key !in tracked.vals
      modifies `tracked, `candidates, `stats, global
      ensures Locked()
      ensures var (inner, route) := Step(config, old(View()).inner, key, now);
              View() == System(inner, Tally(old(stats), key, route), old(poisoned)) && d == route.Outcome()
    {
      var decision := global.ConsumeAt(now);
      if decision == Drop {
        stats := stats.(droppedGlobal := stats.droppedGlobal + 1);
        return Deny(GlobalExhausted);
      }
      d := CountPass(key, now);
    }

    method CountPass(key: SourceKey, now: real) returns (d: Decision)
      requires Locked() && key !in tracked.vals
      modifies `tracked, `candidates, `stats
      ensures Locked()
      ensures var (inner, route) := Count(config, old(View()).inner, key, now);
              View() == System(inner, Tally(old(stats), key, route), old(poisoned)) && d == route.Outcome()
    {
      hide Bump, FullBucket, Lru.Push;
      var newCount := BumpCandidate(key, now);
      if newCount.Some? && newCount.value >= config.threshold {
        Promote(key, now);
        assert candidates == Bump(config, old(candidates), key, now).1 - {key};
      }
      stats := stats.(allowed := stats.allowed + 1);
      d := Admit;
    }

    method Promote(key: SourceKey, now: real)
      requires Locked()
      modifies `tracked, `candidates, `stats
      ensures Locked() && candidates == old(candidates) - {key}
      ensures var bucket := FullBucket(config.perSourceRate, config.perSourceBurst, now);
              var (t, displaced) := old(tracked).Push(key, bucket);
              && tracked == t
              && stats == old(stats).(
                   promotions := old(stats).promotions + 1,
                   evictions := old(stats).evictions + if displaced.Some? && displaced.value != key then 1 else 0)
    {
      hide FullBucket, Lru.Push;
      var bucket := FullBucket(config.perSourceRate, config.perSourceBurst, now);
      candidates := candidates - {key};
      var (t, displaced) := tracked.Push(key, bucket);
      tracked := t;
      if displaced.Some? && displaced.value != key {
        stats := stats.(evictions := stats.evictions + 1);
      }
      stats := stats.(promotions := stats.promotions + 1);
    }

    /** Counts the packet of `key`; nothing when the candidate table is full of live entries. */
    method BumpCandidate(key: SourceKey, now: real) returns (newCount: Option<nat>)
      modifies `candidates
      ensures newCount == Bump(config, old(candidates), key, now).0
      ensures var kept := Bump(config, old(candidates), key, now).1;
              candidates == if newCount.Some? then kept[key := Candidate(newCount.value, now)] else kept
    {
      if key in candidates {
        var count := SaturatingAdd(candidates[key].count);
        candidates := candidates[key := Candidate(count, now)];
        newCount := Some(count);
      } else {
        if |candidates| >= config.capacity {
          SweepExpiredCandidates(now);
        }
        if |candidates| >= config.capacity {
          return None;
        }
        candidates := candidates[key := Candidate(1, now)];
        newCount := Some(1);
      }
    }
  }
}
