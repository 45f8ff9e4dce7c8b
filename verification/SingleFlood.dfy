/**
  The main loop of the single process (crates/fwknox-daemon/src/run.rs): every datagram passes the rate
  limiter before the pipeline, and the cache is pruned now and then. The flood theorem for it.
 */
module SingleFlood {
  import opened LruCaches
  import opened ReplayCaches
  import opened Wire
  import opened DaemonConfigs
  import opened Authorize
  import opened ReplayWindow
  import opened FloodSafety
  import Bytes
  import PrivsepProtocol
  import ReplayCrash
  import Bound = LimiterBound
  import Limiter = RateLimiters
  import Runs = LimiterRuns
  import SourceKeys

  datatype Loop = Loop(limiter: Limiter.System, daemon: Daemon)

  datatype Turn =
    | Datagram(pkt: Packet, lockedAt: real, instant: real, now: Bytes.i64, insertedAt: nat, saveOk: bool)
    | PruneTurn(second: nat, saveOk: bool)

  ghost predicate Sound(cfg: DaemonConfig, s: Loop) {
    Good(s.daemon.store.mem) && (cfg.rateLimit.enabled ==> Runs.SystemInv(cfg.rateLimit, s.limiter))
  }

  function Admits(cfg: DaemonConfig, s: Loop, t: Turn): bool
    requires Valid(cfg) && Sound(cfg, s) && t.Datagram?
  {
    PrivsepProtocol.ValidRateLimit(cfg);
    PrivsepProtocol.CheckSource(cfg, s.limiter, t.pkt.source, t.lockedAt, t.instant).1.Admit?
  }

  /** One turn of the loop. */
  function Iterate(suite: Suite, cfg: DaemonConfig, s: Loop, t: Turn): (r: Loop)
    requires Valid(cfg) && Sound(cfg, s)
    ensures Sound(cfg, r)
  {
    PrivsepProtocol.ValidRateLimit(cfg);
    match t
    case Datagram(pkt, lockedAt, instant, now, insertedAt, saveOk) =>
      PrivsepProtocol.CheckSourceCounts(cfg, s.limiter, pkt.source, lockedAt, instant);
      HappenKeepsGood(suite, cfg, s.daemon, Receive(pkt, now, insertedAt, saveOk));
      var limiter := PrivsepProtocol.CheckSource(cfg, s.limiter, pkt.source, lockedAt, instant).0;
      if Admits(cfg, s, t)
      then Loop(limiter, Happen(SingleProcess, suite, cfg, s.daemon, Receive(pkt, now, insertedAt, saveOk)))
      else Loop(limiter, s.daemon)
    case PruneTurn(second, saveOk) =>
      HappenKeepsGood(suite, cfg, s.daemon, Tick(second, saveOk));
      s.(daemon := Happen(SingleProcess, suite, cfg, s.daemon, Tick(second, saveOk)))
  }

  lemma HappenKeepsGood(suite: Suite, cfg: DaemonConfig, d: Daemon, h: Happening)
    requires Good(d.store.mem) && (h.Receive? || h.Tick?)
    ensures var r := Happen(SingleProcess, suite, cfg, d, h);
            Good(r.store.mem) && r.store.mem.cap == d.store.mem.cap
  {
    hide Decide, PayloadOf, Expire, Lru.Push;
    match h
    case Receive(pkt, now, insertedAt, saveOk) =>
      DecideEffects(SingleProcess, suite, cfg, d.store, pkt, now, insertedAt, saveOk);
    case Tick(second, _) => ExpireDropsStale(d.store.mem, Cutoff(second, WholeSeconds(cfg.replayMaxAge)));
    case _ =>
  }

  function Start(cfg: DaemonConfig, store: Store, t0: real, start: nat): Loop {
    Loop(Limiter.System(Limiter.FreshInner(cfg.rateLimit, t0), Limiter.NO_STATS, false), Daemon(store, start, []))
  }

  lemma StartIsSound(cfg: DaemonConfig, store: Store, t0: real, start: nat)
    requires Valid(cfg) && Good(store.mem)
    ensures Sound(cfg, Start(cfg, store, t0, start))
  {
    PrivsepProtocol.ValidRateLimit(cfg);
    if cfg.rateLimit.enabled { Runs.FreshIsGood(cfg.rateLimit, t0); }
  }

  function LoopRun(suite: Suite, cfg: DaemonConfig, store: Store, t0: real, start: nat, turns: seq<Turn>): (s: Loop)
    requires Valid(cfg) && Good(store.mem)
    ensures Sound(cfg, s)
  {
    StartIsSound(cfg, store, t0, start);
    if turns == [] then Start(cfg, store, t0, start)
    else Iterate(suite, cfg, LoopRun(suite, cfg, store, t0, start, turns[..|turns| - 1]), turns[|turns| - 1])
  }

  /** The datagrams of a run, as the limiter sees them. */
  function Arrivals(cfg: DaemonConfig, turns: seq<Turn>): seq<Runs.Arrival> {
    if turns == [] then []
    else
      var es := Arrivals(cfg, turns[..|turns| - 1]);
      match turns[|turns| - 1]
      case Datagram(pkt, _, instant, _, _, _) =>
        es + [Runs.Arrival(SourceKeys.FromIp(pkt.source, cfg.rateLimit.ipv6PrefixLen), instant)]
      case _ => es
  }

  /** The instants of the datagrams the limiter has passed. */
  ghost function Passed(cfg: DaemonConfig, t0: real, turns: seq<Turn>): seq<real>
    requires Valid(cfg) && cfg.rateLimit.enabled
  {
    PrivsepProtocol.ValidRateLimit(cfg);
    Runs.FreshIsGood(cfg.rateLimit, t0);
    var es := Arrivals(cfg, turns);
    AdmittedAt(es, Runs.Run(cfg.rateLimit, Limiter.FreshInner(cfg.rateLimit, t0), es).1)
  }

  /** What one turn does to the limiter. */
  lemma IterateLimiter(suite: Suite, cfg: DaemonConfig, s: Loop, t: Turn)
    requires Valid(cfg) && Sound(cfg, s) && cfg.rateLimit.enabled && !s.limiter.poisoned
    ensures s.limiter.inner.tracked.Valid() && s.limiter.inner.tracked.cap >= 1
    ensures var r := Iterate(suite, cfg, s, t);
            if t.Datagram? then
              var key := SourceKeys.FromIp(t.pkt.source, cfg.rateLimit.ipv6PrefixLen);
              var (inner, route) := Limiter.Step(cfg.rateLimit, s.limiter.inner, key, t.instant);
              r.limiter.inner == inner && !r.limiter.poisoned && Admits(cfg, s, t) == route.Outcome().Admit?
            else r.limiter == s.limiter
  {
    hide SourceKeys.FromIp, Limiter.Step, Happen, Valid;
    PrivsepProtocol.ValidRateLimit(cfg);
    Runs.GoodMeansValid(cfg.rateLimit, s.limiter.inner);
  }

  /** The limiter of the loop is the run of its datagrams; an admitted one is the newest passed. */
  lemma {:induction false} LoopLimiter(suite: Suite, cfg: DaemonConfig, store: Store, t0: real, start: nat,
                                       turns: seq<Turn>)
    requires Valid(cfg) && Good(store.mem) && cfg.rateLimit.enabled
    ensures cfg.rateLimit.Valid() && Runs.Inv(cfg.rateLimit, Limiter.FreshInner(cfg.rateLimit, t0))
    ensures var s := LoopRun(suite, cfg, store, t0, start, turns);
            && !s.limiter.poisoned
            && s.limiter.inner
               == Runs.Run(cfg.rateLimit, Limiter.FreshInner(cfg.rateLimit, t0), Arrivals(cfg, turns)).0
    ensures turns != [] ==>
              var init, t := turns[..|turns| - 1], turns[|turns| - 1];
              Passed(cfg, t0, turns)
              == Passed(cfg, t0, init) + if t.Datagram? && Admits(cfg, LoopRun(suite, cfg, store, t0, start, init), t)
                                         then [t.instant] else []
  {
    hide Iterate, Limiter.Step, Valid, SourceKeys.FromIp, Limiter.Route.Outcome, Admits;
    PrivsepProtocol.ValidRateLimit(cfg);
    Runs.FreshIsGood(cfg.rateLimit, t0);
    if turns != [] {
      hide Runs.Inv, Sound;
      var init, t := turns[..|turns| - 1], turns[|turns| - 1];
      LoopLimiter(suite, cfg, store, t0, start, init);
      IterateLimiter(suite, cfg, LoopRun(suite, cfg, store, t0, start, init), t);
      var es := Arrivals(cfg, turns);
      if t.Datagram? {
        assert es[..|es| - 1] == Arrivals(cfg, init);
        Runs.RunLast(cfg.rateLimit, Limiter.FreshInner(cfg.rateLimit, t0), es);
      }
    }
  }

  /**
    The wall clock does not go back; a datagram that passes is inserted at most `delay` seconds after the
    limiter saw it, and the limiter did not see it in the future, to the second.
   */
  ghost predicate PacedTurn(cfg: DaemonConfig, delay: nat, s: Loop, t: Turn)
    requires Valid(cfg) && Sound(cfg, s)
  {
    match t
    case Datagram(_, _, instant, now, insertedAt, _) =>
      Admits(cfg, s, t) ==>
        && SaneClock(now) && s.daemon.clock <= now <= insertedAt
        && (insertedAt - delay) as real <= instant <= insertedAt as real + 1.0
    case PruneTurn(second, _) => s.daemon.clock <= second
  }

  ghost predicate PacedLoop(suite: Suite, cfg: DaemonConfig, store: Store, t0: real, delay: nat, start: nat,
                            turns: seq<Turn>)
    requires Valid(cfg) && Good(store.mem)
  {
    turns != [] ==>
      var init := turns[..|turns| - 1];
      && PacedLoop(suite, cfg, store, t0, delay, start, init)
      && PacedTurn(cfg, delay, LoopRun(suite, cfg, store, t0, start, init), turns[|turns| - 1])
  }

  /** What the induction carries: granted payloads covered, and the cache dated by the datagrams passed. */
  ghost predicate Carried(cfg: DaemonConfig, cap: nat, s: Loop, src: map<Nonce, nat>, ts: seq<real>, delay: nat) {
    && Guarded(SingleProcess, cfg, s.daemon)
    && s.daemon.store.mem.cap == cap
    && Dated(s.daemon.store.mem, src, ts, delay, s.daemon.clock, |ts|)
  }

  /** An admitted datagram, numbered last among those passed. */
  lemma ReceiveCarries(suite: Suite, cfg: DaemonConfig, d: Daemon, src: map<Nonce, nat>, ts: seq<real>, delay: nat,
                       pkt: Packet, now: Bytes.i64, insertedAt: nat, saveOk: bool) returns (src': map<Nonce, nat>)
    requires ts != [] && Dated(d.store.mem, src, ts, delay, d.clock, |ts| - 1) && d.clock <= insertedAt
    requires ts[|ts| - 1] >= (insertedAt - delay) as real
    ensures var r := Happen(SingleProcess, suite, cfg, d, Receive(pkt, now, insertedAt, saveOk));
            Dated(r.store.mem, src', ts, delay, insertedAt, |ts|)
  {
    hide Decide, PayloadOf, CheckAndInsert, Sorted, StemsFrom;
    DecideEffects(SingleProcess, suite, cfg, d.store, pkt, now, insertedAt, saveOk);
    var r := Happen(SingleProcess, suite, cfg, d, Receive(pkt, now, insertedAt, saveOk));
    src' := src;
    if r.store == d.store {
      DatedLater(d.store.mem, src, ts, ts, delay, d.clock, insertedAt, |ts| - 1);
    } else {
      var n := PayloadOf(suite, cfg, pkt).value.nonce;
      src' := SourcesAfter(d.store, src, n, |ts| - 1);
      DatedInsert(d.store, src, ts, delay, d.clock, |ts| - 1, n, insertedAt, saveOk, |ts| - 1);
    }
  }

  lemma AdmittedCarries(suite: Suite, cfg: DaemonConfig, s: Loop, t: Turn, src: map<Nonce, nat>, ts: seq<real>,
                        t0: real, es: seq<Runs.Arrival>, cap: nat, delay: nat) returns (src': map<Nonce, nat>)
    requires Valid(cfg) && Sound(cfg, s) && t.Datagram? && Admits(cfg, s, t) && PacedTurn(cfg, delay, s, t)
    requires Carried(cfg, cap, s, src, ts, delay)
    requires cfg.rateLimit.Valid() && Runs.Inv(cfg.rateLimit, Limiter.FreshInner(cfg.rateLimit, t0))
    requires ts + [t.instant] == AdmittedAt(es, Runs.Run(cfg.rateLimit, Limiter.FreshInner(cfg.rateLimit, t0), es).1)
    requires Runs.Ordered(t0, es) && t0 <= t.instant == Bound.At(t0, es)
    requires cap as real >= Bound.WindowAllowance(cfg.rateLimit, Horizon(cfg, 0, delay))
    ensures Carried(cfg, cap, Iterate(suite, cfg, s, t), src', ts + [t.instant], delay)
  {
    hide Admits, Happen, Valid, Dated, Guarded, Runs.Run, Runs.Inv, Runs.Ordered, Bound.WindowAllowance, AdmittedAt;
    hide CanForget;
    var d, ts' := s.daemon, ts + [t.instant];
    var h := Receive(t.pkt, t.now, t.insertedAt, t.saveOk);
    DatedLater(d.store.mem, src, ts, ts', delay, d.clock, d.clock, |ts|);
    RecentCanForget(SingleProcess, cfg, d.store.mem, src, t0, es, delay, d.clock, |ts|, t.insertedAt);
    ReceiveKeeps(SingleProcess, suite, cfg, d, t.pkt, t.now, t.insertedAt, t.saveOk);
    src' := ReceiveCarries(suite, cfg, d, src, ts', delay, t.pkt, t.now, t.insertedAt, t.saveOk);
    HappenKeepsGood(suite, cfg, d, h);
    ReceiveClock(suite, cfg, d, h);
  }

  lemma ReceiveClock(suite: Suite, cfg: DaemonConfig, d: Daemon, h: Happening)
    requires Good(d.store.mem) && (h.Receive? || h.Tick?)
    ensures Happen(SingleProcess, suite, cfg, d, h).clock == if h.Receive? then h.insertedAt else h.now
  {
    hide Decide, Prune, PayloadOf;
  }

  lemma PruneCarries(suite: Suite, cfg: DaemonConfig, s: Loop, t: Turn, src: map<Nonce, nat>, ts: seq<real>,
                     cap: nat, delay: nat)
    requires Valid(cfg) && Sound(cfg, s) && t.PruneTurn? && PacedTurn(cfg, delay, s, t)
    requires Carried(cfg, cap, s, src, ts, delay)
    requires WholeSeconds(cfg.replayMaxAge) >= MaxAgeSeconds(cfg) + MAX_SKEW
    ensures Carried(cfg, cap, Iterate(suite, cfg, s, t), src, ts, delay)
  {
    hide Valid, Dated, Guarded, Prune, WholeSeconds, MaxAgeSeconds;
    var d := s.daemon;
    TickKeeps(SingleProcess, suite, cfg, d, t.second, t.saveOk);
    DatedPrune(d.store, src, ts, delay, d.clock, |ts|, WholeSeconds(cfg.replayMaxAge), t.second, t.saveOk);
    HappenKeepsGood(suite, cfg, d, Tick(t.second, t.saveOk));
  }

  lemma ArrivalsPrefix(cfg: DaemonConfig, t0: real, turns: seq<Turn>)
    requires turns != [] && Runs.Ordered(t0, Arrivals(cfg, turns))
    ensures Runs.Ordered(t0, Arrivals(cfg, turns[..|turns| - 1]))
    ensures turns[|turns| - 1].Datagram? ==> t0 <= turns[|turns| - 1].instant == Bound.At(t0, Arrivals(cfg, turns))
  {
    hide SourceKeys.FromIp;
    var es, t := Arrivals(cfg, turns), turns[|turns| - 1];
    assert Arrivals(cfg, turns[..|turns| - 1]) <= es;
    if t.Datagram? {
      assert es[|es| - 1].now == t.instant && Bound.At(t0, es) == t.instant;
    }
  }

  lemma TurnCarries(suite: Suite, cfg: DaemonConfig, s: Loop, t: Turn, src: map<Nonce, nat>, ts: seq<real>,
                    t0: real, es: seq<Runs.Arrival>, cap: nat, delay: nat) returns (src': map<Nonce, nat>)
    requires Valid(cfg) && Sound(cfg, s) && PacedTurn(cfg, delay, s, t) && Carried(cfg, cap, s, src, ts, delay)
    requires cfg.rateLimit.Valid() && Runs.Inv(cfg.rateLimit, Limiter.FreshInner(cfg.rateLimit, t0))
    requires Runs.Ordered(t0, es) && (t.Datagram? ==> t0 <= t.instant == Bound.At(t0, es))
    requires cap as real >= Bound.WindowAllowance(cfg.rateLimit, Horizon(cfg, 0, delay))
    requires WholeSeconds(cfg.replayMaxAge) >= MaxAgeSeconds(cfg) + MAX_SKEW
    requires var admitted := t.Datagram? && Admits(cfg, s, t);
             AdmittedAt(es, Runs.Run(cfg.rateLimit, Limiter.FreshInner(cfg.rateLimit, t0), es).1)
             == ts + if admitted then [t.instant] else []
    ensures var ts' := AdmittedAt(es, Runs.Run(cfg.rateLimit, Limiter.FreshInner(cfg.rateLimit, t0), es).1);
            Carried(cfg, cap, Iterate(suite, cfg, s, t), src', ts', delay)
  {
    hide Iterate, Valid, Carried, PacedTurn, Runs.Ordered, Runs.Run, Runs.Inv, Bound.WindowAllowance, AdmittedAt;
    hide MaxAgeSeconds, WholeSeconds;
    src' := src;
    assert ts + [] == ts;
    if t.PruneTurn? {
      PruneCarries(suite, cfg, s, t, src, ts, cap, delay);
    } else if Admits(cfg, s, t) {
      src' := AdmittedCarries(suite, cfg, s, t, src, ts, t0, es, cap, delay);
    } else {
      DroppedCarries(suite, cfg, s, t, src, ts, cap, delay);
    }
  }

  lemma {:induction false} LoopIsCarried(suite: Suite, cfg: DaemonConfig, store: Store, t0: real, delay: nat,
                                         start: nat, turns: seq<Turn>) returns (src: map<Nonce, nat>)
    requires Valid(cfg) && Good(store.mem) && cfg.rateLimit.enabled && cfg.rateLimit.Valid() && store.mem.vals == map[]
    requires PacedLoop(suite, cfg, store, t0, delay, start, turns) && Runs.Ordered(t0, Arrivals(cfg, turns))
    requires store.mem.cap as real >= Bound.WindowAllowance(cfg.rateLimit, Horizon(cfg, 0, delay))
    requires WholeSeconds(cfg.replayMaxAge) >= MaxAgeSeconds(cfg) + MAX_SKEW
    ensures Carried(cfg, store.mem.cap, LoopRun(suite, cfg, store, t0, start, turns), src,
                    Passed(cfg, t0, turns), delay)
  {
    hide Iterate, Valid, Carried, PacedTurn, Passed, Arrivals, Runs.Ordered, Bound.WindowAllowance, Admits, Sound, Good;
    hide MaxAgeSeconds, WholeSeconds, LoopRun, Runs.Inv, Runs.Run, AdmittedAt;
    if turns == [] {
      src := map[];
      StartIsCarried(cfg, store, t0, start, Passed(cfg, t0, turns), delay);
      NoTurns(suite, cfg, store, t0, start);
    } else {
      var init, t := turns[..|turns| - 1], turns[|turns| - 1];
      ArrivalsPrefix(cfg, t0, turns);
      var src0 := LoopIsCarried(suite, cfg, store, t0, delay, start, init);
      var s := LoopRun(suite, cfg, store, t0, start, init);
      LoopLimiter(suite, cfg, store, t0, start, turns);
      LastTurn(suite, cfg, store, t0, start, turns);
      PassedIs(cfg, t0, turns);
      src := TurnCarries(suite, cfg, s, t, src0, Passed(cfg, t0, init), t0, Arrivals(cfg, turns), store.mem.cap, delay);
    }
  }

  lemma NoTurns(suite: Suite, cfg: DaemonConfig, store: Store, t0: real, start: nat)
    requires Valid(cfg) && Good(store.mem)
    ensures LoopRun(suite, cfg, store, t0, start, []) == Start(cfg, store, t0, start)
  {
    hide Valid, Sound;
  }

  lemma LastTurn(suite: Suite, cfg: DaemonConfig, store: Store, t0: real, start: nat, turns: seq<Turn>)
    requires Valid(cfg) && Good(store.mem) && turns != []
    ensures LoopRun(suite, cfg, store, t0, start, turns)
         == Iterate(suite, cfg, LoopRun(suite, cfg, store, t0, start, turns[..|turns| - 1]), turns[|turns| - 1])
  {
    hide Valid, Sound, Iterate;
  }

  lemma PassedIs(cfg: DaemonConfig, t0: real, turns: seq<Turn>)
    requires Valid(cfg) && cfg.rateLimit.enabled
    ensures cfg.rateLimit.Valid() && Runs.Inv(cfg.rateLimit, Limiter.FreshInner(cfg.rateLimit, t0))
    ensures var es := Arrivals(cfg, turns);
            Passed(cfg, t0, turns)
            == AdmittedAt(es, Runs.Run(cfg.rateLimit, Limiter.FreshInner(cfg.rateLimit, t0), es).1)
  {
    hide Arrivals, AdmittedAt, Runs.Run;
    PrivsepProtocol.ValidRateLimit(cfg);
    Runs.FreshIsGood(cfg.rateLimit, t0);
  }

  lemma DroppedCarries(suite: Suite, cfg: DaemonConfig, s: Loop, t: Turn, src: map<Nonce, nat>, ts: seq<real>,
                       cap: nat, delay: nat)
    requires Valid(cfg) && Sound(cfg, s) && t.Datagram? && !Admits(cfg, s, t) && Carried(cfg, cap, s, src, ts, delay)
    ensures Carried(cfg, cap, Iterate(suite, cfg, s, t), src, ts, delay)
  {
    hide Admits, Happen, Valid, Dated, Guarded;
  }

  lemma StartIsCarried(cfg: DaemonConfig, store: Store, t0: real, start: nat, ts: seq<real>, delay: nat)
    requires Good(store.mem) && store.mem.vals == map[]
    ensures Carried(cfg, store.mem.cap, Start(cfg, store, t0, start), map[], ts, delay)
  {
    store.mem.SizeOfOrder();
  }

  /**
    Replay protection of the single process under any flood: with an empty cache to start with whose
    capacity is at least what the limiter admits in the horizon, and nonces kept as long as packets stay
    timely, no payload gets two rules, whatever is sent.
   */
  lemma NoPayloadTwiceUnderFlood(suite: Suite, cfg: DaemonConfig, store: Store, t0: real, delay: nat, start: nat,
                                 turns: seq<Turn>)
    requires Valid(cfg) && Good(store.mem) && cfg.rateLimit.enabled && cfg.rateLimit.Valid() && store.mem.vals == map[]
    requires PacedLoop(suite, cfg, store, t0, delay, start, turns) && Runs.Ordered(t0, Arrivals(cfg, turns))
    requires store.mem.cap as real >= Bound.WindowAllowance(cfg.rateLimit, Horizon(cfg, 0, delay))
    requires WholeSeconds(cfg.replayMaxAge) >= MaxAgeSeconds(cfg) + MAX_SKEW
    ensures var ps := LoopRun(suite, cfg, store, t0, start, turns).daemon.granted;
            forall i, j | 0 <= i < j < |ps| :: ps[i] != ps[j]
  {
    hide LoopRun, PacedLoop, Arrivals, Runs.Ordered, Bound.WindowAllowance, Valid, Dated, Passed;
    var src := LoopIsCarried(suite, cfg, store, t0, delay, start, turns);
  }

  // ----- what the loop does with the datagrams -----

  /** What reaches the daemon: every admitted datagram and every prune, in order. */
  ghost function Events(suite: Suite, cfg: DaemonConfig, store: Store, t0: real, start: nat, turns: seq<Turn>):
    (hs: seq<Happening>)
    requires Valid(cfg) && Good(store.mem)
    ensures forall i | 0 <= i < |hs| :: hs[i].Receive? || hs[i].Tick?
  {
    if turns == [] then []
    else
      var init, t := turns[..|turns| - 1], turns[|turns| - 1];
      var hs := Events(suite, cfg, store, t0, start, init);
      match t
      case Datagram(pkt, _, _, now, insertedAt, saveOk) =>
        if Admits(cfg, LoopRun(suite, cfg, store, t0, start, init), t)
        then hs + [Receive(pkt, now, insertedAt, saveOk)] else hs
      case PruneTurn(second, saveOk) => hs + [Tick(second, saveOk)]
  }

  /** The daemon after these packets and prunes. */
  ghost function DaemonAfter(suite: Suite, cfg: DaemonConfig, d: Daemon, hs: seq<Happening>): (r: Daemon)
    requires Good(d.store.mem) && forall i | 0 <= i < |hs| :: hs[i].Receive? || hs[i].Tick?
    ensures Good(r.store.mem)
  {
    if hs == [] then d
    else
      var before := DaemonAfter(suite, cfg, d, hs[..|hs| - 1]);
      HappenKeepsGood(suite, cfg, before, hs[|hs| - 1]);
      Happen(SingleProcess, suite, cfg, before, hs[|hs| - 1])
  }

  /** The pipeline sees exactly the admitted datagrams and the prunes; without a limiter, every datagram. */
  lemma {:induction false} LoopIsDaemon(suite: Suite, cfg: DaemonConfig, store: Store, t0: real, start: nat,
                                        turns: seq<Turn>)
    requires Valid(cfg) && Good(store.mem)
    ensures LoopRun(suite, cfg, store, t0, start, turns).daemon
         == DaemonAfter(suite, cfg, Daemon(store, start, []), Events(suite, cfg, store, t0, start, turns))
  {
    hide Valid, Sound, Happen, Admits;
    if turns == [] {
      NoTurns(suite, cfg, store, t0, start);
    } else {
      hide LoopRun;
      var init, t := turns[..|turns| - 1], turns[|turns| - 1];
      LoopIsDaemon(suite, cfg, store, t0, start, init);
      LastTurn(suite, cfg, store, t0, start, turns);
      var hs := Events(suite, cfg, store, t0, start, turns);
      assert hs != Events(suite, cfg, store, t0, start, init) ==>
          hs[..|hs| - 1] == Events(suite, cfg, store, t0, start, init);
    }
  }

  /** End to end: an admitted datagram that some stanza allows, with a new nonce that can be saved, gets its rule. */
  lemma AdmittedIsGranted(suite: Suite, cfg: DaemonConfig, s: Loop, t: Turn, i: nat, p: Payload, rule: AccessRule)
    requires Valid(cfg) && Sound(cfg, s) && t.Datagram? && Admits(cfg, s, t) && t.saveOk && SaneClock(t.now)
    requires UniqueNames(cfg.access) && AllowedBy(suite, cfg, t.pkt, t.now, i, p, rule)
    requires p.nonce !in s.daemon.store.mem.vals
    ensures Iterate(suite, cfg, s, t).daemon.granted == s.daemon.granted + [p]
  {
    hide Valid, Admits, Decide, PayloadOf, AllowedBy;
    DecideGrants(SingleProcess, suite, cfg, s.daemon.store, t.pkt, t.now, t.insertedAt, i, p, rule);
  }

  lemma UnlimitedAdmits(cfg: DaemonConfig, s: Loop, t: Turn)
    requires Valid(cfg) && Sound(cfg, s) && t.Datagram? && !cfg.rateLimit.enabled
    ensures Admits(cfg, s, t)
  {}
}
