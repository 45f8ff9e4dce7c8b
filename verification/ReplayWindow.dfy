/**
  The replay window: over any run of packets, prunes, failed saves and crash/reloads, no payload
  gets two rules, provided the cache remembers a nonce at least as long as its packet stays timely.
  One model serves both modes; the lag is how long a validated request may wait for the parent
  (zero in the single process, where nothing happens between the time check and the insertion).
 */
module ReplayWindow {
  import opened Bytes
  import opened Options
  import opened LruCaches
  import opened ReplayCaches
  import opened Wire
  import opened DaemonConfigs
  import opened Authorize
  import opened ReplayCrash

  /** In privsep mode a validated request may wait up to `wait` seconds for the parent. */
  datatype Mode = SingleProcess | Privsep(wait: nat) {
    function Lag(): nat {
      if SingleProcess? then 0 else wait
    }
  }

  /** The store and the rule after one packet, in either mode. */
  function Decide(mode: Mode, suite: Suite, cfg: DaemonConfig, store: Store, pkt: Packet,
                  now: i64, insertedAt: nat, saveOk: bool): (r: (Store, Option<AccessRule>))
    requires Good(store.mem)
  {
    match mode
    case SingleProcess =>
      var o := ProcessPacket(suite, cfg, store, true, pkt, now, insertedAt, saveOk);
      (o.store, o.rule)
    case Privsep(_) => HandleCrypto(cfg, store, true, ValidateCapture(suite, cfg, pkt, now), insertedAt, saveOk)
  }

  datatype Happening =
    | Receive(pkt: Packet, checkedAt: i64, insertedAt: nat, saveOk: bool)
    | Tick(now: nat, saveOk: bool)      // a prune
    | Shutdown(saveOk: bool)           // the save at shutdown
    | Restart(ks: seq<Nonce>)           // crash and reload, between operations or before a save
    | DieAfterSave(pkt: Packet, checkedAt: i64, insertedAt: nat, ks: seq<Nonce>)    // saved, rule never requested

  /** `granted` are the payloads whose rule was requested, `clock` the latest reading of the wall clock. */
  datatype Daemon = Daemon(store: Store, clock: nat, granted: seq<Payload>)

  function PayloadOf(suite: Suite, cfg: DaemonConfig, pkt: Packet): (r: Option<Payload>) {
    var m := MatchPacket(suite, pkt.data, cfg.access);
    if m.Matched? then Some(m.payload) else None
  }

  function Reloaded(store: Store, ks: seq<Nonce>): (r: Store)
    ensures Good(store.mem) ==> Good(r.mem)
  {
    if IsEnumeration(ks, store.disk) then Store(Load(DEFAULT_MAX_ENTRIES, ks, store.disk), store.disk) else store
  }

  function Happen(mode: Mode, suite: Suite, cfg: DaemonConfig, d: Daemon, h: Happening): (r: Daemon)
    requires Good(d.store.mem)
  {
    match h
    case Receive(pkt, checkedAt, insertedAt, saveOk) =>
      var (store, rule) := Decide(mode, suite, cfg, d.store, pkt, checkedAt, insertedAt, saveOk);
      var payload := PayloadOf(suite, cfg, pkt);
      Daemon(store, insertedAt, if rule.Some? && payload.Some? then d.granted + [payload.value] else d.granted)
    case Tick(now, saveOk) =>
      Daemon(Prune(d.store, true, WholeSeconds(cfg.replayMaxAge), now, saveOk).0, now, d.granted)
    case Shutdown(saveOk) => if saveOk then d.(store := d.store.(disk := d.store.mem.vals)) else d
    case Restart(ks) => d.(store := Reloaded(d.store, ks))
    case DieAfterSave(pkt, checkedAt, insertedAt, ks) =>
      var store := Decide(mode, suite, cfg, d.store, pkt, checkedAt, insertedAt, true).0;
      Daemon(Reloaded(store, ks), insertedAt, d.granted)
  }

  /** An insertion at `now` meets a cache with room, or evicts an entry whose packet can no longer be timely. */
  ghost predicate CanForget(mode: Mode, cfg: DaemonConfig, mem: Memory, now: int)
    requires Good(mem)
  {
    |mem.order| == mem.cap ==> mem.vals[mem.order[mem.cap - 1]] + MAX_SKEW + MaxAgeSeconds(cfg) + mode.Lag() < now
  }

  /** The wall clock never goes back, requests wait at most the lag, and evictions only hit entries too old. */
  ghost predicate Calm(mode: Mode, suite: Suite, cfg: DaemonConfig, d: Daemon, h: Happening)
    requires Good(d.store.mem)
  {
    match h
    case Receive(_, checkedAt, insertedAt, _) =>
      && SaneClock(checkedAt)
      && checkedAt <= insertedAt && d.clock <= insertedAt && d.clock <= checkedAt + mode.Lag()
      && CanForget(mode, cfg, d.store.mem, insertedAt)
    case Tick(now, _) => d.clock <= now
    case Shutdown(_) => true
    case Restart(_) => |d.store.disk| <= DEFAULT_MAX_ENTRIES
    case DieAfterSave(pkt, checkedAt, insertedAt, _) =>
      && SaneClock(checkedAt)
      && checkedAt <= insertedAt && d.clock <= insertedAt && d.clock <= checkedAt + mode.Lag()
      && CanForget(mode, cfg, d.store.mem, insertedAt)
      && |Decide(mode, suite, cfg, d.store, pkt, checkedAt, insertedAt, true).0.disk| <= DEFAULT_MAX_ENTRIES
  }

  /** The cache still remembers `p`, or `p` has become too old for every packet still to be handled. */
  ghost predicate Covered(mode: Mode, cfg: DaemonConfig, d: Daemon, p: Payload) {
    || (p.nonce in d.store.mem.vals && p.timestamp <= d.store.mem.vals[p.nonce] + MAX_SKEW)
    || d.clock > p.timestamp + MaxAgeSeconds(cfg) + mode.Lag()
  }

  ghost predicate Guarded(mode: Mode, cfg: DaemonConfig, d: Daemon) {
    && Good(d.store.mem)
    && Submap(d.store.mem.vals, d.store.disk)
    && (forall p | p in d.granted :: Covered(mode, cfg, d, p))
    && Distinct(d.granted)
  }

  /** An insertion forgets nothing, except the oldest entry of a full cache, and stays backed by the file. */
  lemma InsertForgetsLast(s: Store, n: Nonce, now: nat, saveOk: bool)
    requires Good(s.mem) && Submap(s.mem.vals, s.disk)
    ensures var (s', r) := CheckAndInsert(s, true, n, now, saveOk);
            && Good(s'.mem) && Submap(s'.mem.vals, s'.disk)
            && (forall k | k in s.mem.vals && !(|s.mem.order| == s.mem.cap && k == s.mem.order[s.mem.cap - 1]) ::
                  k in s'.mem.vals && s'.mem.vals[k] == s.mem.vals[k])
            && (r.Fresh? ==> n !in s.mem.vals && n in s'.mem.vals && s'.mem.vals[n] == now)
  {
    hide Lru.Push;
  }

  /** In either mode a packet can insert the nonce of its payload, and get a rule if that was fresh and timely. */
  lemma DecideEffects(mode: Mode, suite: Suite, cfg: DaemonConfig, s: Store, pkt: Packet, now: i64, insertedAt: nat,
                      saveOk: bool)
    requires Good(s.mem)
    ensures var (s', rule) := Decide(mode, suite, cfg, s, pkt, now, insertedAt, saveOk);
            var p := PayloadOf(suite, cfg, pkt);
            && (s' == s || (p.Some? && s' == CheckAndInsert(s, true, p.value.nonce, insertedAt, saveOk).0))
            && (rule.Some? ==>
                  && p.Some?
                  && ValidateAgainstClock(p.value.timestamp, now, MaxAgeSeconds(cfg)) == InTime
                  && CheckAndInsert(s, true, p.value.nonce, insertedAt, saveOk) == (s', InsertResult.Fresh))
  {
    hide MatchPacket, FindStanza, ValidateAgainstClock, CheckAndInsert, RuleFor;
  }

  lemma ValidRequestIsComplete(suite: Suite, cfg: DaemonConfig, pkt: Packet, now: i64)
    ensures var m := ValidateCapture(suite, cfg, pkt, now);
            m.ValidRequest? ==> m.payload.message.Access? && FindStanza(cfg.access, m.name).Some?
                                && PayloadOf(suite, cfg, pkt) == Some(m.payload)
  {
    hide MatchPacket, FindStanza, ValidateAgainstClock;
  }

  /** Granted payloads stay covered when memory only grows and time only passes. */
  lemma StaysCovered(mode: Mode, cfg: DaemonConfig, d: Daemon, d': Daemon)
    requires Guarded(mode, cfg, d) && Submap(d.store.mem.vals, d'.store.mem.vals) && d.clock <= d'.clock
    ensures forall p | p in d.granted :: Covered(mode, cfg, d', p)
  {
    forall p | p in d.granted ensures Covered(mode, cfg, d', p) {
      assert Covered(mode, cfg, d, p);
    }
  }

  /** They stay covered across an insertion too: what it may evict is too old to be granted again. */
  lemma InsertCovers(mode: Mode, cfg: DaemonConfig, d: Daemon, n: Nonce, now: nat, saveOk: bool, p: Payload)
    requires Guarded(mode, cfg, d) && d.clock <= now && CanForget(mode, cfg, d.store.mem, now) && p in d.granted
    ensures Covered(mode, cfg, Daemon(CheckAndInsert(d.store, true, n, now, saveOk).0, now, d.granted), p)
  {
    hide CheckAndInsert, MaxAgeSeconds;
    InsertForgetsLast(d.store, n, now, saveOk);
    assert Covered(mode, cfg, d, p);
  }

  lemma CoversAfterDecide(mode: Mode, suite: Suite, cfg: DaemonConfig, d: Daemon,
                          pkt: Packet, now: i64, insertedAt: nat, saveOk: bool)
    requires Guarded(mode, cfg, d) && d.clock <= insertedAt && CanForget(mode, cfg, d.store.mem, insertedAt)
    ensures var store := Decide(mode, suite, cfg, d.store, pkt, now, insertedAt, saveOk).0;
            && Good(store.mem) && Submap(store.mem.vals, store.disk)
            && forall p | p in d.granted :: Covered(mode, cfg, Daemon(store, insertedAt, d.granted), p)
  {
    hide Decide, PayloadOf, CheckAndInsert, CanForget, Covered;
    var store := Decide(mode, suite, cfg, d.store, pkt, now, insertedAt, saveOk).0;
    DecideEffects(mode, suite, cfg, d.store, pkt, now, insertedAt, saveOk);
    if store == d.store {
      StaysCovered(mode, cfg, d, Daemon(store, insertedAt, d.granted));
    } else {
      var n := PayloadOf(suite, cfg, pkt).value.nonce;
      InsertForgetsLast(d.store, n, insertedAt, saveOk);
      forall p | p in d.granted ensures Covered(mode, cfg, Daemon(store, insertedAt, d.granted), p) {
        InsertCovers(mode, cfg, d, n, insertedAt, saveOk, p);
      }
    }
  }

  lemma ReceiveKeeps(mode: Mode, suite: Suite, cfg: DaemonConfig, d: Daemon,
                     pkt: Packet, checkedAt: i64, insertedAt: nat, saveOk: bool)
    requires Guarded(mode, cfg, d) && Calm(mode, suite, cfg, d, Receive(pkt, checkedAt, insertedAt, saveOk))
    ensures Guarded(mode, cfg, Happen(mode, suite, cfg, d, Receive(pkt, checkedAt, insertedAt, saveOk)))
  {
    hide Decide, PayloadOf, CheckAndInsert, ValidateAgainstClock, MaxAgeSeconds;
    var d' := Happen(mode, suite, cfg, d, Receive(pkt, checkedAt, insertedAt, saveOk));
    var p := PayloadOf(suite, cfg, pkt);
    DecideEffects(mode, suite, cfg, d.store, pkt, checkedAt, insertedAt, saveOk);
    CoversAfterDecide(mode, suite, cfg, d, pkt, checkedAt, insertedAt, saveOk);
    if p.Some? {
      InsertForgetsLast(d.store, p.value.nonce, insertedAt, saveOk);
      ClockCheckIsWindow(p.value.timestamp, checkedAt, MaxAgeSeconds(cfg));
    }
    forall x | x in d.granted ensures Covered(mode, cfg, d', x) {
      assert Covered(mode, cfg, Daemon(d'.store, insertedAt, d.granted), x);
    }
    if d'.granted != d.granted {
      assert d'.granted == d.granted + [p.value];
      assert Covered(mode, cfg, d', p.value);
      assert p.value !in d.granted;
    }
  }

  /** A prune forgets a granted payload only once it is too old to be granted again. */
  lemma TickKeeps(mode: Mode, suite: Suite, cfg: DaemonConfig, d: Daemon, now: nat, saveOk: bool)
    requires Guarded(mode, cfg, d) && d.clock <= now
    requires WholeSeconds(cfg.replayMaxAge) >= MaxAgeSeconds(cfg) + MAX_SKEW + mode.Lag()
    ensures Guarded(mode, cfg, Happen(mode, suite, cfg, d, Tick(now, saveOk)))
  {
    hide Expire, MaxAgeSeconds, WholeSeconds;
    var d' := Happen(mode, suite, cfg, d, Tick(now, saveOk));
    ExpireDropsStale(d.store.mem, Cutoff(now, WholeSeconds(cfg.replayMaxAge)));
    forall p | p in d.granted ensures Covered(mode, cfg, d', p) {
      assert Covered(mode, cfg, d, p);
    }
  }

  lemma ReloadKeeps(mode: Mode, cfg: DaemonConfig, d: Daemon, ks: seq<Nonce>)
    requires Guarded(mode, cfg, d) && |d.store.disk| <= DEFAULT_MAX_ENTRIES
    ensures Guarded(mode, cfg, d.(store := Reloaded(d.store, ks)))
  {
    hide Load;
    var d' := d.(store := Reloaded(d.store, ks));
    if IsEnumeration(ks, d.store.disk) {
      EnumerationIsDistinct(ks, d.store.disk);
      LoadWhole(DEFAULT_MAX_ENTRIES, ks, d.store.disk);
    }
    StaysCovered(mode, cfg, d, d');
  }

  lemma {:induction false} EnumerationIsDistinct(ks: seq<Nonce>, disk: Entries)
    requires IsEnumeration(ks, disk)
    ensures Enumerates(ks, disk)
  {
    FullSizeIsDistinct(ks);
    assert forall k :: k in ks <==> k in Elements(ks);
  }

  /** A sequence with as many distinct elements as positions repeats none. */
  lemma {:induction false} FullSizeIsDistinct(ks: seq<Nonce>)
    requires |Elements(ks)| == |ks|
    ensures Distinct(ks)
  {
    if ks != [] {
      var init, k := ks[..|ks| - 1], ks[|ks| - 1];
      ElementsInit(ks);
      AtMostLength(init);
      assert k !in Elements(init);
      FullSizeIsDistinct(init);
      assert ks == init + [k];
    }
  }

  lemma {:induction false} AtMostLength(ks: seq<Nonce>)
    ensures |Elements(ks)| <= |ks|
  {
    if ks != [] {
      ElementsInit(ks);
      AtMostLength(ks[..|ks| - 1]);
    }
  }

  lemma DieAfterSaveKeeps(mode: Mode, suite: Suite, cfg: DaemonConfig, d: Daemon,
                          pkt: Packet, checkedAt: i64, insertedAt: nat, ks: seq<Nonce>)
    requires Guarded(mode, cfg, d) && Calm(mode, suite, cfg, d, DieAfterSave(pkt, checkedAt, insertedAt, ks))
    ensures Guarded(mode, cfg, Happen(mode, suite, cfg, d, DieAfterSave(pkt, checkedAt, insertedAt, ks)))
  {
    hide Decide, Reloaded, CanForget, Covered;
    var store := Decide(mode, suite, cfg, d.store, pkt, checkedAt, insertedAt, true).0;
    CoversAfterDecide(mode, suite, cfg, d, pkt, checkedAt, insertedAt, true);
    ReloadKeeps(mode, cfg, Daemon(store, insertedAt, d.granted), ks);
  }

  lemma ShutdownKeeps(mode: Mode, suite: Suite, cfg: DaemonConfig, d: Daemon, saveOk: bool)
    requires Guarded(mode, cfg, d)
    ensures Guarded(mode, cfg, Happen(mode, suite, cfg, d, Shutdown(saveOk)))
  {
    StaysCovered(mode, cfg, d, Happen(mode, suite, cfg, d, Shutdown(saveOk)));
  }

  lemma HappenKeeps(mode: Mode, suite: Suite, cfg: DaemonConfig, d: Daemon, h: Happening)
    requires Guarded(mode, cfg, d) && Calm(mode, suite, cfg, d, h)
    requires WholeSeconds(cfg.replayMaxAge) >= MaxAgeSeconds(cfg) + MAX_SKEW + mode.Lag()
    ensures Guarded(mode, cfg, Happen(mode, suite, cfg, d, h))
  {
    hide Guarded, Reloaded, Decide, Prune;
    match h
    case Receive(pkt, checkedAt, insertedAt, saveOk) =>
      ReceiveKeeps(mode, suite, cfg, d, pkt, checkedAt, insertedAt, saveOk);
    case Tick(now, saveOk) => TickKeeps(mode, suite, cfg, d, now, saveOk);
    case Shutdown(saveOk) => ShutdownKeeps(mode, suite, cfg, d, saveOk);
    case Restart(ks) => ReloadKeeps(mode, cfg, d, ks);
    case DieAfterSave(pkt, checkedAt, insertedAt, ks) =>
      DieAfterSaveKeeps(mode, suite, cfg, d, pkt, checkedAt, insertedAt, ks);
  }

  /** The daemons a calm run from `d` can reach. */
  ghost predicate Reaches(mode: Mode, suite: Suite, cfg: DaemonConfig, d: Daemon, hs: seq<Happening>, d': Daemon)
    requires Good(d.store.mem)
  {
    if hs == [] then d' == d
    else
      exists m: Daemon ::
        && Reaches(mode, suite, cfg, d, hs[..|hs| - 1], m)
        && Good(m.store.mem)
        && Calm(mode, suite, cfg, m, hs[|hs| - 1])
        && d' == Happen(mode, suite, cfg, m, hs[|hs| - 1])
  }

  ghost predicate AtRest(d: Daemon) {
    Good(d.store.mem) && Submap(d.store.mem.vals, d.store.disk) && d.granted == []
  }

  lemma {:induction false} ReachableIsGuarded(mode: Mode, suite: Suite, cfg: DaemonConfig, d: Daemon,
                                              hs: seq<Happening>, d': Daemon)
    requires AtRest(d) && Reaches(mode, suite, cfg, d, hs, d')
    requires WholeSeconds(cfg.replayMaxAge) >= MaxAgeSeconds(cfg) + MAX_SKEW + mode.Lag()
    ensures Guarded(mode, cfg, d')
  {
    hide Happen, Calm;
    if hs != [] {
      var m: Daemon :| Reaches(mode, suite, cfg, d, hs[..|hs| - 1], m) && Good(m.store.mem)
                       && Calm(mode, suite, cfg, m, hs[|hs| - 1]) && d' == Happen(mode, suite, cfg, m, hs[|hs| - 1]);
      ReachableIsGuarded(mode, suite, cfg, d, hs[..|hs| - 1], m);
      HappenKeeps(mode, suite, cfg, m, hs[|hs| - 1]);
    }
  }

  /**
    Replay window: if the cache keeps nonces at least `max_spa_packet_age + 30` whole seconds (plus
    the lag, in privsep mode), then over any run of packets, prunes, failed saves, shutdowns and
    crash/reloads no payload gets two rules.
   */
  lemma NoPayloadTwice(mode: Mode, suite: Suite, cfg: DaemonConfig, d: Daemon, hs: seq<Happening>, d': Daemon)
    requires AtRest(d) && Reaches(mode, suite, cfg, d, hs, d')
    requires WholeSeconds(cfg.replayMaxAge) >= MaxAgeSeconds(cfg) + MAX_SKEW + mode.Lag()
    ensures forall i, j | 0 <= i < j < |d'.granted| :: d'.granted[i] != d'.granted[j]
  {
    hide Reaches;
    ReachableIsGuarded(mode, suite, cfg, d, hs, d');
  }

  // ----- the window cannot be shorter -----

  /** A packet that some stanza allows now gets its rule when its nonce is not in the cache. */
  lemma DecideGrants(mode: Mode, suite: Suite, cfg: DaemonConfig, s: Store, pkt: Packet, now: i64, insertedAt: nat,
                     i: nat, p: Payload, rule: AccessRule)
    requires Good(s.mem) && UniqueNames(cfg.access) && SaneClock(now)
    requires AllowedBy(suite, cfg, pkt, now, i, p, rule) && p.nonce !in s.mem.vals
    ensures var (s', r) := Decide(mode, suite, cfg, s, pkt, now, insertedAt, true);
            && r.Some? && PayloadOf(suite, cfg, pkt) == Some(p)
            && s' == CheckAndInsert(s, true, p.nonce, insertedAt, true).0
  {
    hide MatchPacket, FindStanza, ParsePacket, MaxAgeSeconds, Lru.Push;
    MatchIsFirstVerified(suite, pkt.data, cfg.access, i, p);
    FindIsUnique(cfg.access, i);
    ValidRequestIsAllowed(suite, cfg, pkt, now);
    ModesOnOnePacket(suite, cfg, s, true, pkt, now, insertedAt, true);
  }

  lemma AllowedLater(suite: Suite, cfg: DaemonConfig, pkt: Packet, now: int, later: int, i: nat, p: Payload,
                     rule: AccessRule)
    requires AllowedBy(suite, cfg, pkt, now, i, p, rule) && InWindow(cfg, p.timestamp, later)
    ensures AllowedBy(suite, cfg, pkt, later, i, p, rule)
  {}

  /** A cache holding one entry, and the same cache after a prune at which that entry is stale. */
  lemma OneEntryExpires(cap: nat, n: Nonce, t: nat, maxAge: nat)
    requires cap >= 1
    ensures var empty: Store := Store(Lru(cap, [], map[]), map[]);
            var one := CheckAndInsert(empty, true, n, t, true).0;
            var pruned := Prune(one, true, maxAge, t + maxAge + 1, true).0;
            && Good(one.mem) && one.mem.vals == map[n := t] && |one.mem.order| == 1
            && Good(pruned.mem) && pruned.mem.cap == cap && pruned.mem.vals == map[] && |pruned.mem.order| == 0
  {
    hide Expire;
    var empty: Store := Store(Lru(cap, [], map[]), map[]);
    var one := CheckAndInsert(empty, true, n, t, true).0;
    var cutoff := Cutoff(t + maxAge + 1, maxAge);
    ExpireDropsStale(one.mem, cutoff);
    var mem := Expire(one.mem, cutoff);
    mem.SizeOfOrder();
  }

  /**
    The bound is tight. Whenever the cache is kept for less than that, any payload that some stanza
    allows can be granted twice: when it is as far in the future as the skew permits, and again
    after the first prune that forgets it.
   */
  lemma WindowIsTight(mode: Mode, suite: Suite, cfg: DaemonConfig, cap: nat, pkt: Packet,
                      i: nat, p: Payload, rule: AccessRule)
    requires cap >= 1 && UniqueNames(cfg.access) && p.timestamp >= MAX_SKEW
    requires WholeSeconds(cfg.replayMaxAge) < MaxAgeSeconds(cfg) + MAX_SKEW + mode.Lag()
    requires SaneClock(p.timestamp + WholeSeconds(cfg.replayMaxAge) + 1)
    requires AllowedBy(suite, cfg, pkt, p.timestamp - MAX_SKEW, i, p, rule)
    ensures var t := p.timestamp - MAX_SKEW;
            var d := Daemon(Store(Lru(cap, [], map[]), map[]), t, []);
            AtRest(d) && exists hs, d' :: Reaches(mode, suite, cfg, d, hs, d') && d'.granted == [p, p]
  {
    hide Happen, Calm, Reaches, Prune, CheckAndInsert, AllowedBy, MaxAgeSeconds, WholeSeconds, InWindow;
    var R := WholeSeconds(cfg.replayMaxAge);
    var t := p.timestamp - MAX_SKEW;
    var t2 := t + R + 1;
    var v2 := if R + 1 >= mode.Lag() then t2 - mode.Lag() else t;
    var d := Daemon(Store(Lru(cap, [], map[]), map[]), t, []);
    OneEntryExpires(cap, p.nonce, t, R);
    WindowIsConfigured(cfg, p.timestamp, v2);
    AllowedLater(suite, cfg, pkt, t, v2, i, p, rule);
    GrantStep(mode, suite, cfg, d, pkt, t, t, i, p, rule);
    var d1 := Happen(mode, suite, cfg, d, Receive(pkt, t, t, true));
    TickStep(mode, suite, cfg, d1, t2);
    var d2 := Happen(mode, suite, cfg, d1, Tick(t2, true));
    GrantStep(mode, suite, cfg, d2, pkt, v2, t2, i, p, rule);
    var d3 := Happen(mode, suite, cfg, d2, Receive(pkt, v2, t2, true));
    assert d3.granted == [p, p];
    var hs := ReachesThree(mode, suite, cfg, d, Receive(pkt, t, t, true), d1, Tick(t2, true), d2,
                           Receive(pkt, v2, t2, true));
  }

  lemma GrantStep(mode: Mode, suite: Suite, cfg: DaemonConfig, d: Daemon, pkt: Packet, now: i64, insertedAt: nat,
                  i: nat, p: Payload, rule: AccessRule)
    requires Good(d.store.mem) && UniqueNames(cfg.access) && SaneClock(now)
    requires AllowedBy(suite, cfg, pkt, now, i, p, rule) && p.nonce !in d.store.mem.vals
    requires now <= insertedAt && d.clock <= insertedAt && d.clock <= now + mode.Lag()
    requires |d.store.mem.order| < d.store.mem.cap
    ensures Calm(mode, suite, cfg, d, Receive(pkt, now, insertedAt, true))
    ensures Happen(mode, suite, cfg, d, Receive(pkt, now, insertedAt, true))
         == Daemon(CheckAndInsert(d.store, true, p.nonce, insertedAt, true).0, insertedAt, d.granted + [p])
  {
    hide Decide, CheckAndInsert, PayloadOf, AllowedBy;
    DecideGrants(mode, suite, cfg, d.store, pkt, now, insertedAt, i, p, rule);
  }

  lemma TickStep(mode: Mode, suite: Suite, cfg: DaemonConfig, d: Daemon, now: nat)
    requires Good(d.store.mem) && d.clock <= now
    ensures Calm(mode, suite, cfg, d, Tick(now, true))
    ensures Happen(mode, suite, cfg, d, Tick(now, true))
         == Daemon(Prune(d.store, true, WholeSeconds(cfg.replayMaxAge), now, true).0, now, d.granted)
  {
    hide Prune;
  }

  lemma ReachesThree(mode: Mode, suite: Suite, cfg: DaemonConfig, d: Daemon, h1: Happening, d1: Daemon,
                     h2: Happening, d2: Daemon, h3: Happening) returns (hs: seq<Happening>)
    requires Good(d.store.mem) && Calm(mode, suite, cfg, d, h1) && d1 == Happen(mode, suite, cfg, d, h1)
    requires Good(d1.store.mem) && Calm(mode, suite, cfg, d1, h2) && d2 == Happen(mode, suite, cfg, d1, h2)
    requires Good(d2.store.mem) && Calm(mode, suite, cfg, d2, h3)
    ensures Reaches(mode, suite, cfg, d, hs, Happen(mode, suite, cfg, d2, h3))
  {
    hide Happen, Calm;
    ReachesStep(mode, suite, cfg, d, [], d, h1);
    ReachesStep(mode, suite, cfg, d, [] + [h1], d1, h2);
    ReachesStep(mode, suite, cfg, d, [] + [h1] + [h2], d2, h3);
    hs := [] + [h1] + [h2] + [h3];
  }

  lemma ReachesStep(mode: Mode, suite: Suite, cfg: DaemonConfig, d: Daemon, hs: seq<Happening>, m: Daemon, h: Happening)
    requires Good(d.store.mem) && Reaches(mode, suite, cfg, d, hs, m)
    requires Good(m.store.mem) && Calm(mode, suite, cfg, m, h)
    ensures Reaches(mode, suite, cfg, d, hs + [h], Happen(mode, suite, cfg, m, h))
  {
    hide Happen, Calm;
    assert (hs + [h])[..|hs|] == hs;
  }

  /**
    The condition on evictions is needed too. Whenever the entry at the end of a full cache belongs to a
    payload that is still allowed, one other allowed packet evicts it, and the payload is granted again.
   */
  lemma EvictionIsFatal(mode: Mode, suite: Suite, cfg: DaemonConfig, d: Daemon,
                        a: Packet, i: nat, p: Payload, rule: AccessRule, nowA: i64, insertedA: nat,
                        b: Packet, j: nat, q: Payload, other: AccessRule, nowB: i64, insertedB: nat)
    requires Good(d.store.mem) && UniqueNames(cfg.access) && SaneClock(nowA) && SaneClock(nowB)
    requires AllowedBy(suite, cfg, a, nowA, i, p, rule) && AllowedBy(suite, cfg, b, nowB, j, q, other)
    requires |d.store.mem.order| == d.store.mem.cap && d.store.mem.order[d.store.mem.cap - 1] == p.nonce
    requires q.nonce !in d.store.mem.vals
    ensures var d1 := Happen(mode, suite, cfg, d, Receive(b, nowB, insertedB, true));
            && Good(d1.store.mem)
            && Happen(mode, suite, cfg, d1, Receive(a, nowA, insertedA, true)).granted == d.granted + [q, p]
  {
    hide Decide, AllowedBy, PayloadOf, Lru.Push;
    DecideGrants(mode, suite, cfg, d.store, b, nowB, insertedB, j, q, other);
    var s1 := CheckAndInsert(d.store, true, q.nonce, insertedB, true).0;
    assert p.nonce in d.store.mem.vals && p.nonce !in s1.mem.vals;
    DecideGrants(mode, suite, cfg, s1, a, nowA, insertedA, i, p, rule);
  }

  // ----- restarts -----

  /** A restart remembers exactly the file, as long as it has at most 10,000 entries, and requests nothing. */
  lemma RestartRecalls(mode: Mode, suite: Suite, cfg: DaemonConfig, d: Daemon, ks: seq<Nonce>)
    requires Good(d.store.mem) && IsEnumeration(ks, d.store.disk) && |d.store.disk| <= 10_000
    ensures var r := Happen(mode, suite, cfg, d, Restart(ks));
            r.store.mem.vals == d.store.disk == r.store.disk && r.granted == d.granted && r.clock == d.clock
  {
    hide Load;
    EnumerationIsDistinct(ks, d.store.disk);
    LoadWhole(DEFAULT_MAX_ENTRIES, ks, d.store.disk);
  }

  /** Nothing is forgotten across an orderly shutdown and restart. */
  lemma ShutdownThenRestart(mode: Mode, suite: Suite, cfg: DaemonConfig, d: Daemon, ks: seq<Nonce>)
    requires Good(d.store.mem) && IsEnumeration(ks, d.store.mem.vals) && |d.store.mem.vals| <= 10_000
    ensures var down := Happen(mode, suite, cfg, d, Shutdown(true));
            && Good(down.store.mem)
            && Happen(mode, suite, cfg, down, Restart(ks)).store.mem.vals == d.store.mem.vals
  {
    hide Reloaded;
    RestartRecalls(mode, suite, cfg, Happen(mode, suite, cfg, d, Shutdown(true)), ks);
  }

  /** Death between the save and the rule request loses the request: the nonce is spent all the same. */
  lemma DeathSpendsNonce(mode: Mode, suite: Suite, cfg: DaemonConfig, d: Daemon, pkt: Packet, now: i64,
                         insertedAt: nat, ks: seq<Nonce>, i: nat, p: Payload, rule: AccessRule)
    requires Good(d.store.mem) && UniqueNames(cfg.access) && SaneClock(now) && p.nonce !in d.store.mem.vals
    requires AllowedBy(suite, cfg, pkt, now, i, p, rule)
    requires var saved := CheckAndInsert(d.store, true, p.nonce, insertedAt, true).0.disk;
             IsEnumeration(ks, saved) && |saved| <= 10_000
    ensures var r := Happen(mode, suite, cfg, d, DieAfterSave(pkt, now, insertedAt, ks));
            r.granted == d.granted && p.nonce in r.store.mem.vals && r.store.mem.vals[p.nonce] == insertedAt
  {
    hide Decide, CheckAndInsert, Load, AllowedBy, PayloadOf;
    DecideGrants(mode, suite, cfg, d.store, pkt, now, insertedAt, i, p, rule);
    FileAfterInsert(d.store, true, p.nonce, insertedAt, true);
    var saved := CheckAndInsert(d.store, true, p.nonce, insertedAt, true).0.disk;
    EnumerationIsDistinct(ks, saved);
    LoadWhole(DEFAULT_MAX_ENTRIES, ks, saved);
  }
}
