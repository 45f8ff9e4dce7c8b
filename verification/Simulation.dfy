/**
  The two modes side by side, fed the same packets and clock readings: how the split daemon
  simulates the single process although the two consult the replay cache at different points.
 */
module Simulation {
  import opened Bytes
  import opened Options
  import opened LruCaches
  import opened ReplayCaches
  import opened Wire
  import opened DaemonConfigs
  import opened Authorize
  import opened ReplayWindow

  /** One packet with the clock readings of its time check and of its insertion. */
  datatype Reading = Reading(pkt: Packet, now: i64, insertedAt: nat)

  /** The store after the packets `rs`, with every save succeeding, and what each of them requested. */
  function Requests(mode: Mode, suite: Suite, cfg: DaemonConfig, s: Store, rs: seq<Reading>):
    (r: (Store, seq<Option<AccessRule>>))
    requires Good(s.mem)
    ensures Good(r.0.mem) && r.0.mem.cap == s.mem.cap && |r.1| == |rs|
  {
    if rs == [] then (s, [])
    else
      var (before, rules) := Requests(mode, suite, cfg, s, rs[..|rs| - 1]);
      var x := rs[|rs| - 1];
      DecideKeepsGood(mode, suite, cfg, before, x);
      var (after, rule) := Decide(mode, suite, cfg, before, x.pkt, x.now, x.insertedAt, true);
      (after, rules + [rule])
  }

  lemma DecideKeepsGood(mode: Mode, suite: Suite, cfg: DaemonConfig, s: Store, x: Reading)
    requires Good(s.mem)
    ensures var s' := Decide(mode, suite, cfg, s, x.pkt, x.now, x.insertedAt, true).0;
            Good(s'.mem) && s'.mem.cap == s.mem.cap
  {
    hide Decide, PayloadOf, Lru.Push;
    DecideEffects(mode, suite, cfg, s, x.pkt, x.now, x.insertedAt, true);
  }

  /** With room and a working disk, an insertion is fresh exactly for a new nonce, and adds just that nonce. */
  lemma InsertAddsNonce(s: Store, n: Nonce, now: nat)
    requires Good(s.mem) && |s.mem.order| < s.mem.cap
    ensures var (s', r) := CheckAndInsert(s, true, n, now, true);
            && (r.Fresh? <==> n !in s.mem.vals) && !r.PersistFailed?
            && s'.mem.vals.Keys == s.mem.vals.Keys + {n}
            && |s'.mem.order| <= |s.mem.order| + 1
  {}

  // ----- which packets spend a nonce -----

  /** The crypto worker forwards `x`, with nonce `n`: the parent spends `n`, and so does the pipeline. */
  ghost predicate Forwarded(suite: Suite, cfg: DaemonConfig, x: Reading, n: Nonce) {
    var m := ValidateCapture(suite, cfg, x.pkt, x.now);
    m.ValidRequest? && m.payload.nonce == n
  }

  /** `x` is verified and in time, with nonce `n`, but its stanza's policy refuses it: only the pipeline spends `n`. */
  ghost predicate Wasted(suite: Suite, cfg: DaemonConfig, x: Reading, n: Nonce) {
    var m := MatchPacket(suite, x.pkt.data, cfg.access);
    && m.Matched? && m.payload.nonce == n
    && ValidateAgainstClock(m.payload.timestamp, x.now, MaxAgeSeconds(cfg)) == InTime
    && var stanza := FindStanza(cfg.access, m.name);
       stanza.Some? && PolicyRefusal(stanza.value, m.payload, x.pkt.source).Some?
  }

  ghost predicate Spends(mode: Mode, suite: Suite, cfg: DaemonConfig, x: Reading, n: Nonce) {
    Forwarded(suite, cfg, x, n) || (mode.SingleProcess? && Wasted(suite, cfg, x, n))
  }

  lemma {:induction false} FoundByName(stanzas: seq<AccessStanza>, i: nat)
    requires i < |stanzas|
    ensures FindStanza(stanzas, stanzas[i].name).Some?
  {
    if i > 0 { FoundByName(stanzas[1..], i - 1); }
  }

  /** With room, one packet adds to the cache exactly the nonce it spends in that mode. */
  lemma StepSpends(mode: Mode, suite: Suite, cfg: DaemonConfig, s: Store, x: Reading)
    requires Good(s.mem) && |s.mem.order| < s.mem.cap
    ensures var s' := Decide(mode, suite, cfg, s, x.pkt, x.now, x.insertedAt, true).0;
            && |s'.mem.order| <= |s.mem.order| + 1
            && forall n :: n in s'.mem.vals <==> n in s.mem.vals || Spends(mode, suite, cfg, x, n)
  {
    hide Decide, Spends, Good;
    if mode.SingleProcess? {
      PipelineSpends(suite, cfg, s, x);
    } else {
      ParentSpends(mode, suite, cfg, s, x);
    }
  }

  lemma PipelineSpends(suite: Suite, cfg: DaemonConfig, s: Store, x: Reading)
    requires Good(s.mem) && |s.mem.order| < s.mem.cap
    ensures var s' := Decide(SingleProcess, suite, cfg, s, x.pkt, x.now, x.insertedAt, true).0;
            && |s'.mem.order| <= |s.mem.order| + 1
            && forall n :: n in s'.mem.vals <==> n in s.mem.vals || Spends(SingleProcess, suite, cfg, x, n)
  {
    hide MatchPacket, Decide, ValidateAgainstClock, CheckAndInsert, Good, MaxAgeSeconds, Spends;
    var m := MatchPacket(suite, x.pkt.data, cfg.access);
    PipelineStore(suite, cfg, s, x);
    forall n
      ensures Spends(SingleProcess, suite, cfg, x, n) <==>
                && m.Matched? && m.payload.nonce == n
                && ValidateAgainstClock(m.payload.timestamp, x.now, MaxAgeSeconds(cfg)) == InTime
    {
      PipelineSpendsNonce(suite, cfg, x, n);
    }
    if m.Matched? { InsertAddsNonce(s, m.payload.nonce, x.insertedAt); }
  }

  lemma MatchedIsFound(suite: Suite, cfg: DaemonConfig, pkt: Packet)
    ensures var m := MatchPacket(suite, pkt.data, cfg.access);
            m.Matched? ==> FindStanza(cfg.access, m.name).Some?
  {
    hide MatchPacket, FindStanza;
    if MatchPacket(suite, pkt.data, cfg.access).Matched? {
      var i := MatchedIndex(suite, pkt.data, cfg.access);
      FoundByName(cfg.access, i);
    }
  }

  lemma PipelineStore(suite: Suite, cfg: DaemonConfig, s: Store, x: Reading)
    requires Good(s.mem)
    ensures var m := MatchPacket(suite, x.pkt.data, cfg.access);
            Decide(SingleProcess, suite, cfg, s, x.pkt, x.now, x.insertedAt, true).0
            == if m.Matched? && ValidateAgainstClock(m.payload.timestamp, x.now, MaxAgeSeconds(cfg)) == InTime
               then CheckAndInsert(s, true, m.payload.nonce, x.insertedAt, true).0 else s
  {
    hide MatchPacket, FindStanza, ValidateAgainstClock, CheckAndInsert, RuleFor, PolicyRefusal, Good, MaxAgeSeconds;
    MatchedIsFound(suite, cfg, x.pkt);
  }

  lemma PipelineSpendsNonce(suite: Suite, cfg: DaemonConfig, x: Reading, n: Nonce)
    ensures var m := MatchPacket(suite, x.pkt.data, cfg.access);
            Spends(SingleProcess, suite, cfg, x, n) <==>
              && m.Matched? && m.payload.nonce == n
              && ValidateAgainstClock(m.payload.timestamp, x.now, MaxAgeSeconds(cfg)) == InTime
  {
    hide MatchPacket, FindStanza, ValidateAgainstClock, PolicyRefusal, MaxAgeSeconds;
    MatchedIsFound(suite, cfg, x.pkt);
  }

  lemma ParentSpends(mode: Mode, suite: Suite, cfg: DaemonConfig, s: Store, x: Reading)
    requires Good(s.mem) && |s.mem.order| < s.mem.cap && mode.Privsep?
    ensures var s' := Decide(mode, suite, cfg, s, x.pkt, x.now, x.insertedAt, true).0;
            && |s'.mem.order| <= |s.mem.order| + 1
            && forall n :: n in s'.mem.vals <==> n in s.mem.vals || Spends(mode, suite, cfg, x, n)
  {
    hide ValidateCapture, FindStanza, CheckAndInsert, RuleFor, Good;
    var m := ValidateCapture(suite, cfg, x.pkt, x.now);
    if m.ValidRequest? { InsertAddsNonce(s, m.payload.nonce, x.insertedAt); }
  }

  /** Over a run, the cache holds what it held before and the nonces spent on the way, and nothing else. */
  lemma {:induction false} CacheIsSpent(mode: Mode, suite: Suite, cfg: DaemonConfig, s: Store, rs: seq<Reading>,
                                        n: Nonce)
    requires Good(s.mem) && |s.mem.order| + |rs| <= s.mem.cap
    ensures var s' := Requests(mode, suite, cfg, s, rs).0;
            && |s'.mem.order| <= |s.mem.order| + |rs|
            && (n in s'.mem.vals <==>
                  n in s.mem.vals || exists j | 0 <= j < |rs| :: Spends(mode, suite, cfg, rs[j], n))
  {
    hide Decide, Spends;
    if rs != [] {
      var init, x := rs[..|rs| - 1], rs[|rs| - 1];
      CacheIsSpent(mode, suite, cfg, s, init, n);
      StepSpends(mode, suite, cfg, Requests(mode, suite, cfg, s, init).0, x);
      assert forall j | 0 <= j < |init| :: init[j] == rs[j];
      if j :| 0 <= j < |rs| && Spends(mode, suite, cfg, rs[j], n) {
        assert j < |init| ==> Spends(mode, suite, cfg, init[j], n);
      }
    }
  }

  // ----- the two modes -----

  /**
    One packet in both modes, on caches `p` of the pipeline and `q` of the parent. A rule the pipeline
    requests is requested identically by the parent; and the requests differ exactly when a forwarded
    nonce is in `p` but not in `q`.
   */
  lemma {:induction false} ModesStep(suite: Suite, cfg: DaemonConfig, p: Store, q: Store, wait: nat, x: Reading)
    requires Good(p.mem) && Good(q.mem) && q.mem.vals.Keys <= p.mem.vals.Keys
    requires |p.mem.order| < p.mem.cap && |q.mem.order| < q.mem.cap
    ensures var (p', single) := Decide(SingleProcess, suite, cfg, p, x.pkt, x.now, x.insertedAt, true);
            var (q', split) := Decide(Privsep(wait), suite, cfg, q, x.pkt, x.now, x.insertedAt, true);
            && q'.mem.vals.Keys <= p'.mem.vals.Keys
            && (single.Some? ==> split == single)
            && (split != single <==>
                  exists n :: Forwarded(suite, cfg, x, n) && n in p.mem.vals && n !in q.mem.vals)
  {
    hide MatchPacket, FindStanza, ValidateAgainstClock, CheckAndInsert, RuleFor, PolicyRefusal;
    ModesOnOnePacket(suite, cfg, p, true, x.pkt, x.now, x.insertedAt, true);
    var m := ValidateCapture(suite, cfg, x.pkt, x.now);
    ValidRequestIsComplete(suite, cfg, x.pkt, x.now);
    StepSpends(SingleProcess, suite, cfg, p, x);
    StepSpends(Privsep(wait), suite, cfg, q, x);
    var payload := PayloadOf(suite, cfg, x.pkt);
    if payload.Some? {
      InsertAddsNonce(p, payload.value.nonce, x.insertedAt);
      InsertAddsNonce(q, payload.value.nonce, x.insertedAt);
    }
    if m.ValidRequest? { assert Forwarded(suite, cfg, x, m.payload.nonce); }
  }

  /**
    Packet `i` is forwarded and its nonce is new to the parent: not in its starting cache, and not
    forwarded before. But the pipeline has spent it: it was in its starting cache, or an earlier packet
    carried it that was verified and in time and that policy refused.
   */
  ghost predicate Spent(suite: Suite, cfg: DaemonConfig, p: Store, q: Store, rs: seq<Reading>, i: nat)
    requires i < |rs|
  {
    exists n ::
      && Forwarded(suite, cfg, rs[i], n)
      && n !in q.mem.vals && (forall j | 0 <= j < i :: !Forwarded(suite, cfg, rs[j], n))
      && (n in p.mem.vals || exists j | 0 <= j < i :: Wasted(suite, cfg, rs[j], n))
  }

  /**
    Mode simulation. With room for every packet, every rule the single process requests is requested
    identically by the split daemon at the same packet; and at each packet the requests differ exactly
    when it is `Spent`.
   */
  lemma {:induction false} SplitSimulatesSingle(suite: Suite, cfg: DaemonConfig, p: Store, q: Store, wait: nat,
                                                rs: seq<Reading>)
    requires Good(p.mem) && Good(q.mem) && q.mem.vals.Keys <= p.mem.vals.Keys
    requires |p.mem.order| + |rs| <= p.mem.cap && |q.mem.order| + |rs| <= q.mem.cap
    ensures var (p', single) := Requests(SingleProcess, suite, cfg, p, rs);
            var (q', split) := Requests(Privsep(wait), suite, cfg, q, rs);
            && q'.mem.vals.Keys <= p'.mem.vals.Keys
            && (forall i | 0 <= i < |rs| && single[i].Some? :: split[i] == single[i])
            && forall i | 0 <= i < |rs| :: split[i] != single[i] <==> Spent(suite, cfg, p, q, rs, i)
  {
    hide Decide, Forwarded, Wasted;
    if rs != [] {
      var init, x := rs[..|rs| - 1], rs[|rs| - 1];
      SplitSimulatesSingle(suite, cfg, p, q, wait, init);
      var p0, q0 := Requests(SingleProcess, suite, cfg, p, init).0, Requests(Privsep(wait), suite, cfg, q, init).0;
      SpentIsCached(suite, cfg, p, q, wait, rs);
      ModesStep(suite, cfg, p0, q0, wait, x);
      forall i | 0 <= i < |init| ensures Spent(suite, cfg, p, q, rs, i) <==> Spent(suite, cfg, p, q, init, i) {
        SpentPrefix(suite, cfg, p, q, rs, i);
      }
    }
  }

  /** The last packet of `rs` is spent exactly when the two caches before it disagree on its nonce. */
  lemma SpentIsCached(suite: Suite, cfg: DaemonConfig, p: Store, q: Store, wait: nat, rs: seq<Reading>)
    requires Good(p.mem) && Good(q.mem) && rs != []
    requires |p.mem.order| + |rs| <= p.mem.cap && |q.mem.order| + |rs| <= q.mem.cap
    ensures var init, i := rs[..|rs| - 1], |rs| - 1;
            var p0 := Requests(SingleProcess, suite, cfg, p, init).0;
            var q0 := Requests(Privsep(wait), suite, cfg, q, init).0;
            && |p0.mem.order| < p0.mem.cap && |q0.mem.order| < q0.mem.cap
            && (Spent(suite, cfg, p, q, rs, i) <==>
                  exists n :: Forwarded(suite, cfg, rs[i], n) && n in p0.mem.vals && n !in q0.mem.vals)
  {
    hide Requests, Forwarded, Wasted, Good;
    var init, i := rs[..|rs| - 1], |rs| - 1;
    var p0, q0 := Requests(SingleProcess, suite, cfg, p, init).0, Requests(Privsep(wait), suite, cfg, q, init).0;
    forall n
      ensures n in p0.mem.vals && n !in q0.mem.vals <==>
                && n !in q.mem.vals && (forall j | 0 <= j < i :: !Forwarded(suite, cfg, rs[j], n))
                && (n in p.mem.vals || exists j | 0 <= j < i :: Wasted(suite, cfg, rs[j], n))
    {
      CachesOnNonce(suite, cfg, p, q, wait, rs, n);
    }
    CacheIsSpent(SingleProcess, suite, cfg, p, init, seq(16, _ => 0));
    CacheIsSpent(Privsep(wait), suite, cfg, q, init, seq(16, _ => 0));
  }

  lemma CachesOnNonce(suite: Suite, cfg: DaemonConfig, p: Store, q: Store, wait: nat, rs: seq<Reading>, n: Nonce)
    requires Good(p.mem) && Good(q.mem) && rs != []
    requires |p.mem.order| + |rs| <= p.mem.cap && |q.mem.order| + |rs| <= q.mem.cap
    ensures var init, i := rs[..|rs| - 1], |rs| - 1;
            var p0 := Requests(SingleProcess, suite, cfg, p, init).0;
            var q0 := Requests(Privsep(wait), suite, cfg, q, init).0;
            n in p0.mem.vals && n !in q0.mem.vals <==>
              && n !in q.mem.vals && (forall j | 0 <= j < i :: !Forwarded(suite, cfg, rs[j], n))
              && (n in p.mem.vals || exists j | 0 <= j < i :: Wasted(suite, cfg, rs[j], n))
  {
    hide Requests, Forwarded, Wasted, Good;
    var init := rs[..|rs| - 1];
    CacheIsSpent(SingleProcess, suite, cfg, p, init, n);
    CacheIsSpent(Privsep(wait), suite, cfg, q, init, n);
    assert forall j | 0 <= j < |init| :: init[j] == rs[j];
  }

  lemma SpentPrefix(suite: Suite, cfg: DaemonConfig, p: Store, q: Store, rs: seq<Reading>, i: nat)
    requires i < |rs| - 1
    ensures Spent(suite, cfg, p, q, rs, i) <==> Spent(suite, cfg, p, q, rs[..|rs| - 1], i)
  {
    hide Forwarded, Wasted;
    assert forall j | 0 <= j <= i :: rs[..|rs| - 1][j] == rs[j];
  }

  /**
    From one shared cache the modes differ at packet `i` exactly when it is forwarded, its nonce was
    neither in that cache nor forwarded before, and an earlier packet wasted it: one that carried the
    same nonce, was verified and in time, and was refused by policy.
   */
  lemma ModesDifferExactly(suite: Suite, cfg: DaemonConfig, s: Store, wait: nat, rs: seq<Reading>, i: nat)
    requires Good(s.mem) && |s.mem.order| + |rs| <= s.mem.cap && i < |rs|
    ensures Requests(Privsep(wait), suite, cfg, s, rs).1[i] != Requests(SingleProcess, suite, cfg, s, rs).1[i] <==>
              exists n ::
                && Forwarded(suite, cfg, rs[i], n) && n !in s.mem.vals
                && (forall j | 0 <= j < i :: !Forwarded(suite, cfg, rs[j], n))
                && exists j | 0 <= j < i :: Wasted(suite, cfg, rs[j], n)
  {
    hide Requests, Forwarded, Wasted;
    SplitSimulatesSingle(suite, cfg, s, s, wait, rs);
  }

  /**
    Such runs exist. For every packet that a stanza allows, and every source which that stanza does not
    list, let the same bytes first come from that source: then only the split daemon requests the rule.
   */
  lemma ModesDiffer(suite: Suite, cfg: DaemonConfig, s: Store, wait: nat, x: Reading, earlier: nat, other: IpAddr,
                    i: nat, p: Payload, rule: AccessRule)
    requires Good(s.mem) && |s.mem.order| + 2 <= s.mem.cap && UniqueNames(cfg.access) && SaneClock(x.now)
    requires AllowedBy(suite, cfg, x.pkt, x.now, i, p, rule) && p.nonce !in s.mem.vals
    requires forall k | 0 <= k < |cfg.access[i].source| :: !cfg.access[i].source[k].Matches(other)
    ensures var rs := [Reading(Packet(other, x.pkt.data), x.now, earlier), x];
            && Requests(SingleProcess, suite, cfg, s, rs).1 == [None, None]
            && Requests(Privsep(wait), suite, cfg, s, rs).1 == [None, Some(rule)]
  {
    hide Requests, Decide, Forwarded, Wasted, AllowedBy, MatchPacket, FindStanza, ValidateAgainstClock;
    var first := Reading(Packet(other, x.pkt.data), x.now, earlier);
    var rs := [first, x];
    UnlistedIsWasted(suite, cfg, x, earlier, other, i, p, rule);
    AllowedIsForwarded(suite, cfg, s, wait, x, i, p, rule);
    WastedGetsNothing(SingleProcess, suite, cfg, s, first, p.nonce);
    WastedGetsNothing(Privsep(wait), suite, cfg, s, first, p.nonce);
    TwoRequests(SingleProcess, suite, cfg, s, first, x);
    TwoRequests(Privsep(wait), suite, cfg, s, first, x);
    SplitSimulatesSingle(suite, cfg, s, s, wait, rs);
    assert Spent(suite, cfg, s, s, rs, 1) by {
      assert Wasted(suite, cfg, rs[0], p.nonce) && Forwarded(suite, cfg, rs[1], p.nonce);
    }
  }

  /** The bytes of an allowed packet, sent from a source its stanza does not list. */
  lemma UnlistedIsWasted(suite: Suite, cfg: DaemonConfig, x: Reading, earlier: nat, other: IpAddr,
                         i: nat, p: Payload, rule: AccessRule)
    requires UniqueNames(cfg.access) && SaneClock(x.now) && AllowedBy(suite, cfg, x.pkt, x.now, i, p, rule)
    requires forall k | 0 <= k < |cfg.access[i].source| :: !cfg.access[i].source[k].Matches(other)
    ensures Wasted(suite, cfg, Reading(Packet(other, x.pkt.data), x.now, earlier), p.nonce)
  {
    hide MatchPacket, FindStanza, ParsePacket, ValidateAgainstClock, MaxAgeSeconds, SourceSpec.Matches;
    MatchIsFirstVerified(suite, x.pkt.data, cfg.access, i, p);
    FindIsUnique(cfg.access, i);
    ClockCheckIsWindow(p.timestamp, x.now, MaxAgeSeconds(cfg));
    WindowIsConfigured(cfg, p.timestamp, x.now);
  }

  lemma AllowedIsForwarded(suite: Suite, cfg: DaemonConfig, s: Store, wait: nat, x: Reading,
                           i: nat, p: Payload, rule: AccessRule)
    requires Good(s.mem) && UniqueNames(cfg.access) && SaneClock(x.now)
    requires AllowedBy(suite, cfg, x.pkt, x.now, i, p, rule) && p.nonce !in s.mem.vals
    ensures Forwarded(suite, cfg, x, p.nonce)
    ensures Decide(Privsep(wait), suite, cfg, s, x.pkt, x.now, x.insertedAt, true).1 == Some(rule)
  {
    hide MatchPacket, FindStanza, ParsePacket, ValidateCapture, RuleFor, MaxAgeSeconds, Lru.Push, Grants;
    FindIsUnique(cfg.access, i);
    ValidRequestIsAllowed(suite, cfg, x.pkt, x.now);
  }

  /** A wasted packet gets no rule, is not forwarded, and leaves the parent's cache alone. */
  lemma WastedGetsNothing(mode: Mode, suite: Suite, cfg: DaemonConfig, s: Store, x: Reading, n: Nonce)
    requires Good(s.mem) && Wasted(suite, cfg, x, n)
    ensures var (s', rule) := Decide(mode, suite, cfg, s, x.pkt, x.now, x.insertedAt, true);
            rule.None? && (mode.Privsep? ==> s' == s)
    ensures forall n' :: !Forwarded(suite, cfg, x, n')
  {
    hide MatchPacket, FindStanza, ValidateAgainstClock, CheckAndInsert, RuleFor, PolicyRefusal;
  }

  lemma TwoRequests(mode: Mode, suite: Suite, cfg: DaemonConfig, s: Store, x: Reading, y: Reading)
    requires Good(s.mem)
    ensures var (s1, r1) := Decide(mode, suite, cfg, s, x.pkt, x.now, x.insertedAt, true);
            && Good(s1.mem)
            && Requests(mode, suite, cfg, s, [x, y]).1
               == [r1, Decide(mode, suite, cfg, s1, y.pkt, y.now, y.insertedAt, true).1]
  {
    hide Decide;
    var one, two := [x], [x, y];
    RequestsLast(mode, suite, cfg, s, one);
    RequestsLast(mode, suite, cfg, s, two);
    assert one[..0] == [] && two[..1] == one;
  }

  lemma RequestsLast(mode: Mode, suite: Suite, cfg: DaemonConfig, s: Store, rs: seq<Reading>)
    requires Good(s.mem) && rs != []
    ensures var (before, rules) := Requests(mode, suite, cfg, s, rs[..|rs| - 1]);
            var x := rs[|rs| - 1];
            var (after, rule) := Decide(mode, suite, cfg, before, x.pkt, x.now, x.insertedAt, true);
            Requests(mode, suite, cfg, s, rs) == (after, rules + [rule])
  {
    hide Decide;
  }

  // ----- when the modes agree -----

  /** No verified packet repeats the nonce of an earlier one, or one that only `p` holds. */
  ghost predicate AllNoncesDiffer(suite: Suite, cfg: DaemonConfig, p: Store, q: Store, rs: seq<Reading>) {
    forall i | 0 <= i < |rs| ::
      var x := PayloadOf(suite, cfg, rs[i].pkt);
      x.Some? ==>
        && (x.value.nonce in p.mem.vals ==> x.value.nonce in q.mem.vals)
        && forall j | 0 <= j < i ::
             var y := PayloadOf(suite, cfg, rs[j].pkt);
             y.Some? ==> y.value.nonce != x.value.nonce
  }

  /** When all nonces differ, the two modes request exactly the same rules. */
  lemma SameRulesOnDistinctNonces(suite: Suite, cfg: DaemonConfig, p: Store, q: Store, wait: nat, rs: seq<Reading>)
    requires Good(p.mem) && Good(q.mem) && q.mem.vals.Keys <= p.mem.vals.Keys
    requires |p.mem.order| + |rs| <= p.mem.cap && |q.mem.order| + |rs| <= q.mem.cap
    requires AllNoncesDiffer(suite, cfg, p, q, rs)
    ensures Requests(SingleProcess, suite, cfg, p, rs).1 == Requests(Privsep(wait), suite, cfg, q, rs).1
  {
    hide Requests, ValidateCapture, MatchPacket;
    SplitSimulatesSingle(suite, cfg, p, q, wait, rs);
    forall i | 0 <= i < |rs| ensures !Spent(suite, cfg, p, q, rs, i) {
      ValidRequestIsComplete(suite, cfg, rs[i].pkt, rs[i].now);
    }
  }
}
