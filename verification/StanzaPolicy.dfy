/**
  Two policy fields of an access stanza that the daemon documents and never reads: `max_fw_timeout`
  and `require_username` (crates/fwknox-config/src/daemon.rs). What the daemon then does, and exactly
  when that is what the documentation promises.
 */
module StanzaPolicy {
  import opened Bytes
  import opened Options
  import opened ReplayCaches
  import opened Wire
  import opened DaemonConfigs
  import opened Authorize

  // ----- the fields make no difference -----

  function ErasedStanza(s: AccessStanza): AccessStanza {
    s.(maxFwTimeout := None, requireUsername := None)
  }

  function ErasedAll(stanzas: seq<AccessStanza>): (r: seq<AccessStanza>)
    ensures |r| == |stanzas|
  {
    if stanzas == [] then [] else [ErasedStanza(stanzas[0])] + ErasedAll(stanzas[1..])
  }

  function Erased(cfg: DaemonConfig): DaemonConfig {
    cfg.(access := ErasedAll(cfg.access))
  }

  lemma {:induction false} MatchIgnores(suite: Suite, wire: seq<byte>, stanzas: seq<AccessStanza>)
    ensures MatchPacket(suite, wire, ErasedAll(stanzas)) == MatchPacket(suite, wire, stanzas)
  {
    hide ParsePacket;
    if stanzas != [] {
      MatchIgnores(suite, wire, stanzas[1..]);
      assert ErasedAll(stanzas)[1..] == ErasedAll(stanzas[1..]);
    }
  }

  lemma {:induction false} FindIgnores(stanzas: seq<AccessStanza>, name: string)
    ensures FindStanza(ErasedAll(stanzas), name)
         == match FindStanza(stanzas, name) case None => None case Some(s) => Some(ErasedStanza(s))
  {
    if stanzas != [] {
      FindIgnores(stanzas[1..], name);
      assert ErasedAll(stanzas)[1..] == ErasedAll(stanzas[1..]);
    }
  }

  lemma PolicyIgnores(cfg: DaemonConfig, s: AccessStanza, p: Payload, source: IpAddr)
    ensures PolicyRefusal(ErasedStanza(s), p, source) == PolicyRefusal(s, p, source)
    ensures p.message.Access? ==> RuleFor(Erased(cfg), ErasedStanza(s), p) == RuleFor(cfg, s, p)
  {
    hide SourceSpec.Matches, ErasedAll;
  }

  /** Erasing both fields from every stanza changes nothing: no outcome, no message, no rule, in either mode. */
  lemma FieldsNeverConsulted(suite: Suite, cfg: DaemonConfig, store: Store, persist: bool, pkt: Packet,
                             now: i64, insertedAt: nat, saveOk: bool, msg: CryptoMsg)
    requires Good(store.mem)
    ensures ProcessPacket(suite, Erased(cfg), store, persist, pkt, now, insertedAt, saveOk)
         == ProcessPacket(suite, cfg, store, persist, pkt, now, insertedAt, saveOk)
    ensures ValidateCapture(suite, Erased(cfg), pkt, now) == ValidateCapture(suite, cfg, pkt, now)
    ensures HandleCrypto(Erased(cfg), store, persist, msg, insertedAt, saveOk)
         == HandleCrypto(cfg, store, persist, msg, insertedAt, saveOk)
  {
    hide MatchPacket, FindStanza, PolicyRefusal, RuleFor, CheckAndInsert, ValidateAgainstClock, ErasedAll;
    MatchIgnores(suite, pkt.data, cfg.access);
    var m := MatchPacket(suite, pkt.data, cfg.access);
    if m.Matched? {
      FindIgnores(cfg.access, m.name);
      var s := FindStanza(cfg.access, m.name);
      if s.Some? {
        PolicyIgnores(cfg, s.value, m.payload, pkt.source);
        if PolicyRefusal(s.value, m.payload, pkt.source).None? { AccessIsPolicy(s.value, m.payload, pkt.source); }
      }
    }
    if msg.ValidRequest? {
      FindIgnores(cfg.access, msg.name);
      var s := FindStanza(cfg.access, msg.name);
      if s.Some? { PolicyIgnores(cfg, s.value, msg.payload, pkt.source); }
    }
  }

  // ----- when the documentation is right all the same -----

  /** The timeout asked for: the stanza's, or the daemon's default. */
  function Configured(cfg: DaemonConfig, s: AccessStanza): Nanos {
    match s.fwTimeout case Some(t) => t case None => cfg.defaultFwTimeout
  }

  /** What the documentation promises: the stanza's maximum, where it has one, overrides the daemon's. */
  function DocumentedMax(cfg: DaemonConfig, s: AccessStanza): Nanos {
    match s.maxFwTimeout case Some(t) => t case None => cfg.maxFwTimeout
  }

  predicate RightUsername(s: AccessStanza, p: Payload) {
    s.requireUsername.Some? ==> p.username == s.requireUsername.value
  }

  /** The rule is allowed, its username is the required one, and its timeout is cut at the documented maximum. */
  ghost predicate DocumentedBy(suite: Suite, cfg: DaemonConfig, pkt: Packet, now: int,
                               i: nat, p: Payload, rule: AccessRule) {
    && AllowedBy(suite, cfg, pkt, now, i, p, rule)
    && var s := cfg.access[i];
       && RightUsername(s, p)
       && rule.timeout == ClampTimeout(Configured(cfg, s), DocumentedMax(cfg, s))
  }

  /** The two maxima cut the configured timeout alike. */
  predicate SameCut(cfg: DaemonConfig, s: AccessStanza) {
    var t := Configured(cfg, s);
    DocumentedMax(cfg, s) == cfg.maxFwTimeout || (t <= DocumentedMax(cfg, s) && t <= cfg.maxFwTimeout)
  }

  /**
    A rule the daemon allows is one the documentation allows exactly when the payload happens to carry
    the required username and the two maxima cut the configured timeout alike.
   */
  lemma DocumentedExactly(suite: Suite, cfg: DaemonConfig, pkt: Packet, now: int, i: nat, p: Payload, rule: AccessRule)
    requires AllowedBy(suite, cfg, pkt, now, i, p, rule)
    ensures var s := cfg.access[i];
            DocumentedBy(suite, cfg, pkt, now, i, p, rule) <==> RightUsername(s, p) && SameCut(cfg, s)
  {
    hide FirstVerified, SourceSpec.Matches;
  }

  /** A stanza's own cap is kept exactly when the configuration makes it irrelevant. */
  lemma OwnCapExactly(suite: Suite, cfg: DaemonConfig, pkt: Packet, now: int, i: nat, p: Payload, rule: AccessRule)
    requires AllowedBy(suite, cfg, pkt, now, i, p, rule) && cfg.access[i].maxFwTimeout.Some?
    ensures var cap := cfg.access[i].maxFwTimeout.value;
            rule.timeout <= cap <==> Configured(cfg, cfg.access[i]) <= cap || cfg.maxFwTimeout <= cap
  {
    hide FirstVerified, SourceSpec.Matches;
  }

  /**
    No username is ever turned away: whatever the stanza requires, an allowed packet with a fresh nonce
    gets its rule, from the pipeline and from the parent.
   */
  lemma WrongUsernameIsGranted(suite: Suite, cfg: DaemonConfig, store: Store, persist: bool, pkt: Packet,
                               now: i64, insertedAt: nat, saveOk: bool, i: nat, p: Payload, rule: AccessRule)
    requires Good(store.mem) && UniqueNames(cfg.access) && SaneClock(now)
    requires AllowedBy(suite, cfg, pkt, now, i, p, rule)
    requires !RightUsername(cfg.access[i], p)
    requires CheckAndInsert(store, persist, p.nonce, insertedAt, saveOk).1.Fresh?
    ensures ProcessPacket(suite, cfg, store, persist, pkt, now, insertedAt, saveOk).rule == Some(rule)
    ensures HandleCrypto(cfg, store, persist, ValidateCapture(suite, cfg, pkt, now), insertedAt, saveOk).1 == Some(rule)
    ensures !DocumentedBy(suite, cfg, pkt, now, i, p, rule)
  {
    hide ProcessPacket, ValidateCapture, HandleCrypto, CheckAndInsert, AllowedBy;
    PipelineRequests(suite, cfg, store, persist, pkt, now, insertedAt, saveOk, rule);
    ModesOnOnePacket(suite, cfg, store, persist, pkt, now, insertedAt, saveOk);
  }
}
