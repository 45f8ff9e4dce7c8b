/**
  Packet authorization, twice: the single-process pipeline (crates/fwknox-daemon/src/pipeline.rs)
  and the split into crypto worker and parent (validate.rs, privsep_run.rs), over the same
  stanza matching (matcher.rs) and clock check (crates/fwknox-proto/src/validate.rs).
 */
module Authorize {
  import opened Bytes
  import opened Options
  import opened LruCaches
  import opened CacheFile
  import opened ReplayCaches
  import opened Wire
  import opened DaemonConfigs

  // ----- the clock check -----

  const TWO_64: int := 0x1_0000_0000_0000_0000
  const MAX_SKEW := 30

  /** Two's complement wrap-around, as release builds subtract. */
  function Wrap(x: int): (r: i64)
    requires -TWO_64 <= x <= TWO_64
  {
    if x > I64_MAX then x - TWO_64 else if x < -I64_MAX - 1 then x + TWO_64 else x
  }

  datatype ClockVerdict = InTime | InFuture | TooOld

  function ValidateAgainstClock(timestamp: i64, now: i64, maxAge: i64): (v: ClockVerdict) {
    var delta := Wrap(now - timestamp);
    if delta < -MAX_SKEW then InFuture else if delta > maxAge then TooOld else InTime
  }

  ghost predicate Timely(timestamp: int, now: int, maxAge: int) {
    -MAX_SKEW <= now - timestamp <= maxAge
  }

  /**
    The clock check is the time window for every timestamp, wrap-around included, as long as the
    clock itself is more than 30 seconds short of the last representable second; past that, the
    only extra timestamps accepted are those whose age wraps to a small negative number. Where the
    age does not wrap, each refusal is for the reason it names.
   */
  lemma ClockCheckIsWindow(timestamp: i64, now: i64, maxAge: i64)
    requires now >= 0 && maxAge >= 0
    ensures ValidateAgainstClock(timestamp, now, maxAge) == InTime <==>
              Timely(timestamp, now, maxAge) || now - timestamp >= TWO_64 - MAX_SKEW
    ensures now <= I64_MAX - MAX_SKEW ==>
              (ValidateAgainstClock(timestamp, now, maxAge) == InTime <==> Timely(timestamp, now, maxAge))
    ensures now - timestamp <= I64_MAX ==>
              && (ValidateAgainstClock(timestamp, now, maxAge) == InFuture <==> timestamp > now + MAX_SKEW)
              && (ValidateAgainstClock(timestamp, now, maxAge) == TooOld <==> timestamp < now - maxAge)
  {}

  /** At most 30 seconds ahead of the clock and no older than `max_spa_packet_age`, to the nanosecond. */
  ghost predicate InWindow(cfg: DaemonConfig, timestamp: int, now: int) {
    && timestamp <= now + 30
    && (now - timestamp) * 1_000_000_000 <= cfg.maxSpaPacketAge
    && now - timestamp <= I64_MAX
  }

  /** Counting the age in whole seconds, capped at 64 bits, loses nothing. */
  lemma WindowIsConfigured(cfg: DaemonConfig, timestamp: int, now: int)
    ensures Timely(timestamp, now, MaxAgeSeconds(cfg)) <==> InWindow(cfg, timestamp, now)
  {}

  /** A clock more than 30 seconds short of the end of 64-bit time. */
  ghost predicate SaneClock(now: int) {
    0 <= now <= I64_MAX - MAX_SKEW
  }

  // ----- stanza matching -----

  datatype MatchResult =
    | Matched(name: string, payload: Payload)
    | NoMatch
    | Unmatched(name: string, reason: ProtoError)

  function MatchPacket(suite: Suite, wire: seq<byte>, stanzas: seq<AccessStanza>): (r: MatchResult) {
    if stanzas == [] then NoMatch
    else
      match ParsePacket(suite, wire, stanzas[0].masterKey)
      case Ok(payload) => Matched(stanzas[0].name, payload)
      case Err(HmacFailed) => MatchPacket(suite, wire, stanzas[1..])
      case Err(other) => Unmatched(stanzas[0].name, other)
  }

  function FindStanza(stanzas: seq<AccessStanza>, name: string): (r: Option<AccessStanza>) {
    if stanzas == [] then None
    else if stanzas[0].name == name then Some(stanzas[0])
    else FindStanza(stanzas[1..], name)
  }

  /** The HMAC fails under every key before stanza `i`. */
  ghost predicate EarlierFail(suite: Suite, wire: seq<byte>, stanzas: seq<AccessStanza>, i: nat)
    requires i <= |stanzas|
  {
    forall j | 0 <= j < i :: ParsePacket(suite, wire, stanzas[j].masterKey) == Err(HmacFailed)
  }

  /** Stanza `i` is the first whose HMAC verifies, and under its key the packet parses to `p`. */
  ghost predicate FirstVerified(suite: Suite, wire: seq<byte>, stanzas: seq<AccessStanza>, i: nat, p: Payload) {
    && i < |stanzas|
    && ParsePacket(suite, wire, stanzas[i].masterKey) == Ok(p)
    && EarlierFail(suite, wire, stanzas, i)
  }

  /** A match names the first stanza whose key verified the packet, and every such stanza is found. */
  lemma {:induction false} MatchIsFirstVerified(suite: Suite, wire: seq<byte>, stanzas: seq<AccessStanza>, i: nat,
                                                p: Payload)
    requires FirstVerified(suite, wire, stanzas, i, p)
    ensures MatchPacket(suite, wire, stanzas) == Matched(stanzas[i].name, p)
  {
    hide ParsePacket;
    if i > 0 {
      assert ParsePacket(suite, wire, stanzas[0].masterKey) == Err(HmacFailed);
      forall j | 0 <= j < i - 1
        ensures ParsePacket(suite, wire, stanzas[1..][j].masterKey) == Err(HmacFailed)
      {
        assert stanzas[1..][j] == stanzas[j + 1];
      }
      MatchIsFirstVerified(suite, wire, stanzas[1..], i - 1, p);
    }
  }

  lemma {:induction false} MatchedIndex(suite: Suite, wire: seq<byte>, stanzas: seq<AccessStanza>) returns (i: nat)
    requires MatchPacket(suite, wire, stanzas).Matched?
    ensures FirstVerified(suite, wire, stanzas, i, MatchPacket(suite, wire, stanzas).payload)
    ensures MatchPacket(suite, wire, stanzas).name == stanzas[i].name
  {
    hide ParsePacket;
    if ParsePacket(suite, wire, stanzas[0].masterKey).Ok? {
      i := 0;
    } else {
      var k := MatchedIndex(suite, wire, stanzas[1..]);
      i := k + 1;
      forall j | 0 <= j < i ensures ParsePacket(suite, wire, stanzas[j].masterKey) == Err(HmacFailed) {
        if j > 0 { assert stanzas[1..][j - 1] == stanzas[j]; }
      }
    }
  }

  /** A packet held against a stanza fails there for another reason than its HMAC, after every earlier HMAC failed. */
  lemma {:induction false} UnmatchedIndex(suite: Suite, wire: seq<byte>, stanzas: seq<AccessStanza>) returns (i: nat)
    requires MatchPacket(suite, wire, stanzas).Unmatched?
    ensures var r := MatchPacket(suite, wire, stanzas);
            && i < |stanzas| && stanzas[i].name == r.name && r.reason != HmacFailed
            && ParsePacket(suite, wire, stanzas[i].masterKey) == Err(r.reason)
            && EarlierFail(suite, wire, stanzas, i)
  {
    hide ParsePacket;
    if ParsePacket(suite, wire, stanzas[0].masterKey) == Err(HmacFailed) {
      var k := UnmatchedIndex(suite, wire, stanzas[1..]);
      i := k + 1;
      forall j | 0 <= j < i ensures ParsePacket(suite, wire, stanzas[j].masterKey) == Err(HmacFailed) {
        if j > 0 { assert stanzas[1..][j - 1] == stanzas[j]; }
      }
    } else {
      i := 0;
    }
  }

  /** With unique names, looking a stanza up by its name finds that very stanza. */
  lemma {:induction false} FindIsUnique(stanzas: seq<AccessStanza>, i: nat)
    requires UniqueNames(stanzas) && i < |stanzas|
    ensures FindStanza(stanzas, stanzas[i].name) == Some(stanzas[i])
  {
    if i > 0 { FindIsUnique(stanzas[1..], i - 1); }
  }

  /**
    A packet is silently unmatched exactly when its length is in bounds and every HMAC fails. A
    packet of impossible length is blamed on the first stanza instead.
   */
  lemma {:induction false} NoMatchExactly(suite: Suite, wire: seq<byte>, stanzas: seq<AccessStanza>)
    requires stanzas != []
    ensures MatchPacket(suite, wire, stanzas).NoMatch? <==>
              && MIN_PACKET_LEN <= |wire| <= MAX_PACKET_LEN
              && forall i | 0 <= i < |stanzas| :: ParsePacket(suite, wire, stanzas[i].masterKey) == Err(HmacFailed)
    ensures !(MIN_PACKET_LEN <= |wire| <= MAX_PACKET_LEN) ==>
              var r := MatchPacket(suite, wire, stanzas);
              r.Unmatched? && r.name == stanzas[0].name && (r.reason.PacketTooShort? || r.reason.PacketTooLong?)
  {
    hide ParseSigned;
    if |stanzas| > 1 {
      NoMatchExactly(suite, wire, stanzas[1..]);
      assert forall i | 1 <= i < |stanzas| :: stanzas[i] == stanzas[1..][i - 1];
    }
  }

  // ----- policy and rules -----

  datatype Refusal = UnsupportedMessage | SourceMismatch | NotInAllowlist | PortNotOpen(port: PortProto)

  function FirstClosedPort(ports: seq<PortProto>, open: seq<PortProto>): (r: Option<PortProto>)
    ensures r.None? <==> forall i | 0 <= i < |ports| :: ports[i] in open
    ensures r.Some? ==> r.value !in open && exists i | 0 <= i < |ports| ::
              ports[i] == r.value && forall j | 0 <= j < i :: ports[j] in open
  {
    if ports == [] then None
    else if ports[0] !in open then Some(ports[0])
    else
      var r := FirstClosedPort(ports[1..], open);
      assert ports == [ports[0]] + ports[1..];
      r
  }

  /** The stanza's checks on an authenticated payload, in the order both modes make them. */
  function PolicyRefusal(stanza: AccessStanza, payload: Payload, source: IpAddr): (r: Option<Refusal>) {
    if !payload.message.Access? then Some(UnsupportedMessage)
    else if stanza.requireSourceMatch && payload.message.sourceIp != source then Some(SourceMismatch)
    else if !exists i | 0 <= i < |stanza.source| :: stanza.source[i].Matches(source) then Some(NotInAllowlist)
    else
      var closed := FirstClosedPort(payload.message.ports, stanza.openPorts);
      if closed.Some? then Some(PortNotOpen(closed.value)) else None
  }

  /** The condition a refusal complains about does not hold. */
  ghost predicate Violates(stanza: AccessStanza, p: Payload, source: IpAddr, r: Refusal) {
    match r
    case UnsupportedMessage => !p.message.Access?
    case SourceMismatch => stanza.requireSourceMatch && p.message.Access? && p.message.sourceIp != source
    case NotInAllowlist => forall k | 0 <= k < |stanza.source| :: !stanza.source[k].Matches(source)
    case PortNotOpen(port) => p.message.Access? && port in p.message.ports && port !in stanza.openPorts
  }

  /** Which refusal is reported: message type before source match before allowlist before ports. */
  lemma RefusalExactly(stanza: AccessStanza, p: Payload, source: IpAddr)
    ensures var r := PolicyRefusal(stanza, p, source);
            && (r == Some(UnsupportedMessage) <==> Violates(stanza, p, source, UnsupportedMessage))
            && (r == Some(SourceMismatch) <==> Violates(stanza, p, source, SourceMismatch))
            && (r == Some(NotInAllowlist) <==>
                  && p.message.Access? && !Violates(stanza, p, source, SourceMismatch)
                  && Violates(stanza, p, source, NotInAllowlist))
            && (r.Some? && r.value.PortNotOpen? <==>
                  && p.message.Access? && !Violates(stanza, p, source, SourceMismatch)
                  && !Violates(stanza, p, source, NotInAllowlist)
                  && exists port :: Violates(stanza, p, source, PortNotOpen(port)))
  {
    hide SourceSpec.Matches;
    if p.message.Access? {
      forall port | Violates(stanza, p, source, PortNotOpen(port))
        ensures FirstClosedPort(p.message.ports, stanza.openPorts).Some?
      {
        var k :| 0 <= k < |p.message.ports| && p.message.ports[k] == port;
      }
      var closed := FirstClosedPort(p.message.ports, stanza.openPorts);
      assert closed.Some? ==> Violates(stanza, p, source, PortNotOpen(closed.value));
    }
  }

  datatype AccessRule = AccessRule(sourceIp: IpAddr, ports: seq<PortProto>, timeout: Nanos, comment: string)

  function ShowInt(x: int): string {
    if x < 0 then "-" + ShowNat(-x) else ShowNat(x)
  }

  /** Decimal text of the timestamp in a rule's comment: it reads back as the number, without leading zeros. */
  lemma ShowIntIs(x: int)
    ensures x >= 0 ==> AllDigits(ShowInt(x)) && Value(ShowInt(x)) == x && (x > 0 ==> ShowInt(x)[0] != '0')
    ensures x < 0 ==> ShowInt(x) == "-" + ShowInt(-x)
  {
    hide ShowNat, Value;
    if x >= 0 { ShowNatIs(x); }
  }

  function ClampTimeout(requested: Nanos, max: Nanos): (r: Nanos)
    ensures r <= max && r <= requested && (r == max || r == requested)
  {
    if requested > max then max else requested
  }

  function RuleFor(cfg: DaemonConfig, stanza: AccessStanza, payload: Payload): (r: AccessRule)
    requires payload.message.Access?
  {
    var timeout := if stanza.fwTimeout.Some? then stanza.fwTimeout.value else cfg.defaultFwTimeout;
    AccessRule(payload.message.sourceIp, payload.message.ports, ClampTimeout(timeout, cfg.maxFwTimeout),
               "fwknox:" + payload.username + ":" + ShowInt(payload.timestamp))
  }

  function MaxAgeSeconds(cfg: DaemonConfig): (r: i64)
    ensures r >= 0
  {
    var s := WholeSeconds(cfg.maxSpaPacketAge);
    if s <= I64_MAX then s else I64_MAX
  }

  datatype Packet = Packet(source: IpAddr, data: seq<byte>)

  // ----- the single-process pipeline -----

  datatype ProcessResult =
    | Requested(name: string)     // the firewall accepted the rule or reported its own failure
    | Replayed(name: string)
    | Unknown
    | Malformed(name: string, reason: ProtoError)
    | Untimely(name: string, verdict: ClockVerdict)
    | NotPersisted(name: string)
    | Refused(name: string, refusal: Refusal)
    | InvariantViolation(name: string)

  datatype Outcome = Outcome(result: ProcessResult, store: Store, rule: Option<AccessRule>)

  /**
    `process_packet`. `now` is the clock reading of the time check, `insertedAt` the one inside
    `check_and_insert`, `saveOk` the outcome of its write.
   */
  function ProcessPacket(suite: Suite, cfg: DaemonConfig, store: Store, persist: bool, pkt: Packet,
                         now: i64, insertedAt: nat, saveOk: bool): (r: Outcome)
    requires Good(store.mem)
  {
    match MatchPacket(suite, pkt.data, cfg.access)
    case NoMatch => Outcome(Unknown, store, None)
    case Unmatched(name, reason) => Outcome(Malformed(name, reason), store, None)
    case Matched(name, payload) =>
      var stanza := FindStanza(cfg.access, name);
      if stanza.None? then Outcome(InvariantViolation(name), store, None)
      else
        var verdict := ValidateAgainstClock(payload.timestamp, now, MaxAgeSeconds(cfg));
        if verdict != InTime then Outcome(Untimely(name, verdict), store, None)
        else
          var (store', inserted) := CheckAndInsert(store, persist, payload.nonce, insertedAt, saveOk);
          match inserted
          case Replay => Outcome(Replayed(name), store', None)
          case PersistFailed => Outcome(NotPersisted(name), store', None)
          case Fresh =>
            var refusal := PolicyRefusal(stanza.value, payload, pkt.source);
            if refusal.Some? then Outcome(Refused(name, refusal.value), store', None)
            else Outcome(Requested(name), store', Some(RuleFor(cfg, stanza.value, payload)))
  }

  /** What a result says about payload `p`, verified by `stanza`, and about the cache before and after. */
  ghost predicate Truthful(cfg: DaemonConfig, o: Outcome, store: Store, persist: bool, pkt: Packet,
                           now: int, saveOk: bool, stanza: AccessStanza, p: Payload) {
    match o.result
    case Untimely(_, _) => !InWindow(cfg, p.timestamp, now) && o.store == store
    case Replayed(_) => p.nonce in store.mem.vals && o.store == store
    case NotPersisted(_) => persist && !saveOk && o.store.disk == store.disk && p.nonce !in o.store.mem.vals
    case Refused(_, r) =>
      Violates(stanza, p, pkt.source, r) && p.nonce !in store.mem.vals && p.nonce in o.store.mem.vals
    case Requested(_) => o.rule.Some? && p.nonce !in store.mem.vals && p.nonce in o.store.mem.vals
    case _ => false
  }

  /**
    Every result of the pipeline is true, and the missing-stanza error never happens. In particular a
    refused packet has spent its nonce, a replayed or untimely one has changed nothing.
   */
  lemma ResultIsTruthful(suite: Suite, cfg: DaemonConfig, store: Store, persist: bool, pkt: Packet,
                         now: i64, insertedAt: nat, saveOk: bool)
    requires Good(store.mem) && UniqueNames(cfg.access) && SaneClock(now)
    ensures var o := ProcessPacket(suite, cfg, store, persist, pkt, now, insertedAt, saveOk);
            && (o.rule.Some? ==> o.result.Requested?)
            && match o.result
               case Unknown => MatchPacket(suite, pkt.data, cfg.access).NoMatch? && o.store == store
               case Malformed(name, reason) =>
                 && o.store == store && reason != HmacFailed
                 && exists i | 0 <= i < |cfg.access| ::
                      && cfg.access[i].name == name
                      && ParsePacket(suite, pkt.data, cfg.access[i].masterKey) == Err(reason)
                      && EarlierFail(suite, pkt.data, cfg.access, i)
               case _ =>
                 exists i: nat, p ::
                   && FirstVerified(suite, pkt.data, cfg.access, i, p)
                   && o.result.name == cfg.access[i].name
                   && Truthful(cfg, o, store, persist, pkt, now, saveOk, cfg.access[i], p)
  {
    hide MatchPacket, FindStanza, ParsePacket, ValidateAgainstClock, MaxAgeSeconds;
    hide SourceSpec.Matches, Lru.Push, RuleFor, InWindow;
    var m := MatchPacket(suite, pkt.data, cfg.access);
    if m.Unmatched? {
      var i := UnmatchedIndex(suite, pkt.data, cfg.access);
    } else if m.Matched? {
      var i := MatchedIndex(suite, pkt.data, cfg.access);
      FindIsUnique(cfg.access, i);
      ClockCheckIsWindow(m.payload.timestamp, now, MaxAgeSeconds(cfg));
      WindowIsConfigured(cfg, m.payload.timestamp, now);
      var o := ProcessPacket(suite, cfg, store, persist, pkt, now, insertedAt, saveOk);
      assert Truthful(cfg, o, store, persist, pkt, now, saveOk, cfg.access[i], m.payload);
    }
  }

  // ----- the crypto worker and the parent -----

  datatype CryptoMsg =
    | ValidRequest(name: string, source: IpAddr, payload: Payload)
    | RejectedMsg(source: IpAddr)
    | NoMatchMsg(source: IpAddr)

  function ValidateCapture(suite: Suite, cfg: DaemonConfig, pkt: Packet, now: i64): (r: CryptoMsg) {
    match MatchPacket(suite, pkt.data, cfg.access)
    case NoMatch => NoMatchMsg(pkt.source)
    case Unmatched(_, _) => RejectedMsg(pkt.source)
    case Matched(name, payload) =>
      var stanza := FindStanza(cfg.access, name);
      if stanza.None? then RejectedMsg(pkt.source)
      else if ValidateAgainstClock(payload.timestamp, now, MaxAgeSeconds(cfg)) != InTime then RejectedMsg(pkt.source)
      else if PolicyRefusal(stanza.value, payload, pkt.source).Some? then RejectedMsg(pkt.source)
      else ValidRequest(name, pkt.source, payload)
  }

  /** `handle_crypto_msg` in the parent. */
  function HandleCrypto(cfg: DaemonConfig, store: Store, persist: bool, msg: CryptoMsg,
                        insertedAt: nat, saveOk: bool): (r: (Store, Option<AccessRule>))
    requires Good(store.mem)
  {
    match msg
    case NoMatchMsg(_) => (store, None)
    case RejectedMsg(_) => (store, None)
    case ValidRequest(name, _, payload) =>
      var (store', inserted) := CheckAndInsert(store, persist, payload.nonce, insertedAt, saveOk);
      if !inserted.Fresh? || !payload.message.Access? then (store', None)
      else
        var stanza := FindStanza(cfg.access, name);
        (store', if stanza.None? then None else Some(RuleFor(cfg, stanza.value, payload)))
  }

  // ----- the objects both modes run on -----

  /** The firewall as the daemon uses it: a log of requested rules. */
  class Firewall {
    var requested: seq<AccessRule>

    constructor ()
      ensures requested == []
    {
      requested := [];
    }

    /** `open_access`; its success or failure does not change what was requested. */
    method OpenAccess(rule: AccessRule)
      modifies this
      ensures requested == old(requested) + [rule]
    {
      requested := requested + [rule];
    }
  }

  function Logged(log: seq<AccessRule>, rule: Option<AccessRule>): seq<AccessRule> {
    if rule.Some? then log + [rule.value] else log
  }

  method RunPipeline(suite: Suite, cfg: DaemonConfig, replay: ReplayCache, firewall: Firewall, pkt: Packet,
                     now: i64, insertedAt: nat, saveOk: bool) returns (r: ProcessResult)
    requires replay.Valid()
    modifies replay, firewall
    ensures replay.Valid()
    ensures var o := ProcessPacket(suite, cfg, old(replay.View()), replay.persist, pkt, now, insertedAt, saveOk);
            r == o.result && replay.View() == o.store && firewall.requested == Logged(old(firewall.requested), o.rule)
  {
    hide MatchPacket, FindStanza, ValidateAgainstClock, CheckAndInsert, PolicyRefusal, RuleFor;
    var m := MatchPacket(suite, pkt.data, cfg.access);
    if m.NoMatch? {
      return Unknown;
    }
    if m.Unmatched? {
      return Malformed(m.name, m.reason);
    }
    var stanza := FindStanza(cfg.access, m.name);
    if stanza.None? {
      return InvariantViolation(m.name);
    }
    var verdict := ValidateAgainstClock(m.payload.timestamp, now, MaxAgeSeconds(cfg));
    if verdict != InTime {
      return Untimely(m.name, verdict);
    }
    var inserted := replay.CheckInsert(m.payload.nonce, insertedAt, saveOk);
    match inserted
    case Replay => return Replayed(m.name);
    case PersistFailed => return NotPersisted(m.name);
    case Fresh =>
    var refusal := PolicyRefusal(stanza.value, m.payload, pkt.source);
    if refusal.Some? {
      return Refused(m.name, refusal.value);
    }
    AccessIsPolicy(stanza.value, m.payload, pkt.source);
    firewall.OpenAccess(RuleFor(cfg, stanza.value, m.payload));
    r := Requested(m.name);
  }

  lemma AccessIsPolicy(stanza: AccessStanza, payload: Payload, source: IpAddr)
    requires PolicyRefusal(stanza, payload, source).None?
    ensures payload.message.Access?
  {}

  method RunParent(cfg: DaemonConfig, replay: ReplayCache, firewall: Firewall, msg: CryptoMsg,
                   insertedAt: nat, saveOk: bool)
    requires replay.Valid()
    modifies replay, firewall
    ensures replay.Valid()
    ensures var (store, rule) := HandleCrypto(cfg, old(replay.View()), replay.persist, msg, insertedAt, saveOk);
            replay.View() == store && firewall.requested == Logged(old(firewall.requested), rule)
  {
    hide FindStanza, CheckAndInsert, RuleFor;
    if msg.ValidRequest? {
      var inserted := replay.CheckInsert(msg.payload.nonce, insertedAt, saveOk);
      if !inserted.Fresh? || !msg.payload.message.Access? {
        return;
      }
      var stanza := FindStanza(cfg.access, msg.name);
      if stanza.None? {
        return;
      }
      firewall.OpenAccess(RuleFor(cfg, stanza.value, msg.payload));
    }
  }

  // ----- what a requested rule means -----

  /** The policy of stanza `i`, whose key verified the packet as `p`, allows `rule`. */
  ghost predicate AllowedBy(suite: Suite, cfg: DaemonConfig, pkt: Packet, now: int,
                            i: nat, p: Payload, rule: AccessRule) {
    && FirstVerified(suite, pkt.data, cfg.access, i, p)
    && var stanza := cfg.access[i];
       && InWindow(cfg, p.timestamp, now)
       && p.message.Access?
       && (stanza.requireSourceMatch ==> p.message.sourceIp == pkt.source)
       && (exists k | 0 <= k < |stanza.source| :: stanza.source[k].Matches(pkt.source))
       && (forall k | 0 <= k < |p.message.ports| :: p.message.ports[k] in stanza.openPorts)
       && Grants(cfg, stanza, p, rule)
  }

  /** The rule opens what was asked for, for the configured time but never longer than the maximum. */
  ghost predicate Grants(cfg: DaemonConfig, stanza: AccessStanza, p: Payload, rule: AccessRule)
    requires p.message.Access?
  {
    && rule.sourceIp == p.message.sourceIp && rule.ports == p.message.ports
    && rule.comment == "fwknox:" + p.username + ":" + ShowInt(p.timestamp)
    && var configured := match stanza.fwTimeout case Some(t) => t case None => cfg.defaultFwTimeout;
       && rule.timeout <= configured && rule.timeout <= cfg.maxFwTimeout
       && (rule.timeout == configured || rule.timeout == cfg.maxFwTimeout)
  }

  lemma RuleIsTheGrant(cfg: DaemonConfig, stanza: AccessStanza, p: Payload, rule: AccessRule)
    requires p.message.Access?
    ensures rule == RuleFor(cfg, stanza, p) <==> Grants(cfg, stanza, p, rule)
  {}

  lemma AllowedIsAccess(suite: Suite, cfg: DaemonConfig, pkt: Packet, now: int, i: nat, p: Payload, rule: AccessRule)
    requires AllowedBy(suite, cfg, pkt, now, i, p, rule)
    ensures i < |cfg.access| && p.message.Access?
  {}

  /** What the crypto worker forwards is allowed by the very stanza whose key verified it, and conversely. */
  lemma ValidRequestIsAllowed(suite: Suite, cfg: DaemonConfig, pkt: Packet, now: i64)
    requires UniqueNames(cfg.access) && SaneClock(now)
    ensures var m := ValidateCapture(suite, cfg, pkt, now);
            && m.source == pkt.source
            && (m.ValidRequest? ==>
                  && m.payload.message.Access?
                  && exists i: nat ::
                       && i < |cfg.access|
                       && m.name == cfg.access[i].name
                       && AllowedBy(suite, cfg, pkt, now, i, m.payload, RuleFor(cfg, cfg.access[i], m.payload)))
            && forall i: nat, p, rule :: AllowedBy(suite, cfg, pkt, now, i, p, rule) ==>
                 m == ValidRequest(cfg.access[i].name, pkt.source, p) && rule == RuleFor(cfg, cfg.access[i], p)
    ensures ValidateCapture(suite, cfg, pkt, now).NoMatchMsg? <==> MatchPacket(suite, pkt.data, cfg.access).NoMatch?
  {
    hide MatchPacket, FindStanza, ParsePacket, RuleFor, Grants, MaxAgeSeconds, InWindow;
    var m := ValidateCapture(suite, cfg, pkt, now);
    if m.ValidRequest? {
      var i := MatchedIndex(suite, pkt.data, cfg.access);
      FindIsUnique(cfg.access, i);
      ClockCheckIsWindow(m.payload.timestamp, now, MaxAgeSeconds(cfg));
      WindowIsConfigured(cfg, m.payload.timestamp, now);
      RuleIsTheGrant(cfg, cfg.access[i], m.payload, RuleFor(cfg, cfg.access[i], m.payload));
      assert AllowedBy(suite, cfg, pkt, now, i, m.payload, RuleFor(cfg, cfg.access[i], m.payload));
    }
    forall i: nat, p, rule | AllowedBy(suite, cfg, pkt, now, i, p, rule)
      ensures m == ValidRequest(cfg.access[i].name, pkt.source, p) && rule == RuleFor(cfg, cfg.access[i], p)
    {
      RuleIsTheGrant(cfg, cfg.access[i], p, rule);
      MatchIsFirstVerified(suite, pkt.data, cfg.access, i, p);
      FindIsUnique(cfg.access, i);
      ClockCheckIsWindow(p.timestamp, now, MaxAgeSeconds(cfg));
      WindowIsConfigured(cfg, p.timestamp, now);
    }
  }

  /** On one packet, the pipeline and validate-then-parent differ only in when they consult the cache. */
  lemma ModesOnOnePacket(suite: Suite, cfg: DaemonConfig, store: Store, persist: bool, pkt: Packet,
                         now: i64, insertedAt: nat, saveOk: bool)
    requires Good(store.mem)
    ensures var o := ProcessPacket(suite, cfg, store, persist, pkt, now, insertedAt, saveOk);
            var m := ValidateCapture(suite, cfg, pkt, now);
            && (m.ValidRequest? ==>
                  && o.store == CheckAndInsert(store, persist, m.payload.nonce, insertedAt, saveOk).0
                  && o.rule == HandleCrypto(cfg, store, persist, m, insertedAt, saveOk).1)
            && (!m.ValidRequest? ==> o.rule.None?)
  {
    hide MatchPacket, FindStanza, ValidateAgainstClock, CheckAndInsert, RuleFor;
  }

  /**
    The pipeline requests a rule if and only if the packet is timely, verified by a stanza whose
    policy allows exactly that rule, and its nonce is fresh and saved.
   */
  lemma PipelineRequests(suite: Suite, cfg: DaemonConfig, store: Store, persist: bool, pkt: Packet,
                         now: i64, insertedAt: nat, saveOk: bool, rule: AccessRule)
    requires Good(store.mem) && UniqueNames(cfg.access) && SaneClock(now)
    ensures ProcessPacket(suite, cfg, store, persist, pkt, now, insertedAt, saveOk).rule == Some(rule) <==>
              exists i: nat, p :: && AllowedBy(suite, cfg, pkt, now, i, p, rule)
                             && CheckAndInsert(store, persist, p.nonce, insertedAt, saveOk).1.Fresh?
  {
    hide ProcessPacket, ValidateCapture, CheckAndInsert, RuleFor, AllowedBy, FindStanza;
    ModesOnOnePacket(suite, cfg, store, persist, pkt, now, insertedAt, saveOk);
    ValidRequestIsAllowed(suite, cfg, pkt, now);
    var m := ValidateCapture(suite, cfg, pkt, now);
    if m.ValidRequest? {
      var i: nat :| i < |cfg.access| && m.name == cfg.access[i].name
               && AllowedBy(suite, cfg, pkt, now, i, m.payload, RuleFor(cfg, cfg.access[i], m.payload));
      FindIsUnique(cfg.access, i);
      var isNew := CheckAndInsert(store, persist, m.payload.nonce, insertedAt, saveOk).1.Fresh?;
      assert HandleCrypto(cfg, store, persist, m, insertedAt, saveOk).1
          == if isNew then Some(RuleFor(cfg, cfg.access[i], m.payload)) else None;
      forall j: nat, p | AllowedBy(suite, cfg, pkt, now, j, p, rule)
        ensures p == m.payload && rule == RuleFor(cfg, cfg.access[i], p)
      {
        AllowedIsAccess(suite, cfg, pkt, now, j, p, rule);
        FindIsUnique(cfg.access, j);
      }
    }
  }

  /**
    From client to rule: a packet built with the key of stanza `i` from a timely payload that its policy
    allows is allowed by that stanza, unless an earlier stanza's HMAC happens to verify it too.
   */
  lemma BuiltPacketIsAllowed(suite: Suite, cfg: DaemonConfig, i: nat, p: Payload, nonce: seq<byte>,
                             source: IpAddr, now: int)
    requires suite.Lawful() && i < |cfg.access| && |nonce| == NONCE_LEN
    requires EncodePayload(suite, p).Ok? && ValidUsername(p.username) && InWindow(cfg, p.timestamp, now)
    requires PolicyRefusal(cfg.access[i], p, source).None?
    ensures p.message.Access?
    ensures var built := BuildPacket(suite, p, cfg.access[i].masterKey, Some(nonce));
            && built.Ok?
            && (EarlierFail(suite, built.value, cfg.access, i) ==>
                  AllowedBy(suite, cfg, Packet(source, built.value), now, i, p, RuleFor(cfg, cfg.access[i], p)))
  {
    hide BuildPacket, ParsePacket, EncodePayload, ValidUsername, RuleFor, Grants, SourceSpec.Matches, InWindow;
    PacketRoundTrip(suite, p, cfg.access[i].masterKey, nonce);
    RuleIsTheGrant(cfg, cfg.access[i], p, RuleFor(cfg, cfg.access[i], p));
  }
}
