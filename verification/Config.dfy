/** The daemon configuration and its validation (crates/fwknox-config/src/daemon.rs, shared.rs). */
module DaemonConfigs {
  import opened Bytes
  import opened Options
  import RateLimiters
  import SourceKeys
  import opened Wire

  type Key32 = s: seq<byte> | |s| == 32 witness seq(32, _ => 0)
  type Nanos = nat    // a `Duration`

  function WholeSeconds(d: Nanos): (secs: nat)
    ensures secs * 1_000_000_000 <= d < (secs + 1) * 1_000_000_000
  {
    d / 1_000_000_000
  }

  const SEVEN_DAYS: Nanos := 604_800 * 1_000_000_000

  datatype SourceSpec = Any | Cidr(net: IpAddr, prefixLen: nat) | Single(addr: IpAddr) {
    predicate Matches(ip: IpAddr) {
      match this
      case Any => true
      case Single(addr) => addr == ip
      case Cidr(V4(net), p) => ip.V4? && p <= 32 && SourceKeys.Leading(net, p) == SourceKeys.Leading(ip.v4, p)
      case Cidr(V6(net), p) => ip.V6? && p <= 128 && SourceKeys.Leading(net, p) == SourceKeys.Leading(ip.v6, p)
    }
  }

  datatype AccessStanza = AccessStanza(
    name: string,
    source: seq<SourceSpec>,
    openPorts: seq<PortProto>,
    masterKey: Key32,
    fwTimeout: Option<Nanos>,
    maxFwTimeout: Option<Nanos>,
    requireSourceMatch: bool,
    requireUsername: Option<string>,
    enableNat: bool,
    natDestination: Option<string>,
    enableCmdExec: bool,
    expirationDate: Option<string>
  )

  datatype CachePath = CachePath(absolute: bool, components: seq<string>)

  datatype DaemonConfig = DaemonConfig(
    access: seq<AccessStanza>,
    maxSpaPacketAge: Nanos,
    defaultFwTimeout: Nanos,
    maxFwTimeout: Nanos,
    replayMaxAge: Nanos,
    cachePath: CachePath,
    rateLimit: RateLimiters.Config
  )

  /** A network of one address is that address. */
  lemma HostNetwork(a: IpAddr, ip: IpAddr)
    ensures Cidr(a, if a.V4? then 32 else 128).Matches(ip) <==> Single(a).Matches(ip)
  {
    match (a, ip)
    case (V4(x), V4(y)) => if SourceKeys.Number(x) == SourceKeys.Number(y) { SourceKeys.NumberInjective(x, y); }
    case (V6(x), V6(y)) => if SourceKeys.Number(x) == SourceKeys.Number(y) { SourceKeys.NumberInjective(x, y); }
    case _ =>
  }

  /** The allowlist and the rate limiter see the same IPv6 networks: members are masked alike. */
  lemma NetworksAreKeys(net: Octets16, ip: Octets16, p: nat)
    requires 1 <= p <= 128
    ensures Cidr(V6(net), p).Matches(V6(ip)) <==> SourceKeys.FromIp(V6(net), p) == SourceKeys.FromIp(V6(ip), p)
  {
    SourceKeys.KeysAgree(V6(net), V6(ip), p);
  }

  /** The addresses of a network are a range of `2^(width - p)` numbers, whatever host bits it was given with. */
  lemma NetworkIsRange(net: IpAddr, ip: IpAddr, p: nat)
    requires p <= if net.V4? then 32 else 128
    ensures var (n, x) := (AddressNumber(net), AddressNumber(ip));
            var size := Pow2((if net.V4? then 32 else 128) - p);
            var base := n - n % size;
            Cidr(net, p).Matches(ip) <==> net.V4? == ip.V4? && base <= x < base + size
  {
    if net.V4? == ip.V4? {
      SameQuotient(AddressNumber(net), AddressNumber(ip), Pow2((if net.V4? then 32 else 128) - p));
    }
  }

  function AddressNumber(ip: IpAddr): nat {
    match ip case V4(o) => SourceKeys.Number(o) case V6(o) => SourceKeys.Number(o)
  }

  lemma SameQuotient(a: nat, b: nat, d: nat)
    requires d >= 1
    ensures a / d == b / d <==> a - a % d <= b < a - a % d + d
  {
    Divide(a, d);
    Divide(b, d);
    if a - a % d <= b < a - a % d + d { DivisionIsUnique(b, d, a / d, b - (a - a % d)); }
  }

  datatype ConfigError =
    | NoStanza
    | DuplicateName(name: string)
    | NoOpenPorts(name: string)
    | NatWithoutDestination(name: string)
    | ZeroKey(name: string)
    | NotImplemented(name: string)
    | ZeroDuration
    | LongDuration
    | DefaultAboveMax
    | RelativeCachePath
    | ParentInCachePath
    | BadRateLimit

  predicate StanzaOk(s: AccessStanza) {
    && s.openPorts != []
    && !s.enableNat
    && (exists i | 0 <= i < 32 :: s.masterKey[i] != 0)
    && s.expirationDate.None?
    && !s.enableCmdExec
  }

  predicate DurationOk(d: Nanos) {
    0 < d <= SEVEN_DAYS
  }

  ghost predicate UniqueNames(stanzas: seq<AccessStanza>) {
    forall i, j | 0 <= i < j < |stanzas| :: stanzas[i].name != stanzas[j].name
  }

  /** What a configuration must satisfy to start the daemon. */
  ghost predicate Valid(cfg: DaemonConfig) {
    && cfg.access != []
    && UniqueNames(cfg.access)
    && (forall i | 0 <= i < |cfg.access| :: StanzaOk(cfg.access[i]))
    && (forall i | 0 <= i < 4 :: DurationOk(Durations(cfg)[i]))
    && cfg.defaultFwTimeout <= cfg.maxFwTimeout
    && cfg.cachePath.absolute && ".." !in cfg.cachePath.components
    && (cfg.rateLimit.enabled ==> cfg.rateLimit.Valid())
  }

  /** What each error says about the configuration. */
  ghost predicate Explains(cfg: DaemonConfig, e: ConfigError) {
    match e
    case NoStanza => cfg.access == []
    case DuplicateName(name) =>
      exists i, j | 0 <= i < j < |cfg.access| :: cfg.access[i].name == cfg.access[j].name == name
    case NoOpenPorts(name) => exists s | s in cfg.access :: s.name == name && s.openPorts == []
    case NatWithoutDestination(name) =>
      exists s | s in cfg.access :: s.name == name && s.enableNat && s.natDestination.None?
    case ZeroKey(name) => exists s | s in cfg.access :: s.name == name && forall i | 0 <= i < 32 :: s.masterKey[i] == 0
    case NotImplemented(name) =>
      exists s | s in cfg.access :: s.name == name && (s.expirationDate.Some? || s.enableNat || s.enableCmdExec)
    case ZeroDuration => 0 in Durations(cfg)
    case LongDuration => exists d | d in Durations(cfg) :: d > SEVEN_DAYS
    case DefaultAboveMax => cfg.defaultFwTimeout > cfg.maxFwTimeout
    case RelativeCachePath => !cfg.cachePath.absolute
    case ParentInCachePath => ".." in cfg.cachePath.components
    case BadRateLimit => cfg.rateLimit.enabled && !cfg.rateLimit.Valid()
  }

  function Durations(cfg: DaemonConfig): seq<Nanos> {
    [cfg.defaultFwTimeout, cfg.maxFwTimeout, cfg.maxSpaPacketAge, cfg.replayMaxAge]
  }

  /** `DaemonConfig::validate` accepts exactly the valid configurations, and every error it reports is true. */
  method Validate(cfg: DaemonConfig) returns (r: Option<ConfigError>)
    ensures r.None? <==> Valid(cfg)
    ensures r.Some? ==> Explains(cfg, r.value)
  {
    r := ValidateStanzas(cfg);
    if r.Some? { return; }
    r := ValidateDurations(cfg);
    if r.Some? { return; }
    if cfg.defaultFwTimeout > cfg.maxFwTimeout {
      return Some(DefaultAboveMax);
    }
    if !cfg.cachePath.absolute {
      return Some(RelativeCachePath);
    }
    if ".." in cfg.cachePath.components {
      return Some(ParentInCachePath);
    }
    if cfg.rateLimit.enabled {
      var l := cfg.rateLimit;
      if l.perSourceRate < 1 || l.globalRate < 1 || l.perSourceBurst < l.perSourceRate || l.globalBurst < l.globalRate
         || l.capacity == 0 || l.threshold == 0 || l.ipv6PrefixLen < 1 || l.ipv6PrefixLen > 128 {
        return Some(BadRateLimit);
      }
    }
  }

  method ValidateStanzas(cfg: DaemonConfig) returns (r: Option<ConfigError>)
    ensures r.None? <==>
              cfg.access != [] && UniqueNames(cfg.access) && forall i | 0 <= i < |cfg.access| :: StanzaOk(cfg.access[i])
    ensures r.Some? ==> Explains(cfg, r.value)
  {
    if cfg.access == [] {
      return Some(NoStanza);
    }
    var seen: set<string> := {};
    for i := 0 to |cfg.access|
      invariant seen == set j | 0 <= j < i :: cfg.access[j].name
      invariant UniqueNames(cfg.access[..i])
      invariant forall j | 0 <= j < i :: StanzaOk(cfg.access[j])
    {
      var stanza := cfg.access[i];
      assert stanza in cfg.access;
      if stanza.name in seen {
        var j :| 0 <= j < i && cfg.access[j].name == stanza.name;
        assert cfg.access[j].name == cfg.access[i].name;
        return Some(DuplicateName(stanza.name));
      }
      seen := seen + {stanza.name};
      if stanza.openPorts == [] {
        return Some(NoOpenPorts(stanza.name));
      }
      if stanza.enableNat && stanza.natDestination.None? {
        return Some(NatWithoutDestination(stanza.name));
      }
      if forall k | 0 <= k < 32 :: stanza.masterKey[k] == 0 {
        return Some(ZeroKey(stanza.name));
      }
      if stanza.expirationDate.Some? || stanza.enableNat || stanza.enableCmdExec {
        return Some(NotImplemented(stanza.name));
      }
    }
    assert cfg.access[..|cfg.access|] == cfg.access;
    r := None;
  }

  method ValidateDurations(cfg: DaemonConfig) returns (r: Option<ConfigError>)
    ensures r.None? <==> forall i | 0 <= i < 4 :: DurationOk(Durations(cfg)[i])
    ensures r.None? <==>
              && 0 < cfg.maxSpaPacketAge <= 604_800_000_000_000 && 0 < cfg.defaultFwTimeout <= 604_800_000_000_000
              && 0 < cfg.maxFwTimeout <= 604_800_000_000_000 && 0 < cfg.replayMaxAge <= 604_800_000_000_000
    ensures r.Some? ==> Explains(cfg, r.value)
  {
    var ds := Durations(cfg);
    for i := 0 to 4
      invariant forall j | 0 <= j < i :: DurationOk(ds[j])
    {
      assert ds[i] in ds;
      if ds[i] == 0 {
        return Some(ZeroDuration);
      }
      if ds[i] > SEVEN_DAYS {
        return Some(LongDuration);
      }
    }
    assert DurationOk(ds[0]) && DurationOk(ds[1]) && DurationOk(ds[2]) && DurationOk(ds[3]);
    r := None;
  }

  /** The errors are complete: a configuration is invalid exactly when one of them applies to it. */
  lemma InvalidExactly(cfg: DaemonConfig)
    ensures !Valid(cfg) <==> exists e :: Explains(cfg, e)
  {
    if !Valid(cfg) {
      FaultIsExplained(cfg);
    }
  }

  lemma FaultIsExplained(cfg: DaemonConfig)
    requires !Valid(cfg)
    ensures exists e :: Explains(cfg, e)
  {
    if cfg.access == [] {
      assert Explains(cfg, NoStanza);
    } else if !UniqueNames(cfg.access) {
      var i, j :| 0 <= i < j < |cfg.access| && cfg.access[i].name == cfg.access[j].name;
      assert Explains(cfg, DuplicateName(cfg.access[i].name));
    } else if i :| 0 <= i < |cfg.access| && !StanzaOk(cfg.access[i]) {
      StanzaFault(cfg, i);
    } else if i :| 0 <= i < 4 && !DurationOk(Durations(cfg)[i]) {
      DurationFault(cfg, i);
    } else if cfg.defaultFwTimeout > cfg.maxFwTimeout {
      assert Explains(cfg, DefaultAboveMax);
    } else {
      assert Explains(cfg, RelativeCachePath) || Explains(cfg, ParentInCachePath) || Explains(cfg, BadRateLimit);
    }
  }

  lemma DurationFault(cfg: DaemonConfig, i: nat)
    requires i < 4 && !DurationOk(Durations(cfg)[i])
    ensures exists e :: Explains(cfg, e)
  {
    assert Durations(cfg)[i] in Durations(cfg);
    assert Explains(cfg, ZeroDuration) || Explains(cfg, LongDuration);
  }

  lemma StanzaFault(cfg: DaemonConfig, i: nat)
    requires i < |cfg.access| && !StanzaOk(cfg.access[i])
    ensures exists e :: Explains(cfg, e)
  {
    var s := cfg.access[i];
    assert s in cfg.access;
    if s.openPorts == [] {
      assert Explains(cfg, NoOpenPorts(s.name));
    } else if s.enableNat || s.expirationDate.Some? || s.enableCmdExec {
      assert Explains(cfg, NotImplemented(s.name));
    } else {
      assert Explains(cfg, ZeroKey(s.name));
    }
  }
}
