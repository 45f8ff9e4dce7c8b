/**
  The three-process daemon as a protocol: a capture worker, a crypto worker and the parent, joined
  by two FIFO channels (crates/fwknox-privsep/src/workers.rs, crates/fwknox-daemon/src/privsep_run.rs).
  Each step is one iteration of one process's loop, and the steps interleave freely. A process
  that exits simply takes no more steps.
 */
module PrivsepProtocol {
  import opened Bytes
  import opened LruCaches
  import opened ReplayCaches
  import opened Wire
  import opened DaemonConfigs
  import opened Authorize
  import opened StanzaPolicy
  import ReplayCrash
  import opened ReplayWindow
  import RateLimiters
  import LimiterRuns

  const CAPTURE_BUFFER := 1500

  /** A message with the number of the datagram it stems from. */
  datatype Tagged<T> = Tagged(index: nat, item: T)

  /** The crypto worker's reply, and its clock reading. */
  datatype Judged = Judged(msg: CryptoMsg, now: i64)

  /** A requested rule, and the datagram, the clock reading and the payload behind it. */
  datatype Grant = Grant(index: nat, now: i64, payload: Payload, rule: AccessRule)

  datatype State = State(
    limiter: RateLimiters.System,
    passed: seq<Packet>,                  // every datagram the limiter has passed
    toCrypto: seq<Tagged<Packet>>,
    toParent: seq<Tagged<Judged>>,
    handled: seq<Tagged<Judged>>,         // every message the parent has handled
    store: Store,
    granted: seq<Grant>
  )

  datatype Step =
    | Capture(datagram: Packet, lockedAt: real, instant: real)
    | Crypto(wallClock: i64, panics: bool)
    | Parent(insertedAt: nat, saveOk: bool)
    | ParentDrop                          // the parent cannot decode the datagram and skips it
    | PruneTick(second: nat, saveOk: bool)

  ghost predicate Ready(cfg: DaemonConfig, s: State) {
    Good(s.store.mem) && (cfg.rateLimit.enabled ==> LimiterRuns.SystemInv(cfg.rateLimit, s.limiter))
  }

  /** The limiter's answer, `Admit` without a look at its state when it is switched off. */
  function CheckSource(cfg: DaemonConfig, limiter: RateLimiters.System, ip: IpAddr, lockedAt: real, now: real):
    (r: (RateLimiters.System, RateLimiters.Decision))
    requires cfg.rateLimit.enabled ==> cfg.rateLimit.Valid() && LimiterRuns.SystemInv(cfg.rateLimit, limiter)
  {
    if !cfg.rateLimit.enabled then
      (limiter.(stats := limiter.stats.(allowed := limiter.stats.allowed + 1)), RateLimiters.Admit)
    else RateLimiters.Check(cfg.rateLimit, limiter, ip, lockedAt, now)
  }

  function Take(suite: Suite, cfg: DaemonConfig, s: State, step: Step): (r: State)
    requires Valid(cfg) && Ready(cfg, s)
  {
    match step
    case Capture(datagram, lockedAt, now) => CaptureStep(cfg, s, datagram, lockedAt, now)
    case Crypto(now, panics) => CryptoStep(suite, cfg, s, now, panics)
    case Parent(insertedAt, saveOk) => ParentStep(cfg, s, insertedAt, saveOk)
    case ParentDrop => if s.toParent == [] then s else s.(toParent := s.toParent[1..])
    case PruneTick(now, saveOk) =>
      s.(store := Prune(s.store, true, WholeSeconds(cfg.replayMaxAge), now, saveOk).0)
  }

  /** One datagram; what does not fit the receive buffer is cut off. */
  function CaptureStep(cfg: DaemonConfig, s: State, datagram: Packet, lockedAt: real, now: real): (r: State)
    requires Valid(cfg) && Ready(cfg, s)
  {
    var data := if |datagram.data| > CAPTURE_BUFFER then datagram.data[..CAPTURE_BUFFER] else datagram.data;
    var pkt := Packet(datagram.source, data);
    var (limiter, decision) := CheckSource(cfg, s.limiter, datagram.source, lockedAt, now);
    if decision.Admit? then
      s.(limiter := limiter, passed := s.passed + [pkt], toCrypto := s.toCrypto + [Tagged(|s.passed|, pkt)])
    else s.(limiter := limiter)
  }

  function CryptoStep(suite: Suite, cfg: DaemonConfig, s: State, now: i64, panics: bool): (r: State) {
    if s.toCrypto == [] then s
    else
      var head := s.toCrypto[0];
      var rest := s.(toCrypto := s.toCrypto[1..]);
      if panics then rest
      else
        var verdict := ValidateCapture(suite, cfg, head.item, now);
        rest.(toParent := s.toParent + [Tagged(head.index, Judged(verdict, now))])
  }

  function ParentStep(cfg: DaemonConfig, s: State, insertedAt: nat, saveOk: bool): (r: State)
    requires Good(s.store.mem)
  {
    if s.toParent == [] then s
    else
      var head := s.toParent[0];
      var (store, rule) := HandleCrypto(cfg, s.store, true, head.item.msg, insertedAt, saveOk);
      s.(toParent := s.toParent[1..], handled := s.handled + [head], store := store,
         granted := if rule.None? then s.granted
                    else s.granted + [Grant(head.index, head.item.now, head.item.msg.payload, rule.value)])
  }

  // ----- order -----

  function Tags<T>(ms: seq<Tagged<T>>): (r: seq<nat>)
    ensures |r| == |ms| && forall i | 0 <= i < |ms| :: r[i] == ms[i].index
  {
    if ms == [] then [] else Tags(ms[..|ms| - 1]) + [ms[|ms| - 1].index]
  }

  /** The datagram numbers along the whole pipe, from handled messages back to the capture side. */
  function Pipe(s: State): seq<nat> {
    Tags(s.handled) + Tags(s.toParent) + Tags(s.toCrypto)
  }

  ghost predicate Increasing(xs: seq<nat>, bound: nat) {
    && (forall i | 0 <= i < |xs| :: xs[i] < bound)
    && forall i, j | 0 <= i < j < |xs| :: xs[i] < xs[j]
  }

  /** Every message in the pipe is what its datagram number says. */
  ghost predicate Truthful(suite: Suite, cfg: DaemonConfig, s: State) {
    && (forall i | 0 <= i < |s.toCrypto| :: Stems(s, s.toCrypto[i]))
    && (forall i | 0 <= i < |s.toParent| :: Verdict(suite, cfg, s, s.toParent[i]))
    && forall i | 0 <= i < |s.handled| :: Verdict(suite, cfg, s, s.handled[i])
  }

  ghost predicate Stems(s: State, m: Tagged<Packet>) {
    m.index < |s.passed| && m.item == s.passed[m.index]
  }

  ghost predicate Verdict(suite: Suite, cfg: DaemonConfig, s: State, m: Tagged<Judged>) {
    m.index < |s.passed| && m.item.msg == ValidateCapture(suite, cfg, s.passed[m.index], m.item.now)
  }

  /** Every grant comes from a validated datagram whose stanza the parent looked up again by name. */
  ghost predicate Backed(suite: Suite, cfg: DaemonConfig, s: State, g: Grant) {
    && g.index < |s.passed|
    && var m := ValidateCapture(suite, cfg, s.passed[g.index], g.now);
       && m.ValidRequest? && m.payload.message.Access? && g.payload == m.payload
       && var stanza := FindStanza(cfg.access, m.name);
          stanza.Some? && g.rule == RuleFor(cfg, stanza.value, m.payload)
  }

  ghost predicate Inv(suite: Suite, cfg: DaemonConfig, s: State) {
    && Ready(cfg, s)
    && Increasing(Pipe(s), |s.passed|)
    && Truthful(suite, cfg, s)
    && (forall i | 0 <= i < |s.granted| :: Backed(suite, cfg, s, s.granted[i]))
    && |s.passed| == s.limiter.stats.allowed
  }

  lemma TagsSplit<T>(ms: seq<Tagged<T>>)
    requires ms != []
    ensures Tags(ms) == [ms[0].index] + Tags(ms[1..])
  {}

  lemma TagsAppend<T>(ms: seq<Tagged<T>>, m: Tagged<T>)
    ensures Tags(ms + [m]) == Tags(ms) + [m.index]
  {}

  /** Removing one number from a strictly increasing list leaves it strictly increasing. */
  lemma IncreasingSkip(a: seq<nat>, x: nat, b: seq<nat>, bound: nat)
    requires Increasing(a + [x] + b, bound)
    ensures Increasing(a + b, bound)
  {
    var whole := a + [x] + b;
    forall i | 0 <= i < |a + b| ensures (a + b)[i] == whole[if i < |a| then i else i + 1] {}
  }

  lemma CheckSourceCounts(cfg: DaemonConfig, limiter: RateLimiters.System, ip: IpAddr, lockedAt: real, now: real)
    requires cfg.rateLimit.enabled ==> cfg.rateLimit.Valid() && LimiterRuns.SystemInv(cfg.rateLimit, limiter)
    ensures var (l, d) := CheckSource(cfg, limiter, ip, lockedAt, now);
            && l.stats.allowed == limiter.stats.allowed + (if d.Admit? then 1 else 0)
            && (cfg.rateLimit.enabled ==> LimiterRuns.SystemInv(cfg.rateLimit, l))
  {
    if cfg.rateLimit.enabled {
      LimiterRuns.ActKeepsInv(cfg.rateLimit, limiter, LimiterRuns.Arrive(ip, lockedAt, now));
      LimiterRuns.AllowedCountsAdmits(cfg.rateLimit, limiter, ip, lockedAt, now);
    }
  }

  lemma CaptureKeeps(suite: Suite, cfg: DaemonConfig, s: State, datagram: Packet, lockedAt: real, now: real)
    requires Valid(cfg) && Inv(suite, cfg, s)
    ensures Inv(suite, cfg, CaptureStep(cfg, s, datagram, lockedAt, now))
  {
    hide CheckSource, ValidateCapture, Valid, FindStanza, RuleFor, Tags;
    CheckSourceCounts(cfg, s.limiter, datagram.source, lockedAt, now) by { ValidRateLimit(cfg); }
    var r := CaptureStep(cfg, s, datagram, lockedAt, now);
    if r.passed != s.passed {
      TagsAppend(s.toCrypto, r.toCrypto[|s.toCrypto|]);
      assert Pipe(r) == Pipe(s) + [|s.passed|];
      PassedGrows(suite, cfg, s, r);
    }
  }

  lemma ValidRateLimit(cfg: DaemonConfig)
    requires Valid(cfg)
    ensures cfg.rateLimit.enabled ==> cfg.rateLimit.Valid()
  {}

  /** Messages and grants stay true when more datagrams pass. */
  lemma PassedGrows(suite: Suite, cfg: DaemonConfig, s: State, r: State)
    requires s.passed <= r.passed
    ensures forall m | Stems(s, m) :: Stems(r, m)
    ensures forall m | Verdict(suite, cfg, s, m) :: Verdict(suite, cfg, r, m)
    ensures forall g | Backed(suite, cfg, s, g) :: Backed(suite, cfg, r, g)
  {
    hide ValidateCapture, FindStanza, RuleFor;
  }

  lemma CryptoKeeps(suite: Suite, cfg: DaemonConfig, s: State, now: i64, panics: bool)
    requires Inv(suite, cfg, s)
    ensures Inv(suite, cfg, CryptoStep(suite, cfg, s, now, panics))
  {
    hide ValidateCapture, FindStanza, RuleFor, Tags, LimiterRuns.SystemInv;
    if s.toCrypto != [] {
      var r := CryptoStep(suite, cfg, s, now, panics);
      var head := s.toCrypto[0];
      TagsSplit(s.toCrypto);
      assert Pipe(s) == (Tags(s.handled) + Tags(s.toParent)) + [head.index] + Tags(s.toCrypto[1..]);
      PassedGrows(suite, cfg, s, r);
      assert Stems(s, head);
      if panics {
        IncreasingSkip(Tags(s.handled) + Tags(s.toParent), head.index, Tags(s.toCrypto[1..]), |s.passed|);
      } else {
        TagsAppend(s.toParent, r.toParent[|s.toParent|]);
        assert Pipe(r) == Pipe(s);
      }
    }
  }

  lemma DropKeeps(suite: Suite, cfg: DaemonConfig, s: State)
    requires Inv(suite, cfg, s) && s.toParent != []
    ensures Inv(suite, cfg, s.(toParent := s.toParent[1..]))
  {
    hide ValidateCapture, FindStanza, RuleFor, Tags, LimiterRuns.SystemInv;
    var r := s.(toParent := s.toParent[1..]);
    var head := s.toParent[0];
    TagsSplit(s.toParent);
    assert Pipe(s) == Tags(s.handled) + [head.index] + (Tags(s.toParent[1..]) + Tags(s.toCrypto));
    IncreasingSkip(Tags(s.handled), head.index, Tags(s.toParent[1..]) + Tags(s.toCrypto), |s.passed|);
    assert Pipe(r) == Tags(s.handled) + (Tags(s.toParent[1..]) + Tags(s.toCrypto));
    PassedGrows(suite, cfg, s, r);
  }

  lemma ParentKeeps(suite: Suite, cfg: DaemonConfig, s: State, insertedAt: nat, saveOk: bool)
    requires Inv(suite, cfg, s)
    ensures Inv(suite, cfg, ParentStep(cfg, s, insertedAt, saveOk))
  {
    hide ValidateCapture, FindStanza, RuleFor, LimiterRuns.SystemInv, CheckAndInsert, HandleCrypto, Backed, Pipe;
    if s.toParent != [] {
      var r := ParentStep(cfg, s, insertedAt, saveOk);
      var head := s.toParent[0];
      ParentPipe(cfg, s, insertedAt, saveOk);
      PassedGrows(suite, cfg, s, r);
      assert Verdict(suite, cfg, s, head);
      HandleKeepsGood(cfg, s.store, head.item.msg, insertedAt, saveOk);
      GrantIsBacked(suite, cfg, s, head, insertedAt, saveOk);
    }
  }

  lemma ParentPipe(cfg: DaemonConfig, s: State, insertedAt: nat, saveOk: bool)
    requires Good(s.store.mem) && s.toParent != []
    ensures Pipe(ParentStep(cfg, s, insertedAt, saveOk)) == Pipe(s)
  {
    hide HandleCrypto, Tags;
    TagsSplit(s.toParent);
    TagsAppend(s.handled, s.toParent[0]);
  }

  lemma GrantIsBacked(suite: Suite, cfg: DaemonConfig, s: State, m: Tagged<Judged>, insertedAt: nat, saveOk: bool)
    requires Good(s.store.mem) && Verdict(suite, cfg, s, m)
    ensures var rule := HandleCrypto(cfg, s.store, true, m.item.msg, insertedAt, saveOk).1;
            rule.Some? ==>
              && m.item.msg.ValidRequest?
              && Backed(suite, cfg, s, Grant(m.index, m.item.now, m.item.msg.payload, rule.value))
  {
    hide ValidateCapture, FindStanza, RuleFor, CheckAndInsert;
  }

  lemma HandleKeepsGood(cfg: DaemonConfig, s: Store, m: CryptoMsg, insertedAt: nat, saveOk: bool)
    requires Good(s.mem)
    ensures Good(HandleCrypto(cfg, s, true, m, insertedAt, saveOk).0.mem)
  {
    hide FindStanza, RuleFor, Lru.Push;
  }

  lemma TakeKeeps(suite: Suite, cfg: DaemonConfig, s: State, step: Step)
    requires Valid(cfg) && Inv(suite, cfg, s)
    ensures Inv(suite, cfg, Take(suite, cfg, s, step))
  {
    hide CaptureStep, CryptoStep, ParentStep, Prune, ValidateCapture, FindStanza, RuleFor, Valid, Pipe;
    match step
    case Capture(datagram, lockedAt, now) => CaptureKeeps(suite, cfg, s, datagram, lockedAt, now);
    case Crypto(now, panics) => CryptoKeeps(suite, cfg, s, now, panics);
    case Parent(insertedAt, saveOk) => ParentKeeps(suite, cfg, s, insertedAt, saveOk);
    case ParentDrop => if s.toParent != [] { DropKeeps(suite, cfg, s); }
    case PruneTick(now, saveOk) => PruneTickKeeps(suite, cfg, s, now, saveOk);
  }

  lemma PruneTickKeeps(suite: Suite, cfg: DaemonConfig, s: State, now: nat, saveOk: bool)
    requires Inv(suite, cfg, s)
    ensures Inv(suite, cfg, s.(store := Prune(s.store, true, WholeSeconds(cfg.replayMaxAge), now, saveOk).0))
  {
    hide ValidateCapture, FindStanza, RuleFor, Tags, LimiterRuns.SystemInv, Expire;
    ExpireDropsStale(s.store.mem, Cutoff(now, WholeSeconds(cfg.replayMaxAge)));
    PassedGrows(suite, cfg, s, s.(store := Prune(s.store, true, WholeSeconds(cfg.replayMaxAge), now, saveOk).0));
  }

  function Boot(cfg: DaemonConfig, store: Store, t0: real): State {
    State(RateLimiters.System(RateLimiters.FreshInner(cfg.rateLimit, t0), RateLimiters.NO_STATS, false),
          [], [], [], [], store, [])
  }

  function Schedule(suite: Suite, cfg: DaemonConfig, store: Store, t0: real, steps: seq<Step>): (s: State)
    requires Valid(cfg) && Good(store.mem)
    ensures Inv(suite, cfg, s)
  {
    if steps == [] then
      BootIsGood(suite, cfg, store, t0);
      Boot(cfg, store, t0)
    else
      var before := Schedule(suite, cfg, store, t0, steps[..|steps| - 1]);
      TakeKeeps(suite, cfg, before, steps[|steps| - 1]);
      Take(suite, cfg, before, steps[|steps| - 1])
  }

  lemma BootIsGood(suite: Suite, cfg: DaemonConfig, store: Store, t0: real)
    requires Valid(cfg) && Good(store.mem)
    ensures Inv(suite, cfg, Boot(cfg, store, t0))
  {
    if cfg.rateLimit.enabled { LimiterRuns.FreshIsGood(cfg.rateLimit, t0); }
  }

  /**
    Order: under every interleaving, the messages the parent has handled are, in order, verdicts on
    a subsequence of the datagrams the limiter passed; so there are at most `allowed` of them.
   */
  lemma HandledInOrder(suite: Suite, cfg: DaemonConfig, store: Store, t0: real, steps: seq<Step>)
    requires Valid(cfg) && Good(store.mem)
    ensures var s := Schedule(suite, cfg, store, t0, steps);
            && (forall i | 0 <= i < |s.handled| ::
                  var m := s.handled[i];
                  m.index < |s.passed| && m.item.msg == ValidateCapture(suite, cfg, s.passed[m.index], m.item.now))
            && (forall i, j | 0 <= i < j < |s.handled| :: s.handled[i].index < s.handled[j].index)
            && |s.handled| <= |s.passed| == s.limiter.stats.allowed
  {
    hide Schedule, ValidateCapture;
    var s := Schedule(suite, cfg, store, t0, steps);
    forall i | 0 <= i < |s.handled| ensures Pipe(s)[i] == s.handled[i].index {}
    forall i | 0 <= i < |s.handled| ensures Verdict(suite, cfg, s, s.handled[i]) {}
    AtMostBound(Tags(s.handled), |s.passed|);
  }

  lemma {:induction false} AtMostBound(xs: seq<nat>, bound: nat)
    requires Increasing(xs, bound)
    ensures |xs| <= bound
  {
    if xs != [] {
      AtMostBound(xs[..|xs| - 1], xs[|xs| - 1]);
    }
  }

  /** A step in which no worker panics and the parent skips nothing. */
  predicate Faultless(step: Step) {
    !step.ParentDrop? && (step.Crypto? ==> !step.panics)
  }

  /** A faultless step only moves messages along the pipe, or adds the newest datagram at its end. */
  lemma FaultlessMoves(suite: Suite, cfg: DaemonConfig, s: State, step: Step)
    requires Valid(cfg) && Ready(cfg, s) && Faultless(step)
    ensures var r := Take(suite, cfg, s, step);
            || (Pipe(r) == Pipe(s) && |r.passed| == |s.passed|)
            || (Pipe(r) == Pipe(s) + [|s.passed|] && |r.passed| == |s.passed| + 1)
  {
    hide CheckSource, ValidateCapture, HandleCrypto, Prune, Valid, Tags;
    var r := Take(suite, cfg, s, step);
    match step
    case Capture(_, _, _) => if r.passed != s.passed { TagsAppend(s.toCrypto, r.toCrypto[|s.toCrypto|]); }
    case Crypto(_, _) =>
      if s.toCrypto != [] {
        TagsSplit(s.toCrypto);
        TagsAppend(s.toParent, r.toParent[|s.toParent|]);
      }
    case Parent(_, _) =>
      if s.toParent != [] {
        TagsSplit(s.toParent);
        TagsAppend(s.handled, s.toParent[0]);
      }
    case PruneTick(_, _) =>
  }

  lemma {:induction false} PipeIsFull(suite: Suite, cfg: DaemonConfig, store: Store, t0: real, steps: seq<Step>)
    requires Valid(cfg) && Good(store.mem) && forall i | 0 <= i < |steps| :: Faultless(steps[i])
    ensures var s := Schedule(suite, cfg, store, t0, steps);
            |Pipe(s)| == |s.passed| && forall i | 0 <= i < |Pipe(s)| :: Pipe(s)[i] == i
  {
    hide Take, Valid, Inv;
    if steps != [] {
      var init, step := steps[..|steps| - 1], steps[|steps| - 1];
      PipeIsFull(suite, cfg, store, t0, init);
      InvIsReady(suite, cfg, Schedule(suite, cfg, store, t0, init));
      FaultlessMoves(suite, cfg, Schedule(suite, cfg, store, t0, init), step);
    }
  }

  lemma InvIsReady(suite: Suite, cfg: DaemonConfig, s: State)
    requires Inv(suite, cfg, s)
    ensures Ready(cfg, s)
  {}

  /**
    Nothing is lost: without panics and skipped messages, the parent's i-th message is the verdict on
    the i-th datagram the limiter passed, and every other passed datagram is still in a queue.
   */
  lemma NothingLost(suite: Suite, cfg: DaemonConfig, store: Store, t0: real, steps: seq<Step>)
    requires Valid(cfg) && Good(store.mem) && forall i | 0 <= i < |steps| :: Faultless(steps[i])
    ensures var s := Schedule(suite, cfg, store, t0, steps);
            && |s.handled| + |s.toParent| + |s.toCrypto| == |s.passed|
            && forall i | 0 <= i < |s.handled| ::
                 s.handled[i].item.msg == ValidateCapture(suite, cfg, s.passed[i], s.handled[i].item.now)
  {
    hide Schedule, ValidateCapture, Faultless;
    PipeIsFull(suite, cfg, store, t0, steps);
    HandledInOrder(suite, cfg, store, t0, steps);
    var s := Schedule(suite, cfg, store, t0, steps);
    forall i | 0 <= i < |s.handled| ensures s.handled[i].index == i {
      assert Pipe(s)[i] == s.handled[i].index;
    }
  }

  /**
    Authorization: under every interleaving, every rule ever requested is allowed by the policy
    (time window, allowlist, source match, ports, timeout cap) of the very stanza whose key verified
    the datagram it stems from, at the clock reading of its validation. It is what the documentation of
    that stanza allows exactly when the required username and the stanza's own maximum happen to be met.
   */
  lemma EveryGrantIsAllowed(suite: Suite, cfg: DaemonConfig, store: Store, t0: real, steps: seq<Step>, k: nat)
    requires Valid(cfg) && Good(store.mem)
    requires var s := Schedule(suite, cfg, store, t0, steps); k < |s.granted| && SaneClock(s.granted[k].now)
    ensures var s := Schedule(suite, cfg, store, t0, steps);
            var g := s.granted[k];
            && g.index < |s.passed|
            && exists i: nat ::
                 && AllowedBy(suite, cfg, s.passed[g.index], g.now, i, g.payload, g.rule)
                 && (DocumentedBy(suite, cfg, s.passed[g.index], g.now, i, g.payload, g.rule) <==>
                       RightUsername(cfg.access[i], g.payload) && SameCut(cfg, cfg.access[i]))
  {
    hide Schedule, ValidateCapture, FindStanza, RuleFor, AllowedBy, StanzaOk;
    var s := Schedule(suite, cfg, store, t0, steps);
    var g := s.granted[k];
    assert Backed(suite, cfg, s, g);
    ValidRequestIsAllowed(suite, cfg, s.passed[g.index], g.now);
    var m := ValidateCapture(suite, cfg, s.passed[g.index], g.now);
    var i: nat :| i < |cfg.access| && m.name == cfg.access[i].name
                  && AllowedBy(suite, cfg, s.passed[g.index], g.now, i, m.payload,
                               RuleFor(cfg, cfg.access[i], m.payload));
    FindIsUnique(cfg.access, i);
    DocumentedExactly(suite, cfg, s.passed[g.index], g.now, i, g.payload, g.rule);
  }

  // ----- no payload twice -----

  /** The last clock reading of the parent. */
  function Clock(start: nat, steps: seq<Step>): nat {
    if steps == [] then start
    else
      match steps[|steps| - 1]
      case Parent(insertedAt, _) => insertedAt
      case PruneTick(second, _) => second
      case _ => Clock(start, steps[..|steps| - 1])
  }

  /** The parent's clock does not go back, its message waited at most `wait` seconds, it evicts nothing that matters. */
  ghost predicate OnTime(cfg: DaemonConfig, wait: nat, s: State, clock: nat, step: Step)
    requires Good(s.store.mem)
  {
    match step
    case Parent(insertedAt, _) =>
      && clock <= insertedAt
      && (s.toParent != [] ==>
            && SaneClock(s.toParent[0].item.now)
            && s.toParent[0].item.now <= insertedAt <= s.toParent[0].item.now + wait
            && CanForget(Privsep(wait), cfg, s.store.mem, insertedAt))
    case PruneTick(second, _) => clock <= second
    case _ => true
  }

  ghost predicate Prompt(suite: Suite, cfg: DaemonConfig, store: Store, t0: real, wait: nat, start: nat,
                         steps: seq<Step>)
    requires Valid(cfg) && Good(store.mem)
  {
    steps != [] ==>
      var init := steps[..|steps| - 1];
      && Prompt(suite, cfg, store, t0, wait, start, init)
      && OnTime(cfg, wait, Schedule(suite, cfg, store, t0, init), Clock(start, init), steps[|steps| - 1])
  }

  function Payloads(gs: seq<Grant>): (ps: seq<Payload>)
    ensures |ps| == |gs| && forall i | 0 <= i < |gs| :: ps[i] == gs[i].payload
  {
    if gs == [] then [] else Payloads(gs[..|gs| - 1]) + [gs[|gs| - 1].payload]
  }

  /** The parent as the daemon of the replay window. */
  function AsDaemon(s: State, clock: nat): Daemon {
    Daemon(s.store, clock, Payloads(s.granted))
  }

  /** One parent step is the receipt of the datagram its message judges, checked at the message's clock reading. */
  lemma ParentIsReceive(suite: Suite, cfg: DaemonConfig, s: State, wait: nat, clock: nat, insertedAt: nat, saveOk: bool)
    requires Inv(suite, cfg, s) && s.toParent != []
    ensures s.toParent[0].index < |s.passed|
    ensures var m := s.toParent[0];
            AsDaemon(ParentStep(cfg, s, insertedAt, saveOk), insertedAt)
            == Happen(Privsep(wait), suite, cfg, AsDaemon(s, clock),
                      Receive(s.passed[m.index], m.item.now, insertedAt, saveOk))
  {
    hide ValidateCapture, CheckAndInsert, FindStanza, RuleFor, PayloadOf, Tags, LimiterRuns.SystemInv;
    var m := s.toParent[0];
    assert Verdict(suite, cfg, s, m);
    ValidRequestIsComplete(suite, cfg, s.passed[m.index], m.item.now);
  }

  lemma {:induction false} ScheduleIsGuarded(suite: Suite, cfg: DaemonConfig, store: Store, t0: real,
                                             wait: nat, start: nat, steps: seq<Step>)
    requires Valid(cfg) && Good(store.mem) && ReplayCrash.Submap(store.mem.vals, store.disk)
    requires Prompt(suite, cfg, store, t0, wait, start, steps)
    requires WholeSeconds(cfg.replayMaxAge) >= MaxAgeSeconds(cfg) + MAX_SKEW + wait
    ensures Guarded(Privsep(wait), cfg, AsDaemon(Schedule(suite, cfg, store, t0, steps), Clock(start, steps)))
  {
    hide Take, Inv, Valid, Guarded, OnTime;
    if steps == [] {
      BootIsGuarded(cfg, store, t0, wait, start);
    } else {
      var init, step := steps[..|steps| - 1], steps[|steps| - 1];
      ScheduleIsGuarded(suite, cfg, store, t0, wait, start, init);
      StepKeepsGuarded(suite, cfg, Schedule(suite, cfg, store, t0, init), wait, Clock(start, init), step);
    }
  }

  lemma BootIsGuarded(cfg: DaemonConfig, store: Store, t0: real, wait: nat, start: nat)
    requires Good(store.mem) && ReplayCrash.Submap(store.mem.vals, store.disk)
    ensures Guarded(Privsep(wait), cfg, AsDaemon(Boot(cfg, store, t0), start))
  {}

  lemma StepKeepsGuarded(suite: Suite, cfg: DaemonConfig, s: State, wait: nat, clock: nat, step: Step)
    requires Valid(cfg) && Inv(suite, cfg, s) && Guarded(Privsep(wait), cfg, AsDaemon(s, clock))
    requires OnTime(cfg, wait, s, clock, step)
    requires WholeSeconds(cfg.replayMaxAge) >= MaxAgeSeconds(cfg) + MAX_SKEW + wait
    ensures var clock' := match step case Parent(t, _) => t case PruneTick(t, _) => t case _ => clock;
            Guarded(Privsep(wait), cfg, AsDaemon(Take(suite, cfg, s, step), clock'))
  {
    hide Guarded, ParentStep, Prune, Valid, MaxAgeSeconds, WholeSeconds, CheckSource, ValidateCapture, Pipe;
    var mode, d := Privsep(wait), AsDaemon(s, clock);
    match step
    case Parent(insertedAt, saveOk) =>
      if s.toParent == [] {
        TimePasses(mode, cfg, d, insertedAt);
        assert Take(suite, cfg, s, step) == s by { EmptyParent(cfg, s, insertedAt, saveOk); }
      } else {
        var m := s.toParent[0];
        ParentIsReceive(suite, cfg, s, wait, clock, insertedAt, saveOk);
        ReceiveKeeps(mode, suite, cfg, d, s.passed[m.index], m.item.now, insertedAt, saveOk);
      }
    case PruneTick(second, saveOk) => TickKeeps(mode, suite, cfg, d, second, saveOk);
    case _ =>
  }

  lemma EmptyParent(cfg: DaemonConfig, s: State, insertedAt: nat, saveOk: bool)
    requires Good(s.store.mem) && s.toParent == []
    ensures ParentStep(cfg, s, insertedAt, saveOk) == s
  {}

  lemma TimePasses(mode: Mode, cfg: DaemonConfig, d: Daemon, now: nat)
    requires Guarded(mode, cfg, d) && d.clock <= now
    ensures Guarded(mode, cfg, d.(clock := now))
  {
    StaysCovered(mode, cfg, d, d.(clock := now));
  }

  /**
    Replay protection of the three processes: along every schedule in which the parent's clock never
    goes back, each message it handles was judged at most `wait` seconds before, and evictions only hit
    entries too old to matter, no payload is granted twice, if nonces are kept
    `max_spa_packet_age + 30 + wait` seconds.
   */
  lemma NoGrantTwice(suite: Suite, cfg: DaemonConfig, store: Store, t0: real, wait: nat, start: nat, steps: seq<Step>)
    requires Valid(cfg) && Good(store.mem) && ReplayCrash.Submap(store.mem.vals, store.disk)
    requires Prompt(suite, cfg, store, t0, wait, start, steps)
    requires WholeSeconds(cfg.replayMaxAge) >= MaxAgeSeconds(cfg) + MAX_SKEW + wait
    ensures var gs := Schedule(suite, cfg, store, t0, steps).granted;
            forall i, j | 0 <= i < j < |gs| :: gs[i].payload != gs[j].payload
  {
    hide Schedule, Prompt;
    ScheduleIsGuarded(suite, cfg, store, t0, wait, start, steps);
    var gs := Schedule(suite, cfg, store, t0, steps).granted;
    forall i, j | 0 <= i < j < |gs| ensures gs[i].payload != gs[j].payload {
      assert Payloads(gs)[i] != Payloads(gs)[j];
    }
  }

  // ----- what must be granted -----

  /** The parent grants what the head of its queue asks for, if a stanza allows it and its nonce is new. */
  lemma ParentGrants(suite: Suite, cfg: DaemonConfig, s: State, insertedAt: nat, i: nat, p: Payload, rule: AccessRule)
    requires Inv(suite, cfg, s) && s.toParent != [] && UniqueNames(cfg.access)
    requires var m := s.toParent[0];
             && m.index < |s.passed| && SaneClock(m.item.now)
             && AllowedBy(suite, cfg, s.passed[m.index], m.item.now, i, p, rule)
    requires p.nonce !in s.store.mem.vals
    ensures var m := s.toParent[0];
            ParentStep(cfg, s, insertedAt, true).granted == s.granted + [Grant(m.index, m.item.now, p, rule)]
  {
    hide ValidateCapture, FindStanza, RuleFor, AllowedBy, Lru.Push, Pipe, LimiterRuns.SystemInv;
    var m := s.toParent[0];
    assert Verdict(suite, cfg, s, m);
    ValidRequestIsAllowed(suite, cfg, s.passed[m.index], m.item.now);
    AllowedIsAccess(suite, cfg, s.passed[m.index], m.item.now, i, p, rule);
    FindIsUnique(cfg.access, i);
  }

  lemma {:induction false} GrantsStay(suite: Suite, cfg: DaemonConfig, store: Store, t0: real, steps: seq<Step>, k: nat)
    requires Valid(cfg) && Good(store.mem) && k <= |steps|
    ensures Schedule(suite, cfg, store, t0, steps[..k]).granted <= Schedule(suite, cfg, store, t0, steps).granted
  {
    hide Valid, Inv, Take;
    if k == |steps| {
      assert steps[..k] == steps;
    } else {
      var init, step := steps[..|steps| - 1], steps[|steps| - 1];
      GrantsStay(suite, cfg, store, t0, init, k);
      assert init[..k] == steps[..k];
      InvIsReady(suite, cfg, Schedule(suite, cfg, store, t0, init));
      TakeKeepsGrants(suite, cfg, Schedule(suite, cfg, store, t0, init), step);
    }
  }

  lemma TakeKeepsGrants(suite: Suite, cfg: DaemonConfig, s: State, step: Step)
    requires Valid(cfg) && Ready(cfg, s)
    ensures s.granted <= Take(suite, cfg, s, step).granted
  {
    hide Valid, CheckSource, ValidateCapture, HandleCrypto, Prune;
  }

  /**
    Authorization is complete: under every interleaving, a datagram that reached the parent, was judged
    while some stanza allowed it, and whose nonce is not in the cache when the parent handles it and can
    save it, has its rule requested, then and for good.
   */
  lemma HandledIsGranted(suite: Suite, cfg: DaemonConfig, store: Store, t0: real, steps: seq<Step>, k: nat,
                         i: nat, p: Payload, rule: AccessRule)
    requires Valid(cfg) && Good(store.mem) && k < |steps| && steps[k].Parent? && steps[k].saveOk
    requires var s := Schedule(suite, cfg, store, t0, steps[..k]);
             && s.toParent != [] && p.nonce !in s.store.mem.vals
             && var m := s.toParent[0];
                && m.index < |s.passed| && SaneClock(m.item.now)
                && AllowedBy(suite, cfg, s.passed[m.index], m.item.now, i, p, rule)
    ensures var m := Schedule(suite, cfg, store, t0, steps[..k]).toParent[0];
            Grant(m.index, m.item.now, p, rule) in Schedule(suite, cfg, store, t0, steps).granted
  {
    hide Schedule, AllowedBy, Inv, ParentStep;
    var s, upTo := Schedule(suite, cfg, store, t0, steps[..k]), steps[..k + 1];
    ParentLast(suite, cfg, store, t0, upTo);
    assert upTo[..k] == steps[..k];
    AccessIsUnique(cfg);
    ParentGrants(suite, cfg, s, steps[k].insertedAt, i, p, rule);
    GrantsStay(suite, cfg, store, t0, steps, k + 1);
    assert Schedule(suite, cfg, store, t0, upTo).granted[|s.granted|]
        == Grant(s.toParent[0].index, s.toParent[0].item.now, p, rule);
  }

  lemma AccessIsUnique(cfg: DaemonConfig)
    requires Valid(cfg)
    ensures UniqueNames(cfg.access)
  {}

  lemma ParentLast(suite: Suite, cfg: DaemonConfig, store: Store, t0: real, steps: seq<Step>)
    requires Valid(cfg) && Good(store.mem) && steps != [] && steps[|steps| - 1].Parent?
    ensures var s := Schedule(suite, cfg, store, t0, steps[..|steps| - 1]);
            var step := steps[|steps| - 1];
            && Good(s.store.mem)
            && Schedule(suite, cfg, store, t0, steps) == ParentStep(cfg, s, step.insertedAt, step.saveOk)
  {
    hide Valid, Pipe, ParentStep;
  }

  /**
    End to end: with idle queues, a captured datagram that the limiter admits, whose first 1500 bytes some
    stanza allows at the crypto worker's clock reading, and whose nonce is new, gets exactly its rule.
   */
  lemma CapturedIsGranted(suite: Suite, cfg: DaemonConfig, s: State, datagram: Packet, lockedAt: real, instant: real,
                          now: i64, insertedAt: nat, i: nat, p: Payload, rule: AccessRule)
    requires Valid(cfg) && Inv(suite, cfg, s) && s.toCrypto == [] && s.toParent == [] && SaneClock(now)
    requires cfg.rateLimit.enabled ==> cfg.rateLimit.Valid()
    requires CheckSource(cfg, s.limiter, datagram.source, lockedAt, instant).1.Admit?
    requires var data := if |datagram.data| <= 1500 then datagram.data else datagram.data[..1500];
             AllowedBy(suite, cfg, Packet(datagram.source, data), now, i, p, rule)
    requires p.nonce !in s.store.mem.vals
    ensures Ready(cfg, CaptureStep(cfg, s, datagram, lockedAt, instant))
    ensures var s1 := Take(suite, cfg, s, Capture(datagram, lockedAt, instant));
            var s2 := CryptoStep(suite, cfg, s1, now, false);
            && Good(s2.store.mem)
            && ParentStep(cfg, s2, insertedAt, true).granted == s.granted + [Grant(|s.passed|, now, p, rule)]
  {
    hide Valid, AllowedBy, Inv, CheckSource, ParentStep, ValidateCapture;
    InvIsReady(suite, cfg, s);
    var s1 := CaptureStep(cfg, s, datagram, lockedAt, instant);
    CaptureKeeps(suite, cfg, s, datagram, lockedAt, instant);
    InvIsReady(suite, cfg, s1);
    var s2 := CryptoStep(suite, cfg, s1, now, false);
    CryptoKeeps(suite, cfg, s1, now, false);
    InvIsReady(suite, cfg, s2);
    AccessIsUnique(cfg);
    ParentGrants(suite, cfg, s2, insertedAt, i, p, rule);
  }

  /** A prune in the schedule forgets exactly the entries older than `replay_cache_max_age`, to the nanosecond. */
  lemma PruneTickForgets(suite: Suite, cfg: DaemonConfig, s: State, second: nat, saveOk: bool)
    requires Valid(cfg) && Ready(cfg, s)
    ensures var mem := Take(suite, cfg, s, PruneTick(second, saveOk)).store.mem;
            forall n :: n in mem.vals <==>
              n in s.store.mem.vals && (second - s.store.mem.vals[n]) * 1_000_000_000 <= cfg.replayMaxAge
  {
    hide Valid, Prune;
    PruneExactly(s.store, true, WholeSeconds(cfg.replayMaxAge), second, saveOk);
  }

  // ----- what a fault loses -----

  /** The datagram a faulty step gives up on, if it is one. */
  function GivenUp(s: State, step: Step): (r: set<nat>) {
    if step.ParentDrop? && s.toParent != [] then {s.toParent[0].index}
    else if step.Crypto? && step.panics && s.toCrypto != [] then {s.toCrypto[0].index}
    else {}
  }

  /** Every step keeps all numbers in the pipe but the one given up, and adds at most a new one. */
  lemma TakePipe(suite: Suite, cfg: DaemonConfig, s: State, step: Step, j: nat)
    requires Valid(cfg) && Inv(suite, cfg, s) && j < |s.passed|
    ensures var r := Take(suite, cfg, s, step);
            |s.passed| <= |r.passed| && (j in Pipe(r) <==> j in Pipe(s) && j !in GivenUp(s, step))
  {
    hide CheckSource, ValidateCapture, HandleCrypto, Prune, Valid, Tags, Truthful, Backed;
    if Faultless(step) {
      FaultlessMoves(suite, cfg, s, step);
    } else if step.ParentDrop? {
      if s.toParent != [] {
        var rest := Tags(s.toParent[1..]) + Tags(s.toCrypto);
        TagsSplit(s.toParent);
        assert Pipe(s) == Tags(s.handled) + [s.toParent[0].index] + rest;
        OnceOnly(Tags(s.handled), s.toParent[0].index, rest, |s.passed|);
        assert Pipe(Take(suite, cfg, s, step)) == Tags(s.handled) + rest;
      }
    } else if s.toCrypto != [] {
      var front := Tags(s.handled) + Tags(s.toParent);
      TagsSplit(s.toCrypto);
      assert Pipe(s) == front + [s.toCrypto[0].index] + Tags(s.toCrypto[1..]);
      OnceOnly(front, s.toCrypto[0].index, Tags(s.toCrypto[1..]), |s.passed|);
      assert Pipe(Take(suite, cfg, s, step)) == front + Tags(s.toCrypto[1..]);
    }
  }

  lemma OnceOnly(a: seq<nat>, x: nat, b: seq<nat>, bound: nat)
    requires Increasing(a + [x] + b, bound)
    ensures forall j :: j in a + b <==> j in a + [x] + b && j != x
  {
    var whole := a + [x] + b;
    assert whole[|a|] == x;
    forall i | 0 <= i < |a| ensures a[i] != x { assert whole[i] == a[i]; }
    forall i | 0 <= i < |b| ensures b[i] != x { assert whole[|a| + 1 + i] == b[i]; }
  }

  /** A datagram given up by a panic or a skip, and no other, is never handled, however the run goes on. */
  lemma {:induction false} FaultLosesOne(suite: Suite, cfg: DaemonConfig, store: Store, t0: real, steps: seq<Step>,
                                         k: nat, j: nat)
    requires Valid(cfg) && Good(store.mem) && k < |steps|
    requires j in GivenUp(Schedule(suite, cfg, store, t0, steps[..k]), steps[k])
    ensures var s := Schedule(suite, cfg, store, t0, steps);
            j < |s.passed| && j !in Pipe(s) && forall i | 0 <= i < |s.handled| :: s.handled[i].index != j
  {
    hide Valid, Inv, Take, Pipe;
    var init, step := steps[..|steps| - 1], steps[|steps| - 1];
    var s := Schedule(suite, cfg, store, t0, init);
    InvIsReady(suite, cfg, s);
    if k == |steps| - 1 {
      assert steps[..k] == init;
      GivenUpIsPassed(suite, cfg, s, step, j);
    } else {
      assert init[..k] == steps[..k];
      FaultLosesOne(suite, cfg, store, t0, init, k, j);
    }
    TakePipe(suite, cfg, s, step, j);
    HandledIsInPipe(Schedule(suite, cfg, store, t0, steps));
  }

  lemma GivenUpIsPassed(suite: Suite, cfg: DaemonConfig, s: State, step: Step, j: nat)
    requires Inv(suite, cfg, s) && j in GivenUp(s, step)
    ensures j < |s.passed|
  {
    hide ValidateCapture, LimiterRuns.SystemInv;
    assert step.ParentDrop? ==> Verdict(suite, cfg, s, s.toParent[0]);
    assert step.Crypto? ==> Stems(s, s.toCrypto[0]);
  }

  lemma HandledIsInPipe(s: State)
    ensures forall i | 0 <= i < |s.handled| :: s.handled[i].index in Pipe(s)
  {
    forall i | 0 <= i < |s.handled| ensures s.handled[i].index in Pipe(s) {
      assert Pipe(s)[i] == s.handled[i].index;
    }
  }
}
