/**
  Crash safety of the replay cache. One caller (both main loops are single-threaded) runs the
  steps of `check_and_insert`, of `prune_older_than` and of the rule request that follows an
  acceptance; the process may die between any two of them and reload the file.
 */
module ReplayCrash {
  import opened LruCaches
  import opened ReplayCaches

  datatype Phase =
    | Idle
    | Inserted(nonce: Nonce)      // in memory, not yet written
    | SaveFailed(nonce: Nonce)    // write failed, rollback pending
    | Durable(nonce: Nonce)       // accepted: the rule may now be requested
    | Expired                     // entries dropped from memory, file not yet written

  datatype Machine = Machine(
    mem: Memory,
    disk: Entries,
    phase: Phase,
    requested: seq<Nonce>,        // nonces whose rule was requested
    removed: set<Nonce>           // nonces evicted, pruned or lost at a reload, and not requested since
  )

  datatype Event =
    | Begin(nonce: Nonce, now: nat)
    | SaveOk
    | SaveFail
    | Rollback
    | Request
    | Refuse                      // a policy check rejects the accepted packet
    | PruneMemory(maxAge: nat, now: nat)
    | FinalSave                   // the save at shutdown
    | Crash(ks: seq<Nonce>)       // the process dies; the new one reads the entries in this order

  function Next(m: Machine, e: Event): (r: Machine)
    requires Good(m.mem)
    ensures Good(r.mem)
  {
    match (m.phase, e)
    case (Idle, Begin(n, now)) =>
      if n in m.mem.vals then m
      else
        var (mem, gone) := m.mem.Push(n, now);
        m.(mem := mem, phase := Inserted(n), removed := m.removed + if gone.Some? then {gone.value} else {})
    case (Inserted(n), SaveOk) => m.(disk := m.mem.vals, phase := Durable(n))
    case (Inserted(n), SaveFail) => m.(phase := SaveFailed(n))
    case (SaveFailed(n), Rollback) => m.(mem := m.mem.Pop(n), phase := Idle)
    case (Durable(n), Request) => m.(requested := m.requested + [n], removed := m.removed - {n}, phase := Idle)
    case (Durable(n), Refuse) => m.(phase := Idle)
    case (Idle, PruneMemory(maxAge, now)) =>
      var stale := Stale(m.mem.order, m.mem.vals, Cutoff(now, maxAge));
      if stale == [] then m
      else m.(mem := PopAll(m.mem, stale), phase := Expired, removed := m.removed + Elements(stale))
    case (Expired, SaveOk) => m.(disk := m.mem.vals, phase := Idle)
    case (Expired, SaveFail) => m.(phase := Idle)
    case (Idle, FinalSave) => m.(disk := m.mem.vals)
    case (_, Crash(ks)) => if IsEnumeration(ks, m.disk) then Reload(m, ks) else m
    case _ => m
  }

  /** A new process loads the file, with the default capacity. */
  function Reload(m: Machine, ks: seq<Nonce>): (r: Machine)
    requires IsEnumeration(ks, m.disk)
    ensures Good(r.mem)
  {
    var mem := Load(DEFAULT_MAX_ENTRIES, ks, m.disk);
    m.(mem := mem, phase := Idle, removed := m.removed + (m.disk.Keys - mem.vals.Keys))
  }

  /** `Enumerates`, in a form that can be computed. */
  predicate IsEnumeration(ks: seq<Nonce>, disk: Entries) {
    |ks| == |disk| && Elements(ks) == disk.Keys
  }

  ghost predicate Submap(a: Entries, b: Entries) {
    forall k | k in a :: k in b && b[k] == a[k]
  }

  /** Memory never holds more than the file, except for the nonce being inserted. */
  ghost predicate MemoryBacked(m: Machine) {
    match m.phase
    case Inserted(n) => n in m.mem.vals && Submap(m.mem.vals - {n}, m.disk)
    case SaveFailed(n) => n in m.mem.vals && Submap(m.mem.vals - {n}, m.disk)
    case Durable(n) => n in m.mem.vals && Submap(m.mem.vals, m.disk)
    case _ => Submap(m.mem.vals, m.disk)
  }

  /** Every nonce whose rule was requested is remembered, unless it was removed on the way. */
  ghost predicate Remembered(m: Machine) {
    forall n | n in m.requested :: n in m.mem.vals || n in m.removed
  }

  ghost predicate Safe(m: Machine) {
    && Good(m.mem)
    && MemoryBacked(m)
    && Remembered(m)
    && match m.phase
       case Inserted(n) => n in m.requested ==> n in m.removed
       case SaveFailed(n) => n in m.requested ==> n in m.removed
       case _ => true
  }

  lemma BeginKeepsSafe(m: Machine, n: Nonce, now: nat)
    requires Safe(m) && m.phase.Idle?
    ensures Safe(Next(m, Begin(n, now)))
  {
    hide Lru.Push;
    if n !in m.mem.vals {
      var (mem, gone) := m.mem.Push(n, now);
      forall k | k in mem.vals && k != n ensures k in m.mem.vals && mem.vals[k] == m.mem.vals[k] {
        assert |m.mem.order| < m.mem.cap || |m.mem.order| == m.mem.cap;
      }
      forall k | k in m.mem.vals ensures k in mem.vals || (gone.Some? && gone.value == k) {
        assert |m.mem.order| < m.mem.cap || |m.mem.order| == m.mem.cap;
      }
    }
  }

  lemma PruneKeepsSafe(m: Machine, maxAge: nat, now: nat)
    requires Safe(m) && m.phase.Idle?
    ensures Safe(Next(m, PruneMemory(maxAge, now)))
  {
    hide PopAll, Stale;
  }

  lemma ReloadKeepsSafe(m: Machine, ks: seq<Nonce>)
    requires Safe(m) && IsEnumeration(ks, m.disk)
    ensures Safe(Reload(m, ks))
  {
    hide Load;
    var r := Reload(m, ks);
    assert Submap(r.mem.vals, r.disk);
    forall n | n in m.requested ensures n in r.mem.vals || n in r.removed {
      assert n in m.removed || n in m.disk;
    }
  }

  lemma CrashReloads(m: Machine, ks: seq<Nonce>)
    requires Safe(m) && IsEnumeration(ks, m.disk)
    ensures Next(m, Crash(ks)) == Reload(m, ks)
  {
    hide Reload, IsEnumeration;
  }

  lemma OtherKeepsSafe(m: Machine, e: Event)
    requires Safe(m) && (e.Begin? || e.PruneMemory? ==> !m.phase.Idle?) && (e.Crash? ==> !IsEnumeration(e.ks, m.disk))
    ensures Safe(Next(m, e))
  {
    hide Lru.Push, Lru.Valid, Reload, PopAll, Stale, IsEnumeration;
  }

  lemma NextKeepsSafe(m: Machine, e: Event)
    requires Safe(m)
    ensures Safe(Next(m, e))
  {
    hide Next, Safe, IsEnumeration;
    if e.Begin? && m.phase.Idle? {
      BeginKeepsSafe(m, e.nonce, e.now);
    } else if e.PruneMemory? && m.phase.Idle? {
      PruneKeepsSafe(m, e.maxAge, e.now);
    } else if e.Crash? && IsEnumeration(e.ks, m.disk) {
      ReloadKeepsSafe(m, e.ks);
      CrashReloads(m, e.ks);
    } else {
      OtherKeepsSafe(m, e);
    }
  }

  /** A machine at rest whose memory came from its file. */
  ghost predicate Started(m: Machine) {
    Good(m.mem) && m.phase == Idle && Submap(m.mem.vals, m.disk) && m.requested == [] && m.removed == {}
  }

  function After(m: Machine, es: seq<Event>): (r: Machine)
    requires Good(m.mem)
    ensures Good(r.mem)
  {
    if es == [] then m else Next(After(m, es[..|es| - 1]), es[|es| - 1])
  }

  lemma {:induction false} ReachableIsSafe(m: Machine, es: seq<Event>)
    requires Started(m)
    ensures Safe(After(m, es))
  {
    hide Next;
    if es != [] {
      ReachableIsSafe(m, es[..|es| - 1]);
      NextKeepsSafe(After(m, es[..|es| - 1]), es[|es| - 1]);
    }
  }

  /**
    Crash safety. Over every sequence of steps, failed saves and crashes: between operations memory
    is a submap of the file; a rule is requested only for a nonce that is already in the file; and
    a nonce whose rule was requested is still rejected, also right after a crash and reload, unless
    it was evicted, pruned, or lost to the reload capacity after its last request.
   */
  lemma CrashSafety(m: Machine, es: seq<Event>)
    requires Started(m)
    ensures var r := After(m, es);
            && (r.phase.Idle? ==> Submap(r.mem.vals, r.disk))
            && (r.phase.Durable? ==> r.phase.nonce in r.disk)
            && (forall n | n in r.requested && n !in r.removed ::
                  forall now: nat, ok :: CheckAndInsert(Store(r.mem, r.disk), true, n, now, ok).1 == Replay)
            && (forall n | n in r.requested && n !in r.removed :: n in r.disk)
  {
    hide After, CheckAndInsert;
    ReachableIsSafe(m, es);
    var r := After(m, es);
    forall n, now: nat, ok | n in r.requested && n !in r.removed
      ensures CheckAndInsert(Store(r.mem, r.disk), true, n, now, ok).1 == Replay
    {
      PresentIsReplay(Store(r.mem, r.disk), true, n, now, ok);
    }
  }

  /** The steps of one insertion, taken in a row, are `check_and_insert`. */
  lemma StepsAreInsert(m: Machine, n: Nonce, now: nat, ok: bool)
    requires Good(m.mem) && m.phase == Idle && n !in m.mem.vals
    ensures var (s, r) := CheckAndInsert(Store(m.mem, m.disk), true, n, now, ok);
            var m1 := Next(m, Begin(n, now));
            var m2 := if ok then Next(m1, SaveOk) else Next(Next(m1, SaveFail), Rollback);
            Store(m2.mem, m2.disk) == s && m2.phase == if r.Fresh? then Durable(n) else Idle
  {
    hide Lru.Push, Lru.Pop;
  }

  /** The steps of one prune, taken in a row, are `prune_older_than`. */
  lemma StepsArePrune(m: Machine, maxAge: nat, now: nat, ok: bool)
    requires Good(m.mem) && m.phase == Idle
    ensures var s := Prune(Store(m.mem, m.disk), true, maxAge, now, ok).0;
            var m1 := Next(m, PruneMemory(maxAge, now));
            var m2 := if ok then Next(m1, SaveOk) else Next(m1, SaveFail);
            Store(m2.mem, m2.disk) == s && m2.phase == Idle
  {
    hide Stale, PopAll, Reload;
    PopAllShrinks(m.mem, Stale(m.mem.order, m.mem.vals, Cutoff(now, maxAge)));
  }

  lemma {:induction false} PopAllShrinks(mem: Memory, ks: seq<Nonce>)
    requires mem.Valid() && forall k | k in ks :: k in mem.vals
    ensures if ks == [] then PopAll(mem, ks) == mem else |PopAll(mem, ks).order| < |mem.order|
  {
    if ks != [] {
      PopAllShrinks(mem, ks[..|ks| - 1]);
      var r := PopAll(mem, ks);
      r.SizeOfOrder();
      mem.SizeOfOrder();
      assert r.vals.Keys < mem.vals.Keys by { assert ks[|ks| - 1] in mem.vals && ks[|ks| - 1] !in r.vals; }
      SubsetSize(r.vals.Keys, mem.vals.Keys - {ks[|ks| - 1]});
    }
  }

  /** A request is recorded once its nonce is in the file; a refusal spends the nonce without a request. */
  lemma RequestRecords(m: Machine, n: Nonce, now: nat)
    requires Good(m.mem) && m.phase == Idle && n !in m.mem.vals
    ensures var saved := Next(Next(m, Begin(n, now)), SaveOk);
            var (asked, refused) := (Next(saved, Request), Next(saved, Refuse));
            && n in saved.mem.vals && saved.disk == saved.mem.vals
            && asked.requested == m.requested + [n] && n !in asked.removed
            && refused.requested == m.requested
            && (asked.mem, asked.disk, asked.phase) == (refused.mem, refused.disk, refused.phase)
            && asked.mem == saved.mem && asked.disk == saved.disk && asked.phase == Idle
  {
    hide Lru.Push;
  }

  /** Only what an event drops from memory, or a reload leaves in the file, is ever counted as removed. */
  lemma RemovedIsGone(m: Machine, e: Event, n: Nonce)
    requires Good(m.mem) && n in Next(m, e).removed && n !in m.removed
    ensures n !in Next(m, e).mem.vals && (n in m.mem.vals || (e.Crash? && n in m.disk))
  {
    hide PopAll, Stale, Load;
  }

  /** An orderly shutdown and restart forgets nothing, if memory fits the capacity the file is loaded with. */
  lemma ShutdownRestart(m: Machine, ks: seq<Nonce>)
    requires Good(m.mem) && m.phase == Idle && IsEnumeration(ks, m.mem.vals) && Distinct(ks) && |m.mem.vals| <= 10_000
    ensures var r := Next(Next(m, FinalSave), Crash(ks));
            r.mem.vals == r.disk == m.mem.vals && r.requested == m.requested && r.removed == m.removed
  {
    hide Load;
    assert forall k :: k in ks <==> k in Elements(ks);
    LoadWhole(DEFAULT_MAX_ENTRIES, ks, m.mem.vals);
  }
}
