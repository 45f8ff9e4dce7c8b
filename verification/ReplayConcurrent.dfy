/**
  Many callers of `check_and_insert` at once. Each call is two lock-delimited sections, the
  insertion and (after a failed save) the rollback, and sections of different calls interleave
  in any order. The write between them holds no lock and does not touch memory.
 */
module ReplayConcurrent {
  import opened Options
  import opened LruCaches
  import opened ReplayCaches

  type Call = nat    // one invocation of `check_and_insert`

  datatype Pool = Pool(
    mem: Memory,
    started: set<Call>,
    saving: map<Call, Nonce>,     // inserted its nonce, save still running
    accepted: map<Call, Nonce>,   // returned Ok(true)
    owner: map<Nonce, Call>,      // the call that inserted the current entry
    lost: set<Call>               // calls whose entry was evicted, pruned, or removed by a lost call's rollback
  )

  datatype Section =
    | Enter(call: Call, nonce: Nonce, now: nat)
    | Commit(call: Call)
    | RollBack(call: Call)
    | PrunePool(maxAge: nat, now: nat)

  function Do(p: Pool, s: Section): (r: Pool)
    requires Good(p.mem)
    ensures Good(r.mem)
  {
    match s
    case Enter(c, n, now) => if c in p.started then p else EnterCall(p, c, n, now).(started := p.started + {c})
    case Commit(c) =>
      if c in p.saving then p.(saving := p.saving - {c}, accepted := p.accepted[c := p.saving[c]]) else p
    case RollBack(c) =>
      if c in p.saving then
        var n := p.saving[c];
        p.(mem := p.mem.Pop(n), saving := p.saving - {c},
           lost := p.lost + if c in p.lost then OwnersOf(p, {n}) else {})
      else p
    case PrunePool(maxAge, now) =>
      var stale := Stale(p.mem.order, p.mem.vals, Cutoff(now, maxAge));
      p.(mem := PopAll(p.mem, stale), lost := p.lost + OwnersOf(p, Elements(stale)))
  }

  /** The calls whose live entries these are. */
  function OwnersOf(p: Pool, ns: set<Nonce>): set<Call> {
    set n | n in ns && n in p.mem.vals && n in p.owner :: p.owner[n]
  }

  function EnterCall(p: Pool, c: Call, n: Nonce, now: nat): (r: Pool)
    requires Good(p.mem)
    ensures Good(r.mem)
  {
    if n in p.mem.vals then p
    else
      var (mem, evicted) := p.mem.Push(n, now);
      p.(mem := mem, saving := p.saving[c := n], owner := p.owner[n := c],
         lost := p.lost + if evicted.Some? then OwnersOf(p, {evicted.value}) else {})
  }

  /** `c` inserted `n` and did not roll back. */
  ghost predicate Holds(p: Pool, c: Call, n: Nonce) {
    (c in p.saving && p.saving[c] == n) || (c in p.accepted && p.accepted[c] == n)
  }

  /** The live entry of `n` is the one `c` inserted. */
  ghost predicate Owns(p: Pool, c: Call, n: Nonce) {
    n in p.mem.vals && n in p.owner && p.owner[n] == c
  }

  /** Whoever holds `n` inserted only `n`, and owns its live entry exactly as long as it is not lost. */
  ghost predicate Settled(p: Pool, c: Call, n: Nonce) {
    && n in p.owner && (c in p.lost <==> !Owns(p, c, n))
    && forall m | m in p.owner && p.owner[m] == c :: m == n
  }

  ghost predicate Owned(p: Pool) {
    && Good(p.mem)
    && p.saving.Keys + p.accepted.Keys + p.lost <= p.started
    && (forall n | n in p.owner :: p.owner[n] in p.started)
    && p.saving.Keys !! p.accepted.Keys
    && forall c, n | Holds(p, c, n) :: Settled(p, c, n)
  }

  /** Removing entries loses a call exactly if the live entry it holds is among them. */
  lemma OwnersAre(p: Pool, ns: set<Nonce>, c: Call, n: Nonce)
    requires Settled(p, c, n)
    ensures c in OwnersOf(p, ns) <==> n in ns && Owns(p, c, n)
  {
    if n in ns && Owns(p, c, n) { assert p.owner[n] in OwnersOf(p, ns); }
  }

  lemma EnterKeepsOwned(p: Pool, c: Call, n: Nonce, now: nat)
    requires Owned(p) && c !in p.started
    ensures Owned(Do(p, Enter(c, n, now)))
  {
    hide Lru.Push, OwnersOf, Settled;
    var r := Do(p, Enter(c, n, now));
    forall c', m | Holds(r, c', m) ensures Settled(r, c', m) {
      EnterSettles(p, c, n, now, c', m);
    }
    if n !in p.mem.vals && p.mem.Push(n, now).1.Some? { OwnersStarted(p, {p.mem.Push(n, now).1.value}); }
  }

  lemma OwnersStarted(p: Pool, ns: set<Nonce>)
    requires Owned(p)
    ensures OwnersOf(p, ns) <= p.started
  {}

  lemma EnterSettles(p: Pool, c: Call, n: Nonce, now: nat, c': Call, m: Nonce)
    requires Owned(p) && c !in p.started && Holds(Do(p, Enter(c, n, now)), c', m)
    ensures Settled(Do(p, Enter(c, n, now)), c', m)
  {
    if c' != c {
      assert Holds(p, c', m) by { hide Lru.Push, OwnersOf, Settled; }
      hide Do;
      OtherSettles(p, c, n, now, c', m);
      assert Settled(Do(p, Enter(c, n, now)), c', m);
    } else {
      OwnSettles(p, c, n, now, m);
    }
  }

  lemma OwnSettles(p: Pool, c: Call, n: Nonce, now: nat, m: Nonce)
    requires Owned(p) && c !in p.started && Holds(Do(p, Enter(c, n, now)), c, m)
    ensures Settled(Do(p, Enter(c, n, now)), c, m)
  {
    hide Lru.Push, OwnersOf;
    if n !in p.mem.vals && p.mem.Push(n, now).1.Some? { OwnersStarted(p, {p.mem.Push(n, now).1.value}); }
  }

  lemma OtherSettles(p: Pool, c: Call, n: Nonce, now: nat, c': Call, m: Nonce)
    requires Owned(p) && c !in p.started && Settled(p, c', m) && c' in p.started
    ensures Settled(Do(p, Enter(c, n, now)), c', m)
  {
    hide Lru.Push, OwnersOf;
    if n !in p.mem.vals && p.mem.Push(n, now).1.Some? { OwnersAre(p, {p.mem.Push(n, now).1.value}, c', m); }
  }

  lemma RollBackKeepsOwned(p: Pool, c: Call)
    requires Owned(p) && c in p.saving
    ensures Owned(Do(p, RollBack(c)))
  {
    hide Lru.Pop, OwnersOf;
    var r := Do(p, RollBack(c));
    OwnersStarted(p, {p.saving[c]});
    assert Holds(p, c, p.saving[c]);
    forall c', m | Holds(r, c', m) ensures Settled(r, c', m) {
      assert Holds(p, c', m) && c' != c;
      OwnersAre(p, {p.saving[c]}, c', m);
    }
  }

  lemma PruneKeepsOwned(p: Pool, maxAge: nat, now: nat)
    requires Owned(p)
    ensures Owned(Do(p, PrunePool(maxAge, now)))
  {
    hide PopAll, Stale, OwnersOf;
    var r := Do(p, PrunePool(maxAge, now));
    var stale := Elements(Stale(p.mem.order, p.mem.vals, Cutoff(now, maxAge)));
    OwnersStarted(p, stale);
    forall c, m | Holds(r, c, m) ensures Settled(r, c, m) {
      assert Holds(p, c, m);
      OwnersAre(p, stale, c, m);
    }
  }

  lemma CommitKeepsOwned(p: Pool, c: Call)
    requires Owned(p) && c in p.saving
    ensures Owned(Do(p, Commit(c)))
  {
    var r := Do(p, Commit(c));
    forall c', m | Holds(r, c', m) ensures Holds(p, c', m) {}
  }

  lemma DoKeepsOwned(p: Pool, s: Section)
    requires Owned(p)
    ensures Owned(Do(p, s))
  {
    match s
    case Enter(c, n, now) => if c !in p.started { EnterKeepsOwned(p, c, n, now); }
    case Commit(c) => if c in p.saving { CommitKeepsOwned(p, c); }
    case RollBack(c) => if c in p.saving { RollBackKeepsOwned(p, c); }
    case PrunePool(maxAge, now) => PruneKeepsOwned(p, maxAge, now);
  }

  /** Any cache, freshly loaded or empty, that no call has touched yet. */
  function Fresh(mem: Memory): Pool {
    Pool(mem, {}, map[], map[], map[], {})
  }

  function Interleaving(mem: Memory, ss: seq<Section>): (r: Pool)
    requires Good(mem)
    ensures Good(r.mem)
  {
    if ss == [] then Fresh(mem) else Do(Interleaving(mem, ss[..|ss| - 1]), ss[|ss| - 1])
  }

  lemma {:induction false} InterleavingIsOwned(mem: Memory, ss: seq<Section>)
    requires Good(mem)
    ensures Owned(Interleaving(mem, ss))
  {
    hide Do, Owned;
    if ss == [] {
      FreshIsOwned(mem);
    } else {
      InterleavingIsOwned(mem, ss[..|ss| - 1]);
      DoKeepsOwned(Interleaving(mem, ss[..|ss| - 1]), ss[|ss| - 1]);
    }
  }

  lemma FreshIsOwned(mem: Memory)
    requires Good(mem)
    ensures Owned(Fresh(mem))
  {}

  // ----- a nonce that is neither evicted nor pruned -----

  /** The section neither evicts `n` to make room for another nonce nor prunes it. */
  ghost predicate Spares(p: Pool, s: Section, n: Nonce)
    requires Good(p.mem)
  {
    match s
    case Enter(_, m, now) => m != n ==> p.mem.Push(m, now).1 != Some(n)
    case PrunePool(maxAge, now) => n !in Stale(p.mem.order, p.mem.vals, Cutoff(now, maxAge))
    case _ => true
  }

  /** `n` is spared all along `ss`, which follow `before`. */
  ghost predicate SparedAlong(mem: Memory, before: seq<Section>, ss: seq<Section>, n: Nonce)
    requires Good(mem)
  {
    ss != [] ==>
      var init := ss[..|ss| - 1];
      SparedAlong(mem, before, init, n) && Spares(Interleaving(mem, before + init), ss[|ss| - 1], n)
  }

  /** No pending call of `n` has lost its entry. */
  ghost predicate NoneStranded(p: Pool, n: Nonce) {
    forall c | c in p.saving && p.saving[c] == n :: c !in p.lost
  }

  /** While `n` is spared, no call that holds it becomes lost. */
  lemma SparedStep(p: Pool, s: Section, n: Nonce)
    requires Owned(p) && Spares(p, s, n) && NoneStranded(p, n)
    ensures NoneStranded(Do(p, s), n)
    ensures forall c | Holds(Do(p, s), c, n) && c in Do(p, s).lost :: c in p.lost && c in p.accepted
  {
    hide Do, Settled, Spares;
    var r := Do(p, s);
    forall c | Holds(r, c, n) && c in r.lost ensures c in p.lost && c in p.accepted && c !in r.saving {
      SparedCall(p, s, n, c);
    }
  }

  lemma SparedCall(p: Pool, s: Section, n: Nonce, c: Call)
    requires Owned(p) && Spares(p, s, n) && NoneStranded(p, n)
    requires Holds(Do(p, s), c, n) && c in Do(p, s).lost
    ensures c in p.lost && c in p.accepted && c !in Do(p, s).saving
  {
    hide Lru.Push, Lru.Pop, OwnersOf, PopAll, Stale;
    match s
    case Enter(c0, m, now) =>
      if c0 !in p.started && m !in p.mem.vals && p.mem.Push(m, now).1.Some? {
        var ns := {p.mem.Push(m, now).1.value};
        OwnersStarted(p, ns);
        if c != c0 {
          assert Holds(p, c, n);
          OwnersAre(p, ns, c, n);
        }
      }
    case PrunePool(maxAge, now) =>
      assert Holds(p, c, n);
      OwnersAre(p, Elements(Stale(p.mem.order, p.mem.vals, Cutoff(now, maxAge))), c, n);
    case Commit(_) => assert Holds(p, c, n);
    case RollBack(c0) =>
      assert Holds(p, c, n);
      if c0 in p.saving { OwnersAre(p, {p.saving[c0]}, c, n); }
  }

  lemma {:induction false} SparedRun(mem: Memory, before: seq<Section>, ss: seq<Section>, n: Nonce)
    requires Good(mem) && SparedAlong(mem, before, ss, n) && NoneStranded(Interleaving(mem, before), n)
    ensures var p0, p := Interleaving(mem, before), Interleaving(mem, before + ss);
            && NoneStranded(p, n)
            && forall c | Holds(p, c, n) && c in p.lost :: c in p0.lost && c in p0.accepted
  {
    hide Do, Owned, Spares;
    if ss == [] {
      assert before + ss == before;
    } else {
      var init, s := ss[..|ss| - 1], ss[|ss| - 1];
      SparedRun(mem, before, init, n);
      assert (before + ss)[..|before + ss| - 1] == before + init;
      var p := Interleaving(mem, before + init);
      InterleavingIsOwned(mem, before + init);
      SparedStep(p, s, n);
      forall c | Holds(Do(p, s), c, n) && c in Do(p, s).lost ensures Holds(p, c, n) {
        LostStillHolds(p, s, n, c);
      }
    }
  }

  lemma LostStillHolds(p: Pool, s: Section, n: Nonce, c: Call)
    requires Owned(p) && Holds(Do(p, s), c, n) && c in p.accepted
    ensures Holds(p, c, n)
  {
    hide Lru.Push, Lru.Pop, OwnersOf, PopAll, Stale;
  }

  /**
    Concurrent single acceptance. Take any interleaving `before` of any number of calls after which no
    pending call of nonce `n` has lost its entry (at the start, say), and any continuation `ss` that
    neither evicts nor prunes `n`. Then of the calls that had not lost `n` before, at most one is ever
    accepted with it; in particular at most one of those that enter during `ss`. And no pending rollback
    would remove another call's entry.
   */
  lemma SingleAcceptance(mem: Memory, before: seq<Section>, ss: seq<Section>, n: Nonce)
    requires Good(mem) && SparedAlong(mem, before, ss, n) && NoneStranded(Interleaving(mem, before), n)
    ensures var p0, p := Interleaving(mem, before), Interleaving(mem, before + ss);
            && (forall c, c' | c in p.accepted && c' in p.accepted && p.accepted[c] == p.accepted[c'] == n &&
                               c !in p0.lost && c' !in p0.lost :: c == c')
            && (forall c | c in p.saving && p.saving[c] == n :: !exists c' :: c' != c && Owns(p, c', n))
  {
    hide Interleaving, SparedAlong;
    SparedRun(mem, before, ss, n);
    OwnershipExactly(mem, before + ss);
    var p := Interleaving(mem, before + ss);
    forall c | c in p.accepted && p.accepted[c] == n ensures Holds(p, c, n) {}
  }

  /** From the start: a nonce that is never evicted or pruned is accepted at most once, whoever calls. */
  lemma AcceptedOnce(mem: Memory, ss: seq<Section>, n: Nonce)
    requires Good(mem) && SparedAlong(mem, [], ss, n)
    ensures var p := Interleaving(mem, ss);
            forall c, c' | c in p.accepted && c' in p.accepted && p.accepted[c] == p.accepted[c'] == n :: c == c'
  {
    hide SparedAlong, Do;
    assert [] + ss == ss;
    SingleAcceptance(mem, [], ss, n);
    assert Interleaving(mem, []) == Fresh(mem);
  }

  /**
    The exact condition, evictions and prunes included: in any interleaving a call that holds a nonce is
    lost exactly when the live entry is not its own. So at most one accepted call of a nonce is not lost,
    and the rollback of a pending call removes another call's entry exactly when the pending one is lost
    and the nonce is in memory again.
   */
  lemma OwnershipExactly(mem: Memory, ss: seq<Section>)
    requires Good(mem)
    ensures var p := Interleaving(mem, ss);
            && (forall c, n | Holds(p, c, n) :: c in p.lost <==> !Owns(p, c, n))
            && (forall c, c' | c in p.accepted && c' in p.accepted && p.accepted[c] == p.accepted[c'] &&
                               c !in p.lost && c' !in p.lost :: c == c')
            && (forall c | c in p.saving ::
                  (exists c' :: c' != c && Owns(p, c', p.saving[c])) <==> c in p.lost && p.saving[c] in p.mem.vals)
  {
    hide Interleaving;
    InterleavingIsOwned(mem, ss);
    var p := Interleaving(mem, ss);
    forall c | c in p.accepted ensures Settled(p, c, p.accepted[c]) { assert Holds(p, c, p.accepted[c]); }
    forall c | c in p.saving
      ensures (exists c' :: c' != c && Owns(p, c', p.saving[c])) <==> c in p.lost && p.saving[c] in p.mem.vals
    {
      var n := p.saving[c];
      assert Holds(p, c, n);
      if c in p.lost && n in p.mem.vals { assert Owns(p, p.owner[n], n); }
    }
  }

  /** The sections of one call, taken in a row, are `check_and_insert`. */
  lemma SectionsAreInsert(p: Pool, c: Call, n: Nonce, now: nat, disk: Entries, ok: bool)
    requires Good(p.mem) && c !in p.started && c !in p.saving && c !in p.accepted
    ensures var (s, r) := CheckAndInsert(Store(p.mem, disk), true, n, now, ok);
            var q := Do(Do(p, Enter(c, n, now)), if ok then Commit(c) else RollBack(c));
            && q.mem == s.mem && c !in q.saving
            && (c in q.accepted <==> r.Fresh?) && (r.Fresh? ==> q.accepted[c] == n)
  {
    hide Lru.Push, Lru.Pop;
  }

  /**
    A pending call whose nonce has left memory is one schedule away from doing harm: let another call
    insert the nonce and be accepted; then the rollback removes the accepted entry.
   */
  lemma RollbackRemovesAccepted(p: Pool, c: Call, c': Call, now: nat)
    requires Good(p.mem) && c in p.saving && p.saving[c] !in p.mem.vals && c' !in p.started && c' != c
    ensures var n := p.saving[c];
            var q := Do(Do(p, Enter(c', n, now)), Commit(c'));
            && c' in q.accepted && q.accepted[c'] == n && Owns(q, c', n)
            && n !in Do(q, RollBack(c)).mem.vals && (Owned(p) ==> c' in Do(q, RollBack(c)).lost)
  {
    hide Lru.Push;
    assert Holds(p, c, p.saving[c]);
  }

  /** A cache of one entry. */
  function Single(n: Nonce): (r: Memory)
    ensures Good(r) && r.order == [n] && r.vals == map[n := 0] && r.cap == 1
  {
    var empty: Memory := Lru(1, [], map[]);
    empty.Push(n, 0).0
  }

  lemma PushOnSingle(n: Nonce, m: Nonce)
    requires n != m
    ensures Single(n).Push(m, 0) == (Single(m), Some(n))
  {
    hide Lru.Push;
    var r := Single(n).Push(m, 0).0;
    assert r.order == [m] + r.order[1..] == [m];
    assert r.vals == map[m := 0] == Single(m).vals;
    assert r == Single(m);
  }

  /**
    The condition is needed: once an eviction lets a nonce in again, the first call's rollback
    removes the entry of another, already accepted call.
   */
  lemma RollbackAfterEviction(n: Nonce, m: Nonce)
    requires n != m
    ensures var p := Fresh(Lru(1, [], map[]));
            var q := Do(Do(Do(Do(p, Enter(0, n, 0)), Enter(1, m, 0)), Enter(2, n, 0)), Commit(2));
            && 2 in q.accepted && q.accepted[2] == n && n in q.mem.vals
            && 0 in q.saving && n !in Do(q, RollBack(0)).mem.vals
  {
    hide Lru.Push;
    var p := Fresh(Lru(1, [], map[]));
    assert p.mem.Push(n, 0).0 == Single(n);
    PushOnSingle(n, m);
    PushOnSingle(m, n);
    var p1 := Do(p, Enter(0, n, 0));
    assert p1.mem == Single(n);
    var p2 := Do(p1, Enter(1, m, 0));
    assert p2.mem == Single(m);
    var p3 := Do(p2, Enter(2, n, 0));
    assert p3.mem == Single(n);
  }

  /** A prune among the sections drops exactly the entries stamped more than `maxAge` seconds before `now`. */
  lemma PoolPruneDrops(p: Pool, maxAge: nat, now: nat)
    requires Good(p.mem)
    ensures var q := Do(p, PrunePool(maxAge, now));
            && (forall n :: n in q.mem.vals <==> n in p.mem.vals && p.mem.vals[n] + maxAge >= now)
            && q.saving == p.saving && q.accepted == p.accepted
  {
    hide PopAll, Stale;
  }
}
