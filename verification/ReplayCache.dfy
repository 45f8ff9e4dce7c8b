/**
  The bounded replay cache with write-through persistence (crates/fwknox-replay/src/cache.rs).
  `contains` does not touch recency, so the LRU order is the insertion order, newest first.
 */
module ReplayCaches {
  import opened Bytes
  import opened Options
  import opened LruCaches

  type Nonce = Octets16
  type Entries = map<Nonce, nat>
  type Memory = Lru<Nonce, nat>

  const DEFAULT_MAX_ENTRIES: nat := 10_000

  /** The cache in memory and the contents of its file; a missing file is an empty map. */
  datatype Store = Store(mem: Memory, disk: Entries)

  datatype InsertResult = Fresh | Replay | PersistFailed

  ghost predicate Good(mem: Memory) {
    mem.Valid() && mem.cap >= 1
  }

  /** `check_and_insert` at second `now`; `saveOk` is the outcome of the write it may attempt. */
  function CheckAndInsert(s: Store, persist: bool, nonce: Nonce, now: nat, saveOk: bool): (r: (Store, InsertResult))
    requires Good(s.mem)
  {
    if nonce in s.mem.vals then (s, Replay)
    else
      var mem := s.mem.Push(nonce, now).0;
      if !persist then (s.(mem := mem), Fresh)
      else if saveOk then (Store(mem, mem.vals), Fresh)
      else (s.(mem := mem.Pop(nonce)), PersistFailed)
  }

  /** Entries stamped before the cutoff, newest entry first. */
  function Stale(order: seq<Nonce>, vals: Entries, cutoff: nat): (r: seq<Nonce>)
    ensures forall k | k in r :: k in order && k in vals && vals[k] < cutoff
    ensures forall k | k in order && k in vals && vals[k] < cutoff :: k in r
  {
    if order == [] then []
    else
      var rest := Stale(order[1..], vals, cutoff);
      if order[0] in vals && vals[order[0]] < cutoff then [order[0]] + rest else rest
  }

  function PopAll(mem: Memory, ks: seq<Nonce>): (r: Memory)
    ensures mem.Valid() ==> r.Valid() && r.cap == mem.cap && r.vals == mem.vals - Elements(ks)
  {
    if ks == [] then mem
    else
      assert ks == ks[..|ks| - 1] + [ks[|ks| - 1]];
      assert mem.vals - Elements(ks) == mem.vals - Elements(ks[..|ks| - 1]) - {ks[|ks| - 1]};
      PopAll(mem, ks[..|ks| - 1]).Pop(ks[|ks| - 1])
  }

  function Cutoff(now: nat, maxAge: nat): nat {
    if now >= maxAge then now - maxAge else 0
  }

  function Expire(mem: Memory, cutoff: nat): (r: Memory) {
    PopAll(mem, Stale(mem.order, mem.vals, cutoff))
  }

  /** `prune_older_than`; the count is missing when the save after a prune fails. */
  function Prune(s: Store, persist: bool, maxAge: nat, now: nat, saveOk: bool): (r: (Store, Option<nat>)) {
    var mem := Expire(s.mem, Cutoff(now, maxAge));
    var pruned := |s.mem.order| - |mem.order|;
    if pruned > 0 && persist then
      if saveOk then (Store(mem, mem.vals), Some(pruned)) else (s.(mem := mem), None)
    else (s.(mem := mem), Some(if pruned > 0 then pruned else 0))
  }

  /** `load_from_file`: the file's entries, met in the order `ks`, fill a fresh cache. */
  function Load(cap: nat, ks: seq<Nonce>, disk: Entries): (r: Memory)
    requires cap >= 1 && forall k | k in ks :: k in disk
    ensures Good(r) && r.cap == cap
    ensures forall k | k in r.vals :: k in disk && r.vals[k] == disk[k]
  {
    if ks == [] then Lru(cap, [], map[])
    else
      var k := ks[|ks| - 1];
      Load(cap, ks[..|ks| - 1], disk).Push(k, disk[k]).0
  }

  /** A prune drops exactly the entries stamped before the cutoff. */
  lemma ExpireDropsStale(mem: Memory, cutoff: nat)
    requires mem.Valid()
    ensures var r := Expire(mem, cutoff);
            && r.Valid() && r.cap == mem.cap
            && r.vals == map k | k in mem.vals && mem.vals[k] >= cutoff :: mem.vals[k]
  {}

  /** Pushing onto a cache with room keeps everything that was there. */
  lemma PushWithRoom(mem: Memory, k: Nonce, v: nat)
    requires Good(mem) && |mem.order| < mem.cap && k !in mem.vals
    ensures var r := mem.Push(k, v).0;
            |r.order| == |mem.order| + 1 && r.vals.Keys == mem.vals.Keys + {k}
  {}

  lemma InElements(s: seq<Nonce>, k: Nonce)
    ensures k in Elements(s) <==> k in s
  {}

  lemma {:induction false} LoadKeepsAll(cap: nat, ks: seq<Nonce>, disk: Entries)
    requires cap >= 1 && Distinct(ks) && |ks| <= cap && forall k | k in ks :: k in disk
    ensures var r := Load(cap, ks, disk);
            |r.order| == |ks| && r.vals.Keys == Elements(ks)
  {
    if ks != [] {
      hide Lru.Push, Lru.Valid, Elements, Distinct;
      var init, k := ks[..|ks| - 1], ks[|ks| - 1];
      ElementsInit(ks);
      LoadKeepsAll(cap, init, disk);
      assert k !in Elements(init) by { InElements(init, k); }
      PushWithRoom(Load(cap, init, disk), k, disk[k]);
      assert Load(cap, ks, disk).vals.Keys == Elements(ks);
    }
  }

  /** The enumerations a `HashMap` of `disk` may be iterated in. */
  ghost predicate Enumerates(ks: seq<Nonce>, disk: Entries) {
    Distinct(ks) && forall k :: k in ks <==> k in disk
  }

  /** A file is loaded whole, in whatever order its entries come, if and only if it fits. */
  lemma LoadWhole(cap: nat, ks: seq<Nonce>, disk: Entries)
    requires cap >= 1 && Enumerates(ks, disk)
    ensures Load(cap, ks, disk).vals == disk <==> |disk| <= cap
  {
    hide Load;
    Load(cap, ks, disk).SizeOfOrder();
    DistinctSize(ks);
    assert Elements(ks) == disk.Keys;
    if |disk| <= cap { LoadKeepsAll(cap, ks, disk); }
  }

  class ReplayCache {
    var lru: Memory
    const persist: bool      // whether a persistence path is set
    var disk: Entries        // the contents of the file at that path

    ghost predicate Valid()
      reads this
    {
      Good(lru)
    }

    ghost function View(): Store
      reads this
    {
      Store(lru, disk)
    }

    /** `with_capacity`, then `set_persist_path` when `persist`. */
    constructor WithCapacity(cap: nat, persist: bool, disk: Entries)
      requires cap >= 1
      ensures Valid() && this.persist == persist && View() == Store(Lru(cap, [], map[]), disk)
    {
      lru := Lru(cap, [], map[]);
      this.persist := persist;
      this.disk := disk;
    }

    /** `load_from_file`, which ignores any configured capacity, then `set_persist_path`. */
    constructor LoadFromFile(ks: seq<Nonce>, disk: Entries)
      requires Enumerates(ks, disk)
      ensures Valid() && persist && View() == Store(Load(DEFAULT_MAX_ENTRIES, ks, disk), disk)
    {
      hide Lru.Push, Lru.Valid;
      var l: Memory := Lru(DEFAULT_MAX_ENTRIES, [], map[]);
      for i := 0 to |ks|
        invariant l == Load(DEFAULT_MAX_ENTRIES, ks[..i], disk)
      {
        assert ks[..i + 1][..i] == ks[..i];
        l := l.Push(ks[i], disk[ks[i]]).0;
      }
      assert ks[..|ks|] == ks;
      lru := l;
      persist := true;
      this.disk := disk;
    }

    method SaveToFile(ok: bool)
      modifies `disk
      ensures disk == if ok then lru.vals else old(disk)
    {
      if ok { disk := lru.vals; }
    }

    method CheckInsert(nonce: Nonce, now: nat, saveOk: bool) returns (r: InsertResult)
      requires Valid()
      modifies this
      ensures Valid()
      ensures (View(), r) == CheckAndInsert(old(View()), persist, nonce, now, saveOk)
    {
      if nonce in lru.vals {
        return Replay;
      }
      lru := lru.Push(nonce, now).0;
      if persist {
        SaveToFile(saveOk);
        if !saveOk {
          lru := lru.Pop(nonce);
          return PersistFailed;
        }
      }
      r := Fresh;
    }

    method RemoveAll(stale: seq<Nonce>)
      modifies `lru
      ensures lru == PopAll(old(lru), stale)
    {
      hide Lru.Pop, Lru.Valid;
      for i := 0 to |stale|
        invariant lru == PopAll(old(lru), stale[..i])
      {
        assert stale[..i + 1][..i] == stale[..i];
        lru := lru.Pop(stale[i]);
      }
      assert stale[..|stale|] == stale;
    }

    method PruneOlderThan(maxAge: nat, now: nat, saveOk: bool) returns (r: Option<nat>)
      requires Valid()
      modifies this
      ensures Valid()
      ensures (View(), r) == Prune(old(View()), persist, maxAge, now, saveOk)
    {
      hide PopAll, Stale;
      var cutoff := Cutoff(now, maxAge);
      var before := |lru.order|;
      RemoveAll(Stale(lru.order, lru.vals, cutoff));
      var pruned := before - |lru.order|;
      if pruned > 0 && persist {
        SaveToFile(saveOk);
        if !saveOk {
          return None;
        }
      }
      r := Some(if pruned > 0 then pruned else 0);
    }
  }

  // ----- retention within one process lifetime -----

  datatype Op =
    | Insert(nonce: Nonce, now: nat, saveOk: bool)
    | PruneOld(maxAge: nat, now: nat, saveOk: bool)

  function Apply(s: Store, persist: bool, op: Op): (r: Store)
    requires Good(s.mem)
    ensures Good(r.mem) && r.mem.cap == s.mem.cap
  {
    match op
    case Insert(nonce, now, saveOk) => CheckAndInsert(s, persist, nonce, now, saveOk).0
    case PruneOld(maxAge, now, saveOk) => Prune(s, persist, maxAge, now, saveOk).0
  }

  function ApplyAll(s: Store, persist: bool, ops: seq<Op>): (r: Store)
    requires Good(s.mem)
    ensures Good(r.mem) && r.mem.cap == s.mem.cap
  {
    if ops == [] then s else Apply(ApplyAll(s, persist, ops[..|ops| - 1]), persist, ops[|ops| - 1])
  }

  /** The nonces accepted along the way. */
  function Accepted(s: Store, persist: bool, ops: seq<Op>): set<Nonce>
    requires Good(s.mem)
  {
    if ops == [] then {}
    else
      var init, op := ops[..|ops| - 1], ops[|ops| - 1];
      var before := ApplyAll(s, persist, init);
      Accepted(s, persist, init)
      + if op.Insert? && CheckAndInsert(before, persist, op.nonce, op.now, op.saveOk).1.Fresh? then {op.nonce} else {}
  }

  lemma PushThenPop(mem: Memory, n: Nonce, now: nat)
    requires Good(mem) && n !in mem.vals
    ensures mem.Push(n, now).0.Pop(n).order == mem.Push(n, now).0.order[1..]
  {
    hide Lru.Push;
  }

  /**
    A failed save removes no other entry, except the oldest one when the cache was full, and
    leaves the file alone.
   */
  lemma FailedSaveKeepsOthers(s: Store, nonce: Nonce, now: nat)
    requires Good(s.mem) && nonce !in s.mem.vals
    ensures var (s', r) := CheckAndInsert(s, true, nonce, now, false);
            && r == PersistFailed && s'.disk == s.disk && nonce !in s'.mem.vals
            && s'.mem.vals
               == if |s.mem.order| < s.mem.cap then s.mem.vals else s.mem.vals - {s.mem.order[s.mem.cap - 1]}
  {
    hide Lru.Push;
    var vals := s.mem.vals;
    assert vals[nonce := now] - {nonce} == vals;
    if |s.mem.order| == s.mem.cap {
      var rest := vals - {s.mem.order[s.mem.cap - 1]};
      assert rest[nonce := now] - {nonce} == rest;
    }
  }

  /** What an insertion does to another nonce already in the cache. */
  lemma InsertAndOther(s: Store, persist: bool, m: Nonce, now: nat, saveOk: bool, n: Nonce)
    requires Good(s.mem) && n in s.mem.vals
    ensures var (s', r) := CheckAndInsert(s, persist, m, now, saveOk);
            var added := if r.Fresh? then {m} else {};
            if n in s'.mem.vals then
              s'.mem.vals[n] == s.mem.vals[n] && Before(s'.mem.order, n) <= Before(s.mem.order, n) + added
            else
              m !in s.mem.vals && |Before(s.mem.order, n)| == s.mem.cap - 1
  {
    hide Lru.Push, Before, Without;
    if m !in s.mem.vals {
      if n in s.mem.Push(m, now).0.vals {
        PushKeepsKey(s.mem, m, now, n);
        PushThenPop(s.mem, m, now);
      } else {
        PushEvictsLast(s.mem, m, now, n);
      }
    }
  }

  lemma PresentIsReplay(s: Store, persist: bool, n: Nonce, now: nat, saveOk: bool)
    requires Good(s.mem) && n in s.mem.vals
    ensures CheckAndInsert(s, persist, n, now, saveOk) == (s, Replay)
  {}

  lemma {:induction false} PopAllBefore(mem: Memory, ks: seq<Nonce>, n: Nonce)
    requires mem.Valid() && n !in ks
    ensures Before(PopAll(mem, ks).order, n) <= Before(mem.order, n)
  {
    if ks != [] {
      PopAllBefore(mem, ks[..|ks| - 1], n);
      BeforeWithout(PopAll(mem, ks[..|ks| - 1]).order, ks[|ks| - 1], n);
    }
  }

  lemma PruneAndOther(s: Store, persist: bool, maxAge: nat, now: nat, saveOk: bool, n: Nonce)
    requires Good(s.mem) && n in s.mem.vals
    ensures var s' := Prune(s, persist, maxAge, now, saveOk).0;
            if s.mem.vals[n] < Cutoff(now, maxAge) then n !in s'.mem.vals
            else
              && n in s'.mem.vals && s'.mem.vals[n] == s.mem.vals[n]
              && Before(s'.mem.order, n) <= Before(s.mem.order, n)
  {
    hide Before;
    ExpireDropsStale(s.mem, Cutoff(now, maxAge));
    if s.mem.vals[n] >= Cutoff(now, maxAge) {
      PopAllBefore(s.mem, Stale(s.mem.order, s.mem.vals, Cutoff(now, maxAge)), n);
    }
  }

  /** One operation: `n` stays, with at most the accepted nonces `acc` ahead of it, or it goes for a reason. */
  lemma RetentionStep(s: Store, persist: bool, op: Op, n: Nonce, acc: set<Nonce>)
    requires Good(s.mem) && n in s.mem.vals && Before(s.mem.order, n) <= acc && n !in acc
    ensures var s' := Apply(s, persist, op);
            var isNew := op.Insert? && CheckAndInsert(s, persist, op.nonce, op.now, op.saveOk).1.Fresh?;
            var acc' := acc + if isNew then {op.nonce} else {};
            if n in s'.mem.vals then
              s'.mem.vals[n] == s.mem.vals[n] && Before(s'.mem.order, n) <= acc' && n !in acc'
            else
              match op
              case PruneOld(maxAge, now, _) => s.mem.vals[n] < Cutoff(now, maxAge)
              case Insert(m, _, _) => m !in s.mem.vals && |acc| >= s.mem.cap - 1
  {
    hide CheckAndInsert, Prune, Before;
    match op
    case Insert(m, now, saveOk) =>
      InsertAndOther(s, persist, m, now, saveOk, n);
      if m == n { PresentIsReplay(s, persist, n, now, saveOk); }
      SubsetSize(Before(s.mem.order, n), acc);
    case PruneOld(maxAge, now, saveOk) =>
      PruneAndOther(s, persist, maxAge, now, saveOk, n);
  }

  /**
    Nonce retention: an accepted nonce (the newest entry of `s`) is reported as a replay until a
    prune finds it stale, or until `capacity - 1` other nonces were accepted after it and one more
    fresh insertion is attempted.
   */
  lemma {:induction false} NonceRetention(s: Store, persist: bool, ops: seq<Op>, n: Nonce)
    requires Good(s.mem) && s.mem.order != [] && s.mem.order[0] == n
    requires forall i | 0 <= i < |ops| :: n in ApplyAll(s, persist, ops[..i]).mem.vals
    ensures var s' := ApplyAll(s, persist, ops);
            if n in s'.mem.vals then
              && (forall now: nat, saveOk :: CheckAndInsert(s', persist, n, now, saveOk) == (s', Replay))
              && s'.mem.vals[n] == s.mem.vals[n]
              && Before(s'.mem.order, n) <= Accepted(s, persist, ops)
              && n !in Accepted(s, persist, ops)
            else
              && ops != []
              && var init, op := ops[..|ops| - 1], ops[|ops| - 1];
                 match op
                 case PruneOld(maxAge, now, _) => s.mem.vals[n] < Cutoff(now, maxAge)
                 case Insert(m, _, _) =>
                   && m !in ApplyAll(s, persist, init).mem.vals
                   && n !in Accepted(s, persist, init)
                   && |Accepted(s, persist, init)| >= s.mem.cap - 1
  {
    if ops != [] {
      hide CheckAndInsert, Apply, Before;
      var init, op := ops[..|ops| - 1], ops[|ops| - 1];
      forall i | 0 <= i < |init| ensures n in ApplyAll(s, persist, init[..i]).mem.vals {
        assert init[..i] == ops[..i];
      }
      NonceRetention(s, persist, init, n);
      var before := ApplyAll(s, persist, init);
      assert n in before.mem.vals by { assert init == ops[..|init|]; }
      RetentionStep(before, persist, op, n, Accepted(s, persist, init));
      var after := ApplyAll(s, persist, ops);
      if n in after.mem.vals {
        forall now: nat, saveOk ensures CheckAndInsert(after, persist, n, now, saveOk) == (after, Replay) {
          PresentIsReplay(after, persist, n, now, saveOk);
        }
      }
    }
  }

  /** Insertions that all save, of nonces new to the cache and to each other. */
  ghost predicate NewInserts(s: Store, ops: seq<Op>) {
    && (forall i | 0 <= i < |ops| :: ops[i].Insert? && ops[i].saveOk && ops[i].nonce !in s.mem.vals)
    && forall i, j | 0 <= i < j < |ops| :: ops[i].nonce != ops[j].nonce
  }

  ghost predicate Inserted(ops: seq<Op>, n: Nonce) {
    exists i | 0 <= i < |ops| && ops[i].Insert? :: ops[i].nonce == n
  }

  /** After `k` of them the newest `k` entries, or all that the cache holds, are theirs. */
  lemma {:induction false} NewInsertsOnTop(s: Store, persist: bool, ops: seq<Op>)
    requires Good(s.mem) && NewInserts(s, ops)
    ensures var mem := ApplyAll(s, persist, ops).mem;
            var k := if |ops| <= mem.cap then |ops| else mem.cap;
            && |mem.order| >= k
            && (forall i | 0 <= i < k :: Inserted(ops, mem.order[i]))
            && forall n | n in mem.vals :: n in s.mem.vals || Inserted(ops, n)
  {
    hide CheckAndInsert;
    if ops != [] {
      var init, op := ops[..|ops| - 1], ops[|ops| - 1];
      NewInsertsOnTop(s, persist, init);
      var before, after := ApplyAll(s, persist, init), ApplyAll(s, persist, ops);
      forall n | Inserted(init, n) ensures Inserted(ops, n) && n != op.nonce {
        var i :| 0 <= i < |init| && init[i].Insert? && init[i].nonce == n;
        assert ops[i].nonce == n;
      }
      assert Inserted(ops, op.nonce);
      assert op.nonce !in before.mem.vals;
      NewInsertPushes(before, persist, op.nonce, op.now);
      forall i | 0 < i < |after.mem.order| ensures after.mem.order[i] == before.mem.order[i - 1] {
        assert after.mem.order[i] == after.mem.order[1..][i - 1];
      }
    }
  }

  lemma NewInsertPushes(s: Store, persist: bool, n: Nonce, now: nat)
    requires Good(s.mem) && n !in s.mem.vals
    ensures var mem := CheckAndInsert(s, persist, n, now, true).0.mem;
            && mem.order != [] && mem.order[0] == n && (forall k | k in mem.vals :: k in s.mem.vals || k == n)
            && mem.order[1..] == if |s.mem.order| < s.mem.cap then s.mem.order else s.mem.order[..s.mem.cap - 1]
  {
    hide Lru.Push;
  }

  /** The converse of retention: `capacity` new nonces push out everything that was there. */
  lemma FloodEvicts(s: Store, persist: bool, ops: seq<Op>, n: Nonce)
    requires Good(s.mem) && NewInserts(s, ops) && |ops| >= s.mem.cap && n in s.mem.vals
    ensures n !in ApplyAll(s, persist, ops).mem.vals
  {
    hide ApplyAll;
    NewInsertsOnTop(s, persist, ops);
  }

  // ----- what ends up in the file, and what is counted -----

  /** The file after an insertion: memory when a path is set and the nonce was accepted, untouched otherwise. */
  lemma FileAfterInsert(s: Store, persist: bool, n: Nonce, now: nat, saveOk: bool)
    requires Good(s.mem)
    ensures var (s', r) := CheckAndInsert(s, persist, n, now, saveOk);
            && (s'.disk == if persist && r.Fresh? then s'.mem.vals else s.disk)
            && (r.Replay? <==> n in s.mem.vals)
            && (r.PersistFailed? <==> n !in s.mem.vals && persist && !saveOk)
            && (r.Fresh? ==> n in s'.mem.vals && s'.mem.vals[n] == now)
  {
    hide Lru.Push, Lru.Pop;
  }

  /**
    A prune removes exactly the entries stamped more than `maxAge` seconds before `now`. It returns how
    many there were, and writes the file when there were any; only that write can fail.
   */
  lemma PruneExactly(s: Store, persist: bool, maxAge: nat, now: nat, saveOk: bool)
    requires Good(s.mem)
    ensures var (s', r) := Prune(s, persist, maxAge, now, saveOk);
            var stale := set k | k in s.mem.vals && s.mem.vals[k] + maxAge < now;
            && s'.mem.vals == s.mem.vals - stale
            && (r.None? <==> stale != {} && persist && !saveOk)
            && (r.Some? ==> r.value == |stale|)
            && s'.disk == if stale != {} && persist && saveOk then s'.mem.vals else s.disk
  {
    hide Expire;
    var cutoff := Cutoff(now, maxAge);
    ExpireDropsStale(s.mem, cutoff);
    var mem := Expire(s.mem, cutoff);
    var stale := set k | k in s.mem.vals && s.mem.vals[k] + maxAge < now;
    assert mem.vals == s.mem.vals - stale;
    mem.SizeOfOrder();
    s.mem.SizeOfOrder();
    assert s.mem.vals.Keys == mem.vals.Keys + stale && mem.vals.Keys !! stale;
  }

  function NewestFirst(ks: seq<Nonce>): (r: seq<Nonce>)
    ensures |r| == |ks|
  {
    if ks == [] then [] else [ks[|ks| - 1]] + NewestFirst(ks[..|ks| - 1])
  }

  /** Of a file too large, the entries met last are kept, the last one as the most recent. */
  lemma {:induction false} LoadKeepsLast(cap: nat, ks: seq<Nonce>, disk: Entries)
    requires cap >= 1 && Distinct(ks) && forall k | k in ks :: k in disk
    ensures Load(cap, ks, disk).order == if |ks| <= cap then NewestFirst(ks) else NewestFirst(ks)[..cap]
  {
    hide Distinct;
    if ks == [] {
      assert Load(cap, ks, disk).order == [];
    } else {
      hide Load, NewestFirst;
      var init := ks[..|ks| - 1];
      ElementsInit(ks);
      LoadKeepsLast(cap, init, disk);
      LoadLast(cap, ks, disk);
      NewestIsLast(ks, cap);
      assert Load(cap, ks, disk).order == if |ks| <= cap then NewestFirst(ks) else NewestFirst(ks)[..cap];
    }
  }

  lemma NewestIsLast(ks: seq<Nonce>, cap: nat)
    requires cap >= 1 && ks != []
    ensures var rest := NewestFirst(ks[..|ks| - 1]);
            && (|ks| <= cap ==> NewestFirst(ks) == [ks[|ks| - 1]] + rest)
            && (|ks| > cap ==> NewestFirst(ks)[..cap] == [ks[|ks| - 1]] + rest[..cap - 1])
            && (|ks| > cap ==> rest[..cap][..cap - 1] == rest[..cap - 1])
  {
    var rest := NewestFirst(ks[..|ks| - 1]);
    assert NewestFirst(ks) == [ks[|ks| - 1]] + rest;
    hide NewestFirst;
    if |ks| > cap { OnTop(ks[|ks| - 1], rest, cap); }
  }

  lemma OnTop<K>(x: K, rest: seq<K>, cap: nat)
    requires 1 <= cap <= |rest|
    ensures ([x] + rest)[..cap] == [x] + rest[..cap - 1] && rest[..cap][..cap - 1] == rest[..cap - 1]
  {}

  lemma LoadLast(cap: nat, ks: seq<Nonce>, disk: Entries)
    requires cap >= 1 && ks != [] && Distinct(ks) && forall k | k in ks :: k in disk
    ensures var before := Load(cap, ks[..|ks| - 1], disk).order;
            var kept := if |before| < cap then |before| else cap - 1;
            |before| >= kept && Load(cap, ks, disk).order == [ks[|ks| - 1]] + before[..kept]
  {
    hide Distinct, Lru.Push, Load, Elements;
    var init, k := ks[..|ks| - 1], ks[|ks| - 1];
    ElementsInit(ks);
    LoadHolds(cap, init, disk);
    LoadPushes(cap, ks, disk);
    PushesOnTop(Load(cap, init, disk), k, disk[k]);
  }

  lemma LoadPushes(cap: nat, ks: seq<Nonce>, disk: Entries)
    requires cap >= 1 && ks != [] && forall k | k in ks :: k in disk
    ensures Load(cap, ks, disk) == Load(cap, ks[..|ks| - 1], disk).Push(ks[|ks| - 1], disk[ks[|ks| - 1]]).0
  {
    hide Lru.Push;
  }

  lemma PushesOnTop(mem: Memory, k: Nonce, v: nat)
    requires Good(mem) && k !in mem.vals
    ensures var kept := if |mem.order| < mem.cap then |mem.order| else mem.cap - 1;
            |mem.order| >= kept && mem.Push(k, v).0.order == [k] + mem.order[..kept]
  {
    hide Lru.Push, Distinct;
    var r := mem.Push(k, v).0;
    assert r.order == [r.order[0]] + r.order[1..];
  }

  lemma {:induction false} LoadHolds(cap: nat, ks: seq<Nonce>, disk: Entries)
    requires cap >= 1 && forall k | k in ks :: k in disk
    ensures forall n | n in Load(cap, ks, disk).vals :: n in ks
  {
    if ks != [] { LoadHolds(cap, ks[..|ks| - 1], disk); }
  }
}
