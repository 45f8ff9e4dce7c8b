/**
  The `lru` crate's `LruCache`, as the rate limiter and the replay cache use it:
  a bounded map plus a recency order, most recently used key first.
 */
module LruCaches {
  import opened Options

  ghost predicate Distinct<K>(s: seq<K>) {
    forall i, j | 0 <= i < j < |s| :: s[i] != s[j]
  }

  function Elements<K>(s: seq<K>): (r: set<K>) {
    set k | k in s
  }

  lemma SubsetSize<T>(a: set<T>, b: set<T>)
    requires a <= b
    ensures |a| <= |b|
  {
    assert b == a + (b - a);
  }

  /** `s` without the first occurrence of `k`. */
  function Without<K(==, !new)>(s: seq<K>, k: K): (r: seq<K>)
    ensures k !in s ==> r == s
    ensures k in s ==> |r| == |s| - 1
    ensures Distinct(s) ==> Distinct(r) && forall x :: x in r <==> x in s && x != k
  {
    if s == [] then []
    else if s[0] == k then
      assert Distinct(s) ==> forall x :: x in s[1..] ==> x != s[0];
      assert s == [s[0]] + s[1..];
      s[1..]
    else
      assert s == [s[0]] + s[1..];
      assert Distinct(s) ==> s[0] !in s[1..] && Distinct(s[1..]);
      [s[0]] + Without(s[1..], k)
  }

  /** The keys used more recently than `k`. */
  ghost function Before<K>(s: seq<K>, k: K): (r: set<K>)
    ensures forall x | x in r :: x in s && x != k
  {
    if s == [] || s[0] == k then {} else {s[0]} + Before(s[1..], k)
  }

  datatype Lru<K(==, !new), V> = Lru(cap: nat, order: seq<K>, vals: map<K, V>) {

    ghost predicate Valid() {
      && |order| <= cap
      && Distinct(order)
      && forall k :: k in order <==> k in vals
    }

    /** `get_mut` followed by a write: the entry becomes the most recent one. */
    function Touch(k: K, v: V): (r: Lru<K, V>)
      requires k in vals
      ensures Valid() ==> r.Valid() && |r.order| == |order|
    {
      this.(order := [k] + Without(order, k), vals := vals[k := v])
    }

    /**
      `push`: inserts or replaces `k`. Returns the key of the entry it displaced: `k` itself
      on a replacement, the least recently used key when a new key meets a full cache.
     */
    function Push(k: K, v: V): (r: (Lru<K, V>, Option<K>))
      requires Valid() && cap >= 1
      ensures r.0.Valid() && r.0.cap == cap
      ensures k in r.0.vals && r.0.vals[k] == v && r.0.order[0] == k
      ensures k !in vals ==> r.0.order[1..] == if |order| < cap then order else order[..cap - 1]
      ensures k !in vals && |order| < cap ==> r.1 == None && r.0.vals == vals[k := v]
      ensures k !in vals && |order| == cap ==>
                r.1 == Some(order[cap - 1]) && r.0.vals == (vals - {order[cap - 1]})[k := v]
    {
      if k in vals then (Touch(k, v), Some(k))
      else if |order| < cap then
        (this.(order := [k] + order, vals := vals[k := v]), None)
      else
        var last := order[|order| - 1];
        (this.(order := [k] + order[..|order| - 1], vals := (vals - {last})[k := v]), Some(last))
    }

    /** `pop`: removes `k` when present. */
    function Pop(k: K): (r: Lru<K, V>)
      ensures Valid() ==> r.Valid() && r.cap == cap && r.vals == vals - {k}
    {
      this.(order := Without(order, k), vals := vals - {k})
    }

    /** A cache's entries and its recency order have the same size. */
    lemma SizeOfOrder()
      requires Valid()
      ensures |vals| == |order|
    {
      DistinctSize(order);
      assert Elements(order) == vals.Keys;
    }
  }

  lemma {:induction false} DistinctSize<K>(s: seq<K>)
    requires Distinct(s)
    ensures |Elements(s)| == |s|
  {
    if s != [] {
      DistinctSize(s[1..]);
      assert s == [s[0]] + s[1..] && s[0] !in s[1..];
      assert Elements(s) == {s[0]} + Elements(s[1..]);
    }
  }

  lemma ElementsInit<K>(s: seq<K>)
    requires s != []
    ensures Elements(s) == Elements(s[..|s| - 1]) + {s[|s| - 1]}
    ensures Distinct(s) ==> Distinct(s[..|s| - 1]) && s[|s| - 1] !in s[..|s| - 1]
  {
    assert s == s[..|s| - 1] + [s[|s| - 1]];
  }

  lemma {:induction false} BeforeWithout<K(!new)>(s: seq<K>, x: K, k: K)
    requires x != k
    ensures Before(Without(s, x), k) <= Before(s, k)
  {
    if s != [] && s[0] != x && s[0] != k {
      BeforeWithout(s[1..], x, k);
      assert Without(s, x)[1..] == Without(s[1..], x);
    }
  }

  /** Dropping a tail that does not hold `k` leaves the keys before it alone. */
  lemma {:induction false} BeforePrefix<K>(s: seq<K>, p: seq<K>, k: K)
    requires p <= s && k in p
    ensures Before(p, k) == Before(s, k)
  {
    if p[0] != k {
      assert p == [p[0]] + p[1..];
      BeforePrefix(s[1..], p[1..], k);
    }
  }

  /** A new front key, and perhaps a dropped tail, puts only that key before `k`. */
  lemma {:induction false} BeforeNewFront<K>(s: seq<K>, p: seq<K>, x: K, k: K)
    requires p <= s && k in p
    ensures Before([x] + p, k) <= Before(s, k) + {x}
  {
    BeforePrefix(s, p, k);
    assert ([x] + p)[1..] == p;
  }

  /** Everything else is before the last key. */
  lemma {:induction false} BeforeLast<K>(s: seq<K>)
    requires s != [] && Distinct(s)
    ensures |Before(s, s[|s| - 1])| == |s| - 1
  {
    if |s| > 1 {
      assert s[1..][|s| - 2] == s[|s| - 1];
      BeforeLast(s[1..]);
      assert s[0] !in s[1..];
    }
  }

  lemma PushedOrder<K(!new), V>(l: Lru<K, V>, x: K, v: V, k: K)
    requires l.Valid() && l.cap >= 1 && x !in l.vals && k in l.vals && k in l.Push(x, v).0.vals
    ensures var p := l.Push(x, v).0;
            p.order == [x] + p.order[1..] && p.order[1..] <= l.order && k in p.order[1..] && p.vals[k] == l.vals[k]
  {
    var i :| 0 <= i < |l.order| && l.order[i] == k;
    if |l.order| == l.cap {
      assert l.order[..l.cap - 1][i] == k;
    }
  }

  /** A key that survives the push of a new key falls behind that key only. */
  lemma {:induction false} PushKeepsKey<K(!new), V>(l: Lru<K, V>, x: K, v: V, k: K)
    requires l.Valid() && l.cap >= 1 && x !in l.vals && k in l.vals && k in l.Push(x, v).0.vals
    ensures var p := l.Push(x, v).0;
            && p.vals[k] == l.vals[k]
            && Before(p.order, k) <= Before(l.order, k) + {x}
            && Before(p.order[1..], k) == Before(l.order, k)
  {
    hide Lru.Push, Before;
    var p := l.Push(x, v).0;
    var kept := p.order[1..];
    PushedOrder(l, x, v, k);
    BeforeNewFront(l.order, kept, x, k);
    BeforePrefix(l.order, kept, k);
  }

  /** The push of a new key drops only the last key of a full cache. */
  lemma PushEvictsLast<K(!new), V>(l: Lru<K, V>, x: K, v: V, k: K)
    requires l.Valid() && l.cap >= 1 && x !in l.vals && k in l.vals && k !in l.Push(x, v).0.vals
    ensures l.Push(x, v).1 == Some(k)
    ensures |Before(l.order, k)| == l.cap - 1 && x !in Before(l.order, k)
  {
    hide Lru.Push, Before;
    BeforeLast(l.order);
  }
}
