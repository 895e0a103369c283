/** The least-recently-used cache that holds full spans for the reservoir sampler:
    a recency list of key/value entries, newest first, with a fixed capacity.  Adding a
    key or finding it moves it to the front; an add that overflows evicts the last entry.

    The functional part computes the cache from the whole history of calls, and the main
    theorem gives an exact, cache-free rule for when a key is still present. */
module LruCache {
  import opened Seqs
  import opened Wrappers

  datatype Entry<K, V> = Entry(key: K, value: V)

  datatype Call<K, V> = Put(key: K, value: V) | Read(key: K)

  /** The entries other than the one for `k`, in the same order. */
  function Without<K(==), V>(items: seq<Entry<K, V>>, k: K): seq<Entry<K, V>> {
    if items == [] then []
    else if items[0].key == k then Without(items[1..], k)
    else [items[0]] + Without(items[1..], k)
  }

  function Keys<K, V>(items: seq<Entry<K, V>>): (keys: seq<K>)
    ensures |keys| == |items|
    ensures forall i :: 0 <= i < |items| ==> keys[i] == items[i].key
  {
    seq(|items|, i requires 0 <= i < |items| => items[i].key)
  }

  function Take<T>(s: seq<T>, cap: nat): seq<T> {
    if |s| <= cap then s else s[..cap]
  }

  predicate Has<K(==), V>(items: seq<Entry<K, V>>, k: K) {
    exists i :: 0 <= i < |items| && items[i].key == k
  }

  function Find<K(==), V>(items: seq<Entry<K, V>>, k: K): (v: V)
    requires Has(items, k)
  {
    if items[0].key == k then items[0].value else Find(items[1..], k)
  }

  function Step<K(==), V>(items: seq<Entry<K, V>>, c: Call<K, V>, cap: nat): seq<Entry<K, V>> {
    match c
    case Put(k, v) => Take([Entry(k, v)] + Without(items, k), cap)
    case Read(k) => if Has(items, k) then [Entry(k, Find(items, k))] + Without(items, k) else items
  }

  /** The cache contents after a history of calls on an empty cache. */
  function Run<K(==), V>(history: seq<Call<K, V>>, cap: nat): seq<Entry<K, V>> {
    if history == [] then []
    else Step(Run(history[..|history| - 1], cap), history[|history| - 1], cap)
  }

  function Remove<K(==)>(keys: seq<K>, k: K): seq<K> {
    if keys == [] then []
    else if keys[0] == k then Remove(keys[1..], k)
    else [keys[0]] + Remove(keys[1..], k)
  }

  /** The distinct keys of a touch trace in order of their latest touch, newest first. */
  function Recency<K(==)>(touched: seq<K>): seq<K> {
    if touched == [] then []
    else
      var k := touched[|touched| - 1];
      [k] + Remove(Recency(touched[..|touched| - 1]), k)
  }

  ghost function KeySet<K>(keys: seq<K>): set<K> {
    set k | k in keys
  }

  /** The part of the trace after the last occurrence of `k` (all of it if there is none). */
  function AfterLast<K(==)>(touched: seq<K>, k: K): (rest: seq<K>)
    ensures k !in rest
  {
    if touched == [] || touched[|touched| - 1] == k then []
    else AfterLast(touched[..|touched| - 1], k) + [touched[|touched| - 1]]
  }

  /** A key lies near the end of the trace if it is in it and fewer than `cap` distinct keys follow. */
  ghost predicate Near<K>(touched: seq<K>, cap: nat, k: K) {
    k in touched && |KeySet(AfterLast(touched, k))| < cap
  }

  /** The keys touched by the calls, oldest first, said without the cache: a put touches its
      key, and a read does if its key is near. */
  ghost function Touched<K, V>(history: seq<Call<K, V>>, cap: nat): seq<K> {
    if history == [] then []
    else
      var touched, c := Touched(history[..|history| - 1], cap), history[|history| - 1];
      if c.Put? || Near(touched, cap, c.key) then touched + [c.key] else touched
  }

  // ----- facts about removal -----

  lemma {:induction false} RemoveFacts<K>(keys: seq<K>, k: K)
    ensures k !in Remove(keys, k)
    ensures forall x :: x != k ==> (x in Remove(keys, k) <==> x in keys)
    ensures k !in keys ==> Remove(keys, k) == keys
    ensures Distinct(keys) ==> Distinct(Remove(keys, k))
    ensures Distinct(keys) && k in keys ==> |Remove(keys, k)| == |keys| - 1
    ensures |Remove(keys, k)| <= |keys|
  {
    if keys == [] {
    } else {
      RemoveFacts(keys[1..], k);
      assert keys == [keys[0]] + keys[1..];
      if keys[0] != k {
        assert Remove(keys, k) == [keys[0]] + Remove(keys[1..], k);
        assert Distinct(keys) ==> keys[0] !in keys[1..];
      }
    }
  }

  lemma {:induction false} KeysOfWithout<K, V>(items: seq<Entry<K, V>>, k: K)
    ensures Keys(Without(items, k)) == Remove(Keys(items), k)
  {
    if items == [] {
    } else {
      KeysOfWithout(items[1..], k);
      assert Keys(items) == [items[0].key] + Keys(items[1..]);
      assert Keys(items)[1..] == Keys(items[1..]);
      if items[0].key != k {
        assert Without(items, k) == [items[0]] + Without(items[1..], k);
        assert Keys(Without(items, k)) == [items[0].key] + Keys(Without(items[1..], k));
      }
    }
  }

  lemma HasIsKey<K, V>(items: seq<Entry<K, V>>, k: K)
    ensures Has(items, k) <==> k in Keys(items)
  {
    if Has(items, k) {
      var i :| 0 <= i < |items| && items[i].key == k;
      assert Keys(items)[i] == k;
    }
  }

  /** Cutting a list before removing a key loses nothing the later cut would have kept. */
  lemma {:induction false} TakeRemove<K>(keys: seq<K>, k: K, cap: nat)
    requires cap >= 1
    requires Distinct(keys)
    ensures Take([k] + Remove(Take(keys, cap), k), cap) == Take([k] + Remove(keys, k), cap)
    ensures k in Take(keys, cap) ==> [k] + Remove(Take(keys, cap), k) == Take([k] + Remove(keys, k), cap)
  {
    RemovePrefix(keys, k, cap);
    RemoveFacts(keys, k);
  }

  lemma {:induction false} RemovePrefix<K>(keys: seq<K>, k: K, cap: nat)
    requires Distinct(keys)
    ensures |keys| > cap && k in keys[..cap] ==> cap >= 1 && Remove(keys[..cap], k) == Take(Remove(keys, k), cap - 1)
    ensures |keys| > cap && k !in keys[..cap] ==> Remove(keys[..cap], k) == Take(Remove(keys, k), cap) == keys[..cap]
  {
    if |keys| <= cap {
    } else {
      RemoveFacts(keys, k);
      if cap > 0 {
        RemovePrefix(keys[1..], k, cap - 1);
        assert keys[..cap][1..] == keys[1..][..cap - 1];
        assert keys[..cap] == [keys[0]] + keys[1..][..cap - 1];
        if keys[0] == k {
          RemoveFacts(keys[1..], k);
          RemoveFacts(keys[1..][..cap - 1], k);
        }
      }
    }
  }

  // ----- the cache refines the recency order of its touches -----

  lemma {:induction false} RecencyDistinct<K>(touched: seq<K>)
    ensures Distinct(Recency(touched))
    ensures KeySet(Recency(touched)) == KeySet(touched)
  {
    if touched == [] {
    } else {
      var k := touched[|touched| - 1];
      var before := touched[..|touched| - 1];
      RecencyDistinct(before);
      RemoveFacts(Recency(before), k);
      assert touched == before + [k];
      assert Recency(touched) == [k] + Remove(Recency(before), k);
      forall x ensures x in KeySet(Recency(touched)) <==> x in KeySet(touched) {
        assert x in KeySet(Recency(before)) <==> x in KeySet(before);
        assert x in Recency(touched) <==> x == k || x in Remove(Recency(before), k);
        assert x in touched <==> x == k || x in before;
      }
      assert KeySet(Recency(touched)) == KeySet(touched);
    }
  }

  /** Every key that survives a removal keeps the same keys in front of it, but for the one removed. */
  lemma {:induction false} RemovedPrefix<K>(keys: seq<K>, gone: K, i: nat) returns (j: nat)
    requires i < |Remove(keys, gone)|
    ensures j < |keys| && keys[j] == Remove(keys, gone)[i]
    ensures KeySet(Remove(keys, gone)[..i]) == KeySet(keys[..j]) - {gone}
  {
    if keys[0] == gone {
      var j' := RemovedPrefix(keys[1..], gone, i);
      j := j' + 1;
      assert keys[..j] == [gone] + keys[1..][..j'];
      assert KeySet(keys[..j]) == {gone} + KeySet(keys[1..][..j']);
    } else if i == 0 {
      j := 0;
    } else {
      var rest := Remove(keys[1..], gone);
      var j' := RemovedPrefix(keys[1..], gone, i - 1);
      j := j' + 1;
      assert keys[..j] == [keys[0]] + keys[1..][..j'];
      assert KeySet(keys[..j]) == {keys[0]} + KeySet(keys[1..][..j']);
      assert Remove(keys, gone)[..i] == [keys[0]] + rest[..i - 1];
      assert KeySet(Remove(keys, gone)[..i]) == {keys[0]} + KeySet(rest[..i - 1]);
    }
  }

  /** In the recency list a key sits behind exactly the keys touched after it. */
  lemma {:induction false} InFrontIsTouchedAfter<K>(touched: seq<K>, i: nat)
    requires i < |Recency(touched)|
    ensures KeySet(Recency(touched)[..i]) == KeySet(AfterLast(touched, Recency(touched)[i]))
    decreases |touched|
  {
    var last := touched[|touched| - 1];
    var before := touched[..|touched| - 1];
    var recent := Recency(before);
    if i == 0 {
    } else {
      var rest := Remove(recent, last);
      var k := rest[i - 1];
      RemoveFacts(recent, last);
      assert k in rest;
      var j := RemovedPrefix(recent, last, i - 1);
      InFrontIsTouchedAfter(before, j);
      assert Recency(touched)[..i] == [last] + rest[..i - 1];
      assert KeySet(Recency(touched)[..i]) == {last} + KeySet(rest[..i - 1]);
      assert KeySet(AfterLast(touched, k)) == KeySet(AfterLast(before, k)) + {last};
    }
  }

  lemma {:induction false} DistinctSize<K>(keys: seq<K>)
    requires Distinct(keys)
    ensures |KeySet(keys)| == |keys|
  {
    if keys == [] {
    } else {
      DistinctSize(keys[1..]);
      assert keys == [keys[0]] + keys[1..];
      assert KeySet(keys) == {keys[0]} + KeySet(keys[1..]);
      assert keys[0] !in KeySet(keys[1..]);
    }
  }

  /** A key is near exactly if it is among the first `cap` of the recency order. */
  lemma NearIsInFront<K>(touched: seq<K>, cap: nat, k: K)
    ensures Near(touched, cap, k) <==> k in Take(Recency(touched), cap)
  {
    var recent := Recency(touched);
    RecencyDistinct(touched);
    assert k in KeySet(recent) <==> k in KeySet(touched);
    if k in recent {
      var i :| 0 <= i < |recent| && recent[i] == k;
      InFrontIsTouchedAfter(touched, i);
      DistinctSize(recent[..i]);
      assert k in Take(recent, cap) <==> i < cap;
    }
  }

  /** Refinement: the cached keys are exactly the `cap` most recently touched distinct keys. */
  lemma {:induction false} CacheIsRecencyPrefix<K, V>(history: seq<Call<K, V>>, cap: nat)
    requires cap >= 1
    ensures Keys(Run(history, cap)) == Take(Recency(Touched(history, cap)), cap)
  {
    if history == [] {
    } else {
      var before := history[..|history| - 1];
      var c := history[|history| - 1];
      var items := Run(before, cap);
      var recent := Recency(Touched(before, cap));
      CacheIsRecencyPrefix(before, cap);
      RecencyDistinct(Touched(before, cap));
      NearIsInFront(Touched(before, cap), cap, c.key);
      HasIsKey(items, c.key);
      KeysOfWithout(items, c.key);
      TakeRemove(recent, c.key, cap);
      if c.Put? || Has(items, c.key) {
        var v := if c.Put? then c.value else Find(items, c.key);
        var front := [Entry(c.key, v)] + Without(items, c.key);
        assert Keys(front) == [c.key] + Remove(Keys(items), c.key);
        assert Keys(Take(front, cap)) == Take(Keys(front), cap);
        assert Touched(history, cap)[..|Touched(history, cap)| - 1] == Touched(before, cap);
      }
    }
  }

  /** Exact rule: a key is cached if and only if it was touched and fewer than `cap`
      distinct other keys have been touched since its last touch. */
  lemma CachedIffRecent<K, V>(history: seq<Call<K, V>>, cap: nat, k: K)
    requires cap >= 1
    ensures Has(Run(history, cap), k) <==>
      k in Touched(history, cap) && |KeySet(AfterLast(Touched(history, cap), k))| < cap
  {
    CacheIsRecencyPrefix(history, cap);
    HasIsKey(Run(history, cap), k);
    NearIsInFront(Touched(history, cap), cap, k);
  }

  // ----- consequences for callers -----

  ghost predicate WasPut<K, V>(history: seq<Call<K, V>>, k: K) {
    exists c :: c in history && c.Put? && c.key == k
  }

  ghost function CallKeys<K, V>(calls: seq<Call<K, V>>): set<K> {
    set c | c in calls :: c.key
  }

  lemma {:induction false} TouchedExtends<K, V>(before: seq<Call<K, V>>, more: seq<Call<K, V>>, cap: nat)
    ensures Touched(before, cap) <= Touched(before + more, cap)
    ensures KeySet(Touched(before + more, cap)[|Touched(before, cap)|..]) <= CallKeys(more)
    ensures forall c :: c in more && c.Put? ==> c.key in Touched(before + more, cap)[|Touched(before, cap)|..]
  {
    if more == [] {
      assert before + more == before;
    } else {
      var rest, c := more[..|more| - 1], more[|more| - 1];
      TouchedExtends(before, rest, cap);
      assert (before + more)[..|before + more| - 1] == before + rest;
      assert more == rest + [c];
      assert CallKeys(more) == CallKeys(rest) + {c.key};
      var n, mid := |Touched(before, cap)|, Touched(before + rest, cap);
      if Touched(before + more, cap) != mid {
        assert Touched(before + more, cap)[n..] == mid[n..] + [c.key];
        assert KeySet(Touched(before + more, cap)[n..]) == KeySet(mid[n..]) + {c.key};
      }
    }
  }

  lemma {:induction false} AfterLastWithin<K>(old_: seq<K>, recent: seq<K>, k: K)
    requires k in recent
    ensures KeySet(AfterLast(old_ + recent, k)) <= KeySet(recent) - {k}
    decreases |recent|
  {
    var rest, last := recent[..|recent| - 1], recent[|recent| - 1];
    assert (old_ + recent)[..|old_ + recent| - 1] == old_ + rest;
    assert recent == rest + [last];
    if last == k {
    } else {
      AfterLastWithin(old_, rest, k);
      assert KeySet(recent) == KeySet(rest) + {last};
      assert KeySet(AfterLast(old_ + recent, k)) == KeySet(AfterLast(old_ + rest, k)) + {last};
    }
  }

  /** A key put during a stretch of calls that names at most `cap` keys survives that stretch. */
  lemma PutSurvivesSmallStretch<K, V>(before: seq<Call<K, V>>, more: seq<Call<K, V>>, cap: nat, k: K)
    requires cap >= 1
    requires |CallKeys(more)| <= cap
    requires WasPut(more, k)
    ensures Has(Run(before + more, cap), k)
  {
    var n := |Touched(before, cap)|;
    var touched := Touched(before + more, cap);
    TouchedExtends(before, more, cap);
    assert touched == touched[..n] + touched[n..];
    AfterLastWithin(touched[..n], touched[n..], k);
    SubsetSize(KeySet(AfterLast(touched, k)), CallKeys(more) - {k});
    CachedIffRecent(before + more, cap, k);
  }

  /** The value most recently put under `k`. */
  function LastPut<K(==), V>(history: seq<Call<K, V>>, k: K): (v: V)
    requires exists c :: c in history && c.Put? && c.key == k
  {
    var last := history[|history| - 1];
    if last.Put? && last.key == k then last.value
    else
      assert history == history[..|history| - 1] + [last];
      LastPut(history[..|history| - 1], k)
  }

  lemma {:induction false} FindAfterStep<K, V>(items: seq<Entry<K, V>>, k: K, x: K)
    requires x != k
    ensures Has(Without(items, k), x) <==> Has(items, x)
    ensures Has(items, x) ==> Find(Without(items, k), x) == Find(items, x)
  {
    KeysOfWithout(items, k);
    RemoveFacts(Keys(items), k);
    HasIsKey(items, x);
    HasIsKey(Without(items, k), x);
    if items == [] {
    } else {
      FindAfterStep(items[1..], k, x);
      HasIsKey(items[1..], x);
      assert items == [items[0]] + items[1..];
    }
  }

  lemma {:induction false} FindInTake<K, V>(items: seq<Entry<K, V>>, cap: nat, x: K)
    requires Has(Take(items, cap), x)
    ensures Has(items, x) && Find(Take(items, cap), x) == Find(items, x)
    decreases cap
  {
    if |items| <= cap || items[0].key == x {
    } else {
      var i :| 0 <= i < cap && items[..cap][i].key == x;
      assert items[..cap][1..] == items[1..][..cap - 1];
      assert items[1..][..cap - 1][i - 1].key == x;
      FindInTake(items[1..], cap - 1, x);
      assert items[i].key == x;
    }
  }

  /** A hit returns the value most recently put under the key. */
  lemma {:induction false} HitIsLastPut<K, V>(history: seq<Call<K, V>>, cap: nat, k: K)
    requires Has(Run(history, cap), k)
    ensures WasPut(history, k)
    ensures Find(Run(history, cap), k) == LastPut(history, k)
  {
    var before, c := history[..|history| - 1], history[|history| - 1];
    var items := Run(before, cap);
    assert history == before + [c];
    if c.Put? {
      var front := [Entry(c.key, c.value)] + Without(items, c.key);
      FindInTake(front, cap, k);
      if c.key != k {
        assert front[1..] == Without(items, c.key);
        assert Has(Without(items, c.key), k) by {
          var i :| 0 <= i < |front| && front[i].key == k;
          assert Without(items, c.key)[i - 1].key == k;
        }
        FindAfterStep(items, c.key, k);
        HitIsLastPut(before, cap, k);
      } else {
        assert c in history;
      }
    } else if Has(items, c.key) {
      var front := [Entry(c.key, Find(items, c.key))] + Without(items, c.key);
      if c.key != k {
        assert front[1..] == Without(items, c.key);
        assert Has(Without(items, c.key), k) by {
          var i :| 0 <= i < |front| && front[i].key == k;
          assert Without(items, c.key)[i - 1].key == k;
        }
        FindAfterStep(items, c.key, k);
      }
      HitIsLastPut(before, cap, k);
    } else {
      HitIsLastPut(before, cap, k);
    }
  }

  lemma {:induction false} TouchedIffPut<K, V>(history: seq<Call<K, V>>, cap: nat, k: K)
    ensures k in Touched(history, cap) <==> WasPut(history, k)
  {
    if history == [] {
    } else {
      var before, c := history[..|history| - 1], history[|history| - 1];
      assert history == before + [c];
      TouchedIffPut(before, cap, k);
      assert WasPut(history, k) <==> WasPut(before, k) || (c.Put? && c.key == k);
    }
  }

  /** What a call does to the keys alone. */
  function KeyStep<K(==), V>(keys: seq<K>, c: Call<K, V>, cap: nat): seq<K> {
    if c.Put? then Take([c.key] + Remove(keys, c.key), cap)
    else if c.key in keys then [c.key] + Remove(keys, c.key)
    else keys
  }

  lemma KeysAfterCall<K, V>(history: seq<Call<K, V>>, c: Call<K, V>, cap: nat)
    ensures Keys(Run(history + [c], cap)) == KeyStep(Keys(Run(history, cap)), c, cap)
  {
    assert (history + [c])[..|history|] == history;
    var items := Run(history, cap);
    KeysOfWithout(items, c.key);
    HasIsKey(items, c.key);
  }

  lemma {:induction false} RemoveLast<K>(front: seq<K>, k: K)
    requires k !in front
    ensures Remove(front + [k], k) == front
  {
    if front == [] {
      assert [k][1..] == [];
    } else {
      assert (front + [k])[1..] == front[1..] + [k];
      RemoveLast(front[1..], k);
      assert front == [front[0]] + front[1..];
    }
  }

  /** Putting a new key, and reading the one touched longest ago. */
  lemma PutNewKey<K, V>(keys: seq<K>, c: Call<K, V>, cap: nat)
    requires c.Put? && c.key !in keys
    ensures KeyStep(keys, c, cap) == Take([c.key] + keys, cap)
  {
    RemoveFacts(keys, c.key);
  }

  lemma ReadOldest<K, V>(front: seq<K>, c: Call<K, V>, cap: nat)
    requires c.Read? && c.key !in front
    ensures KeyStep(front + [c.key], c, cap) == [c.key] + front
  {
    RemoveLast(front, c.key);
  }

  /** The number of distinct keys touched since `k` was. */
  ghost function Rivals<K, V>(history: seq<Call<K, V>>, cap: nat, k: K): nat {
    |KeySet(AfterLast(Touched(history, cap), k))|
  }

  /** The exact rule in terms of the calls: a key is cached if and only if it was put and has
      fewer rivals than the cache has places. */
  lemma CachedIffPut<K, V>(history: seq<Call<K, V>>, cap: nat, k: K)
    requires cap >= 1
    ensures Has(Run(history, cap), k) <==> WasPut(history, k) && Rivals(history, cap, k) < cap
  {
    CachedIffRecent(history, cap, k);
    TouchedIffPut(history, cap, k);
  }

  /** The mutable cache.  `history` records every call; `Valid` says the entries are what
      that history leaves behind. */
  class Lru<K(==), V> {
    const size: nat
    var items: seq<Entry<K, V>>
    ghost var history: seq<Call<K, V>>

    ghost predicate Valid()
      reads this
    {
      size >= 1 && items == Run(history, size)
    }

    constructor (size: nat)
      requires size >= 1
      ensures Valid() && this.size == size && history == []
    {
      this.size := size;
      items, history := [], [];
    }

    /** Stores `v` under `k` at the front; returns whether the oldest entry was evicted. */
    method Add(k: K, v: V) returns (evicted: bool)
      requires Valid()
      modifies this
      ensures Valid() && history == old(history) + [Put(k, v)]
      ensures Has(items, k) && Find(items, k) == v
      ensures evicted <==> !Has(old(items), k) && |old(items)| == size
    {
      KeysOfWithout(items, k);
      CacheIsRecencyPrefix(history, size);
      RecencyDistinct(Touched(history, size));
      RemoveFacts(Keys(items), k);
      HasIsKey(items, k);
      items := [Entry(k, v)] + Without(items, k);
      evicted := |items| > size;
      if evicted {
        items := items[..|items| - 1];
      }
      history := history + [Put(k, v)];
      assert items[0].key == k;
    }

    method Get(k: K) returns (ok: bool, v: Option<V>)
      requires Valid()
      modifies this
      ensures Valid() && history == old(history) + [Read(k)]
      ensures ok == Has(old(items), k)
      ensures v == if ok then Some(Find(old(items), k)) else None
    {
      ok := exists i :: 0 <= i < |items| && items[i].key == k;
      v := None;
      if ok {
        v := Some(Find(items, k));
        items := [Entry(k, Find(items, k))] + Without(items, k);
      }
      history := history + [Read(k)];
    }
  }
}
