/**
 * The proxy's process-wide in-memory cache with a time to live (`memoryCache`
 * and `memoize`). The clock is an input: `now` is the millisecond timestamp
 * read once, before the wrapped computation runs, and the computation is
 * represented by the outcome it would have.
 */
module TtlCache {
  import opened Common

  /** A cached value and the absolute time, in milliseconds, at which it stops being served. */
  datatype Entry<V> = Entry(value: V, expiry: int)

  type Store<V> = map<string, Entry<V>>

  /** An entry for `key` exists and its expiry lies strictly after `now`. */
  predicate IsLive<V>(store: Store<V>, key: string, now: int)
  {
    key in store && store[key].expiry > now
  }

  /**
   * One call of `memoize(key, ttlSeconds, compute)` at time `now`: the value it
   * resolves with (or its rejection) and the cache afterwards.
   */
  function Memo<V>(store: Store<V>, key: string, ttlSeconds: int, now: int, compute: Outcome<V>): (r: (Outcome<V>, Store<V>))
    ensures forall k :: k != key ==> (k in r.1 <==> k in store) && (k in r.1 ==> r.1[k] == store[k])
    ensures r.0 == compute || (IsLive(store, key, now) && r.0 == Success(store[key].value))
    ensures r.1 != store ==>
      !IsLive(store, key, now) && compute.Success? && key in r.1 && r.1[key] == Entry(compute.value, now + ttlSeconds * 1000)
  {
    if IsLive(store, key, now) then (Success(store[key].value), store)
    else if compute.Success? then (compute, store[key := Entry(compute.value, now + ttlSeconds * 1000)])
    else (Failure, store)
  }

  // The next four lemmas each name one branch of `Memo`; Dafny reads them off its
  // definition. The properties that need proofs are those about call histories
  // further down (`EntriesComeFromMisses`, `ServedValueWasComputedWithinTtl`).

  /** A live entry is served as it is, whatever the computation would have produced, and the cache is left alone. */
  lemma HitServesStoredValue<V>(store: Store<V>, key: string, ttlSeconds: int, now: int, compute: Outcome<V>)
    requires IsLive(store, key, now)
    ensures Memo(store, key, ttlSeconds, now, compute) == (Success(store[key].value), store)
  {
  }

  /**
   * On a miss, a computed value is returned and stored under `key` with expiry
   * `now + ttlSeconds * 1000`, where `now` was read before computing; no other key changes.
   */
  lemma MissStoresComputedValue<V>(store: Store<V>, key: string, ttlSeconds: int, now: int, v: V)
    requires !IsLive(store, key, now)
    ensures var (r, after) := Memo(store, key, ttlSeconds, now, Success(v));
      && r == Success(v)
      && after.Keys == store.Keys + {key}
      && after[key] == Entry(v, now + ttlSeconds * 1000)
      && forall k :: k in store && k != key ==> after[k] == store[k]
  {
  }

  /** A rejected computation is passed on and stores nothing, so the next call computes again. */
  lemma FailureStoresNothing<V>(store: Store<V>, key: string, ttlSeconds: int, now: int, later: int, compute: Outcome<V>)
    requires !IsLive(store, key, now)
    requires now <= later
    ensures Memo(store, key, ttlSeconds, now, Failure) == (Failure, store)
    ensures Memo(Memo(store, key, ttlSeconds, now, Failure).1, key, ttlSeconds, later, compute).0 == compute
  {
  }

  /** A value served without being computed comes from an entry whose expiry is still ahead of `now`. */
  lemma NeverServedPastExpiry<V>(store: Store<V>, key: string, ttlSeconds: int, now: int, compute: Outcome<V>)
    requires Memo(store, key, ttlSeconds, now, compute).0 != compute
    ensures key in store && store[key].expiry > now
  {
  }

  /**
   * Two calls for one key within the time to live: after a computed miss at
   * `t1`, a call at any `t2` before `t1 + ttlSeconds * 1000` is served the first
   * value, and the cache does not change.
   */
  lemma SecondCallWithinTtlHits<V>(store: Store<V>, key: string, ttlSeconds: int, t1: int, t2: int, v: V, compute: Outcome<V>)
    requires !IsLive(store, key, t1)
    requires t2 < t1 + ttlSeconds * 1000
    ensures var after := Memo(store, key, ttlSeconds, t1, Success(v)).1;
      Memo(after, key, ttlSeconds, t2, compute) == (Success(v), after)
  {
  }

  /** Once the time to live has elapsed, the next call computes again, even for the same key. */
  lemma CallAfterExpiryRecomputes<V>(store: Store<V>, key: string, ttlSeconds: int, t1: int, t2: int, v: V, compute: Outcome<V>)
    requires !IsLive(store, key, t1)
    requires t2 >= t1 + ttlSeconds * 1000
    ensures var after := Memo(store, key, ttlSeconds, t1, Success(v)).1;
      Memo(after, key, ttlSeconds, t2, compute).0 == compute
  {
  }

  /** One call of `memoize`: its key, time to live, clock reading and the computation's outcome. */
  datatype Call<V> = Call(key: string, ttlSeconds: int, now: int, compute: Outcome<V>)

  /** The cache after `calls`, made one after the other from `store`. */
  function Replay<V>(store: Store<V>, calls: seq<Call<V>>): Store<V>
  {
    if calls == [] then store
    else
      var c := calls[|calls| - 1];
      Memo(Replay(store, calls[..|calls| - 1]), c.key, c.ttlSeconds, c.now, c.compute).1
  }

  /** Call `j` of `calls`, on `key`, missed the cache of a fresh process and computed a value. */
  ghost predicate StoredBy<V>(calls: seq<Call<V>>, j: nat, key: string)
  {
    && j < |calls| && calls[j].key == key && calls[j].compute.Success?
    && !IsLive(Replay(map[], calls[..j]), key, calls[j].now)
  }

  /**
   * Starting from an empty cache, every entry was stored by a call that missed
   * and computed: it holds that call's value and expires `ttlSeconds * 1000`
   * after that call's clock reading.
   */
  lemma {:induction false} EntriesComeFromMisses<V>(calls: seq<Call<V>>, key: string)
    requires key in Replay(map[], calls)
    ensures exists j: nat :: (StoredBy(calls, j, key)
      && Replay(map[], calls)[key] == Entry(calls[j].compute.value, calls[j].now + calls[j].ttlSeconds * 1000))
  {
    if calls == [] {
      assert false;
    }
    var n := |calls| - 1;
    var init := calls[..n];
    var c := calls[n];
    var before := Replay(map[], init);
    assert calls == init + [c];
    if c.key == key && !IsLive(before, key, c.now) && c.compute.Success? {
      assert StoredBy(calls, n, key);
    } else {
      EntriesComeFromMisses(init, key);
      var j: nat :| StoredBy(init, j, key)
        && before[key] == Entry(init[j].compute.value, init[j].now + init[j].ttlSeconds * 1000);
      assert calls[..j] == init[..j];
      assert StoredBy(calls, j, key);
    }
  }

  /**
   * In a fresh process, a call served from the cache gets the value computed by
   * an earlier call on the same key whose time to live had not yet run out:
   * cached values are never served past their expiry.
   */
  lemma ServedValueWasComputedWithinTtl<V>(calls: seq<Call<V>>, i: nat)
    requires i < |calls| && IsLive(Replay(map[], calls[..i]), calls[i].key, calls[i].now)
    ensures var c := calls[i];
      exists j: nat :: (j < i && StoredBy(calls, j, c.key)
        && Memo(Replay(map[], calls[..i]), c.key, c.ttlSeconds, c.now, c.compute).0 == calls[j].compute
        && calls[j].now + calls[j].ttlSeconds * 1000 > c.now)
  {
    var prefix := calls[..i];
    var c := calls[i];
    EntriesComeFromMisses(prefix, c.key);
    var j: nat :| StoredBy(prefix, j, c.key)
      && Replay(map[], prefix)[c.key] == Entry(prefix[j].compute.value, prefix[j].now + prefix[j].ttlSeconds * 1000);
    assert prefix[..j] == calls[..j];
    assert StoredBy(calls, j, c.key);
  }

  /** The module-level `memoryCache` map and `memoize` over it. */
  class MemoryCache<V> {
    var entries: Store<V>

    constructor ()
      ensures entries == map[]
    {
      entries := map[];
    }

    method Memoize(key: string, ttlSeconds: int, now: int, compute: Outcome<V>) returns (r: Outcome<V>)
      modifies this
      ensures (r, entries) == Memo(old(entries), key, ttlSeconds, now, compute)
      ensures old(IsLive(entries, key, now)) ==> r == Success(old(entries)[key].value) && entries == old(entries)
      ensures !old(IsLive(entries, key, now)) && compute.Success? ==>
        r == compute && entries == old(entries)[key := Entry(compute.value, now + ttlSeconds * 1000)]
      ensures !old(IsLive(entries, key, now)) && compute.Failure? ==> r == Failure && entries == old(entries)
    {
      if key in entries && entries[key].expiry > now {
        return Success(entries[key].value);
      }
      match compute
      case Success(value) =>
        entries := entries[key := Entry(value, now + ttlSeconds * 1000)];
        r := compute;
      case Failure =>
        r := Failure;
    }
  }
}
