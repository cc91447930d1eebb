/**
 The expiring response cache of internal/pokecache/pokecache.go.

 The Go cache is a mutex-guarded map from a request URL to the raw response
 bytes and the time they were stored, swept by a background goroutine on every
 tick of a ticker. Here the wall clock becomes an integer clock that the caller
 passes in, every method is one atomic step, and one wake-up of the reaper is
 the method `Reap(t)`, `t` being the tick time the ticker delivered.
 */
module PokeCache {

  /** A response payload, the Go `[]byte`; a nil slice is the empty sequence. */
  type Bytes = seq<bv8>

  /** A reading of the clock, in any fixed unit. */
  type Time = int

  datatype CacheEntry = CacheEntry(createdAt: Time, val: Bytes)

  type CacheMap = map<string, CacheEntry>

  /** What one sweep at tick time `t` leaves: the entries not created strictly before `t`. */
  function Swept(m: CacheMap, t: Time): CacheMap
  {
    map k | k in m && !(m[k].createdAt < t) :: m[k]
  }

  class Cache {
    var cacheMap: CacheMap

    /**
     `NewCache`: an empty map. The interval is only handed to the reaper's
     ticker, which refuses a period that is not positive; the reaper's schedule
     is the `interval` of `FirstTickAfter` and `GoneByFirstTickAfter`.
     */
    constructor (interval: int)
      requires interval > 0
      ensures cacheMap == map[]
    {
      cacheMap := map[];
    }

    /** Unconditional upsert, stamped with the current clock reading. */
    method Add(key: string, val: Bytes, now: Time)
      modifies this
      ensures cacheMap == old(cacheMap)[key := CacheEntry(now, val)]
      ensures key in cacheMap && cacheMap[key] == CacheEntry(now, val)
      ensures forall k :: k != key ==> (k in cacheMap <==> k in old(cacheMap))
      ensures forall k :: k != key && k in cacheMap ==> cacheMap[k] == old(cacheMap)[k]
    {
      cacheMap := cacheMap[key := CacheEntry(now, val)];
    }

    /** Lookup: the stored payload and true, or nil and false; reads only. */
    method Get(key: string) returns (val: Bytes, ok: bool)
      ensures ok <==> key in cacheMap
      ensures ok ==> val == cacheMap[key].val
      ensures !ok ==> val == []
    {
      if key !in cacheMap {
        return [], false;
      }
      return cacheMap[key].val, true;
    }

    /** One wake-up of the reaper at tick time `t`: delete every entry created strictly before `t`. */
    method Reap(t: Time)
      modifies this
      ensures cacheMap == Swept(old(cacheMap), t)
    {
      var pending := cacheMap.Keys;
      while pending != {}
        invariant pending <= old(cacheMap).Keys
        invariant forall k :: k in cacheMap <==>
          k in old(cacheMap) && (k in pending || !(old(cacheMap)[k].createdAt < t))
        invariant forall k :: k in cacheMap ==> cacheMap[k] == old(cacheMap)[k]
        decreases pending
      {
        var k :| k in pending;
        if cacheMap[k].createdAt < t {
          cacheMap := cacheMap - {k};
        }
        pending := pending - {k};
      }
    }
  }

  /** A sweep keeps exactly the entries created at or after `t`, with their values, and adds nothing. */
  lemma SweepExact(m: CacheMap, t: Time)
    ensures forall k :: k in Swept(m, t) <==> k in m && m[k].createdAt >= t
    ensures forall k :: k in Swept(m, t) ==> Swept(m, t)[k] == m[k]
    ensures Swept(m, t).Keys <= m.Keys
  {
  }

  /** A second sweep at the same tick time changes nothing. */
  lemma SweepIdempotent(m: CacheMap, t: Time)
    ensures Swept(Swept(m, t), t) == Swept(m, t)
  {
  }

  // ---------------------------------------------------------------------------
  // The life of the cache as a run of atomic steps: upserts and reaper ticks.
  // ---------------------------------------------------------------------------

  datatype Event = Put(key: string, val: Bytes, now: Time) | Tick(t: Time)

  function Step(m: CacheMap, e: Event): CacheMap
  {
    match e
    case Put(key, val, now) => m[key := CacheEntry(now, val)]
    case Tick(t) => Swept(m, t)
  }

  function Run(m: CacheMap, es: seq<Event>): CacheMap
    decreases |es|
  {
    if es == [] then m else Run(Step(m, es[0]), es[1..])
  }

  /**
   Driving a cache with the calls the events stand for, in order: each `Put`
   is an `Add`, each `Tick` a `Reap`. The cache ends holding `Run` of its old
   map, so the lemmas about runs describe the class itself.
   */
  method Replay(c: Cache, es: seq<Event>)
    modifies c
    ensures c.cacheMap == Run(old(c.cacheMap), es)
  {
    var i := 0;
    assert es[0..] == es;
    while i < |es|
      invariant 0 <= i <= |es|
      invariant Run(old(c.cacheMap), es) == Run(c.cacheMap, es[i..])
    {
      assert es[i..][0] == es[i] && es[i..][1..] == es[i + 1..];
      match es[i] {
        case Put(key, val, now) => c.Add(key, val, now);
        case Tick(t) => c.Reap(t);
      }
      i := i + 1;
    }
    assert es[i..] == [];
  }

  /** No event of `es` writes `key`. */
  predicate NoPutOf(es: seq<Event>, key: string)
  {
    forall i :: 0 <= i < |es| ==> !(es[i].Put? && es[i].key == key)
  }

  /** No tick of `es` comes after time `a`. */
  predicate TicksAtOrBefore(es: seq<Event>, a: Time)
  {
    forall i :: 0 <= i < |es| && es[i].Tick? ==> es[i].t <= a
  }

  lemma {:induction false} RunConcat(m: CacheMap, xs: seq<Event>, ys: seq<Event>)
    ensures Run(m, xs + ys) == Run(Run(m, xs), ys)
    decreases |xs|
  {
    if xs != [] {
      assert (xs + ys)[0] == xs[0];
      assert (xs + ys)[1..] == xs[1..] + ys;
      RunConcat(Step(m, xs[0]), xs[1..], ys);
    } else {
      assert xs + ys == ys;
    }
  }

  /**
   While nobody writes `key`, its entry survives exactly as long as every tick
   falls at or before its creation time, and then keeps its value.
   */
  lemma {:induction false} RunWithoutPut(m: CacheMap, es: seq<Event>, key: string)
    requires NoPutOf(es, key)
    ensures key in Run(m, es) <==> key in m && TicksAtOrBefore(es, m[key].createdAt)
    ensures key in Run(m, es) ==> Run(m, es)[key] == m[key]
    decreases |es|
  {
    if es != [] {
      var m' := Step(m, es[0]);
      assert NoPutOf(es[1..], key) by {
        forall i | 0 <= i < |es[1..]| ensures !(es[1..][i].Put? && es[1..][i].key == key) {
          assert es[1..][i] == es[i + 1];
        }
      }
      RunWithoutPut(m', es[1..], key);
      assert key in m' <==> key in m && (es[0].Tick? ==> es[0].t <= m[key].createdAt);
      assert key in m' ==> m'[key] == m[key];
      if key in m {
        var a := m[key].createdAt;
        assert TicksAtOrBefore(es, a) <==>
          (es[0].Tick? ==> es[0].t <= a) && TicksAtOrBefore(es[1..], a) by {
          if (es[0].Tick? ==> es[0].t <= a) && TicksAtOrBefore(es[1..], a) {
            forall i | 0 <= i < |es| && es[i].Tick? ensures es[i].t <= a {
              if i > 0 { assert es[i] == es[1..][i - 1]; }
            }
          }
        }
      }
    }
  }

  /**
   After the last write of `key`, at time `a`, the key is present exactly as
   long as no tick later than `a` has run, and while present it holds what was
   written at `a`.
   */
  lemma {:induction false} LifetimeAfterLastPut(m: CacheMap, before: seq<Event>, key: string, val: Bytes, a: Time, after: seq<Event>)
    requires NoPutOf(after, key)
    ensures var r := Run(m, before + [Put(key, val, a)] + after);
      (key in r <==> TicksAtOrBefore(after, a)) && (key in r ==> r[key] == CacheEntry(a, val))
  {
    var m1 := Run(m, before);
    RunConcat(m, before + [Put(key, val, a)], after);
    RunConcat(m, before, [Put(key, val, a)]);
    assert Run(m1, [Put(key, val, a)]) == m1[key := CacheEntry(a, val)];
    RunWithoutPut(m1[key := CacheEntry(a, val)], after, key);
  }

  /**
   The ticker started at `start` with period `interval` fires at
   start + k * interval for k >= 1; this is the number k of the first of those
   ticks that comes strictly after `a`.
   */
  function FirstTickAfter(start: Time, interval: int, a: Time): (k: nat)
    requires interval > 0 && start <= a
    ensures k >= 1
    ensures start + (k - 1) * interval <= a < start + k * interval
  {
    var d := a - start;
    var q := d / interval;
    assert d == q * interval + d % interval;
    assert q * interval + interval == (q + 1) * interval;
    q + 1
  }

  /**
   Bounded lifetime under the periodic reaper: an entry last written at time
   `a` is gone once the first tick after `a` has run, and that tick comes at
   most one interval after the write.
   */
  lemma GoneByFirstTickAfter(m: CacheMap, before: seq<Event>, key: string, val: Bytes, a: Time,
                             after: seq<Event>, start: Time, interval: int)
    requires interval > 0 && start <= a
    requires NoPutOf(after, key)
    requires Tick(start + FirstTickAfter(start, interval, a) * interval) in after
    ensures a < start + FirstTickAfter(start, interval, a) * interval <= a + interval
    ensures key !in Run(m, before + [Put(key, val, a)] + after)
  {
    var k := FirstTickAfter(start, interval, a);
    assert (k - 1) * interval + interval == k * interval;
    LifetimeAfterLastPut(m, before, key, val, a, after);
    var i :| 0 <= i < |after| && after[i] == Tick(start + k * interval);
    assert !TicksAtOrBefore(after, a);
  }

  /**
   Scenario with a 50-unit interval: a payload stored at time 0 is found at
   time 10; after the reaper's ticks at 50 and 100 it is gone.
   */
  method ExpiryScenario() returns (early: Bytes, earlyOk: bool, late: Bytes, lateOk: bool)
    ensures earlyOk && early == [1, 2, 3]
    ensures !lateOk && late == []
  {
    var c := new Cache(50);
    c.Add("a", [1, 2, 3], 0);
    early, earlyOk := c.Get("a");
    c.Reap(50);
    c.Reap(100);
    late, lateOk := c.Get("a");
  }

  /** A fresh cache misses every key; after two writes of one key the later one is read back. */
  method OverwriteScenario(interval: int, key: string, other: string, v1: Bytes, v2: Bytes, t1: Time, t2: Time)
    returns (freshOk: bool, val: Bytes, ok: bool, size: nat)
    requires interval > 0
    ensures !freshOk
    ensures ok && val == v2 && size == 1
  {
    var c := new Cache(interval);
    var _, found := c.Get(other);
    freshOk := found;
    c.Add(key, v1, t1);
    c.Add(key, v2, t2);
    val, ok := c.Get(key);
    size := |c.cacheMap|;
  }

  /**
   The sweep compares creation times with the tick time itself, so an entry
   written just before a tick lasts far less than one interval: with a 50-unit
   interval, a payload stored at 49 is gone after the tick at 50.
   */
  method EarlyEvictionScenario() returns (val: Bytes, ok: bool)
    ensures !ok && val == []
  {
    var c := new Cache(50);
    c.Add("a", [1], 49);
    c.Reap(50);
    val, ok := c.Get("a");
  }
}
