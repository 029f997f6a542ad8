/**
 Which cached entries were used how recently (cita-chain/core/src/cache_manager.rs):
 a queue of eight generations of ids, youngest first.
 */
module CacheManager {

  const COLLECTION_QUEUE_SIZE: nat := 8

  /** Eight generations, no id in two of them. */
  ghost predicate Generations<T(!new)>(gs: seq<set<T>>) {
    && |gs| == COLLECTION_QUEUE_SIZE
    && forall i, j :: 0 <= i < j < |gs| ==> gs[i] !! gs[j]
  }

  /** All ids of all generations. */
  function Ids<T>(gs: seq<set<T>>): set<T> {
    if gs == [] then {} else gs[0] + Ids(gs[1..])
  }

  lemma {:induction false} IdsAre<T>(gs: seq<set<T>>, x: T)
    ensures x in Ids(gs) <==> exists i :: 0 <= i < |gs| && x in gs[i]
  {
    if gs != [] {
      IdsAre(gs[1..], x);
      if x in Ids(gs[1..]) {
        var i :| 0 <= i < |gs[1..]| && x in gs[1..][i];
        assert x in gs[i + 1];
      }
      if i :| 0 <= i < |gs| && x in gs[i] {
        assert i > 0 ==> x in gs[1..][i - 1];
      }
    }
  }

  lemma {:induction false} IdsConcat<T>(a: seq<set<T>>, b: seq<set<T>>)
    ensures Ids(a + b) == Ids(a) + Ids(b)
  {
    if a == [] {
      assert a + b == b;
    } else {
      assert (a + b)[1..] == a[1..] + b;
      IdsConcat(a[1..], b);
    }
  }

  /** Using an id makes it youngest and leaves it in no other generation. */
  function Noted<T>(gs: seq<set<T>>, id: T): (r: seq<set<T>>)
    requires |gs| == COLLECTION_QUEUE_SIZE
    ensures |r| == |gs|
    ensures forall i :: 0 <= i < |gs| ==> r[i] == if i == 0 then gs[0] + {id} else gs[i] - {id}
  {
    seq(|gs|, i requires 0 <= i < |gs| => if i == 0 then gs[0] + {id} else gs[i] - {id})
  }

  lemma NotedLosesNothing<T(!new)>(gs: seq<set<T>>, id: T)
    requires Generations(gs)
    ensures Generations(Noted(gs, id)) && Ids(Noted(gs, id)) == Ids(gs) + {id}
  {
    var r := Noted(gs, id);
    forall x
      ensures x in Ids(r) <==> x in Ids(gs) + {id}
    {
      IdsAre(r, x);
      IdsAre(gs, x);
      if x == id {
        assert x in r[0];
      } else {
        assert forall i :: 0 <= i < |gs| ==> (x in r[i] <==> x in gs[i]);
      }
    }
  }

  /** The oldest generation becomes the youngest. */
  function Rotated<T>(gs: seq<set<T>>): seq<set<T>>
    requires |gs| == COLLECTION_QUEUE_SIZE
  {
    [gs[|gs| - 1]] + gs[..|gs| - 1]
  }

  lemma RotatedLosesNothing<T(!new)>(gs: seq<set<T>>)
    requires Generations(gs)
    ensures Generations(Rotated(gs)) && Ids(Rotated(gs)) == Ids(gs)
  {
    var n := |gs| - 1;
    IdsConcat([gs[n]], gs[..n]);
    IdsConcat(gs[..n], [gs[n]]);
    assert gs == gs[..n] + [gs[n]];
  }

  /** Rotation makes every generation one older, and the oldest the youngest. */
  lemma RotatedAges<T(!new)>(gs: seq<set<T>>, i: nat)
    requires |gs| == COLLECTION_QUEUE_SIZE && i < 8
    ensures Rotated(gs)[(i + 1) % 8] == gs[i]
  {
  }

  function Empties<T>(k: nat): seq<set<T>> {
    seq(k, i => {})
  }

  /** The k oldest generations, oldest first. */
  function Oldest<T>(gs: seq<set<T>>, k: nat): seq<set<T>>
    requires k <= |gs|
  {
    seq(k, i requires 0 <= i < k => gs[|gs| - 1 - i])
  }

  /** Evicting the k oldest generations, each replaced by an empty youngest one. */
  function Shifted<T>(gs: seq<set<T>>, k: nat): seq<set<T>>
    requires k <= |gs|
  {
    Empties(k) + gs[..|gs| - k]
  }

  /** An id is evicted with its generation or kept with it. */
  lemma EvictedOrKept<T(!new)>(gs: seq<set<T>>, k: nat, x: T)
    requires k <= |gs|
    ensures x in Ids(Oldest(gs, k)) <==> exists i :: |gs| - k <= i < |gs| && x in gs[i]
    ensures x in Ids(Shifted(gs, k)) <==> exists i :: 0 <= i < |gs| - k && x in gs[i]
  {
    var n, out, left := |gs|, Oldest(gs, k), Shifted(gs, k);
    IdsAre(out, x);
    IdsAre(left, x);
    hide Ids;
    assert forall i :: 0 <= i < k ==> out[i] == gs[n - 1 - i];
    assert forall i :: n - k <= i < n ==> gs[i] == out[n - 1 - i];
    assert forall i :: 0 <= i < n - k ==> gs[i] == left[k + i];
    assert forall i :: k <= i < n ==> left[i] == gs[i - k];
  }

  /** The generations that are kept become older by as many as were evicted. */
  lemma ShiftedAges<T(!new)>(gs: seq<set<T>>, k: nat, i: nat)
    requires k <= |gs| && i < |gs|
    ensures |Shifted(gs, k)| == |gs|
    ensures i < |gs| - k ==> Shifted(gs, k)[i + k] == gs[i]
    ensures i < k ==> Shifted(gs, k)[i] == {} && Oldest(gs, k)[i] == gs[|gs| - 1 - i]
  {
  }

  /** What is evicted and what is kept are all ids, and none is both. */
  lemma EvictionSplits<T(!new)>(gs: seq<set<T>>, k: nat)
    requires Generations(gs) && k <= |gs|
    ensures Generations(Shifted(gs, k))
    ensures Ids(Oldest(gs, k)) + Ids(Shifted(gs, k)) == Ids(gs)
    ensures Ids(Oldest(gs, k)) !! Ids(Shifted(gs, k))
  {
    hide Ids, Oldest;
    forall x
      ensures x in Ids(Oldest(gs, k)) || x in Ids(Shifted(gs, k)) <==> x in Ids(gs)
      ensures !(x in Ids(Oldest(gs, k)) && x in Ids(Shifted(gs, k)))
    {
      EvictedOrKept(gs, k, x);
      IdsAre(gs, x);
    }
  }

  lemma ShiftNone<T(!new)>(gs: seq<set<T>>)
    requires Generations(gs)
    ensures |gs| == COLLECTION_QUEUE_SIZE && Oldest(gs, 0) == [] && Shifted(gs, 0) == gs
  {
  }

  lemma ShiftOnce<T>(gs: seq<set<T>>, k: nat)
    requires k < |gs|
    ensures |Shifted(gs, k)| == |gs| == |Shifted(gs, k + 1)|
    ensures Shifted(gs, k + 1) == [{}] + Shifted(gs, k)[..|gs| - 1]
    ensures Oldest(gs, k + 1) == Oldest(gs, k) + [Shifted(gs, k)[|gs| - 1]]
  {
  }

  class Manager<T(==, !new)> {
    const prefCacheSize: nat
    const maxCacheSize: nat
    const bytesPerCacheEntry: nat
    var cacheUsage: seq<set<T>>

    ghost predicate Valid()
      reads this
    {
      Generations(cacheUsage)
    }

    constructor (prefCacheSize: nat, maxCacheSize: nat, bytesPerCacheEntry: nat)
      ensures Valid() && cacheUsage == Empties(COLLECTION_QUEUE_SIZE)
      ensures this.prefCacheSize == prefCacheSize && this.maxCacheSize == maxCacheSize
      ensures this.bytesPerCacheEntry == bytesPerCacheEntry
    {
      this.prefCacheSize := prefCacheSize;
      this.maxCacheSize := maxCacheSize;
      this.bytesPerCacheEntry := bytesPerCacheEntry;
      cacheUsage := Empties(COLLECTION_QUEUE_SIZE);
    }

    method NoteUsed(id: T)
      requires Valid()
      modifies this
      ensures Valid() && cacheUsage == Noted(old(cacheUsage), id)
      ensures Ids(cacheUsage) == Ids(old(cacheUsage)) + {id}
    {
      NotedLosesNothing(cacheUsage, id);
      if id !in cacheUsage[0] {
        var i := 1;
        while i < |cacheUsage| && id !in cacheUsage[i]
          invariant 1 <= i <= |cacheUsage|
          invariant forall j :: 0 <= j < i ==> id !in cacheUsage[j]
        {
          i := i + 1;
        }
        if i < |cacheUsage| {
          assert forall j :: 0 <= j < |cacheUsage| && j != i ==> id !in cacheUsage[j];
          cacheUsage := cacheUsage[i := cacheUsage[i] - {id}];
        }
        cacheUsage := cacheUsage[0 := cacheUsage[0] + {id}];
      } else {
        assert forall j :: 1 <= j < |cacheUsage| ==> id !in cacheUsage[j];
      }
      assert forall j :: 0 <= j < |cacheUsage| ==> cacheUsage[j] == Noted(old(cacheUsage), id)[j];
    }

    /** Evicts generations from the oldest on until the cache is small enough;
        `sizeAfter(k)` is the size reported once `k` generations are gone. */
    method CollectGarbage(currentSize: nat, sizeAfter: nat -> nat) returns (evicted: seq<set<T>>)
      requires Valid()
      modifies this
      ensures Valid()
      ensures currentSize < prefCacheSize ==> evicted == [] && Ids(cacheUsage) == Ids(old(cacheUsage))
      ensures currentSize >= prefCacheSize ==>
                && 1 <= |evicted| <= COLLECTION_QUEUE_SIZE
                && evicted == Oldest(old(cacheUsage), |evicted|)
                && cacheUsage == Shifted(old(cacheUsage), |evicted|)
                && (forall k :: 1 <= k < |evicted| ==> sizeAfter(k) >= maxCacheSize)
                && (sizeAfter(|evicted|) < maxCacheSize || |evicted| == COLLECTION_QUEUE_SIZE)
    {
      evicted := [];
      if currentSize < prefCacheSize {
        RotateCacheIfNeeded();
        return;
      }
      hide Generations, Shifted, Oldest;
      ghost var gs := cacheUsage;
      assert |gs| == COLLECTION_QUEUE_SIZE && Oldest(gs, 0) == [] && Shifted(gs, 0) == gs by { ShiftNone(gs); }
      var k := 0;
      while k < COLLECTION_QUEUE_SIZE
        invariant 0 <= k <= COLLECTION_QUEUE_SIZE
        invariant |evicted| == k && evicted == Oldest(gs, k) && cacheUsage == Shifted(gs, k)
        invariant forall j :: 1 <= j <= k ==> sizeAfter(j) >= maxCacheSize
      {
        ShiftOnce(gs, k);
        var back := cacheUsage[|cacheUsage| - 1];
        cacheUsage := [{}] + cacheUsage[..|cacheUsage| - 1];
        evicted := evicted + [back];
        k := k + 1;
        if sizeAfter(k) < maxCacheSize {
          break;
        }
      }
      EvictionSplits(gs, k);
    }

    method RotateCacheIfNeeded()
      requires Valid()
      modifies this
      ensures Valid() && Ids(cacheUsage) == Ids(old(cacheUsage))
      ensures cacheUsage == if |old(cacheUsage)[0]| * bytesPerCacheEntry > prefCacheSize / COLLECTION_QUEUE_SIZE
                            then Rotated(old(cacheUsage)) else old(cacheUsage)
    {
      RotatedLosesNothing(cacheUsage);
      if |cacheUsage[0]| * bytesPerCacheEntry > prefCacheSize / COLLECTION_QUEUE_SIZE {
        var back := cacheUsage[|cacheUsage| - 1];
        cacheUsage := [back] + cacheUsage[..|cacheUsage| - 1];
      }
    }
  }
}
