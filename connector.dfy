/**
 * The state behind `useFeathersService`: two subscriber-count objects and two
 * result caches, and the operations the hooks and the mutation wrappers run on
 * them. A network call is not made here; a method that would start one
 * returns it as a `Fetch` request, and its completion is a later call to
 * `CompleteFetch` carrying the outcome.
 */
module Connector {
  import opened Wrappers
  import opened JsValues
  import opened Cache
  import opened Counts

  /** `finds` (keyed by serialised query parameters) or `gets` (keyed by id). */
  datatype Namespace = Find | Get
  {
    function Other(): Namespace
    {
      if this == Find then Get else Find
    }
  }

  /** A request issued to the remote service: `doFind(key)` or `doGet(key)`. */
  datatype Fetch = Fetch(ns: Namespace, key: string)

  predicate Distinct(fs: seq<Fetch>)
  {
    forall i, j :: 0 <= i < j < |fs| ==> fs[i] != fs[j]
  }

  /** One fetch per key of `keys`, as the two loops of `refetch` issue them. */
  method FetchEach(ns: Namespace, keys: set<string>) returns (issued: seq<Fetch>)
    ensures forall f :: f in issued <==> f.ns == ns && f.key in keys
    ensures Distinct(issued)
    ensures |issued| == |keys|
  {
    var remaining := keys;
    issued := [];
    while remaining != {}
      invariant remaining <= keys
      invariant forall f :: f in issued <==> f.ns == ns && f.key in keys - remaining
      invariant Distinct(issued)
      invariant |issued| + |remaining| == |keys|
      decreases remaining
    {
      var k :| k in remaining;
      issued := issued + [Fetch(ns, k)];
      remaining := remaining - {k};
    }
  }

  class FeathersService {
    const findSubCounts: SubCounts
    const getSubCounts: SubCounts
    var finds: CacheMap
    var gets: CacheMap

    ghost predicate Valid()
      reads this, findSubCounts, getSubCounts
    {
      findSubCounts != getSubCounts && findSubCounts.Valid() && getSubCounts.Valid()
    }

    function SubCountsOf(ns: Namespace): SubCounts
    {
      if ns == Find then findSubCounts else getSubCounts
    }

    function CountsOf(ns: Namespace): CountMap
      reads this, findSubCounts, getSubCounts
    {
      SubCountsOf(ns).counts
    }

    function CacheOf(ns: Namespace): CacheMap
      reads this
    {
      if ns == Find then finds else gets
    }

    constructor ()
      ensures Valid() && fresh(findSubCounts) && fresh(getSubCounts)
      ensures CountsOf(Find) == map[] && CountsOf(Get) == map[]
      ensures finds == map[] && gets == map[]
    {
      findSubCounts := new SubCounts();
      getSubCounts := new SubCounts();
      finds, gets := map[], map[];
    }

    /** The effect body of `useFind`/`useGet`: count one more subscriber, fetch on the first. */
    method Subscribe(ns: Namespace, key: string) returns (issued: seq<Fetch>)
      requires Valid()
      modifies SubCountsOf(ns)
      ensures Valid()
      ensures issued == if key !in old(CountsOf(ns)) then [Fetch(ns, key)] else []
      ensures CountsOf(ns) == Incr(old(CountsOf(ns)), key).counts
      ensures CountsOf(ns.Other()) == old(CountsOf(ns.Other()))
      ensures finds == old(finds) && gets == old(gets)
    {
      var isNew := SubCountsOf(ns).Increment(key);
      issued := if isNew then [Fetch(ns, key)] else [];
    }

    /**
     * The effect cleanup: count one subscriber less; when it was the last one,
     * delete the key's cache entry. An unknown key throws before the cache is touched.
     */
    method Unsubscribe(ns: Namespace, key: string) returns (r: Result<bool, string>)
      requires Valid()
      modifies this, SubCountsOf(ns)
      ensures Valid()
      ensures r.Failure? <==> key !in old(CountsOf(ns))
      ensures r.Failure? ==> r.error == UnderflowMessage(key)
      ensures r.Failure? ==> CountsOf(ns) == old(CountsOf(ns))
      ensures r.Success? ==> (r.value <==> old(CountsOf(ns))[key] == 1)
      ensures r.Success? ==> Decr(old(CountsOf(ns)), key) == Success(Step(CountsOf(ns), r.value))
      ensures CacheOf(ns) == if r == Success(true) then Evict(old(CacheOf(ns)), key) else old(CacheOf(ns))
      ensures CountsOf(ns.Other()) == old(CountsOf(ns.Other()))
      ensures CacheOf(ns.Other()) == old(CacheOf(ns.Other()))
    {
      r := SubCountsOf(ns).Decrement(key);
      if r == Success(true) {
        if ns == Find {
          finds := Evict(finds, key);
        } else {
          gets := Evict(gets, key);
        }
      }
    }

    /**
     * A fetch for `key` settled with `outcome`. The write is unconditional: it
     * happens whether or not the key still has subscribers.
     */
    method CompleteFetch(ns: Namespace, key: string, outcome: Result<JsValue, JsValue>)
      requires Valid()
      modifies this
      ensures Valid()
      ensures CacheOf(ns) == Store(old(CacheOf(ns)), key, EntryOf(outcome))
      ensures CacheOf(ns.Other()) == old(CacheOf(ns.Other()))
      ensures CountsOf(Find) == old(CountsOf(Find)) && CountsOf(Get) == old(CountsOf(Get))
    {
      if ns == Find {
        finds := Store(finds, key, EntryOf(outcome));
      } else {
        gets := Store(gets, key, EntryOf(outcome));
      }
    }

    /** What `useFind(params)` / `useGet(id)` returns for the key. */
    function Read(ns: Namespace, key: string): (r: JsValue)
      reads this
      ensures Truthy(r)
      ensures key in CacheOf(ns) && CacheOf(ns)[key].CachedResult? && Truthy(CacheOf(ns)[key].response) ==>
                r == CacheOf(ns)[key].response
      ensures r != EmptyObject ==> key in CacheOf(ns) && CacheOf(ns)[key] == CachedResult(r)
      ensures key !in CacheOf(ns) || CacheOf(ns)[key].CachedError? ==> r == EmptyObject
    {
      Cache.Read(CacheOf(ns), key)
    }

    /** `refetch`: one find per key in `finds`, then one get per key in `gets`. */
    method Refetch() returns (issued: seq<Fetch>)
      ensures forall f :: f in issued <==>
        (f.ns == Find && f.key in finds) || (f.ns == Get && f.key in gets)
      ensures Distinct(issued)
      ensures |issued| == |finds| + |gets|
      ensures forall i :: 0 <= i < |finds| ==> issued[i].ns == Find
    {
      var findFetches := FetchEach(Find, finds.Keys);
      var getFetches := FetchEach(Get, gets.Keys);
      issued := findFetches + getFetches;
      forall i, j | 0 <= i < j < |issued| ensures issued[i] != issued[j] {
        if j < |findFetches| {
          assert issued[i] == findFetches[i] && issued[j] == findFetches[j];
        } else if i >= |findFetches| {
          assert issued[i] == getFetches[i - |findFetches|];
          assert issued[j] == getFetches[j - |findFetches|];
        } else {
          assert issued[i] in findFetches && issued[j] in getFetches;
        }
      }
    }

    /**
     * A wrapped `create`/`update`/`patch`/`remove`: once the write succeeded,
     * refetch every cached key and return the write's own result; a failed
     * write propagates and refetches nothing.
     */
    method Mutate(write: Result<JsValue, JsValue>) returns (r: Result<JsValue, JsValue>, issued: seq<Fetch>)
      ensures r == write
      ensures write.Failure? ==> issued == []
      ensures write.Success? ==> forall f :: f in issued <==>
        (f.ns == Find && f.key in finds) || (f.ns == Get && f.key in gets)
      ensures write.Success? ==> Distinct(issued) && |issued| == |finds| + |gets|
      ensures write.Success? ==> forall i :: 0 <= i < |finds| ==> issued[i].ns == Find
    {
      r := write;
      issued := [];
      if write.Success? {
        issued := Refetch();
      }
    }
  }
}
