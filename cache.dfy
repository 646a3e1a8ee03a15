/**
 * The result caches `finds` and `gets`: a map from key to the tagged outcome
 * of the last completed fetch, and the copy-and-modify updaters applied to it.
 */
module Cache {
  import opened Wrappers
  import opened JsValues

  /** `cacheResult(response)` and `cacheError(error)`. */
  datatype Entry = CachedResult(response: JsValue) | CachedError(error: JsValue)
  {
    /** The entry's `response` property; an error entry has none, so it reads `undefined`. */
    function ResponseProperty(): JsValue
    {
      match this
      case CachedResult(v) => v
      case CachedError(_) => Undefined
    }
  }

  type CacheMap = map<string, Entry>

  /** The entry a fetch completion writes: the response on success, the caught error on failure. */
  function EntryOf(outcome: Result<JsValue, JsValue>): (e: Entry)
    ensures outcome.Success? <==> e.CachedResult?
    ensures outcome.Success? ==> e.response == outcome.value
    ensures outcome.Failure? ==> e.error == outcome.error
  {
    match outcome
    case Success(v) => CachedResult(v)
    case Failure(err) => CachedError(err)
  }

  /** The completion updater `{...prev, [k]: e}`: sets one key and keeps every other entry. */
  function Store(c: CacheMap, k: string, e: Entry): (r: CacheMap)
    ensures r.Keys == c.Keys + {k}
    ensures r[k] == e
    ensures forall j :: j in c && j != k ==> r[j] == c[j]
  {
    c[k := e]
  }

  /** The last-subscriber updater: a copy of the cache with one key deleted. */
  function Evict(c: CacheMap, k: string): (r: CacheMap)
    ensures r.Keys == c.Keys - {k}
    ensures forall j :: j in r ==> r[j] == c[j]
  {
    c - {k}
  }

  /**
   * What a hook returns for key `k`: the stored response when the entry exists
   * and its response is truthy, otherwise `{}`.
   */
  function Read(c: CacheMap, k: string): (r: JsValue)
    ensures Truthy(r)
    ensures k in c && c[k].CachedResult? && Truthy(c[k].response) ==> r == c[k].response
    ensures r != EmptyObject ==> k in c && c[k] == CachedResult(r)
    ensures k !in c || c[k].CachedError? ==> r == EmptyObject
  {
    if k in c && Truthy(c[k].ResponseProperty()) then c[k].ResponseProperty() else EmptyObject
  }

  /** A completion changes what key `k` reads, and what no other key reads. */
  lemma ReadAfterStore(c: CacheMap, k: string, outcome: Result<JsValue, JsValue>, j: string)
    ensures j != k ==> Read(Store(c, k, EntryOf(outcome)), j) == Read(c, j)
    ensures Read(Store(c, k, EntryOf(outcome)), k) ==
              if outcome.Success? && Truthy(outcome.value) then outcome.value else EmptyObject
  {
  }

  /** After eviction key `k` reads `{}` and every other key reads as before. */
  lemma ReadAfterEvict(c: CacheMap, k: string, j: string)
    ensures Read(Evict(c, k), k) == EmptyObject
    ensures j != k ==> Read(Evict(c, k), j) == Read(c, j)
  {
  }
}
