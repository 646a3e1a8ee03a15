# feathers-react-connector: subscription and cache bookkeeping

This project models the core of `useFeathersService` in the feathers-react-connector
library. That core is the reference-counted subscription bookkeeping and the two result
caches that React components share through the `useFind` and `useGet` hooks:

- **Subscriber counts.** `findSubCounts` and `getSubCounts` map a key to a positive
  count (module `Counts`, class `Counts.SubCounts`). Incrementing an absent key returns
  "new", which is the signal to fetch. The decrement that brings a count from 1 to 0
  returns "delete", which is the signal to evict. Decrementing an unknown key throws.
- **Result caches.** `finds` and `gets` map a key to `cacheResult(response)` or
  `cacheError(error)` (module `Cache`). A fetch completion overwrites one key, and
  last-subscriber cleanup deletes one key. A read returns the response, or `{}` when
  the entry is missing, holds an error, or holds a falsy response.
- **The service object.** Class `Connector.FeathersService` ties these together:
  - `Subscribe` is the hooks' effect body. `Unsubscribe` is the effect cleanup.
  - `CompleteFetch` is the settling of `doFind`/`doGet`.
  - `Read` is the hooks' return value.
  - `Refetch` issues one fetch per cached key.
  - `Mutate` is the `augmentWithRefetch` wrapper shared by `create`, `update`, `patch`
    and `remove`.

Network calls are not made in the model. A method that starts a fetch returns it as a
`Fetch(ns, key)` request. The fetch's completion is a later `CompleteFetch` call that
carries the outcome (`Success(response)` or `Failure(error)`). A write's outcome is
passed to `Mutate` as a parameter.

The model follows the code as written, including where it guarantees less than a
reference-counted cache might be expected to:

- Nothing tracks fetches in flight. A subscribe, unsubscribe, subscribe sequence issues
  two fetches (`Scenarios.ResubscribeFetchesTwice`).
- A completion writes its entry unconditionally. A fetch that settles after the last
  subscriber left therefore re-creates the entry, with no subscriber behind it
  (`Scenarios.LateCompletionRecreatesEntry`). The next mutation refetches that orphan
  too (`Scenarios.MutationRefetchesOrphan`).
- The caches never hold a "pending" placeholder. A key is absent until its first fetch
  settles.
- There is no separate refresh of only the subscribed keys. `refetch` goes over every
  key in both caches.
- A wrapped mutation returns the write's own result.

JavaScript values are modelled by `JsValues.JsValue`, with JavaScript truthiness. This
matters because the read rule tests `entry && entry.response`.

## Model

| member | source | states |
|---|---|---|
| `JsValues.DefaultParams` | feathersReactConnector.js:141-143 | `null` or `undefined` parameters become `{}`, and any other value is kept as it is |
| `Cache.EntryOf` | feathersReactConnector.js:73-89 | a settled fetch becomes `cacheResult(response)` on success and `cacheError(err)` on failure, carrying that payload |
| `Cache.Store` | feathersReactConnector.js:75-80 | the completion updater adds or overwrites exactly key `k` with the new entry, and every other entry stays as it was |
| `Cache.Evict` | feathersReactConnector.js:92-98 | the cleanup updater removes exactly key `k`, and every remaining entry stays as it was |
| `Cache.Read` | feathersReactConnector.js:157-161 | a read is total and always truthy: it gives the stored response when the entry is a result with a truthy response, and `{}` when the entry is missing or is an error |
| `Cache.ReadAfterStore` | feathersReactConnector.js:111-119 | after a completion, that key reads as the response (or `{}` when the response is falsy or the fetch failed), and every other key reads as before |
| `Cache.ReadAfterEvict` | feathersReactConnector.js:99-105 | after eviction, that key reads as `{}`, and every other key reads as before |
| `Counts.Incr` | feathersReactConnector.js:36-44 | increment reports "new" iff the key had no count; the key's count becomes its old count plus one; other keys do not change; positivity is kept |
| `Counts.Decr` | feathersReactConnector.js:45-55 | decrement fails with the underflow message iff the key has no count; otherwise the count drops by one, "delete" is reported iff the count was 1, and then the key is gone; other keys do not change; positivity is kept |
| `Counts.IncrTimesSpec` | feathersReactConnector.js:36-44 | `n` increments raise the count by `n`, and only the first increment of an absent key reports "new" |
| `Counts.DecrTimesSpec` | feathersReactConnector.js:45-55 | `n` decrements succeed iff `n` is at most the count; the only one reporting "delete" is the one that takes the count from 1 to 0; a failure carries the underflow message |
| `Counts.BalancedSubscriptions` | feathersReactConnector.js:36-55 | for a fresh key, `n` increments then `n` decrements return "new" only first and "delete" only at the n-th step, and leave the map exactly as it was; an (n+1)-th decrement throws |
| `Counts.SubCounts.constructor` | feathersReactConnector.js:64-67 | a counter object starts empty |
| `Counts.SubCounts.Increment` | feathersReactConnector.js:36-44 | the in-place increment updates the map as `Incr` does and returns true iff the key was absent |
| `Counts.SubCounts.Decrement` | feathersReactConnector.js:45-55 | the in-place decrement updates the map as `Decr` does; on an unknown key it fails with the underflow message and leaves the map unchanged |
| `Connector.FetchEach` | feathersReactConnector.js:124-129 | one loop of `refetch` issues exactly one fetch per key, with no duplicates and no other fetch |
| `Connector.FeathersService.constructor` | feathersReactConnector.js:64-69 | two distinct empty counter objects and two empty caches (`finds` here; `gets` at line 107) |
| `Connector.FeathersService.Subscribe` | feathersReactConnector.js:145-149 | one fetch is issued exactly when the key had no subscribers; that namespace's count is incremented; the other counter and both caches are unchanged |
| `Connector.FeathersService.Unsubscribe` | feathersReactConnector.js:150-155 | an unknown key throws the underflow error and changes nothing; otherwise the count is decremented, and the key's cache entry is deleted exactly when this was the last subscriber; the other namespace is unchanged |
| `Connector.FeathersService.CompleteFetch` | feathersReactConnector.js:108-121 | a completion stores the result or the error under its key whether or not the key is still subscribed; every other entry and all counts are unchanged |
| `Connector.FeathersService.Read` | feathersReactConnector.js:181-185 | a hook's read is always truthy: a result entry with a truthy response reads as that response, a missing or error entry reads as `{}`, and any value other than `{}` is the stored response |
| `Connector.FeathersService.Refetch` | feathersReactConnector.js:123-130 | exactly one find per key in `finds`, issued first, and exactly one get per key in `gets`, with no duplicates |
| `Connector.FeathersService.Mutate` | feathersReactConnector.js:132-138 | returns the write's own result; a failed write issues no fetch; a successful write issues exactly the `refetch` fetches, finds before gets |
| `Scenarios.LateCompletionRecreatesEntry` | feathersReactConnector.js:70-98 | a fetch that settles after the last unsubscribe re-creates the cache entry while the key has no subscriber |
| `Scenarios.ResubscribeFetchesTwice` | feathersReactConnector.js:168-179 | subscribe, unsubscribe, subscribe before any completion issues two fetches and ends with a count of 1 |
| `Scenarios.MutationRefetchesOrphan` | feathersReactConnector.js:123-138 | after such a re-created entry, a successful write refetches the orphaned key |

## Left out

- React plumbing is not modelled: `useState`, `useRef`, the scheduling of `useEffect`, the context object, `FeathersServiceProvider`, `FindRenderer`, `GetRenderer`, `withService` and JSX. Effect cleanup timing is framework behaviour. Re-render notification is also the framework's job.
- React state timing is not modelled. Updates through `setFinds`/`setGets` are applied at once here. In React they are queued, and `refetch` reads the `finds`/`gets` snapshot of the render that created the wrapper, which may be stale.
- Network calls are not modelled: `service.find`, `get`, `create`, `update`, `patch`, `remove` and their `async`/`await`. Their results are parameters: the `outcome` of `CompleteFetch` and the `write` of `Mutate`.
- Mutation arguments are not modelled. The four write operations share one wrapper, which is modelled once as `Mutate`.
- `paramsToString`/`stringToParams` (`JSON.stringify`/`JSON.parse`) are not modelled. Keys are opaque strings, and no round trip is claimed.
- Ids passed to `useGet` are modelled as strings. JavaScript coerces object keys to strings.
- `console.log` diagnostics are not modelled.
- Keys that name `Object.prototype` members (such as `"toString"`) are not modelled. For these keys, the plain-object lookup sees an inherited truthy value.
- `Connector.FetchEach` does not model the order of fetches within one cache. `Object.keys` yields integer-like keys in ascending numeric order and the other keys in insertion order, but the model issues them in an unspecified order. Nothing depends on this, since completions can arrive in any order.
- `Counts.Incr`: counts are unbounded naturals. JavaScript numbers stop growing at 2^53, so `subCounts[key] + 1` saturates there; the model does not capture that limit.
- Numbers are integers. Fractional numbers and `NaN` (which is falsy) are not modelled.
