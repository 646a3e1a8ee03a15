/**
 * Call sequences run against `FeathersService`, showing how the connector
 * behaves when a fetch is still outstanding while subscribers come and go.
 */
module Scenarios {
  import opened Wrappers
  import opened JsValues
  import opened Cache
  import opened Counts
  import opened Connector

  /**
   * Subscribe, unsubscribe (the last subscriber leaves and the entry is
   * evicted), then the first fetch completes: the completion writes the entry
   * back, although the key has no subscribers.
   */
  method LateCompletionRecreatesEntry(key: string, response: JsValue) returns (s: FeathersService)
    ensures s.Valid()
    ensures key !in s.CountsOf(Find)
    ensures s.finds == map[key := CachedResult(response)] && s.gets == map[]
  {
    s := new FeathersService();
    var issued := s.Subscribe(Find, key);
    assert issued == [Fetch(Find, key)];
    var r := s.Unsubscribe(Find, key);
    assert r == Success(true) && s.finds == map[];
    s.CompleteFetch(Find, key, Success(response));
  }

  /**
   * Subscribe, unsubscribe, subscribe again before any fetch completes: each
   * subscribe finds the key absent, so two fetches are issued, and the key
   * ends with one subscriber.
   */
  method ResubscribeFetchesTwice(key: string) returns (first: seq<Fetch>, second: seq<Fetch>, s: FeathersService)
    ensures first == [Fetch(Get, key)] && second == [Fetch(Get, key)]
    ensures s.Valid() && s.CountsOf(Get) == map[key := 1]
    ensures s.gets == map[]
  {
    s := new FeathersService();
    first := s.Subscribe(Get, key);
    var r := s.Unsubscribe(Get, key);
    assert r == Success(true);
    second := s.Subscribe(Get, key);
  }

  /** A refetch after a successful write reaches a key whose subscribers are all gone. */
  method MutationRefetchesOrphan(key: string, response: JsValue, written: JsValue)
    returns (issued: seq<Fetch>)
    ensures issued == [Fetch(Find, key)]
  {
    var s := LateCompletionRecreatesEntry(key, response);
    var r;
    r, issued := s.Mutate(Success(written));
    assert r == Success(written);
    assert s.finds.Keys == {key} && s.gets == map[];
    assert Fetch(Find, key) in issued;
    assert |issued| == 1;
  }
}
