/**
 * Subscriber reference counts (`findSubCounts`, `getSubCounts`): a map from key
 * to a positive count. The 0-to-1 transition signals "fetch", the 1-to-0
 * transition signals "evict", and decrementing an unknown key is an error.
 */
module Counts {
  import opened Wrappers

  type CountMap = map<string, nat>

  /** The outcome of one counter update: the new map and the flag the helper returns. */
  datatype Step = Step(counts: CountMap, flag: bool)

  /** The outcome of repeated updates: the final map and the flag of each update, in order. */
  datatype Trace = Trace(counts: CountMap, flags: seq<bool>)

  /** The count a key reads as; a missing key reads as zero (falsy). */
  function Count(m: CountMap, k: string): (c: nat)
    ensures c > 0 ==> k in m && m[k] == c
  {
    if k in m then m[k] else 0
  }

  /** The map never stores a zero count. */
  predicate Positive(m: CountMap)
  {
    forall k :: k in m ==> m[k] >= 1
  }

  /** The message of the error thrown on a decrement of an unknown key. */
  function UnderflowMessage(k: string): string
  {
    "useFeathersService: Tried to decrCount(" + k + ") not defined in subCounts"
  }

  /** Increment: the new map, and whether the key had no subscribers before. */
  function Incr(m: CountMap, k: string): (r: Step)
    ensures r.flag <==> Count(m, k) == 0
    ensures k in r.counts && r.counts[k] == Count(m, k) + 1
    ensures r.counts - {k} == m - {k}
    ensures Positive(m) ==> Positive(r.counts)
  {
    if k !in m || m[k] == 0 then Step(m[k := 1], true)
    else Step(m[k := m[k] + 1], false)
  }

  /** Decrement: the new map and whether the key was removed, or the underflow error. */
  function Decr(m: CountMap, k: string): (r: Result<Step, string>)
    ensures r.Failure? <==> Count(m, k) == 0
    ensures r.Failure? ==> r.error == UnderflowMessage(k)
    ensures r.Success? ==> (r.value.flag <==> Count(m, k) == 1)
    ensures r.Success? ==> Count(r.value.counts, k) == Count(m, k) - 1
    ensures r.Success? ==> r.value.counts - {k} == m - {k}
    ensures r.Success? && r.value.flag ==> k !in r.value.counts
    ensures r.Success? && Positive(m) ==>
      Positive(r.value.counts) && (k in r.value.counts <==> !r.value.flag)
  {
    if k in m && m[k] == 1 then Success(Step(m - {k}, true))
    else if k in m && m[k] != 0 then Success(Step(m[k := m[k] - 1], false))
    else Failure(UnderflowMessage(k))
  }

  /** `n` increments of one key: the final map and what each increment returned. */
  function IncrTimes(m: CountMap, k: string, n: nat): (t: Trace)
  {
    if n == 0 then Trace(m, [])
    else
      var before := IncrTimes(m, k, n - 1);
      var step := Incr(before.counts, k);
      Trace(step.counts, before.flags + [step.flag])
  }

  /** `n` decrements of one key: the final map and what each returned, or the first error. */
  function DecrTimes(m: CountMap, k: string, n: nat): (t: Result<Trace, string>)
  {
    if n == 0 then Success(Trace(m, []))
    else
      match DecrTimes(m, k, n - 1)
      case Failure(e) => Failure(e)
      case Success(before) =>
        match Decr(before.counts, k)
        case Failure(e) => Failure(e)
        case Success(step) => Success(Trace(step.counts, before.flags + [step.flag]))
  }

  /** After `n` increments the count grew by `n`, and only the first can report a new key. */
  lemma {:induction false} IncrTimesSpec(m: CountMap, k: string, n: nat)
    ensures Count(IncrTimes(m, k, n).counts, k) == Count(m, k) + n
    ensures IncrTimes(m, k, n).counts - {k} == m - {k}
    ensures |IncrTimes(m, k, n).flags| == n
    ensures forall i :: 0 <= i < n ==> (IncrTimes(m, k, n).flags[i] <==> i == 0 && Count(m, k) == 0)
    ensures Positive(m) ==> Positive(IncrTimes(m, k, n).counts)
  {
    if n > 0 {
      IncrTimesSpec(m, k, n - 1);
    }
  }

  /**
   * Decrements succeed exactly while the count lasts; the one that takes the
   * count from 1 to 0 is the only one reporting a deletion.
   */
  lemma {:induction false} DecrTimesSpec(m: CountMap, k: string, n: nat)
    ensures DecrTimes(m, k, n).Success? <==> n <= Count(m, k)
    ensures DecrTimes(m, k, n).Failure? ==> DecrTimes(m, k, n).error == UnderflowMessage(k)
    ensures n <= Count(m, k) ==>
      var t := DecrTimes(m, k, n).value;
      && Count(t.counts, k) == Count(m, k) - n
      && t.counts - {k} == m - {k}
      && |t.flags| == n
      && (forall i :: 0 <= i < n ==> (t.flags[i] <==> Count(m, k) - i == 1))
      && (Positive(m) ==> Positive(t.counts))
  {
    if n > 0 {
      DecrTimesSpec(m, k, n - 1);
    }
  }

  /**
   * `n` subscriptions to a fresh key followed by `n` unsubscriptions: only the
   * first increment reports a new key, only the n-th decrement reports a
   * deletion, the map is back where it started, and one more decrement throws.
   */
  lemma {:induction false} BalancedSubscriptions(m: CountMap, k: string, n: nat)
    requires k !in m
    ensures IncrTimes(m, k, n).flags == seq(n, i => i == 0)
    ensures DecrTimes(IncrTimes(m, k, n).counts, k, n) == Success(Trace(m, seq(n, i => i == n - 1)))
    ensures DecrTimes(IncrTimes(m, k, n).counts, k, n + 1) == Failure(UnderflowMessage(k))
  {
    var up := IncrTimes(m, k, n);
    IncrTimesSpec(m, k, n);
    assert up.flags == seq(n, i => i == 0);
    DecrTimesSpec(up.counts, k, n);
    DecrTimesSpec(up.counts, k, n + 1);
    var down := DecrTimes(up.counts, k, n).value;
    assert down.counts.Keys == m.Keys;
    assert down.counts == m;
    assert down.flags == seq(n, i => i == n - 1);
  }

  /** One count map updated in place: the object passed to the two counter helpers. */
  class SubCounts {
    var counts: CountMap

    ghost predicate Valid()
      reads this
    {
      Positive(counts)
    }

    constructor ()
      ensures Valid() && counts == map[]
    {
      counts := map[];
    }

    /** `incrCountAndReturnWhetherNew`. */
    method Increment(k: string) returns (isNew: bool)
      requires Valid()
      modifies this
      ensures Valid()
      ensures Incr(old(counts), k) == Step(counts, isNew)
      ensures isNew <==> k !in old(counts)
    {
      if k !in counts || counts[k] == 0 {
        counts := counts[k := 1];
        isNew := true;
      } else {
        counts := counts[k := counts[k] + 1];
        isNew := false;
      }
    }

    /** `decrCountAndReturnWhetherDelete`; the thrown error leaves the map as it was. */
    method Decrement(k: string) returns (r: Result<bool, string>)
      requires Valid()
      modifies this
      ensures Valid()
      ensures r.Failure? <==> k !in old(counts)
      ensures r.Failure? ==> r.error == UnderflowMessage(k) && counts == old(counts)
      ensures r.Success? ==> Decr(old(counts), k) == Success(Step(counts, r.value))
    {
      if k in counts && counts[k] == 1 {
        counts := counts - {k};
        r := Success(true);
      } else if k in counts && counts[k] != 0 {
        counts := counts[k := counts[k] - 1];
        r := Success(false);
      } else {
        r := Failure(UnderflowMessage(k));
      }
    }
  }
}
