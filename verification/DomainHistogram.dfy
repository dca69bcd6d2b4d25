/**
 The latency and size histograms. Counters are 64-bit and wrap; one counter per bound plus one for
 everything above the last bound.
 */
module DomainHistogram {

  const WORD: nat := 0x1_0000_0000_0000_0000

  predicate Ascending(bounds: seq<nat>) {
    forall i, j | 0 <= i < j < |bounds| :: bounds[i] < bounds[j]
  }

  // ----- The simple form: the observations themselves -----

  function CountAtMost(observed: seq<nat>, bound: nat): nat {
    if observed == [] then 0
    else CountAtMost(observed[..|observed| - 1], bound) + (if observed[|observed| - 1] <= bound then 1 else 0)
  }

  function Total(observed: seq<nat>): nat {
    if observed == [] then 0 else Total(observed[..|observed| - 1]) + observed[|observed| - 1]
  }

  lemma {:induction false} CountAtMostGrows(observed: seq<nat>, a: nat, b: nat)
    requires a <= b
    ensures CountAtMost(observed, a) <= CountAtMost(observed, b) <= |observed|
  {
    if observed != [] {
      CountAtMostGrows(observed[..|observed| - 1], a, b);
    }
  }

  // ----- The buckets -----

  /** The bucket a value falls into: the first bound that is at least the value, or the last. */
  function BucketOf(bounds: seq<nat>, value: nat): (k: nat)
    ensures k <= |bounds|
    ensures k < |bounds| ==> value <= bounds[k]
    ensures forall i | 0 <= i < k :: bounds[i] < value
  {
    if bounds == [] || value <= bounds[0] then 0 else BucketOf(bounds[1..], value) + 1
  }

  function CountIn(bounds: seq<nat>, observed: seq<nat>, k: nat): nat {
    if observed == [] then 0
    else
      var last := observed[|observed| - 1];
      CountIn(bounds, observed[..|observed| - 1], k) + (if BucketOf(bounds, last) == k then 1 else 0)
  }

  /** All observations in the first `k` buckets. */
  function Cumulative(bounds: seq<nat>, observed: seq<nat>, k: nat): nat {
    if k == 0 then 0 else Cumulative(bounds, observed, k - 1) + CountIn(bounds, observed, k - 1)
  }

  lemma {:induction false} CumulativeStep(bounds: seq<nat>, observed: seq<nat>, k: nat)
    requires observed != []
    ensures
      var init, last := observed[..|observed| - 1], observed[|observed| - 1];
      Cumulative(bounds, observed, k) == Cumulative(bounds, init, k) + (if BucketOf(bounds, last) < k then 1 else 0)
    decreases k
  {
    if k > 0 {
      CumulativeStep(bounds, observed, k - 1);
    }
  }

  lemma {:induction false} NothingObserved(bounds: seq<nat>, k: nat)
    ensures Cumulative(bounds, [], k) == 0
    decreases k
  {
    if k > 0 {
      NothingObserved(bounds, k - 1);
    }
  }

  /** The buckets up to a bound hold exactly the observations at most that bound, and all of them
      together hold every observation. */
  lemma {:induction false} CumulativeIsCount(bounds: seq<nat>, observed: seq<nat>, k: nat)
    requires Ascending(bounds) && k <= |bounds|
    ensures k < |bounds| ==> Cumulative(bounds, observed, k + 1) == CountAtMost(observed, bounds[k])
    ensures k == |bounds| ==> Cumulative(bounds, observed, k + 1) == |observed|
  {
    if observed == [] {
      NothingObserved(bounds, k + 1);
    } else {
      var last := observed[|observed| - 1];
      CumulativeIsCount(bounds, observed[..|observed| - 1], k);
      CumulativeStep(bounds, observed, k + 1);
      assert k < |bounds| ==> (BucketOf(bounds, last) < k + 1 <==> last <= bounds[k]);
    }
  }

  // ----- The counters -----

  function Wrapped(n: nat): nat {
    n % WORD
  }

  lemma CountOneMore(bounds: seq<nat>, observed: seq<nat>, value: nat, k: nat)
    ensures
      Wrapped(CountIn(bounds, observed + [value], k)) ==
      if k == BucketOf(bounds, value) then (Wrapped(CountIn(bounds, observed, k)) + 1) % WORD else Wrapped(CountIn(bounds, observed, k))
  {
    assert (observed + [value])[..|observed|] == observed;
    WrapAdd(CountIn(bounds, observed, k), 1);
  }

  lemma TotalOneMore(observed: seq<nat>, value: nat)
    ensures Total(observed + [value]) % WORD == (Total(observed) % WORD + value) % WORD
    ensures |observed + [value]| % WORD == (|observed| % WORD + 1) % WORD
  {
    assert (observed + [value])[..|observed|] == observed;
    WrapAdd(Total(observed), value);
    WrapAdd(|observed|, 1);
  }

  /** What one scrape shows: a value per bound, then the rest, the sum and the count. */
  datatype Rendered = Rendered(le: seq<nat>, inf: nat, sum: nat, count: nat)

  class Histogram {
    const bounds: seq<nat>
    const buckets: array<nat>
    var count: nat
    var sum: nat
    ghost var observed: seq<nat>

    ghost predicate Valid()
      reads this, buckets
    {
      && Ascending(bounds)
      && buckets.Length == |bounds| + 1
      && count == |observed| % WORD
      && sum == Total(observed) % WORD
      && forall k | 0 <= k < buckets.Length :: buckets[k] == Wrapped(CountIn(bounds, observed, k))
    }

    constructor (bounds: seq<nat>)
      requires Ascending(bounds)
      ensures Valid() && fresh(buckets) && this.bounds == bounds && observed == []
    {
      this.bounds := bounds;
      buckets := new nat[|bounds| + 1](_ => 0);
      count, sum, observed := 0, 0, [];
    }

    method Observe(value: nat)
      requires Valid()
      modifies this, buckets
      ensures Valid() && observed == old(observed) + [value]
    {
      var index := Position(value);
      forall k: nat
        ensures Wrapped(CountIn(bounds, observed + [value], k)) ==
          if k == index then (Wrapped(CountIn(bounds, observed, k)) + 1) % WORD else Wrapped(CountIn(bounds, observed, k))
      {
        CountOneMore(bounds, observed, value, k);
      }
      TotalOneMore(observed, value);
      observed := observed + [value];
      buckets[index] := (buckets[index] + 1) % WORD;
      count := (count + 1) % WORD;
      sum := (sum + value) % WORD;
    }

    /** The first bound that is at least the value. */
    method Position(value: nat) returns (index: nat)
      ensures index == BucketOf(bounds, value)
    {
      index := 0;
      while index < |bounds| && value > bounds[index]
        invariant index <= |bounds| && forall i | 0 <= i < index :: bounds[i] < value
      {
        index := index + 1;
      }
    }

    /** Each `le` value is the number of observations at most its bound, and the last bucket is the
        number of all of them; modulo the counter width. */
    method Render() returns (r: Rendered)
      requires Valid()
      ensures |r.le| == |bounds| && forall k | 0 <= k < |bounds| :: r.le[k] == CountAtMost(observed, bounds[k]) % WORD
      ensures r.inf == r.count == |observed| % WORD && r.sum == Total(observed) % WORD
      ensures |observed| < WORD ==> IsCumulative(bounds, observed, r)
    {
      var cumulative := 0;
      var le: seq<nat> := [];
      for k := 0 to |bounds|
        invariant |le| == k && cumulative == Cumulative(bounds, observed, k) % WORD
        invariant forall i | 0 <= i < k :: le[i] == CountAtMost(observed, bounds[i]) % WORD
      {
        WrapAdd(Cumulative(bounds, observed, k), CountIn(bounds, observed, k));
        cumulative := (cumulative + buckets[k]) % WORD;
        CumulativeIsCount(bounds, observed, k);
        le := le + [cumulative];
      }
      var top := |bounds|;
      WrapAdd(Cumulative(bounds, observed, top), CountIn(bounds, observed, top));
      CumulativeIsCount(bounds, observed, top);
      cumulative := (cumulative + buckets[top]) % WORD;
      r := Rendered(le, cumulative, sum, count);
      if |observed| < WORD {
        ExactBelowWidth(bounds, observed, r);
      }
    }
  }

  /** A scrape as the exposition format defines it: exact, non-decreasing, ending in the count. */
  ghost predicate IsCumulative(bounds: seq<nat>, observed: seq<nat>, r: Rendered) {
    && |r.le| == |bounds|
    && (forall k | 0 <= k < |bounds| :: r.le[k] == CountAtMost(observed, bounds[k]))
    && (forall i, j | 0 <= i < j < |r.le| :: r.le[i] <= r.le[j])
    && (forall k | 0 <= k < |r.le| :: r.le[k] <= r.inf)
    && r.inf == r.count == |observed|
  }

  lemma WrapAdd(a: nat, b: nat)
    ensures (a % WORD + b % WORD) % WORD == (a + b) % WORD
    ensures (a % WORD + b) % WORD == (a + b) % WORD
  {
  }

  lemma NotWrapped(n: nat)
    requires n < WORD
    ensures n % WORD == n
  {
  }

  lemma ExactBelowWidth(bounds: seq<nat>, observed: seq<nat>, r: Rendered)
    requires Ascending(bounds) && |observed| < WORD
    requires |r.le| == |bounds| && forall k | 0 <= k < |bounds| :: r.le[k] == CountAtMost(observed, bounds[k]) % WORD
    requires r.inf == r.count == |observed| % WORD
    ensures IsCumulative(bounds, observed, r)
  {
    forall k | 0 <= k < |bounds|
      ensures r.le[k] == CountAtMost(observed, bounds[k]) <= |observed|
    {
      CountAtMostGrows(observed, bounds[k], bounds[k]);
      NotWrapped(CountAtMost(observed, bounds[k]));
    }
    NotWrapped(|observed|);
    forall i, j | 0 <= i < j < |r.le|
      ensures r.le[i] <= r.le[j]
    {
      CountAtMostGrows(observed, bounds[i], bounds[j]);
    }
  }
}
