/**
 The nearest-rank 95th percentile of the measured latencies. Lengths are machine words, so the
 product that ranks the sample saturates at 2^64 - 1.
 */
module Percentile {

  const WORD_MAX: nat := 0xFFFF_FFFF_FFFF_FFFF

  // ----- Sorting, as the library call does it -----

  predicate Sorted(s: seq<nat>) {
    forall i, j | 0 <= i < j < |s| :: s[i] <= s[j]
  }

  function Insert(x: nat, s: seq<nat>): seq<nat> {
    if s == [] || x <= s[0] then [x] + s else [s[0]] + Insert(x, s[1..])
  }

  function Sort(s: seq<nat>): seq<nat> {
    if s == [] then [] else Insert(s[0], Sort(s[1..]))
  }

  lemma {:induction false} InsertSameValues(x: nat, s: seq<nat>)
    ensures multiset(Insert(x, s)) == multiset(s) + multiset{x}
  {
    if s != [] && x > s[0] {
      InsertSameValues(x, s[1..]);
      assert s == [s[0]] + s[1..];
    }
  }

  lemma {:induction false} InsertSorted(x: nat, s: seq<nat>)
    requires Sorted(s)
    ensures Sorted(Insert(x, s))
    ensures Insert(x, s)[0] == x || (s != [] && s[0] <= x && Insert(x, s)[0] == s[0])
  {
    if s != [] && x > s[0] {
      InsertSorted(x, s[1..]);
      var rest := Insert(x, s[1..]);
      assert s[0] <= rest[0];
      assert forall k | 0 < k < |rest| :: rest[0] <= rest[k];
    }
  }

  lemma {:induction false} SortIsSorted(s: seq<nat>)
    ensures Sorted(Sort(s))
  {
    if s != [] {
      SortIsSorted(s[1..]);
      InsertSorted(s[0], Sort(s[1..]));
    }
  }

  lemma {:induction false} SortSameValues(s: seq<nat>)
    ensures multiset(Sort(s)) == multiset(s)
  {
    if s != [] {
      SortSameValues(s[1..]);
      InsertSameValues(s[0], Sort(s[1..]));
      FirstAndRest(s);
    }
  }

  lemma FirstAndRest(s: seq<nat>)
    requires s != []
    ensures multiset(s) == multiset(s[1..]) + multiset{s[0]}
  {
    assert s == [s[0]] + s[1..];
  }

  lemma SortSorts(s: seq<nat>)
    ensures Sorted(Sort(s)) && multiset(Sort(s)) == multiset(s)
    ensures |Sort(s)| == |s|
  {
    SortIsSorted(s);
    SortSameValues(s);
    assert |multiset(Sort(s))| == |multiset(s)|;
  }

  // ----- The rank -----

  function SaturatingTimes95(n: nat): nat {
    if n * 95 > WORD_MAX then WORD_MAX else n * 95
  }

  function CeilDiv100(n: nat): nat {
    (n + 99) / 100
  }

  function Rank(n: nat): nat {
    var rank := CeilDiv100(SaturatingTimes95(n));
    if rank < 1 then 1 else rank
  }

  /** The rank is always a valid one-based index, whatever the length. */
  lemma RankIsInRange(n: nat)
    requires n > 0
    ensures 1 <= Rank(n) <= n
  {
  }

  /** Beyond the saturation point the rank is the same for every length. */
  lemma RankSaturates(n: nat)
    requires n * 95 > 0xFFFF_FFFF_FFFF_FFFF
    ensures Rank(n) == 0xFFFF_FFFF_FFFF_FFFF / 100 + 1
  {
  }

  /** Below the saturation point the rank is the least one covering 95 percent. */
  lemma RankIsLeast(n: nat)
    requires n > 0 && n * 95 <= WORD_MAX
    ensures Rank(n) * 100 >= 95 * n
    ensures forall smaller: nat | smaller < Rank(n) :: smaller * 100 < 95 * n
  {
  }

  // ----- What the percentile is -----

  function CountAtMost(s: seq<nat>, v: nat): nat {
    if s == [] then 0 else (if s[0] <= v then 1 else 0) + CountAtMost(s[1..], v)
  }

  /** At least 95 percent of the sample is at most `v`. */
  predicate Covers(s: seq<nat>, v: nat) {
    CountAtMost(s, v) * 100 >= 95 * |s|
  }

  lemma {:induction false} CountSplit(a: seq<nat>, b: seq<nat>, v: nat)
    ensures CountAtMost(a + b, v) == CountAtMost(a, v) + CountAtMost(b, v)
  {
    if a == [] {
      assert a + b == b;
    } else {
      assert (a + b)[1..] == a[1..] + b;
      CountSplit(a[1..], b, v);
    }
  }

  function Without(s: seq<nat>, k: nat): (rest: seq<nat>)
    requires k < |s|
  {
    s[..k] + s[k + 1..]
  }

  lemma ElementsWithout(s: seq<nat>, k: nat)
    requires k < |s|
    ensures multiset(Without(s, k)) == multiset(s) - multiset{s[k]}
  {
    assert s == s[..k] + [s[k]] + s[k + 1..];
  }

  lemma CountWithout(s: seq<nat>, k: nat, v: nat)
    requires k < |s|
    ensures CountAtMost(s, v) == CountAtMost(Without(s, k), v) + (if s[k] <= v then 1 else 0)
  {
    var front, back := s[..k], s[k..];
    CountSplit(front, s[k + 1..], v);
    CountSplit(front, back, v);
    assert s == front + back;
    assert back[1..] == s[k + 1..];
  }

  lemma {:induction false} CountOfPermutation(a: seq<nat>, b: seq<nat>, v: nat)
    requires multiset(a) == multiset(b)
    ensures CountAtMost(a, v) == CountAtMost(b, v)
    decreases |a|
  {
    if a == [] {
      assert |multiset(a)| == |multiset(b)|;
    } else {
      assert a[0] in multiset(b);
      var k :| 0 <= k < |b| && b[k] == a[0];
      ElementsWithout(a, 0);
      ElementsWithout(b, k);
      CountOfPermutation(Without(a, 0), Without(b, k), v);
      CountWithout(a, 0, v);
      CountWithout(b, k, v);
    }
  }

  lemma {:induction false} CountAllOrNone(s: seq<nat>, v: nat)
    ensures (forall i | 0 <= i < |s| :: s[i] <= v) ==> CountAtMost(s, v) == |s|
    ensures (forall i | 0 <= i < |s| :: s[i] > v) ==> CountAtMost(s, v) == 0
    ensures CountAtMost(s, v) <= |s|
  {
    if s != [] {
      CountAllOrNone(s[1..], v);
    }
  }

  lemma CountAtCut(s: seq<nat>, cut: nat, v: nat)
    requires cut <= |s|
    ensures (forall i | 0 <= i < cut :: s[i] <= v) ==> CountAtMost(s, v) >= cut
    ensures (forall i | cut <= i < |s| :: s[i] > v) ==> CountAtMost(s, v) <= cut
  {
    assert s == s[..cut] + s[cut..];
    CountSplit(s[..cut], s[cut..], v);
    CountAllOrNone(s[..cut], v);
    CountAllOrNone(s[cut..], v);
  }

  /** In sorted order the value at `k` has more than `k` values at most it, and a smaller value
      has at most `k`. */
  lemma CountInSorted(s: seq<nat>, k: nat, v: nat)
    requires Sorted(s) && k < |s|
    ensures s[k] <= v ==> CountAtMost(s, v) >= k + 1
    ensures v < s[k] ==> CountAtMost(s, v) <= k
  {
    CountAtCut(s, k + 1, v);
    CountAtCut(s, k, v);
  }

  /** The percentile is the least latency of the sample that at least 95 percent of the sample do
      not exceed; below the saturation length. */
  ghost predicate IsP95(s: seq<nat>, v: nat) {
    && v in s
    && Covers(s, v)
    && forall smaller: nat | Covers(s, smaller) :: v <= smaller
  }

  lemma RankedValueIsP95(s: seq<nat>)
    requires s != [] && |s| * 95 <= WORD_MAX
    ensures |Sort(s)| == |s| && 1 <= Rank(|s|) <= |s|
    ensures IsP95(s, Sort(s)[Rank(|s|) - 1])
  {
    SortSorts(s);
    RankIsInRange(|s|);
    RankIsLeast(|s|);
    var sorted, k := Sort(s), Rank(|s|) - 1;
    var v := sorted[k];
    assert v in multiset(sorted);
    CountInSorted(sorted, k, v);
    CountOfPermutation(s, sorted, v);
    forall smaller: nat | Covers(s, smaller)
      ensures v <= smaller
    {
      CountInSorted(sorted, k, smaller);
      CountOfPermutation(s, sorted, smaller);
    }
  }

  /** Zero on an empty sample, a member of the sample otherwise, and the 95th percentile for every
      length below the saturation point. */
  method Percentile95(latencies: seq<nat>) returns (p95: nat)
    ensures latencies == [] ==> p95 == 0
    ensures latencies != [] ==> p95 in latencies
    ensures latencies != [] && |latencies| * 95 <= WORD_MAX ==> IsP95(latencies, p95)
  {
    if latencies == [] {
      return 0;
    }
    var sorted := Sort(latencies);
    SortSorts(latencies);
    RankIsInRange(|latencies|);
    var rank := Rank(|sorted|);
    p95 := sorted[rank - 1];
    assert p95 in multiset(sorted);
    if |latencies| * 95 <= WORD_MAX {
      RankedValueIsP95(latencies);
    }
  }

  /** The percentile does not depend on the order in which the cases ran. */
  lemma P95IsUnique(s: seq<nat>, t: seq<nat>, v: nat, w: nat)
    requires multiset(s) == multiset(t) && IsP95(s, v) && IsP95(t, w)
    ensures v == w
  {
    assert |multiset(s)| == |multiset(t)|;
    CountOfPermutation(s, t, v);
    CountOfPermutation(s, t, w);
    assert Covers(s, w) && Covers(t, v);
  }
}
