/**
 Retrieval-quality scoring. Scores are exact reals, and the rank discount (1 / log2(rank + 1) in
 the service) is any positive function that strictly decreases with the rank.
 */
module RetrievalScore {

  type MemoryId = nat

  type Discount = nat -> real

  ghost predicate IsDiscount(gain: Discount) {
    && (forall rank: nat :: gain(rank) > 0.0)
    && (forall a: nat, b: nat :: a < b ==> gain(a) > gain(b))
  }

  datatype CaseScore = CaseScore(
    retrievedCount: nat,
    relevantCount: nat,
    recall: real,
    precision: real,
    ndcg: real,
    reciprocalRank: real,
    latencyMs: nat,
    degraded: bool)

  // ----- The simple definition: score the first `topK` distinct ids -----

  function Elements(s: seq<MemoryId>): set<MemoryId> {
    set x | x in s
  }

  /** First occurrences, in order. */
  function Distinct(s: seq<MemoryId>): (d: seq<MemoryId>)
    ensures |d| <= |s|
    ensures forall x :: x in d <==> x in s
    ensures forall i, j | 0 <= i < j < |d| :: d[i] != d[j]
  {
    if s == [] then []
    else
      var d := Distinct(s[..|s| - 1]);
      var last := s[|s| - 1];
      assert s == s[..|s| - 1] + [last];
      if last in d then d else d + [last]
  }

  function Min(a: nat, b: nat): nat {
    if a < b then a else b
  }

  function TopDistinct(s: seq<MemoryId>, topK: nat): seq<MemoryId> {
    Distinct(s)[..Min(|Distinct(s)|, topK)]
  }

  function Relevant(prefix: seq<MemoryId>, expected: set<MemoryId>): nat {
    |Elements(prefix) * expected|
  }

  function Gain(prefix: seq<MemoryId>, expected: set<MemoryId>, gain: Discount): real {
    if prefix == [] then 0.0
    else
      var last := |prefix| - 1;
      Gain(prefix[..last], expected, gain) + (if prefix[last] in expected then gain(last + 1) else 0.0)
  }

  function IdealGain(count: nat, gain: Discount): real {
    if count == 0 then 0.0 else IdealGain(count - 1, gain) + gain(count)
  }

  /** One-based rank of the first expected id, or 0. */
  function FirstRank(prefix: seq<MemoryId>, expected: set<MemoryId>): nat {
    if prefix == [] then 0
    else if FirstRank(prefix[..|prefix| - 1], expected) != 0 then FirstRank(prefix[..|prefix| - 1], expected)
    else if prefix[|prefix| - 1] in expected then |prefix|
    else 0
  }

  function Ratio(a: real, b: real): real {
    if b == 0.0 then 0.0 else a / b
  }

  function CaseScoreOf(retrieved: nat, relevant: nat, expected: nat, rank: nat, gained: real, ideal: real, latencyMs: nat, degraded: bool): CaseScore {
    CaseScore(
      retrieved, relevant,
      Ratio(relevant as real, expected as real),
      Ratio(relevant as real, retrieved as real),
      Ratio(gained, ideal),
      if rank == 0 then 0.0 else 1.0 / rank as real,
      latencyMs, degraded)
  }

  /** The expected set is never empty: a run whose configuration has an empty one is refused. */
  function ScoreOf(prefix: seq<MemoryId>, expected: set<MemoryId>, topK: nat, gain: Discount, degraded: bool, latencyMs: nat): CaseScore {
    CaseScoreOf(|prefix|, Relevant(prefix, expected), |expected|, FirstRank(prefix, expected),
      Gain(prefix, expected, gain), IdealGain(Min(|expected|, topK), gain), latencyMs, degraded)
  }

  // ----- What a score says -----

  ghost function Hits(prefix: seq<MemoryId>, expected: set<MemoryId>): set<MemoryId> {
    set x | x in prefix && x in expected
  }

  /** Recall and precision are the hits as a part of the expected ids and of the kept ones, and the
      discounted gain is the ideal one times the NDCG. */
  ghost predicate AreQuotients(score: CaseScore, kept: nat, hits: nat, expected: nat, gained: real, ideal: real) {
    && score.retrievedCount == kept && score.relevantCount == hits
    && score.recall * expected as real == hits as real
    && (if kept == 0 then score.precision == 0.0 else score.precision * kept as real == hits as real)
    && (if ideal == 0.0 then score.ndcg == 0.0 else score.ndcg * ideal == gained)
  }

  /** The reciprocal of the first expected position, or zero without one. */
  ghost predicate IsReciprocalRank(value: real, prefix: seq<MemoryId>, expected: set<MemoryId>) {
    if forall x | x in prefix :: x !in expected then value == 0.0
    else exists p | 0 <= p < |prefix| :: FirstHitAt(prefix, expected, p) && value * (p + 1) as real == 1.0
  }

  ghost predicate FirstHitAt(prefix: seq<MemoryId>, expected: set<MemoryId>, p: nat)
    requires p < |prefix|
  {
    prefix[p] in expected && forall q | 0 <= q < p :: prefix[q] !in expected
  }

  ghost predicate IsScore(score: CaseScore, prefix: seq<MemoryId>, expected: set<MemoryId>, topK: nat, gain: Discount, degraded: bool, latencyMs: nat) {
    && AreQuotients(score, |prefix|, |Hits(prefix, expected)|, |expected|, Gain(prefix, expected, gain), IdealGain(Min(|expected|, topK), gain))
    && IsReciprocalRank(score.reciprocalRank, prefix, expected)
    && score.degraded == degraded && score.latencyMs == latencyMs
  }

  lemma QuotientTimes(a: real, b: real)
    requires b != 0.0
    ensures a / b * b == a
  {
  }

  lemma QuotientsMean(retrieved: nat, relevant: nat, expected: nat, rank: nat, gained: real, ideal: real, latencyMs: nat, degraded: bool)
    requires expected > 0
    ensures AreQuotients(CaseScoreOf(retrieved, relevant, expected, rank, gained, ideal, latencyMs, degraded), retrieved, relevant, expected, gained, ideal)
  {
    QuotientTimes(relevant as real, expected as real);
    if retrieved > 0 {
      QuotientTimes(relevant as real, retrieved as real);
    }
    if ideal != 0.0 {
      QuotientTimes(gained, ideal);
    }
  }

  lemma RankMeans(prefix: seq<MemoryId>, expected: set<MemoryId>)
    ensures
      var rank := FirstRank(prefix, expected);
      IsReciprocalRank(if rank == 0 then 0.0 else 1.0 / rank as real, prefix, expected)
  {
    FirstRankFound(prefix, expected);
    var rank := FirstRank(prefix, expected);
    if rank > 0 {
      QuotientTimes(1.0, rank as real);
      RankOfHit(prefix, expected, rank - 1, 1.0 / rank as real);
    }
  }

  lemma RankOfHit(prefix: seq<MemoryId>, expected: set<MemoryId>, p: nat, value: real)
    requires p < |prefix| && FirstHitAt(prefix, expected, p) && value * (p + 1) as real == 1.0
    ensures IsReciprocalRank(value, prefix, expected)
  {
    assert prefix[p] in prefix;
  }

  lemma ScoreMeans(prefix: seq<MemoryId>, expected: set<MemoryId>, topK: nat, gain: Discount, degraded: bool, latencyMs: nat)
    requires expected != {}
    ensures IsScore(ScoreOf(prefix, expected, topK, gain, degraded, latencyMs), prefix, expected, topK, gain, degraded, latencyMs)
  {
    var ideal := IdealGain(Min(|expected|, topK), gain);
    assert Hits(prefix, expected) == Elements(prefix) * expected;
    QuotientsMean(|prefix|, Relevant(prefix, expected), |expected|, FirstRank(prefix, expected), Gain(prefix, expected, gain), ideal, latencyMs, degraded);
    RankMeans(prefix, expected);
  }

  // ----- The loop -----

  lemma DistinctStep(s: seq<MemoryId>, i: nat)
    requires i < |s|
    ensures
      var before := Distinct(s[..i]);
      Distinct(s[..i + 1]) == if s[i] in before then before else before + [s[i]]
  {
    assert s[..i + 1][..i] == s[..i];
  }

  lemma {:induction false} DistinctIsPrefix(s: seq<MemoryId>, i: nat)
    requires i <= |s|
    ensures Distinct(s[..i]) <= Distinct(s)
    decreases |s| - i
  {
    if i == |s| {
      assert s[..i] == s;
    } else {
      DistinctGrows(s, i);
      DistinctIsPrefix(s, i + 1);
      PrefixOfPrefix(Distinct(s[..i]), Distinct(s[..i + 1]), Distinct(s));
    }
  }

  /** The distinct ids come in the order of their first occurrences. */
  lemma DistinctInOrder(s: seq<MemoryId>, i: nat)
    requires i < |s| && s[i] !in s[..i]
    ensures Distinct(s[..i]) + [s[i]] <= Distinct(s)
  {
    DistinctStep(s, i);
    DistinctIsPrefix(s, i + 1);
  }

  lemma DistinctGrows(s: seq<MemoryId>, i: nat)
    requires i < |s|
    ensures Distinct(s[..i]) <= Distinct(s[..i + 1])
  {
    DistinctStep(s, i);
  }

  lemma PrefixOfPrefix(a: seq<MemoryId>, b: seq<MemoryId>, c: seq<MemoryId>)
    requires a <= b <= c
    ensures a <= c
  {
  }

  lemma RelevantStep(prefix: seq<MemoryId>, expected: set<MemoryId>, x: MemoryId)
    requires x !in prefix
    ensures Relevant(prefix + [x], expected) == Relevant(prefix, expected) + (if x in expected then 1 else 0)
  {
    assert Elements(prefix + [x]) == Elements(prefix) + {x};
    if x in expected {
      assert (Elements(prefix) + {x}) * expected == Elements(prefix) * expected + {x};
    } else {
      assert (Elements(prefix) + {x}) * expected == Elements(prefix) * expected;
    }
  }

  /** The loop's counters, and what one kept id does to them. */
  datatype Tally = Tally(relevant: nat, firstRank: nat, gained: real)

  function Tallied(t: Tally, x: MemoryId, rank: nat, expected: set<MemoryId>, gain: Discount): Tally {
    if x in expected
    then Tally(t.relevant + 1, if t.firstRank == 0 then rank else t.firstRank, t.gained + gain(rank))
    else t
  }

  function TallyOf(prefix: seq<MemoryId>, expected: set<MemoryId>, gain: Discount): Tally {
    if prefix == [] then Tally(0, 0, 0.0)
    else Tallied(TallyOf(prefix[..|prefix| - 1], expected, gain), prefix[|prefix| - 1], |prefix|, expected, gain)
  }

  lemma TallyStep(prefix: seq<MemoryId>, expected: set<MemoryId>, gain: Discount, x: MemoryId)
    ensures TallyOf(prefix + [x], expected, gain) == Tallied(TallyOf(prefix, expected, gain), x, |prefix| + 1, expected, gain)
    ensures Elements(prefix + [x]) == Elements(prefix) + {x}
  {
    assert (prefix + [x])[..|prefix|] == prefix;
  }

  ghost predicate TallyIsExact(prefix: seq<MemoryId>, expected: set<MemoryId>, gain: Discount) {
    TallyOf(prefix, expected, gain) == Tally(Relevant(prefix, expected), FirstRank(prefix, expected), Gain(prefix, expected, gain))
  }

  lemma NextTally(init: seq<MemoryId>, expected: set<MemoryId>, gain: Discount, x: MemoryId)
    requires x !in init && TallyIsExact(init, expected, gain)
    ensures TallyIsExact(init + [x], expected, gain)
  {
    RelevantStep(init, expected, x);
    TallyStep(init, expected, gain, x);
    GainStep(init, expected, gain, x);
    FirstRankStep(init, expected, x);
  }

  /** The counters are the count, rank and gain of the kept ids. */
  lemma {:induction false} TallyMeans(prefix: seq<MemoryId>, expected: set<MemoryId>, gain: Discount)
    requires forall i, j | 0 <= i < j < |prefix| :: prefix[i] != prefix[j]
    ensures TallyIsExact(prefix, expected, gain)
  {
    if prefix == [] {
      NoTally(expected, gain);
    } else {
      var init, x := prefix[..|prefix| - 1], prefix[|prefix| - 1];
      assert prefix == init + [x];
      TallyMeans(init, expected, gain);
      NextTally(init, expected, gain, x);
    }
  }

  lemma NoTally(expected: set<MemoryId>, gain: Discount)
    ensures TallyIsExact([], expected, gain)
  {
    assert Elements([]) * expected == {};
  }

  lemma FirstRankStep(init: seq<MemoryId>, expected: set<MemoryId>, x: MemoryId)
    ensures FirstRank(init + [x], expected) ==
      if FirstRank(init, expected) == 0 && x in expected then |init| + 1 else FirstRank(init, expected)
  {
    assert (init + [x])[..|init|] == init;
  }

  /** The ids kept when the loop stops, at the end or one distinct id past `topK`, are the prefix
      to score. */
  ghost predicate Stopped(retrieved: seq<MemoryId>, i: nat, prefix: seq<MemoryId>, topK: nat) {
    && i <= |retrieved| && |prefix| <= topK
    && (|| (i == |retrieved| && prefix == Distinct(retrieved[..i]))
        || (|prefix| == topK && exists x :: Distinct(retrieved[..i]) == prefix + [x]))
  }

  lemma StoppedAtTop(retrieved: seq<MemoryId>, i: nat, prefix: seq<MemoryId>, topK: nat)
    requires Stopped(retrieved, i, prefix, topK)
    ensures prefix == TopDistinct(retrieved, topK)
  {
    DistinctIsPrefix(retrieved, i);
    assert i == |retrieved| ==> retrieved[..i] == retrieved;
  }

  /** What the loop has counted after the first `i` results. */
  ghost predicate Counted(retrieved: seq<MemoryId>, i: nat, prefix: seq<MemoryId>, seen: set<MemoryId>, tally: Tally, expected: set<MemoryId>, gain: Discount) {
    && i <= |retrieved| && prefix == Distinct(retrieved[..i])
    && seen == Elements(prefix) && |seen| == |prefix|
    && tally == TallyOf(prefix, expected, gain)
  }

  lemma NothingCounted(retrieved: seq<MemoryId>, expected: set<MemoryId>, gain: Discount)
    ensures Counted(retrieved, 0, [], {}, Tally(0, 0, 0.0), expected, gain)
  {
    assert retrieved[..0] == [];
    assert Elements([]) == {};
  }

  lemma CountedAgain(retrieved: seq<MemoryId>, i: nat, prefix: seq<MemoryId>, seen: set<MemoryId>, tally: Tally, expected: set<MemoryId>, gain: Discount)
    requires Counted(retrieved, i, prefix, seen, tally, expected, gain) && i < |retrieved| && retrieved[i] in seen
    ensures Counted(retrieved, i + 1, prefix, seen, tally, expected, gain)
  {
    DistinctStep(retrieved, i);
  }

  lemma CountedOneMore(retrieved: seq<MemoryId>, i: nat, prefix: seq<MemoryId>, seen: set<MemoryId>, tally: Tally, expected: set<MemoryId>, gain: Discount)
    requires Counted(retrieved, i, prefix, seen, tally, expected, gain) && i < |retrieved| && retrieved[i] !in seen
    ensures
      var x := retrieved[i];
      Counted(retrieved, i + 1, prefix + [x], seen + {x}, Tallied(tally, x, |prefix| + 1, expected, gain), expected, gain)
  {
    DistinctStep(retrieved, i);
    TallyStep(prefix, expected, gain, retrieved[i]);
  }

  lemma StoppedAtEnd(retrieved: seq<MemoryId>, prefix: seq<MemoryId>, topK: nat)
    requires prefix == Distinct(retrieved[..|retrieved|]) && |prefix| <= topK
    ensures prefix == TopDistinct(retrieved, topK)
  {
    StoppedAtTop(retrieved, |retrieved|, prefix, topK);
  }

  lemma StoppedPastTop(retrieved: seq<MemoryId>, i: nat, prefix: seq<MemoryId>, x: MemoryId, topK: nat)
    requires i <= |retrieved| && Distinct(retrieved[..i]) == prefix + [x] && |prefix| == topK
    ensures prefix == TopDistinct(retrieved, topK)
  {
    StoppedAtTop(retrieved, i, prefix, topK);
  }

  /** Deduplicate, count and discount in one pass, stopping at the first distinct id past `topK`. */
  method CountHits(expected: set<MemoryId>, retrieved: seq<MemoryId>, topK: nat, gain: Discount)
    returns (retrievedCount: nat, tally: Tally)
    ensures retrievedCount == |TopDistinct(retrieved, topK)| && tally == TallyOf(TopDistinct(retrieved, topK), expected, gain)
  {
    var seen: set<MemoryId> := {};
    tally := Tally(0, 0, 0.0);
    var next := 0;
    ghost var prefix: seq<MemoryId> := [];
    NothingCounted(retrieved, expected, gain);
    while next < |retrieved|
      invariant Counted(retrieved, next, prefix, seen, tally, expected, gain) && |prefix| <= topK
    {
      var memoryId := retrieved[next];
      next := next + 1;
      if memoryId in seen {
        CountedAgain(retrieved, next - 1, prefix, seen, tally, expected, gain);
        continue;
      }
      CountedOneMore(retrieved, next - 1, prefix, seen, tally, expected, gain);
      seen := seen + {memoryId};
      var rank := |seen|;
      if rank > topK {
        StoppedPastTop(retrieved, next, prefix, memoryId, topK);
        return Min(|seen|, topK), tally;
      }
      prefix := prefix + [memoryId];
      tally := Tallied(tally, memoryId, rank, expected, gain);
    }
    StoppedAtEnd(retrieved, prefix, topK);
    return Min(|seen|, topK), tally;
  }

  /** The score is that of the first `topK` distinct ids. */
  method ScoreRetrievalCase(expected: set<MemoryId>, retrieved: seq<MemoryId>, topK: nat, gain: Discount, degraded: bool, latencyMs: nat)
    returns (score: CaseScore)
    requires expected != {}
    ensures score == ScoreOf(TopDistinct(retrieved, topK), expected, topK, gain, degraded, latencyMs)
    ensures IsScore(score, TopDistinct(retrieved, topK), expected, topK, gain, degraded, latencyMs)
  {
    ScoreMeans(TopDistinct(retrieved, topK), expected, topK, gain, degraded, latencyMs);
    var retrievedCount, tally := CountHits(expected, retrieved, topK, gain);
    RelevantBounds(retrieved, expected, topK);
    TallyMeans(TopDistinct(retrieved, topK), expected, gain);
    var ideal := ComputeIdealGain(Min(|expected|, topK), gain);
    score := CaseScoreOf(retrievedCount, tally.relevant, |expected|, tally.firstRank, tally.gained, ideal, latencyMs, degraded);
  }

  method ComputeIdealGain(count: nat, gain: Discount) returns (sum: real)
    ensures sum == IdealGain(count, gain)
  {
    sum := 0.0;
    for rank := 1 to count + 1
      invariant sum == IdealGain(rank - 1, gain)
    {
      sum := sum + gain(rank);
    }
  }

  // ----- Repetition changes nothing -----

  lemma {:induction false} DistinctAppendSeen(s: seq<MemoryId>, more: seq<MemoryId>)
    requires Elements(more) <= Elements(s)
    ensures Distinct(s + more) == Distinct(s)
  {
    if more == [] {
      assert s + more == s;
    } else {
      var init := more[..|more| - 1];
      assert (s + more)[..|s + more| - 1] == s + init;
      assert more[|more| - 1] in more;
      assert forall x | x in init :: x in more;
      DistinctAppendSeen(s, init);
      assert more[|more| - 1] in Elements(s) && more[|more| - 1] in s + init;
    }
  }

  lemma {:induction false} DistinctSkipSeen(a: seq<MemoryId>, x: MemoryId, b: seq<MemoryId>)
    requires x in a
    ensures Distinct(a + [x] + b) == Distinct(a + b)
  {
    if b == [] {
      DistinctAppendSeen(a, [x]);
      assert a + [x] + b == a + [x] && a + b == a;
    } else {
      var last := |b| - 1;
      assert (a + [x] + b)[..|a + [x] + b| - 1] == a + [x] + b[..last];
      assert (a + b)[..|a + b| - 1] == a + b[..last];
      DistinctSkipSeen(a, x, b[..last]);
    }
  }

  /** Repeating an id that was already returned, anywhere in the result list, or appending any
      number of such ids, leaves every score as it was. */
  lemma RepetitionChangesNothing(a: seq<MemoryId>, x: MemoryId, b: seq<MemoryId>, more: seq<MemoryId>, topK: nat)
    requires x in a && Elements(more) <= Elements(a + b)
    ensures TopDistinct(a + [x] + b, topK) == TopDistinct(a + b, topK)
    ensures TopDistinct(a + b + more, topK) == TopDistinct(a + b, topK)
  {
    DistinctSkipSeen(a, x, b);
    DistinctAppendSeen(a + b, more);
  }

  // ----- Bounds -----

  /** The prefix is all expected ids up to some rank and none after it. */
  ghost predicate ExpectedFirst(prefix: seq<MemoryId>, expected: set<MemoryId>, count: nat) {
    count <= |prefix| && forall i | 0 <= i < |prefix| :: prefix[i] in expected <==> i < count
  }

  lemma {:induction false} ElementsSize(s: seq<MemoryId>)
    requires forall i, j | 0 <= i < j < |s| :: s[i] != s[j]
    ensures |Elements(s)| == |s|
  {
    if s != [] {
      var init, last := s[..|s| - 1], s[|s| - 1];
      ElementsSize(init);
      assert Elements(s) == Elements(init) + {last};
    }
  }

  ghost predicate GainBelowIdeal(prefix: seq<MemoryId>, expected: set<MemoryId>, gain: Discount) {
    var relevant, gained := Relevant(prefix, expected), Gain(prefix, expected, gain);
    && relevant <= |prefix|
    && 0.0 <= gained <= IdealGain(relevant, gain)
    && (gained == IdealGain(relevant, gain) <==> ExpectedFirst(prefix, expected, relevant))
  }

  lemma NextGain(init: seq<MemoryId>, expected: set<MemoryId>, gain: Discount, x: MemoryId)
    requires IsDiscount(gain) && x !in init && GainBelowIdeal(init, expected, gain)
    ensures GainBelowIdeal(init + [x], expected, gain)
  {
    var r := Relevant(init, expected);
    RelevantStep(init, expected, x);
    ExpectedFirstStep(init, expected, x, r);
    GainStep(init, expected, gain, x);
    if x in expected {
      Discounted(gain, r + 1, |init| + 1);
    }
  }

  /** The gain of a prefix is at most the ideal gain of its relevant ids, and reaches it exactly
      when those ids come first. */
  lemma {:induction false} GainAgainstIdeal(prefix: seq<MemoryId>, expected: set<MemoryId>, gain: Discount)
    requires IsDiscount(gain)
    requires forall i, j | 0 <= i < j < |prefix| :: prefix[i] != prefix[j]
    ensures GainBelowIdeal(prefix, expected, gain)
  {
    if prefix == [] {
      assert Elements(prefix) * expected == {};
    } else {
      var init, x := prefix[..|prefix| - 1], prefix[|prefix| - 1];
      GainAgainstIdeal(init, expected, gain);
      assert prefix == init + [x];
      NextGain(init, expected, gain, x);
    }
  }

  lemma GainStep(init: seq<MemoryId>, expected: set<MemoryId>, gain: Discount, x: MemoryId)
    ensures Gain(init + [x], expected, gain) == Gain(init, expected, gain) + (if x in expected then gain(|init| + 1) else 0.0)
  {
    assert (init + [x])[..|init|] == init;
  }

  lemma Discounted(gain: Discount, a: nat, b: nat)
    requires IsDiscount(gain) && a <= b
    ensures 0.0 < gain(b) <= gain(a)
    ensures gain(b) == gain(a) <==> a == b
  {
  }

  lemma ExpectedFirstStep(init: seq<MemoryId>, expected: set<MemoryId>, x: MemoryId, r: nat)
    ensures x in expected ==>
      (ExpectedFirst(init + [x], expected, r + 1) <==> ExpectedFirst(init, expected, r) && r == |init|)
    ensures x !in expected && r <= |init| ==>
      (ExpectedFirst(init + [x], expected, r) <==> ExpectedFirst(init, expected, r))
  {
    var s := init + [x];
    assert forall i | 0 <= i < |init| :: s[i] == init[i];
    assert s[|init|] == x;
  }

  lemma {:induction false} IdealGainGrows(a: nat, b: nat, gain: Discount)
    requires IsDiscount(gain) && a <= b
    ensures IdealGain(a, gain) <= IdealGain(b, gain)
    ensures a < b ==> IdealGain(a, gain) < IdealGain(b, gain)
    ensures 0 < b ==> IdealGain(b, gain) > 0.0
    decreases b
  {
    if a < b {
      IdealGainGrows(a, b - 1, gain);
    } else if 0 < b {
      IdealGainGrows(b - 1, b - 1, gain);
    }
  }

  lemma RelevantBounds(s: seq<MemoryId>, expected: set<MemoryId>, topK: nat)
    ensures
      var prefix := TopDistinct(s, topK);
      && Relevant(prefix, expected) <= |prefix| <= topK
      && Relevant(prefix, expected) <= |expected|
      && forall i, j | 0 <= i < j < |prefix| :: prefix[i] != prefix[j]
  {
    var prefix := TopDistinct(s, topK);
    ElementsSize(prefix);
    SubsetSize(Elements(prefix) * expected, Elements(prefix));
    SubsetSize(Elements(prefix) * expected, expected);
  }

  lemma SubsetSize<T>(a: set<T>, b: set<T>)
    requires a <= b
    ensures |a| <= |b|
  {
    assert b == a + (b - a);
  }

  lemma SignOfProduct(x: real, b: real)
    requires 0.0 < b
    ensures x * b >= 0.0 <==> x >= 0.0
    ensures x * b == 0.0 <==> x == 0.0
  {
  }

  lemma RatioIsAtMostOne(a: real, b: real)
    requires 0.0 <= a <= b && 0.0 < b
    ensures 0.0 <= a / b <= 1.0
    ensures a / b == 1.0 <==> a == b
  {
    var ratio := a / b;
    assert ratio * b == a && (1.0 - ratio) * b == b - a;
    SignOfProduct(ratio, b);
    SignOfProduct(1.0 - ratio, b);
  }

  /** NDCG lies between 0 and 1, and is 1 exactly when the first min(|expected|, topK) distinct
      results exist and are all expected ids. */
  lemma NdcgBounds(retrieved: seq<MemoryId>, expected: set<MemoryId>, topK: nat, gain: Discount, degraded: bool, latencyMs: nat)
    requires IsDiscount(gain) && expected != {} && topK > 0
    ensures
      var prefix := TopDistinct(retrieved, topK);
      var ndcg := ScoreOf(prefix, expected, topK, gain, degraded, latencyMs).ndcg;
      var ideal := Min(|expected|, topK);
      && 0.0 <= ndcg <= 1.0
      && (ndcg == 1.0 <==> ideal <= |prefix| && forall i | 0 <= i < ideal :: prefix[i] in expected)
  {
    var prefix := TopDistinct(retrieved, topK);
    var ideal := Min(|expected|, topK);
    var relevant := Relevant(prefix, expected);
    RelevantBounds(retrieved, expected, topK);
    GainAgainstIdeal(prefix, expected, gain);
    IdealGainGrows(relevant, ideal, gain);
    RatioIsAtMostOne(Gain(prefix, expected, gain), IdealGain(ideal, gain));
    if ideal <= |prefix| && forall i | 0 <= i < ideal :: prefix[i] in expected {
      FullPrefix(prefix, expected, ideal);
    }
  }

  /** When the first `ideal` ids are all expected and no more can be, nothing after them is. */
  lemma FullPrefix(prefix: seq<MemoryId>, expected: set<MemoryId>, ideal: nat)
    requires ideal <= |prefix| && forall i | 0 <= i < ideal :: prefix[i] in expected
    requires forall i, j | 0 <= i < j < |prefix| :: prefix[i] != prefix[j]
    requires Relevant(prefix, expected) <= ideal
    ensures Relevant(prefix, expected) == ideal && ExpectedFirst(prefix, expected, ideal)
  {
    var head := prefix[..ideal];
    ElementsSize(head);
    assert Elements(head) <= Elements(prefix) * expected;
    SubsetSize(Elements(head), Elements(prefix) * expected);
    forall i | ideal <= i < |prefix|
      ensures prefix[i] !in expected
    {
      if prefix[i] in expected {
        assert prefix[i] !in head;
        assert Elements(head) + {prefix[i]} <= Elements(prefix) * expected;
        SubsetSize(Elements(head) + {prefix[i]}, Elements(prefix) * expected);
      }
    }
  }

  // ----- A whole eval run -----

  function Hit(score: CaseScore): real {
    if score.relevantCount > 0 then 1.0 else 0.0
  }

  function Sum(values: seq<real>): real {
    if values == [] then 0.0 else Sum(values[..|values| - 1]) + values[|values| - 1]
  }

  function Mean(values: seq<real>): real
    requires values != []
  {
    Sum(values) / |values| as real
  }

  datatype Rate = Recall | Precision | Ndcg | ReciprocalRank | HitRate

  function RateOf(rate: Rate, score: CaseScore): real {
    match rate
    case Recall => score.recall
    case Precision => score.precision
    case Ndcg => score.ndcg
    case ReciprocalRank => score.reciprocalRank
    case HitRate => Hit(score)
  }

  function Rates(rate: Rate, scores: seq<CaseScore>): (r: seq<real>)
    ensures |r| == |scores| && forall i | 0 <= i < |scores| :: r[i] == RateOf(rate, scores[i])
  {
    seq(|scores|, i requires 0 <= i < |scores| => RateOf(rate, scores[i]))
  }

  ghost predicate IsCaseScore(score: CaseScore, gain: Discount) {
    exists retrieved: seq<MemoryId>, expected: set<MemoryId>, topK: nat ::
      && expected != {} && topK > 0
      && score == ScoreOf(TopDistinct(retrieved, topK), expected, topK, gain, score.degraded, score.latencyMs)
  }

  lemma {:induction false} FirstRankFound(prefix: seq<MemoryId>, expected: set<MemoryId>)
    ensures FirstRank(prefix, expected) == 0 <==> forall x | x in prefix :: x !in expected
    ensures FirstRank(prefix, expected) > 0 ==>
      && FirstRank(prefix, expected) <= |prefix| && prefix[FirstRank(prefix, expected) - 1] in expected
      && forall i | 0 <= i < FirstRank(prefix, expected) - 1 :: prefix[i] !in expected
  {
    if prefix != [] {
      var init := prefix[..|prefix| - 1];
      FirstRankFound(init, expected);
      assert prefix == init + [prefix[|prefix| - 1]];
    }
  }

  /** No relevant id, no expected id in the prefix, and the reverse. */
  lemma HitMeansFound(prefix: seq<MemoryId>, expected: set<MemoryId>)
    ensures Relevant(prefix, expected) > 0 <==> FirstRank(prefix, expected) > 0
  {
    FirstRankFound(prefix, expected);
    var found := Elements(prefix) * expected;
    if x :| x in found {
      assert x in prefix && x in expected && |found| > 0;
    } else {
      assert found == {};
      assert forall x | x in prefix :: x in Elements(prefix) && x !in found;
    }
  }

  lemma RatesOfCounts(score: CaseScore, rate: Rate, retrieved: nat, relevant: nat, expected: nat, rank: nat, gained: real, ideal: real)
    requires relevant <= retrieved && relevant <= expected && 0 < expected
    requires relevant > 0 <==> rank > 0
    requires 0.0 <= Ratio(gained, ideal) <= 1.0 && (relevant == 0 ==> gained == 0.0)
    requires score == CaseScoreOf(retrieved, relevant, expected, rank, gained, ideal, score.latencyMs, score.degraded)
    ensures 0.0 <= RateOf(rate, score) <= Hit(score) <= 1.0
  {
    RatioIsAtMostOne(relevant as real, expected as real);
    if retrieved > 0 {
      RatioIsAtMostOne(relevant as real, retrieved as real);
    }
    if rank > 0 {
      RatioIsAtMostOne(1.0, rank as real);
    }
  }

  /** Every rate of one case is between 0 and its hit indicator. */
  lemma CaseRatesBelowHit(score: CaseScore, rate: Rate, gain: Discount)
    requires IsDiscount(gain) && IsCaseScore(score, gain)
    ensures 0.0 <= RateOf(rate, score) <= Hit(score) <= 1.0
  {
    var retrieved: seq<MemoryId>, expected: set<MemoryId>, topK: nat :|
      && expected != {} && topK > 0
      && score == ScoreOf(TopDistinct(retrieved, topK), expected, topK, gain, score.degraded, score.latencyMs);
    var prefix := TopDistinct(retrieved, topK);
    RelevantBounds(retrieved, expected, topK);
    HitMeansFound(prefix, expected);
    NdcgBounds(retrieved, expected, topK, gain, score.degraded, score.latencyMs);
    GainAgainstIdeal(prefix, expected, gain);
    RatesOfCounts(score, rate, |prefix|, Relevant(prefix, expected), |expected|, FirstRank(prefix, expected),
      Gain(prefix, expected, gain), IdealGain(Min(|expected|, topK), gain));
  }

  lemma {:induction false} SumIsMonotone(a: seq<real>, b: seq<real>)
    requires |a| == |b| && forall i | 0 <= i < |a| :: 0.0 <= a[i] <= b[i] <= 1.0
    ensures 0.0 <= Sum(a) <= Sum(b) <= |b| as real
  {
    if a != [] {
      SumIsMonotone(a[..|a| - 1], b[..|b| - 1]);
    }
  }

  lemma MeanIsMonotone(a: seq<real>, b: seq<real>)
    requires a != [] && |a| == |b| && forall i | 0 <= i < |a| :: 0.0 <= a[i] <= b[i] <= 1.0
    ensures 0.0 <= Mean(a) <= Mean(b) <= 1.0
  {
    SumIsMonotone(a, b);
    QuotientIsMonotone(Sum(a), Sum(b), |a| as real);
  }

  lemma QuotientIsMonotone(a: real, b: real, n: real)
    requires 0.0 <= a <= b <= n && n > 0.0
    ensures 0.0 <= a / n <= b / n <= 1.0
  {
    RatioIsAtMostOne(a, n);
    RatioIsAtMostOne(b, n);
    RatioIsAtMostOne(b - a, n);
    assert b / n - a / n == (b - a) / n;
  }

  ghost function HitCases(scores: seq<CaseScore>): set<nat> {
    set i | 0 <= i < |scores| && scores[i].relevantCount > 0
  }

  lemma {:induction false} SumOfHits(scores: seq<CaseScore>)
    ensures Sum(Rates(HitRate, scores)) == |HitCases(scores)| as real
  {
    if scores == [] {
      assert HitCases(scores) == {};
    } else {
      var init, last := scores[..|scores| - 1], scores[|scores| - 1];
      SumOfHits(init);
      assert Rates(HitRate, scores)[..|init|] == Rates(HitRate, init);
      if last.relevantCount > 0 {
        assert HitCases(scores) == HitCases(init) + {|init|};
      } else {
        assert HitCases(scores) == HitCases(init);
      }
    }
  }

  /** The hit rate is the part of the cases in which some expected id was found. */
  lemma HitRateIs(scores: seq<CaseScore>)
    requires scores != []
    ensures Mean(Rates(HitRate, scores)) * |scores| as real == |HitCases(scores)| as real
  {
    SumOfHits(scores);
    QuotientTimes(Sum(Rates(HitRate, scores)), |scores| as real);
  }

  /** Over a whole run, the mean recall, precision, NDCG and reciprocal rank are each at most the
      hit rate, which is at most 1. */
  lemma MeansBelowHitRate(scores: seq<CaseScore>, rate: Rate, gain: Discount)
    requires IsDiscount(gain) && scores != []
    requires forall i | 0 <= i < |scores| :: IsCaseScore(scores[i], gain)
    ensures 0.0 <= Mean(Rates(rate, scores)) <= Mean(Rates(HitRate, scores)) <= 1.0
  {
    forall i | 0 <= i < |scores|
      ensures 0.0 <= RateOf(rate, scores[i]) <= Hit(scores[i]) <= 1.0
    {
      CaseRatesBelowHit(scores[i], rate, gain);
    }
    MeanIsMonotone(Rates(rate, scores), Rates(HitRate, scores));
  }
}
