/** `bootstrap_metrics`: metrics on the full data set, then patient-level
    stratified bootstrap rounds summarised by median and 95% interval. The random
    choices of `np.random.choice` are an input: for each round, the raw draws for
    the neoplasia pool and for the NDBE pool, each reduced modulo the pool size
    to pick a patient. */
module Bootstrap {
  import opened Wrappers
  import opened Binary
  import opened Grouping
  import opened Metrics
  import opened Summary

  datatype BootstrapError =
    | IndexOutOfRange                      // a patient's image index past the end of `y_true`
    | FullDataset(cause: MetricError)      // the metrics on the full data set fail
    | EmptyPool(neoplasia: bool)           // `np.random.choice` on an empty pool with a positive size
    | RoundFailed(round: nat, cause: MetricError)
    | NoRounds                             // `bootstrapped_metrics[:, 2]` on an empty array

  /** One round's raw draws: `sample_size` for the neoplasia pool, then
      `sample_size * imbalance_ratio` for the NDBE pool. */
  datatype Draw = Draw(neo: seq<nat>, ndbe: seq<nat>)

  // ---------- patient grouping ----------

  /** `patient_to_indices[p]`: the positions of patient `p`'s images. */
  function PatientIndices(pids: seq<string>, p: string): (idx: seq<nat>)
    ensures Increasing(idx)
    ensures forall i :: i in idx <==> 0 <= i < |pids| && pids[i] == p
  {
    CollectIndices(pids, p);
    Collect<string, nat>(pids, Indices(|pids|), p)
  }

  /** Grouping partitions the positions: each position lies in the list of exactly
      one patient, that of its own id. */
  lemma GroupingPartitions(pids: seq<string>, i: nat)
    requires i < |pids|
    ensures i in PatientIndices(pids, pids[i])
    ensures forall p :: p != pids[i] ==> i !in PatientIndices(pids, p)
  {
  }

  /** `int(np.any(y_true[idx] == 1))`. */
  function AnyPositive(y: seq<Bit>, idx: seq<nat>): (b: Bit)
    requires forall k :: 0 <= k < |idx| ==> idx[k] < |y|
    ensures b == 1 <==> exists k :: 0 <= k < |idx| && y[idx[k]] == 1
  {
    if |idx| == 0 then 0
    else if y[idx[0]] == 1 then 1
    else
      var b := AnyPositive(y, idx[1..]);
      assert forall k :: 1 <= k < |idx| ==> idx[k] == idx[1..][k - 1];
      b
  }

  /** A patient's label: 1 exactly when one of the patient's images is labelled 1. */
  function PatientLabel(y: seq<Bit>, pids: seq<string>, p: string): (b: Bit)
    requires |pids| <= |y|
    ensures b == 1 <==> exists i :: 0 <= i < |pids| && pids[i] == p && y[i] == 1
  {
    var idx := PatientIndices(pids, p);
    assert forall k :: 0 <= k < |idx| ==> idx[k] in idx;
    var b := AnyPositive(y, idx);
    assert b == 1 ==> exists i :: 0 <= i < |pids| && pids[i] == p && y[i] == 1 by {
      if b == 1 {
        var k :| 0 <= k < |idx| && y[idx[k]] == 1;
        assert idx[k] in idx;
      }
    }
    assert (exists i :: 0 <= i < |pids| && pids[i] == p && y[i] == 1) ==> b == 1 by {
      if i :| 0 <= i < |pids| && pids[i] == p && y[i] == 1 {
        assert i in idx;
        var k :| 0 <= k < |idx| && idx[k] == i;
      }
    }
    b
  }

  /** The patients of `order` whose label is `b`, in the order of `order`. */
  function WithLabel(y: seq<Bit>, pids: seq<string>, order: seq<string>, b: Bit): (pool: seq<string>)
    requires |pids| <= |y|
    ensures forall p :: p in pool <==> p in order && PatientLabel(y, pids, p) == b
  {
    if |order| == 0 then []
    else
      var rest := WithLabel(y, pids, order[..|order| - 1], b);
      var p := order[|order| - 1];
      assert order == order[..|order| - 1] + [p];
      if PatientLabel(y, pids, p) == b then rest + [p] else rest
  }

  /** `neoplasia_patients`: the patients labelled 1, in the dictionary's key order. */
  function NeoplasiaPool(y: seq<Bit>, pids: seq<string>): (pool: seq<string>)
    requires |pids| <= |y|
    ensures forall p :: p in pool <==> p in pids && PatientLabel(y, pids, p) == 1
  {
    FirstSeenMembers(pids);
    WithLabel(y, pids, FirstSeen(pids), 1)
  }

  /** `ndbe_patients`: the patients labelled 0, in the dictionary's key order. */
  function NdbePool(y: seq<Bit>, pids: seq<string>): (pool: seq<string>)
    requires |pids| <= |y|
    ensures forall p :: p in pool <==> p in pids && PatientLabel(y, pids, p) == 0
  {
    FirstSeenMembers(pids);
    WithLabel(y, pids, FirstSeen(pids), 0)
  }

  /** The pools split the patients: none is in both, each is in one. The NDBE pool
      holds the patients all of whose images are labelled 0. */
  lemma PoolsPartitionPatients(y: seq<Bit>, pids: seq<string>)
    requires |pids| <= |y|
    ensures forall p :: !(p in NeoplasiaPool(y, pids) && p in NdbePool(y, pids))
    ensures forall p :: p in pids <==> p in NeoplasiaPool(y, pids) || p in NdbePool(y, pids)
    ensures forall p :: p in NdbePool(y, pids) ==>
      forall i :: 0 <= i < |pids| && pids[i] == p ==> y[i] == 0
  {
    FirstSeenMembers(pids);
  }

  /** A pool lists each patient once. */
  lemma {:induction false} WithLabelDistinct(y: seq<Bit>, pids: seq<string>, order: seq<string>, b: Bit)
    requires |pids| <= |y| && Distinct(order)
    ensures Distinct(WithLabel(y, pids, order, b))
  {
    if |order| > 0 {
      var n := |order| - 1;
      WithLabelDistinct(y, pids, order[..n], b);
      assert order[n] !in order[..n];
    }
  }

  /** Both pools keep the key order of the grouping dictionary. */
  lemma {:induction false} WithLabelKeepsOrder(y: seq<Bit>, pids: seq<string>, order: seq<string>, b: Bit)
    requires |pids| <= |y| && Distinct(order)
    ensures InOrder(order, WithLabel(y, pids, order, b))
  {
    if |order| > 0 {
      var n := |order| - 1;
      var pre, p := order[..n], order[n];
      WithLabelKeepsOrder(y, pids, pre, b);
      var rest := WithLabel(y, pids, pre, b);
      assert order == pre + [p];
      assert forall x :: x in rest ==> x in pre;
      if PatientLabel(y, pids, p) == b {
        assert p !in pre;
        InOrderAppend(pre, p, rest);
      } else {
        InOrderExtend(pre, p, rest);
      }
    }
  }

  /** `sub` lists values of `s` in the order of their first occurrence in `s`. */
  ghost predicate InOrder(s: seq<string>, sub: seq<string>)
  {
    && (forall x :: x in sub ==> x in s)
    && forall i, j :: 0 <= i < j < |sub| ==> FirstOccurrence(s, sub[i]) < FirstOccurrence(s, sub[j])
  }

  lemma InOrderExtend(pre: seq<string>, p: string, rest: seq<string>)
    requires InOrder(pre, rest)
    ensures InOrder(pre + [p], rest)
  {
    forall x | x in pre ensures FirstOccurrence(pre + [p], x) == FirstOccurrence(pre, x) {
      FirstOccurrenceExtend(pre, [p], x);
    }
  }

  lemma InOrderAppend(pre: seq<string>, p: string, rest: seq<string>)
    requires InOrder(pre, rest) && p !in pre
    ensures InOrder(pre + [p], rest + [p])
  {
    InOrderExtend(pre, p, rest);
    FirstOccurrenceUnique(pre + [p], p, |pre|);
    var pool := rest + [p];
    forall i, j | 0 <= i < j < |pool|
      ensures FirstOccurrence(pre + [p], pool[i]) < FirstOccurrence(pre + [p], pool[j])
    {
      assert pool[i] == rest[i];
      if j < |rest| {
        assert pool[j] == rest[j];
      }
    }
  }

  // ---------- one round ----------

  /** `np.random.choice(pool, size=|raw|)` with the random numbers given. */
  function Choose(pool: seq<string>, raw: seq<nat>): (drawn: seq<string>)
    requires |pool| > 0 || |raw| == 0
    ensures |drawn| == |raw| && forall i :: 0 <= i < |raw| ==> drawn[i] == pool[raw[i] % |pool|]
  {
    seq(|raw|, i requires 0 <= i < |raw| => pool[raw[i] % |pool|])
  }

  /** `np.concatenate([sampled_neoplasia, sampled_ndbe])`. */
  function SampledPatients(neo: seq<string>, ndbe: seq<string>, d: Draw): (drawn: seq<string>)
    requires (|neo| > 0 || |d.neo| == 0) && (|ndbe| > 0 || |d.ndbe| == 0)
    ensures |drawn| == |d.neo| + |d.ndbe|
  {
    Choose(neo, d.neo) + Choose(ndbe, d.ndbe)
  }

  /** The concatenation, in draw order and with repeats, of the drawn patients'
      image positions. */
  function Expansion(pids: seq<string>, drawn: seq<string>): (idx: seq<nat>)
    ensures forall k :: 0 <= k < |idx| ==> idx[k] < |pids|
  {
    if |drawn| == 0 then []
    else
      var prev := Expansion(pids, drawn[..|drawn| - 1]);
      var own := PatientIndices(pids, drawn[|drawn| - 1]);
      assert forall k :: 0 <= k < |own| ==> own[k] in own;
      prev + own
  }

  /** The total number of images of the drawn patients, counted with repeats. */
  function ImageCount(pids: seq<string>, drawn: seq<string>): nat
  {
    if |drawn| == 0 then 0
    else ImageCount(pids, drawn[..|drawn| - 1]) + |PatientIndices(pids, drawn[|drawn| - 1])|
  }

  lemma {:induction false} ExpansionLength(pids: seq<string>, drawn: seq<string>)
    ensures |Expansion(pids, drawn)| == ImageCount(pids, drawn)
  {
    if |drawn| > 0 {
      ExpansionLength(pids, drawn[..|drawn| - 1]);
    }
  }

  /** Every image of every drawn patient is in the expansion. */
  lemma {:induction false} ExpansionContains(pids: seq<string>, drawn: seq<string>, j: nat, i: nat)
    requires j < |drawn| && i in PatientIndices(pids, drawn[j])
    ensures i in Expansion(pids, drawn)
  {
    if j < |drawn| - 1 {
      ExpansionContains(pids, drawn[..|drawn| - 1], j, i);
    }
  }

  /** Expansion distributes over concatenation of the drawn lists. */
  lemma {:induction false} ExpansionAppend(pids: seq<string>, a: seq<string>, b: seq<string>)
    ensures Expansion(pids, a + b) == Expansion(pids, a) + Expansion(pids, b)
  {
    if |b| > 0 {
      assert (a + b)[..|a + b| - 1] == a + b[..|b| - 1];
      ExpansionAppend(pids, a, b[..|b| - 1]);
    } else {
      assert a + b == a;
    }
  }

  /** `arr[idx]`: numpy fancy indexing. */
  function Gather<T>(arr: seq<T>, idx: seq<nat>): (r: seq<T>)
    requires forall k :: 0 <= k < |idx| ==> idx[k] < |arr|
    ensures |r| == |idx| && forall k :: 0 <= k < |idx| ==> r[k] == arr[idx[k]]
  {
    seq(|idx|, k requires 0 <= k < |idx| => arr[idx[k]])
  }

  /** The image positions one round samples from the pools `neo` and `ndbe`. */
  function RoundIndices(pids: seq<string>, neo: seq<string>, ndbe: seq<string>, d: Draw): (idx: seq<nat>)
    requires (|neo| > 0 || |d.neo| == 0) && (|ndbe| > 0 || |d.ndbe| == 0)
    ensures forall k :: 0 <= k < |idx| ==> idx[k] < |pids|
  {
    Expansion(pids, SampledPatients(neo, ndbe, d))
  }

  /** One round: the three metrics on the sampled labels and scores. */
  /** The gathered labels and scores have one entry per sampled index, so a round
      can only fail for lack of one class. */
  function RoundMetrics(y: seq<Bit>, scores: seq<real>, pids: seq<string>, neo: seq<string>, ndbe: seq<string>, d: Draw): (r: Result<MetricTriple, MetricError>)
    requires |pids| <= |y| && |scores| == |y|
    requires (|neo| > 0 || |d.neo| == 0) && (|ndbe| > 0 || |d.ndbe| == 0)
    ensures r.Err? ==> r.error == SingleClass
    ensures r.Ok? ==> 0.0 <= r.value.auroc <= 1.0 && 0.0 <= r.value.auprc <= 1.0 && 0.0 <= r.value.ppv90 <= 1.0
  {
    var idx := RoundIndices(pids, neo, ndbe, d);
    ComputeMetrics(Gather(y, idx), Gather(scores, idx))
  }

  /** A round that draws at least one patient from each pool sees both classes,
      so its metrics are defined. */
  lemma RoundSucceeds(y: seq<Bit>, scores: seq<real>, pids: seq<string>, d: Draw)
    requires |pids| <= |y| && |scores| == |y|
    requires |NeoplasiaPool(y, pids)| > 0 && |NdbePool(y, pids)| > 0 && |d.neo| > 0 && |d.ndbe| > 0
    ensures RoundMetrics(y, scores, pids, NeoplasiaPool(y, pids), NdbePool(y, pids), d).Ok?
  {
    var idx := RoundIndices(pids, NeoplasiaPool(y, pids), NdbePool(y, pids), d);
    var labels := Gather(y, idx);
    SampleSeesBothClasses(y, pids, d);
    SumBitsCounts(labels);
  }

  lemma SampleSeesBothClasses(y: seq<Bit>, pids: seq<string>, d: Draw)
    requires |pids| <= |y|
    requires |NeoplasiaPool(y, pids)| > 0 && |NdbePool(y, pids)| > 0 && |d.neo| > 0 && |d.ndbe| > 0
    ensures var labels := Gather(y, RoundIndices(pids, NeoplasiaPool(y, pids), NdbePool(y, pids), d));
      1 in labels && 0 in labels
  {
    var neo, ndbe := NeoplasiaPool(y, pids), NdbePool(y, pids);
    var drawn := SampledPatients(neo, ndbe, d);
    var idx := RoundIndices(pids, neo, ndbe, d);
    var labels := Gather(y, idx);
    PoolsPartitionPatients(y, pids);
    // a neoplasia patient contributes an image labelled 1
    var p := drawn[0];
    assert p in neo;
    var i :| 0 <= i < |pids| && pids[i] == p && y[i] == 1;
    ExpansionContains(pids, drawn, 0, i);
    var k :| 0 <= k < |idx| && idx[k] == i;
    assert labels[k] == 1;
    // an NDBE patient contributes an image labelled 0
    var q := drawn[|d.neo|];
    assert q in ndbe;
    var i0 :| 0 <= i0 < |pids| && pids[i0] == q;
    ExpansionContains(pids, drawn, |d.neo|, i0);
    var k0 :| 0 <= k0 < |idx| && idx[k0] == i0;
    assert labels[k0] == 0;
  }

  // ---------- the rounds ----------

  /** The shapes `np.random.choice` gives the draws: `n_iterations` rounds of
      `sample_size` neoplasia and `sample_size * imbalance_ratio` NDBE draws. */
  predicate DrawsFit(draws: seq<Draw>, nIterations: nat, sampleSize: nat, imbalanceRatio: nat)
  {
    && |draws| == nIterations
    && forall k :: 0 <= k < |draws| ==> |draws[k].neo| == sampleSize && |draws[k].ndbe| == sampleSize * imbalanceRatio
  }

  /** Every round can be drawn: a pool is empty only if no draw is taken from it. */
  predicate PoolsServe(neo: seq<string>, ndbe: seq<string>, draws: seq<Draw>)
  {
    forall k :: 0 <= k < |draws| ==> (|neo| > 0 || |draws[k].neo| == 0) && (|ndbe| > 0 || |draws[k].ndbe| == 0)
  }

  /** Every round's outcome, in round order. */
  function RoundResults(y: seq<Bit>, scores: seq<real>, pids: seq<string>, neo: seq<string>, ndbe: seq<string>, draws: seq<Draw>)
    : (rs: seq<Result<MetricTriple, MetricError>>)
    requires |pids| <= |y| && |scores| == |y| && PoolsServe(neo, ndbe, draws)
    ensures |rs| == |draws| && forall k :: 0 <= k < |draws| ==> rs[k] == RoundMetrics(y, scores, pids, neo, ndbe, draws[k])
  {
    seq(|draws|, k requires 0 <= k < |draws| => RoundMetrics(y, scores, pids, neo, ndbe, draws[k]))
  }

  /** The triples of a run of rounds, or the first round that failed. */
  function FirstFailure(rs: seq<Result<MetricTriple, MetricError>>): (r: Result<seq<MetricTriple>, BootstrapError>)
    ensures r.Ok? ==> |r.value| == |rs|
  {
    if |rs| == 0 then Ok([])
    else
      var n := |rs| - 1;
      match FirstFailure(rs[..n])
      case Err(e) => Err(e)
      case Ok(done) =>
        match rs[n]
        case Err(e) => Err(RoundFailed(n, e))
        case Ok(m) => Ok(done + [m])
  }

  /** A run yields one triple per round, each that round's metrics, unless some
      round fails; then it reports the first failing round and its cause. */
  lemma {:induction false} FirstFailureOutcome(rs: seq<Result<MetricTriple, MetricError>>)
    ensures var r := FirstFailure(rs);
      && (r.Ok? <==> forall k :: 0 <= k < |rs| ==> rs[k].Ok?)
      && (r.Ok? ==> forall k :: 0 <= k < |rs| ==> Ok(r.value[k]) == rs[k])
      && (r.Err? ==>
            && r.error.RoundFailed? && r.error.round < |rs| && rs[r.error.round] == Err(r.error.cause)
            && forall k :: 0 <= k < r.error.round ==> rs[k].Ok?)
  {
    if |rs| > 0 {
      var n := |rs| - 1;
      FirstFailureOutcome(rs[..n]);
      assert forall k :: 0 <= k < n ==> rs[..n][k] == rs[k];
    }
  }

  lemma FirstFailureExtend(rs: seq<Result<MetricTriple, MetricError>>, k: nat, done: seq<MetricTriple>, m: MetricTriple)
    requires k < |rs| && FirstFailure(rs[..k]) == Ok(done) && rs[k] == Ok(m)
    ensures FirstFailure(rs[..k + 1]) == Ok(done + [m])
  {
    assert rs[..k + 1][..k] == rs[..k];
  }

  lemma FirstFailureAt(rs: seq<Result<MetricTriple, MetricError>>, k: nat, done: seq<MetricTriple>, e: MetricError)
    requires k < |rs| && FirstFailure(rs[..k]) == Ok(done) && rs[k] == Err(e)
    ensures FirstFailure(rs) == Err(RoundFailed(k, e))
  {
    assert rs[..k + 1][..k] == rs[..k];
    assert FirstFailure(rs[..k + 1]) == Err(RoundFailed(k, e));
    FirstFailureSticks(rs, k + 1);
  }

  /** Once a run has failed, later rounds do not change its outcome. */
  lemma {:induction false} FirstFailureSticks(rs: seq<Result<MetricTriple, MetricError>>, k: nat)
    requires k <= |rs| && FirstFailure(rs[..k]).Err?
    ensures FirstFailure(rs) == FirstFailure(rs[..k])
  {
    if k < |rs| {
      var n := |rs| - 1;
      assert rs[..n][..k] == rs[..k];
      FirstFailureSticks(rs[..n], k);
    } else {
      assert rs[..k] == rs;
    }
  }

  /** The metric triples of the rounds, or the first round whose metrics fail. */
  function Rounds(y: seq<Bit>, scores: seq<real>, pids: seq<string>, neo: seq<string>, ndbe: seq<string>, draws: seq<Draw>)
    : Result<seq<MetricTriple>, BootstrapError>
    requires |pids| <= |y| && |scores| == |y| && PoolsServe(neo, ndbe, draws)
  {
    FirstFailure(RoundResults(y, scores, pids, neo, ndbe, draws))
  }

  /** The bootstrap loop over pools `neo` and `ndbe`: `np.random.choice` fails on
      an empty pool in the first round; otherwise the rounds run. */
  function Bootstrapped(y: seq<Bit>, scores: seq<real>, pids: seq<string>, neo: seq<string>, ndbe: seq<string>,
                        nIterations: nat, sampleSize: nat, imbalanceRatio: nat, draws: seq<Draw>): (r: Result<seq<MetricTriple>, BootstrapError>)
    requires DrawsFit(draws, nIterations, sampleSize, imbalanceRatio) && |pids| <= |y| && |scores| == |y|
    ensures r.Ok? ==> |r.value| == nIterations
  {
    if nIterations > 0 && |neo| == 0 && sampleSize > 0 then Err(EmptyPool(true))
    else if nIterations > 0 && |ndbe| == 0 && sampleSize * imbalanceRatio > 0 then Err(EmptyPool(false))
    else Rounds(y, scores, pids, neo, ndbe, draws)
  }

  /** The whole of `bootstrap_metrics`, in the order in which the source can fail.
      A summary needs every image's id to index the labels, one score per label,
      both classes and at least one round. */
  function BootstrapSpec(y: seq<Bit>, scores: seq<real>, pids: seq<string>,
                         nIterations: nat, sampleSize: nat, imbalanceRatio: nat, draws: seq<Draw>): (r: Result<EvaluationSummary, BootstrapError>)
    requires DrawsFit(draws, nIterations, sampleSize, imbalanceRatio)
    ensures r.Ok? ==> |pids| <= |y| && |scores| == |y| && Positives(y) > 0 && Negatives(y) > 0 && nIterations > 0
  {
    if |pids| > |y| then Err(IndexOutOfRange)
    else
      match ComputeMetrics(y, scores)
      case Err(e) => Err(FullDataset(e))
      case Ok(full) =>
        match Bootstrapped(y, scores, pids, NeoplasiaPool(y, pids), NdbePool(y, pids), nIterations, sampleSize, imbalanceRatio, draws)
        case Err(e) => Err(e)
        case Ok(rounds) => if |rounds| == 0 then Err(NoRounds) else Ok(Summarize(full, rounds))
  }

  /** With both classes in the data, both pools stocked and at least one draw from
      each per round, every round succeeds: the result is the summary of exactly
      `n_iterations` triples, its "Score" is the median PPV at 90% recall, every
      median lies in its 95% interval and every entry lies in [0, 1]. */
  lemma BootstrapSucceeds(y: seq<Bit>, scores: seq<real>, pids: seq<string>,
                          nIterations: nat, sampleSize: nat, imbalanceRatio: nat, draws: seq<Draw>)
    requires DrawsFit(draws, nIterations, sampleSize, imbalanceRatio)
    requires |pids| <= |y| && |scores| == |y| && Positives(y) > 0 && Negatives(y) > 0
    requires nIterations > 0 && sampleSize > 0 && imbalanceRatio > 0
    requires |NeoplasiaPool(y, pids)| > 0 && |NdbePool(y, pids)| > 0
    ensures var r := BootstrapSpec(y, scores, pids, nIterations, sampleSize, imbalanceRatio, draws);
      && r.Ok?
      && r.value.score == r.value.ppv90Median
      && 0.0 <= r.value.ppv90Lower <= r.value.ppv90Median <= r.value.ppv90Upper <= 1.0
      && 0.0 <= r.value.aurocLower <= r.value.aurocMedian <= r.value.aurocUpper <= 1.0
      && 0.0 <= r.value.auprcLower <= r.value.auprcMedian <= r.value.auprcUpper <= 1.0
      && 0.0 <= r.value.aurocFull <= 1.0 && 0.0 <= r.value.auprcFull <= 1.0 && 0.0 <= r.value.ppv90Full <= 1.0
  {
    var neo, ndbe := NeoplasiaPool(y, pids), NdbePool(y, pids);
    assert sampleSize * imbalanceRatio > 0;
    RoundsSucceed(y, scores, pids, draws);
    var full := ComputeMetrics(y, scores);
    assert Bootstrapped(y, scores, pids, neo, ndbe, nIterations, sampleSize, imbalanceRatio, draws)
        == Rounds(y, scores, pids, neo, ndbe, draws);
  }

  /** Rounds that each draw from both stocked pools all succeed, with every metric in [0, 1]. */
  lemma RoundsSucceed(y: seq<Bit>, scores: seq<real>, pids: seq<string>, draws: seq<Draw>)
    requires |pids| <= |y| && |scores| == |y|
    requires |NeoplasiaPool(y, pids)| > 0 && |NdbePool(y, pids)| > 0
    requires forall k :: 0 <= k < |draws| ==> |draws[k].neo| > 0 && |draws[k].ndbe| > 0
    ensures var r := Rounds(y, scores, pids, NeoplasiaPool(y, pids), NdbePool(y, pids), draws);
      r.Ok? && forall k :: 0 <= k < |r.value| ==> TripleInUnit(r.value[k])
  {
    var neo, ndbe := NeoplasiaPool(y, pids), NdbePool(y, pids);
    var rs := RoundResults(y, scores, pids, neo, ndbe, draws);
    forall k | 0 <= k < |draws| ensures rs[k].Ok? && TripleInUnit(rs[k].value) {
      RoundSucceeds(y, scores, pids, draws[k]);
    }
    FirstFailureOutcome(rs);
    var rounds := FirstFailure(rs).value;
    forall k | 0 <= k < |rounds| ensures TripleInUnit(rounds[k]) {
      assert Ok(rounds[k]) == rs[k];
    }
  }

  /** With one label, one score and one patient id per image, the only failures
      left are a single-class data set, an empty pool, a failing round, or no rounds. */
  lemma NoLengthErrors(y: seq<Bit>, scores: seq<real>, pids: seq<string>,
                       nIterations: nat, sampleSize: nat, imbalanceRatio: nat, draws: seq<Draw>)
    requires DrawsFit(draws, nIterations, sampleSize, imbalanceRatio)
    requires |pids| == |y| == |scores|
    ensures var r := BootstrapSpec(y, scores, pids, nIterations, sampleSize, imbalanceRatio, draws);
      r.Err? ==> r.error in {FullDataset(SingleClass), EmptyPool(true), EmptyPool(false), NoRounds} || r.error.RoundFailed?
  {
    var neo, ndbe := NeoplasiaPool(y, pids), NdbePool(y, pids);
    if ComputeMetrics(y, scores).Ok? {
      var b := Bootstrapped(y, scores, pids, neo, ndbe, nIterations, sampleSize, imbalanceRatio, draws);
      if b.Err? && b != Err(EmptyPool(true)) && b != Err(EmptyPool(false)) {
        FirstFailureOutcome(RoundResults(y, scores, pids, neo, ndbe, draws));
      }
    }
  }

  /** With one id per image, a positive image puts its patient in the neoplasia pool. */
  lemma NeoplasiaPoolNonEmpty(y: seq<Bit>, pids: seq<string>)
    requires |pids| == |y| && Positives(y) > 0
    ensures |NeoplasiaPool(y, pids)| > 0
  {
    SumBitsCounts(y);
    var i :| 0 <= i < |y| && y[i] == 1;
    PoolsPartitionPatients(y, pids);
    assert pids[i] in pids;
    assert PatientLabel(y, pids, pids[i]) == 1;
    assert pids[i] !in NdbePool(y, pids);
    assert pids[i] in NeoplasiaPool(y, pids);
  }

  /** `for pid in sampled_patients: sampled_indices.extend(patient_to_indices[pid])`. */
  method SampleIndices(pids: seq<string>, groups: map<string, seq<nat>>, drawn: seq<string>) returns (idx: seq<nat>)
    requires forall p :: p in groups <==> p in pids
    requires forall p :: p in groups ==> groups[p] == Collect<string, nat>(pids, Indices(|pids|), p)
    requires forall j :: 0 <= j < |drawn| ==> drawn[j] in pids
    ensures idx == Expansion(pids, drawn)
  {
    idx := [];
    var j := 0;
    while j < |drawn|
      invariant 0 <= j <= |drawn|
      invariant idx == Expansion(pids, drawn[..j])
    {
      assert drawn[..j + 1][..j] == drawn[..j];
      idx := idx + groups[drawn[j]];
      j := j + 1;
    }
    assert drawn[..j] == drawn;
  }

  /** One round: draw the patients, gather their images, compute the metrics. */
  method RunRound(yTrue: seq<Bit>, yPred: seq<real>, patientIds: seq<string>, groups: map<string, seq<nat>>,
                  neo: seq<string>, ndbe: seq<string>, d: Draw)
    returns (m: Result<MetricTriple, MetricError>)
    requires |patientIds| <= |yTrue| && |yPred| == |yTrue|
    requires forall p :: p in groups <==> p in patientIds
    requires forall p :: p in groups ==> groups[p] == Collect<string, nat>(patientIds, Indices(|patientIds|), p)
    requires forall p :: p in neo + ndbe ==> p in patientIds
    requires (|neo| > 0 || |d.neo| == 0) && (|ndbe| > 0 || |d.ndbe| == 0)
    ensures m == RoundMetrics(yTrue, yPred, patientIds, neo, ndbe, d)
  {
    var drawn := SampledPatients(neo, ndbe, d);
    assert forall j :: 0 <= j < |drawn| ==> drawn[j] in neo + ndbe;
    var idx := SampleIndices(patientIds, groups, drawn);
    m := ComputeMetrics(Gather(yTrue, idx), Gather(yPred, idx));
  }

  /** The `for _ in range(n_iterations)` loop, appending one triple per round. */
  method RunRounds(yTrue: seq<Bit>, yPred: seq<real>, patientIds: seq<string>, groups: map<string, seq<nat>>,
                   neo: seq<string>, ndbe: seq<string>,
                   nIterations: nat, sampleSize: nat, imbalanceRatio: nat, draws: seq<Draw>)
    returns (r: Result<seq<MetricTriple>, BootstrapError>)
    requires DrawsFit(draws, nIterations, sampleSize, imbalanceRatio)
    requires |patientIds| <= |yTrue| && |yPred| == |yTrue|
    requires forall p :: p in groups <==> p in patientIds
    requires forall p :: p in groups ==> groups[p] == Collect<string, nat>(patientIds, Indices(|patientIds|), p)
    requires forall p :: p in neo + ndbe ==> p in patientIds
    ensures r == Bootstrapped(yTrue, yPred, patientIds, neo, ndbe, nIterations, sampleSize, imbalanceRatio, draws)
  {
    if nIterations == 0 {
      return Ok([]);
    }
    // The pools do not change between rounds, so `np.random.choice` fails on an
    // empty pool in the first round or not at all.
    if |neo| == 0 && sampleSize > 0 {
      return Err(EmptyPool(true));
    }
    if |ndbe| == 0 && sampleSize * imbalanceRatio > 0 {
      return Err(EmptyPool(false));
    }
    assert PoolsServe(neo, ndbe, draws);
    r := RunAllRounds(yTrue, yPred, patientIds, groups, neo, ndbe, draws);
  }

  /** The rounds themselves, once both pools can serve every draw: stops at the
      first round whose metrics fail. */
  method RunAllRounds(yTrue: seq<Bit>, yPred: seq<real>, patientIds: seq<string>, groups: map<string, seq<nat>>,
                      neo: seq<string>, ndbe: seq<string>, draws: seq<Draw>)
    returns (r: Result<seq<MetricTriple>, BootstrapError>)
    requires |patientIds| <= |yTrue| && |yPred| == |yTrue| && PoolsServe(neo, ndbe, draws)
    requires forall p :: p in groups <==> p in patientIds
    requires forall p :: p in groups ==> groups[p] == Collect<string, nat>(patientIds, Indices(|patientIds|), p)
    requires forall p :: p in neo + ndbe ==> p in patientIds
    ensures r == Rounds(yTrue, yPred, patientIds, neo, ndbe, draws)
  {
    ghost var rs := RoundResults(yTrue, yPred, patientIds, neo, ndbe, draws);
    var rounds: seq<MetricTriple> := [];
    var k := 0;
    assert rs[..0] == [];
    while k < |draws|
      invariant 0 <= k <= |draws|
      invariant FirstFailure(rs[..k]) == Ok(rounds)
    {
      var m := RunRound(yTrue, yPred, patientIds, groups, neo, ndbe, draws[k]);
      assert m == rs[k];
      if m.Err? {
        FirstFailureAt(rs, k, rounds, m.error);
        return Err(RoundFailed(k, m.error));
      }
      FirstFailureExtend(rs, k, rounds, m.value);
      rounds := rounds + [m.value];
      k := k + 1;
    }
    assert rs[..k] == rs;
    return Ok(rounds);
  }

  /** `bootstrap_metrics(y_true, y_pred, patient_ids, n_iterations, sample_size, imbalance_ratio)`. */
  method BootstrapMetrics(yTrue: seq<Bit>, yPred: seq<real>, patientIds: seq<string>,
                          nIterations: nat, sampleSize: nat, imbalanceRatio: nat, draws: seq<Draw>)
    returns (r: Result<EvaluationSummary, BootstrapError>)
    requires DrawsFit(draws, nIterations, sampleSize, imbalanceRatio)
    ensures r == BootstrapSpec(yTrue, yPred, patientIds, nIterations, sampleSize, imbalanceRatio, draws)
  {
    var order, groups := GroupBy(patientIds, Indices(|patientIds|));
    if |patientIds| > |yTrue| {
      return Err(IndexOutOfRange);
    }
    var neo := WithLabel(yTrue, patientIds, order, 1);
    var ndbe := WithLabel(yTrue, patientIds, order, 0);
    var full := ComputeMetrics(yTrue, yPred);
    if full.Err? {
      return Err(FullDataset(full.error));
    }
    PoolsPartitionPatients(yTrue, patientIds);
    var rounds := RunRounds(yTrue, yPred, patientIds, groups, neo, ndbe, nIterations, sampleSize, imbalanceRatio, draws);
    if rounds.Err? {
      return Err(rounds.error);
    }
    if |rounds.value| == 0 {
      return Err(NoRounds);
    }
    return Ok(Summarize(full.value, rounds.value));
  }
}
