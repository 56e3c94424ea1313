/**
 * ComputeRecall of graphann/build_graph.go: recall@k of a batch of
 * search responses against ground-truth rows. A response id counts as a
 * hit when it is among the first k ground-truth ids and has not already
 * occurred earlier in the same response row; each row contributes hit/k
 * and the result is the mean over the response rows, computed in float32
 * (modelled as reals, with NaN for the 0/0 cases).
 */
module GraphRecall {
  import opened Common
  import opened Ids

  /**
   * What ComputeRecall indexes without a bounds check: a ground-truth row
   * for every response row, and at least k ids in both rows.
   */
  predicate Answerable(gnd: seq<seq<int>>, response: seq<seq<int>>, k: nat) {
    |gnd| >= |response| &&
    forall i :: 0 <= i < |response| ==> |response[i]| >= k && |gnd[i]| >= k
  }

  /** The hit count of one response row: distinct ids of its first k found among the first k of truth. */
  function RowHits(resp: seq<int>, truth: seq<int>, k: nat): nat
    requires |resp| >= k && |truth| >= k
  {
    DistinctHits(resp[..k], truth[..k])
  }

  /** The per-row scores hit/k. */
  function RowScores(gnd: seq<seq<int>>, response: seq<seq<int>>, k: nat): (r: seq<real>)
    requires Answerable(gnd, response, k) && k > 0
    ensures |r| == |response|
  {
    seq(|response|, i requires 0 <= i < |response| => RowHits(response[i], gnd[i], k) as real / k as real)
  }

  /** The value ComputeRecall returns. */
  function Recall(gnd: seq<seq<int>>, response: seq<seq<int>>, k: nat): Ratio
    requires Answerable(gnd, response, k)
  {
    if |response| == 0 || k == 0 then NaN
    else Finite(Mean(RowScores(gnd, response, k)))
  }

  /** Float addition on numbers and NaN. */
  function Plus(a: Ratio, b: Ratio): Ratio {
    if a.NaN? || b.NaN? then NaN else Finite(a.value + b.value)
  }

  /** Float division where a zero divisor only meets a zero dividend (0/0 is NaN). */
  function Over(a: Ratio, d: nat): Ratio
    requires d == 0 ==> a == Finite(0.0)
  {
    if a.NaN? || d == 0 then NaN else Finite(a.value / d as real)
  }

  /**
   * The two inner loops for one response row: the repeat check against
   * the ids before position j, then the search among the first k
   * ground-truth ids.
   */
  method RowHitCount(resp: seq<int>, truth: seq<int>, k: nat) returns (hit: nat)
    requires |resp| >= k && |truth| >= k
    ensures hit == RowHits(resp, truth, k)
  {
    hit := 0;
    var j := 0;
    while j < k
      invariant 0 <= j <= k && hit == DistinctHits(resp[..j], truth[..k])
    {
      assert resp[..j + 1][..j] == resp[..j];
      var rept := false;
      var l := 0;
      while l < j
        invariant 0 <= l <= j && resp[j] !in resp[..l]
      {
        if resp[j] == resp[l] {
          rept := true;
          break;
        }
        assert resp[..l + 1] == resp[..l] + [resp[l]];
        l := l + 1;
      }
      assert rept <==> resp[j] in resp[..j];
      if !rept {
        var found := false;
        l := 0;
        while l < k
          invariant 0 <= l <= k && resp[j] !in truth[..l]
        {
          if resp[j] == truth[l] {
            found := true;
            break;
          }
          assert truth[..l + 1] == truth[..l] + [truth[l]];
          l := l + 1;
        }
        assert found <==> resp[j] in truth[..k];
        if found {
          hit := hit + 1;
        }
      }
      j := j + 1;
    }
    assert resp[..j] == resp[..k];
  }

  /** ComputeRecall, with its loops. */
  method ComputeRecall(gnd: seq<seq<int>>, response: seq<seq<int>>, k: nat) returns (r: Ratio)
    requires Answerable(gnd, response, k)
    ensures r == Recall(gnd, response, k)
  {
    var numQueries := |response|;
    var recall := Finite(0.0);
    var i := 0;
    while i < numQueries
      invariant 0 <= i <= numQueries
      invariant k == 0 ==> recall == if i == 0 then Finite(0.0) else NaN
      invariant k > 0 ==> recall == Finite(SumReal(RowScores(gnd, response, k)[..i]))
    {
      var hit := RowHitCount(response[i], gnd[i], k);
      if k > 0 {
        assert RowScores(gnd, response, k)[..i + 1][..i] == RowScores(gnd, response, k)[..i];
      }
      recall := Plus(recall, Over(Finite(hit as real), k));
      i := i + 1;
    }
    if k > 0 {
      assert RowScores(gnd, response, k)[..i] == RowScores(gnd, response, k);
    }
    r := Over(recall, numQueries);
  }

  /** A row's hit count never exceeds k, so its score lies in [0, 1]. */
  lemma ScoreBounds(gnd: seq<seq<int>>, response: seq<seq<int>>, k: nat)
    requires Answerable(gnd, response, k) && k > 0
    ensures forall i :: 0 <= i < |response| ==> 0.0 <= RowScores(gnd, response, k)[i] <= 1.0
  {
    forall i | 0 <= i < |response| ensures 0.0 <= RowScores(gnd, response, k)[i] <= 1.0 {
      Fraction(RowHits(response[i], gnd[i], k), k);
    }
  }

  /**
   * The recall is NaN exactly when k is 0 or there are no responses, and
   * otherwise a number in [0, 1].
   */
  lemma RecallBounds(gnd: seq<seq<int>>, response: seq<seq<int>>, k: nat)
    requires Answerable(gnd, response, k)
    ensures Recall(gnd, response, k).NaN? <==> k == 0 || |response| == 0
    ensures Recall(gnd, response, k).Finite? ==> 0.0 <= Recall(gnd, response, k).value <= 1.0
  {
    if k > 0 && |response| > 0 {
      ScoreBounds(gnd, response, k);
      MeanBounds(RowScores(gnd, response, k), 0.0, 1.0);
    }
  }

  /**
   * Repeated ids are ignored: a row scores what the row without its
   * repeats scores, and no more hits than it has distinct ids.
   */
  lemma RepeatsCountOnce(resp: seq<int>, truth: seq<int>, k: nat)
    requires |resp| >= k && |truth| >= k
    ensures RowHits(resp, truth, k) == DistinctHits(Dedup(resp[..k]), truth[..k])
    ensures RowHits(resp, truth, k) <= |Dedup(resp[..k])|
  {
    DistinctHitsDedup(resp[..k], truth[..k]);
  }

  /** A response padded with one id repeated scores one hit, not k. */
  lemma PaddedRowScoresOnce()
    ensures RowHits([5, 5, 5], [5, 6, 7], 3) == 1
  {
    var s: seq<int> := [5, 5, 5];
    var t: seq<int> := [5, 6, 7];
    assert s[..3] == s && t[..3] == t;
    assert s[..2] == [5, 5] && [5, 5][..1] == [5] && [5][..0] == [];
    assert DistinctHits([5], t) == 1;
    assert DistinctHits([5, 5], t) == 1;
  }

  /** Rows whose first k ids are distinct ground-truth ids all score 1, and so does the mean. */
  lemma PerfectRecall(gnd: seq<seq<int>>, response: seq<seq<int>>, k: nat)
    requires Answerable(gnd, response, k) && k > 0 && |response| > 0
    requires forall i :: 0 <= i < |response| ==> PerfectRow(response[i], gnd[i], k)
    ensures Recall(gnd, response, k) == Finite(1.0)
  {
    var xs := RowScores(gnd, response, k);
    forall i | 0 <= i < |xs| ensures xs[i] == 1.0 {
      PerfectRowHits(response[i], gnd[i], k);
    }
    MeanConst(xs, 1.0);
  }

  lemma PerfectRowHits(resp: seq<int>, truth: seq<int>, k: nat)
    requires |resp| >= k && |truth| >= k && PerfectRow(resp, truth, k)
    ensures RowHits(resp, truth, k) == k
  {
    var a, t := resp[..k], truth[..k];
    forall x | x in a ensures x in t {}
    DistinctHitsAll(a, t);
  }

  /** The first k response ids are distinct and all among the first k ground-truth ids. */
  predicate PerfectRow(resp: seq<int>, truth: seq<int>, k: nat)
    requires |resp| >= k && |truth| >= k
  {
    NoDuplicates(resp[..k]) && forall x :: x in resp[..k] ==> x in truth[..k]
  }

  /** Rows sharing no id with their ground truth among the first k score 0, and so does the mean. */
  lemma NoHitRecall(gnd: seq<seq<int>>, response: seq<seq<int>>, k: nat)
    requires Answerable(gnd, response, k) && k > 0 && |response| > 0
    requires forall i :: 0 <= i < |response| ==> MissedRow(response[i], gnd[i], k)
    ensures Recall(gnd, response, k) == Finite(0.0)
  {
    var xs := RowScores(gnd, response, k);
    forall i | 0 <= i < |xs| ensures xs[i] == 0.0 {
      MissedRowHits(response[i], gnd[i], k);
    }
    MeanConst(xs, 0.0);
  }

  lemma MissedRowHits(resp: seq<int>, truth: seq<int>, k: nat)
    requires |resp| >= k && |truth| >= k && MissedRow(resp, truth, k)
    ensures RowHits(resp, truth, k) == 0
  {
    var a, t := resp[..k], truth[..k];
    forall x | x in a ensures x !in t {}
    DistinctHitsNone(a, t);
  }

  predicate MissedRow(resp: seq<int>, truth: seq<int>, k: nat)
    requires |resp| >= k && |truth| >= k
  {
    forall x :: x in resp[..k] ==> x !in truth[..k]
  }
}
