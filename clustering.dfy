/** Choosing the number of clusters, clustering, and reducing the TF-IDF
    vectors to plot coordinates. Agglomerative clustering, the silhouette
    score, t-SNE and `np.random.rand` are oracles passed in as functions. */
module Clustering {
  import opened Common

  /** `AgglomerativeClustering(n_clusters=k, linkage='average').fit(d).labels_`. */
  type Fitter = (nat, Matrix) -> seq<int>

  /** `silhouette_score(d, labels, metric='precomputed')`; None when it raises `ValueError`. */
  type Scorer = (Matrix, seq<int>) -> Option<real>

  /** The `max_clusters` that `perform_clustering` uses. */
  const DefaultMaxClusters := 10

  /** What the clustering oracle promises for 1 <= k <= n samples: one label per
      sample, each in 0..k-1. */
  ghost predicate FitContract(fit: Fitter) {
    forall k: nat, d: Matrix :: 1 <= k <= |d| ==>
      |fit(k, d)| == |d| && forall i :: 0 <= i < |fit(k, d)| ==> 0 <= fit(k, d)[i] < k
  }

  /** `1 - similarity_matrix`. */
  function Distance(sim: Matrix): (d: Matrix)
    ensures |d| == |sim|
    ensures forall i :: 0 <= i < |sim| ==> |d[i]| == |sim[i]| && forall j :: 0 <= j < |sim[i]| ==> d[i][j] == 1.0 - sim[i][j]
  {
    seq(|sim|, i requires 0 <= i < |sim| => seq(|sim[i]|, j requires 0 <= j < |sim[i]| => 1.0 - sim[i][j]))
  }

  /** `set(labels)`. */
  function DistinctLabels(labels: seq<int>): set<int> {
    set l | l in labels
  }

  /** The score k gets in the scan: none when its labels are all one value or
      the silhouette raises. */
  function ScoreOf(d: Matrix, k: nat, fit: Fitter, score: Scorer): Option<real> {
    var labels := fit(k, d);
    if |DistinctLabels(labels)| == 1 then None else score(d, labels)
  }

  /** `silhouette_scores` after the scan over k = 2..hi of `n` samples: the
      scored `(k, score)` pairs in ascending order of k. */
  function Scores(d: Matrix, n: nat, hi: int, fit: Fitter, score: Scorer): seq<(nat, real)>
    decreases hi
  {
    if hi < 2 then []
    else
      Scores(d, n, hi - 1, fit, score)
      + if n < hi then [] else match ScoreOf(d, hi, fit, score) case None => [] case Some(s) => [(hi, s)]
  }

  function ScoreValues(sc: seq<(nat, real)>): (r: seq<real>)
    ensures |r| == |sc| && forall i :: 0 <= i < |sc| ==> r[i] == sc[i].1
  {
    seq(|sc|, i requires 0 <= i < |sc| => sc[i].1)
  }

  /** What `estimate_optimal_clusters` returns: 1 for fewer than two samples or
      a bound of at most 1; otherwise the first k with the highest score, or
      `min(3, n - 1)` when nothing was scored. */
  function OptimalClusters(sim: Matrix, maxClusters: int, fit: Fitter, score: Scorer): int {
    var n := |sim|;
    if n < 2 then 1
    else
      var bound := Min(maxClusters, n - 1);
      if bound <= 1 then 1
      else
        var sc := Scores(Distance(sim), n, bound, fit, score);
        if sc == [] then (if n > 1 then Min(3, n - 1) else 1)
        else Best(sc)
  }

  /** `max(silhouette_scores, key=lambda x: x[1])[0]`: the k of the first pair
      with the highest score (`max` keeps the first of equal maxima). */
  function Best(sc: seq<(nat, real)>): nat
    requires sc != []
  {
    sc[FirstMaxIndex(ScoreValues(sc))].0
  }

  /** `estimate_optimal_clusters`. */
  method EstimateOptimalClusters(sim: Matrix, maxClusters: int, fit: Fitter, score: Scorer) returns (k: int)
    ensures k == OptimalClusters(sim, maxClusters, fit, score)
  {
    var d := Distance(sim);
    if |d| < 2 {
      return 1;
    }
    var bound := Min(maxClusters, |d| - 1);
    if bound <= 1 {
      return 1;
    }
    var scores: seq<(nat, real)> := [];
    var nClusters := 2;
    while nClusters <= bound
      invariant 2 <= nClusters <= bound + 1
      invariant scores == Scores(d, |sim|, nClusters - 1, fit, score)
    {
      if |sim| < nClusters {
        nClusters := nClusters + 1;
        continue;
      }
      var labels := fit(nClusters, d);
      if |DistinctLabels(labels)| == 1 {
        nClusters := nClusters + 1;
        continue;
      }
      var s := score(d, labels);
      if s.Some? {
        scores := scores + [(nClusters, s.value)];
      }
      nClusters := nClusters + 1;
    }
    if scores == [] {
      return if |sim| > 1 then Min(3, |sim| - 1) else 1;
    }
    k := Best(scores);
  }

  /** The scan scores exactly the k in 2..hi (and at most n) whose labels are
      not all one value and whose silhouette does not raise, in ascending k. */
  lemma {:induction false} ScoresExactly(d: Matrix, n: nat, hi: int, fit: Fitter, score: Scorer)
    ensures forall i :: 0 <= i < |Scores(d, n, hi, fit, score)| ==>
      2 <= Scores(d, n, hi, fit, score)[i].0 <= hi && Scores(d, n, hi, fit, score)[i].0 <= n
      && ScoreOf(d, Scores(d, n, hi, fit, score)[i].0, fit, score) == Some(Scores(d, n, hi, fit, score)[i].1)
    ensures forall i, j :: 0 <= i < j < |Scores(d, n, hi, fit, score)| ==>
      Scores(d, n, hi, fit, score)[i].0 < Scores(d, n, hi, fit, score)[j].0
    ensures forall k: nat :: 2 <= k <= hi && k <= n && ScoreOf(d, k, fit, score).Some? ==>
      exists i :: 0 <= i < |Scores(d, n, hi, fit, score)| && Scores(d, n, hi, fit, score)[i].0 == k
    decreases hi
  {
    if hi >= 2 {
      ScoresExactly(d, n, hi - 1, fit, score);
      var prev := Scores(d, n, hi - 1, fit, score);
      var sc := Scores(d, n, hi, fit, score);
      assert forall i :: 0 <= i < |prev| ==> sc[i] == prev[i];
      forall k: nat | 2 <= k <= hi && k <= n && ScoreOf(d, k, fit, score).Some?
        ensures exists i :: 0 <= i < |sc| && sc[i].0 == k
      {
        if k == hi {
          assert sc[|prev|].0 == k;
        } else {
          var i :| 0 <= i < |prev| && prev[i].0 == k;
          assert sc[i].0 == k;
        }
      }
    }
  }

  /** The estimate is at least 1 and at most max(1, n - 1); with
      `max_clusters >= 3` it also stays within `min(max_clusters, n - 1)`. */
  lemma EstimateBounds(sim: Matrix, maxClusters: int, fit: Fitter, score: Scorer)
    ensures 1 <= OptimalClusters(sim, maxClusters, fit, score) <= Max(1, |sim| - 1)
    ensures |sim| >= 2 && maxClusters >= 3 ==> OptimalClusters(sim, maxClusters, fit, score) <= Min(maxClusters, |sim| - 1)
  {
    var n := |sim|;
    if n >= 2 {
      var bound := Min(maxClusters, n - 1);
      if bound > 1 {
        if Scores(Distance(sim), n, bound, fit, score) != [] {
          EstimateIsFirstBest(sim, maxClusters, fit, score);
        }
      }
    }
  }

  /** When some k was scored, the estimate is the smallest k with the highest
      score: it was scored, no scored k beats it, and every scored k below it
      scores strictly less. */
  lemma EstimateIsFirstBest(sim: Matrix, maxClusters: int, fit: Fitter, score: Scorer)
    requires |sim| >= 2 && Min(maxClusters, |sim| - 1) > 1
    requires Scores(Distance(sim), |sim|, Min(maxClusters, |sim| - 1), fit, score) != []
    ensures var d, bound, k := Distance(sim), Min(maxClusters, |sim| - 1), OptimalClusters(sim, maxClusters, fit, score);
      && 2 <= k <= bound
      && ScoreOf(d, k, fit, score).Some?
      && (forall k': nat :: 2 <= k' <= bound && ScoreOf(d, k', fit, score).Some? ==>
            ScoreOf(d, k', fit, score).value <= ScoreOf(d, k, fit, score).value)
      && (forall k': nat :: 2 <= k' < k && ScoreOf(d, k', fit, score).Some? ==>
            ScoreOf(d, k', fit, score).value < ScoreOf(d, k, fit, score).value)
  {
    var d, n, bound := Distance(sim), |sim|, Min(maxClusters, |sim| - 1);
    assert OptimalClusters(sim, maxClusters, fit, score) == Best(Scores(d, n, bound, fit, score));
    BestOfScan(d, n, bound, fit, score);
  }

  /** The best k of a non-empty scan over 2..hi is scored, no k of the scan
      beats it, and every k below it scores strictly less. */
  lemma BestOfScan(d: Matrix, n: nat, hi: int, fit: Fitter, score: Scorer)
    requires Scores(d, n, hi, fit, score) != []
    ensures var k := Best(Scores(d, n, hi, fit, score));
      && 2 <= k <= hi && k <= n
      && ScoreOf(d, k, fit, score).Some?
      && (forall k': nat :: 2 <= k' <= hi && k' <= n && ScoreOf(d, k', fit, score).Some? ==>
            ScoreOf(d, k', fit, score).value <= ScoreOf(d, k, fit, score).value)
      && (forall k': nat :: 2 <= k' < k && ScoreOf(d, k', fit, score).Some? ==>
            ScoreOf(d, k', fit, score).value < ScoreOf(d, k, fit, score).value)
  {
    var sc := Scores(d, n, hi, fit, score);
    ScoresExactly(d, n, hi, fit, score);
    var vs := ScoreValues(sc);
    var i := FirstMaxIndex(vs);
    var k := sc[i].0;
    assert ScoreOf(d, k, fit, score) == Some(vs[i]);
    forall k': nat | 2 <= k' <= hi && k' <= n && ScoreOf(d, k', fit, score).Some?
      ensures ScoreOf(d, k', fit, score).value <= vs[i]
    {
      var j :| 0 <= j < |sc| && sc[j].0 == k';
      assert vs[j] <= vs[i];
    }
    forall k': nat | 2 <= k' < k && ScoreOf(d, k', fit, score).Some?
      ensures ScoreOf(d, k', fit, score).value < vs[i]
    {
      var j :| 0 <= j < |sc| && sc[j].0 == k';
      assert j < i;
      assert vs[j] < vs[i];
    }
  }

  /** When no k in the scan was scored, the estimate falls back to
      `min(3, n - 1)`. */
  lemma EstimateFallback(sim: Matrix, maxClusters: int, fit: Fitter, score: Scorer)
    requires |sim| >= 2 && Min(maxClusters, |sim| - 1) > 1
    requires forall k: nat :: 2 <= k <= Min(maxClusters, |sim| - 1) ==> ScoreOf(Distance(sim), k, fit, score).None?
    ensures OptimalClusters(sim, maxClusters, fit, score) == Min(3, |sim| - 1)
  {
    var d, n, bound := Distance(sim), |sim|, Min(maxClusters, |sim| - 1);
    var sc := Scores(d, n, bound, fit, score);
    ScoresExactly(d, n, bound, fit, score);
  }

  // ---------------------------------------------------------------------
  // perform_clustering
  // ---------------------------------------------------------------------

  function Zeros(n: nat): (r: seq<int>)
    ensures |r| == n && forall i :: 0 <= i < n ==> r[i] == 0
  {
    seq(n, _ => 0)
  }

  /** `perform_clustering`: at most one sample gives all-zero labels and one
      cluster; otherwise the estimated number of clusters and the clustering
      oracle's labels for it, one per sample and each below that number. */
  function PerformClustering(tfidf: Matrix, sim: Matrix, fit: Fitter, score: Scorer): (r: (seq<int>, nat))
    ensures |tfidf| <= 1 ==> r == (Zeros(|tfidf|), 1)
    ensures |tfidf| > 1 ==> r.1 == OptimalClusters(sim, DefaultMaxClusters, fit, score) && r.0 == fit(r.1, Distance(sim))
    ensures r.1 >= 1
    ensures FitContract(fit) && |tfidf| == |sim| ==>
              |r.0| == |tfidf| && forall i :: 0 <= i < |r.0| ==> 0 <= r.0[i] < r.1
  {
    if |tfidf| <= 1 then (Zeros(|tfidf|), 1)
    else
      var k := OptimalClusters(sim, DefaultMaxClusters, fit, score);
      EstimateBounds(sim, DefaultMaxClusters, fit, score);
      (fit(k, Distance(sim)), k)
  }

  // ---------------------------------------------------------------------
  // reduce_dimensions
  // ---------------------------------------------------------------------

  /** `TSNE(n_components=..., perplexity=..., random_state=42)`. */
  datatype TsneConfig = TsneConfig(nComponents: nat, perplexity: nat, randomState: nat)

  /** `np.random.rand(rows, cols)`. */
  type Random = (nat, nat) -> Matrix

  /** `TSNE(config).fit_transform(m)`; None when it raises. */
  type Tsne = (TsneConfig, Matrix) -> Option<Matrix>

  ghost predicate Shaped(m: Matrix, rows: nat, cols: nat) {
    |m| == rows && forall i :: 0 <= i < |m| ==> |m[i]| == cols
  }

  ghost predicate RandomContract(rand: Random) {
    forall rows, cols :: Shaped(rand(rows, cols), rows, cols)
  }

  ghost predicate TsneContract(tsne: Tsne) {
    forall c, m :: tsne(c, m).Some? ==> Shaped(tsne(c, m).value, |m|, c.nComponents)
  }

  /** `min(30, max(3, n // 5))`. */
  function Perplexity(n: nat): nat {
    Min(30, Max(3, n / 5))
  }

  /** The perplexity lies in [3, 30], equals n // 5 in between, and is below the
      number of samples whenever t-SNE is run (n >= 4). */
  lemma PerplexityRange(n: nat)
    ensures 3 <= Perplexity(n) <= 30
    ensures 15 <= n < 155 ==> Perplexity(n) == n / 5
    ensures n >= 4 ==> Perplexity(n) < n
  {
  }

  /** `np.zeros((1, n))[0]`: the origin in `n` dimensions. */
  function Origin(n: nat): (r: seq<real>)
    ensures |r| == n && forall i :: 0 <= i < n ==> r[i] == 0.0
  {
    seq(n, _ => 0.0)
  }

  /** `reduce_dimensions`: no rows give the empty array, one row the origin,
      two or three rows random positions, more rows the t-SNE projection or,
      if t-SNE raises, random positions. The result has one row of
      `nComponents` coordinates per input row. */
  function ReduceDimensions(tfidf: Matrix, nComponents: nat, rand: Random, tsne: Tsne): (r: Matrix)
    ensures |tfidf| == 0 ==> r == []
    ensures |tfidf| == 1 ==> r == [Origin(nComponents)]
    ensures 2 <= |tfidf| < 4 ==> r == rand(|tfidf|, nComponents)
    ensures |tfidf| >= 4 ==>
      r == match tsne(TsneConfig(nComponents, Perplexity(|tfidf|), 42), tfidf)
           case Some(v) => v
           case None => rand(|tfidf|, nComponents)
    ensures RandomContract(rand) && TsneContract(tsne) ==> Shaped(r, |tfidf|, nComponents)
  {
    var n := |tfidf|;
    if n <= 1 then
      if n == 1 then [Origin(nComponents)] else []
    else
      var config := TsneConfig(nComponents, Perplexity(n), 42);
      if n < 4 then rand(n, nComponents)
      else
        match tsne(config, tfidf)
        case Some(v) => v
        case None => rand(n, nComponents)
  }
}
