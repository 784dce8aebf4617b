/**
 * The rareness scorers. A pose here is its list of bone vectors; `models` is a
 * fit loop result. Both scorers walk the models by list position `i`, skip
 * bone `i` when its x component is 0, and otherwise combine the density that
 * `models[i]` gives to the direction built from the bone's y and z components.
 * The density (`pdf`) and the direction builder (`nu`) are injected functions.
 */
module Scoring {
  import opened Options
  import opened Geometry
  import opened Fitting

  /** `pose[i][0] == 0`: the scorers' skip test, on the x component alone. */
  predicate Skipped(v: Vec3) {
    v.x == 0.0
  }

  /** `models[i][1].pdf(spherical_coordinates_to_nu(pose[i, 1], pose[i, 2]))`. */
  function Density<M, D>(pose: seq<Vec3>, models: seq<Fitted<M>>, i: nat, pdf: (M, D) -> real, nu: (real, real) -> D): real
    requires i < |pose| && i < |models|
  {
    pdf(models[i].model, nu(pose[i].y, pose[i].z))
  }

  /**
   * The sum scorer's accumulator after positions `0 .. n-1`: the densities of
   * the bones that are not skipped, added to 0.
   */
  function SumScore<M, D>(pose: seq<Vec3>, models: seq<Fitted<M>>, n: nat, pdf: (M, D) -> real, nu: (real, real) -> D): real
    requires n <= |pose| && n <= |models|
  {
    if n == 0 then 0.0
    else SumScore(pose, models, n - 1, pdf, nu) + (if Skipped(pose[n - 1]) then 0.0 else Density(pose, models, n - 1, pdf, nu))
  }

  /**
   * The product scorer's accumulator after positions `0 .. n-1`, started at
   * `start`: each bone that is not skipped multiplies it by its density.
   */
  function ProductScore<M, D>(pose: seq<Vec3>, models: seq<Fitted<M>>, n: nat, start: real, pdf: (M, D) -> real, nu: (real, real) -> D): real
    requires n <= |pose| && n <= |models|
  {
    if n == 0 then start
    else
      var acc := ProductScore(pose, models, n - 1, start, pdf, nu);
      if Skipped(pose[n - 1]) then acc else acc * Density(pose, models, n - 1, pdf, nu)
  }

  /**
   * Reference scorer keyed by the stored bone index rather than by list
   * position: entry `e` of the first `n` entries contributes the density of
   * bone `e.bone` under `e.model`, unless that bone is missing or skipped.
   */
  function IndexedSum<M, D>(pose: seq<Vec3>, models: seq<Fitted<M>>, n: nat, pdf: (M, D) -> real, nu: (real, real) -> D): real
    requires n <= |models|
  {
    if n == 0 then 0.0
    else
      var e := models[n - 1];
      IndexedSum(pose, models, n - 1, pdf, nu) +
        (if e.bone < |pose| && !Skipped(pose[e.bone]) then pdf(e.model, nu(pose[e.bone].y, pose[e.bone].z)) else 0.0)
  }

  /** A pose all of whose first `n` bones are skipped scores 0, as does an empty model list (`n == 0`). */
  lemma {:induction false} SumAllSkippedIsZero<M, D>(pose: seq<Vec3>, models: seq<Fitted<M>>, n: nat, pdf: (M, D) -> real, nu: (real, real) -> D)
    requires n <= |pose| && n <= |models|
    requires forall i :: 0 <= i < n ==> Skipped(pose[i])
    ensures SumScore(pose, models, n, pdf, nu) == 0.0
  {
    if n > 0 {
      SumAllSkippedIsZero(pose, models, n - 1, pdf, nu);
    }
  }

  /**
   * With non-negative densities the sum is non-negative and at least the
   * density of every bone it does not skip.
   */
  lemma {:induction false} SumBounds<M, D>(pose: seq<Vec3>, models: seq<Fitted<M>>, n: nat, pdf: (M, D) -> real, nu: (real, real) -> D)
    requires n <= |pose| && n <= |models|
    requires forall i :: 0 <= i < n ==> Density(pose, models, i, pdf, nu) >= 0.0
    ensures SumScore(pose, models, n, pdf, nu) >= 0.0
    ensures forall i :: 0 <= i < n && !Skipped(pose[i]) ==> SumScore(pose, models, n, pdf, nu) >= Density(pose, models, i, pdf, nu)
  {
    if n > 0 {
      SumBounds(pose, models, n - 1, pdf, nu);
    }
  }

  /**
   * The sum reads only the models, never the stored bone indices: two model
   * lists with the same models position by position give the same score,
   * whatever bones their entries claim.
   */
  lemma {:induction false} SumIgnoresStoredIndex<M, D>(pose: seq<Vec3>, a: seq<Fitted<M>>, b: seq<Fitted<M>>, n: nat, pdf: (M, D) -> real, nu: (real, real) -> D)
    requires n <= |pose| && n <= |a| && n <= |b|
    requires forall i :: 0 <= i < n ==> a[i].model == b[i].model
    ensures SumScore(pose, a, n, pdf, nu) == SumScore(pose, b, n, pdf, nu)
  {
    if n > 0 {
      SumIgnoresStoredIndex(pose, a, b, n - 1, pdf, nu);
    }
  }

  /**
   * When entry `i` holds bone `i` for every position (no fit failed), scoring
   * by position and scoring by stored bone index agree.
   */
  lemma {:induction false} DenseModelsScoreOwnBones<M, D>(pose: seq<Vec3>, models: seq<Fitted<M>>, n: nat, pdf: (M, D) -> real, nu: (real, real) -> D)
    requires n <= |pose| && n <= |models|
    requires forall i :: 0 <= i < n ==> models[i].bone == i
    ensures SumScore(pose, models, n, pdf, nu) == IndexedSum(pose, models, n, pdf, nu)
  {
    if n > 0 {
      DenseModelsScoreOwnBones(pose, models, n - 1, pdf, nu);
    }
  }

  /**
   * A concrete instance of `FailedFirstFitShiftsModel`: with bone 1's model at
   * position 0 and one particular density function, the positional score (10)
   * differs from the score by stored bone index (15).
   */
  lemma PositionalScoreMisattributes()
    ensures var pose := [Vec3(1.0, 2.0, 0.0), Vec3(1.0, 3.0, 0.0)];
      var models := [Fitted(1, 5.0)];
      var pdf := (m: real, d: real) => m * d;
      var nu := (a: real, b: real) => a;
      SumScore(pose, models, 1, pdf, nu) == 10.0 && IndexedSum(pose, models, 1, pdf, nu) == 15.0
  {
  }

  /**
   * Over the fit loop itself: when the fit of bone 0 fails and that of bone 1
   * succeeds, the only entry is bone 1's, and the positional sum applies that
   * model to bone 0 while the sum by stored index applies it to bone 1.
   */
  lemma FailedFirstFitShiftsModel<M, D>(dist: seq<seq<Vec3>>, fit: (nat, seq<Vec3>) -> Option<M>, pose: seq<Vec3>, pdf: (M, D) -> real, nu: (real, real) -> D)
    requires Wide(dist, 2) && |pose| >= 2
    requires !Succeeds(dist, 0, fit) && Succeeds(dist, 1, fit)
    ensures var r := FitPrefix(dist, 2, fit);
      |r| == 1 && r[0].bone == 1 && Some(r[0].model) == fit(1, Column(dist, 1)) &&
      SumScore(pose, r, 1, pdf, nu) == (if Skipped(pose[0]) then 0.0 else pdf(r[0].model, nu(pose[0].y, pose[0].z))) &&
      IndexedSum(pose, r, 1, pdf, nu) == (if Skipped(pose[1]) then 0.0 else pdf(r[0].model, nu(pose[1].y, pose[1].z)))
  {
    FitPrefixStep(dist, 1, fit);
    FitPrefixStep(dist, 2, fit);
  }

  /** Started at 0, as the source does, the product scorer returns 0 for every pose. */
  lemma {:induction false} ProductFromZeroIsZero<M, D>(pose: seq<Vec3>, models: seq<Fitted<M>>, n: nat, pdf: (M, D) -> real, nu: (real, real) -> D)
    requires n <= |pose| && n <= |models|
    ensures ProductScore(pose, models, n, 0.0, pdf, nu) == 0.0
  {
    if n > 0 {
      ProductFromZeroIsZero(pose, models, n - 1, pdf, nu);
    }
  }

  /**
   * A single bone of density 0.5 scores 0 from the source's start value and
   * 0.5 from the start value 1.
   */
  lemma ProductFromZeroLosesDensity()
    ensures var pose := [Vec3(1.0, 0.0, 0.0)];
      var models := [Fitted(0, 0.5)];
      var pdf := (m: real, d: real) => m;
      var nu := (a: real, b: real) => a;
      ProductScore(pose, models, 1, 0.0, pdf, nu) == 0.0 && ProductScore(pose, models, 1, 1.0, pdf, nu) == 0.5
  {
  }

  /**
   * Started at 1, the product is 0 exactly when some bone that is not skipped
   * has density 0.
   */
  lemma {:induction false} ProductFromOneZeroIff<M, D>(pose: seq<Vec3>, models: seq<Fitted<M>>, n: nat, pdf: (M, D) -> real, nu: (real, real) -> D)
    requires n <= |pose| && n <= |models|
    ensures ProductScore(pose, models, n, 1.0, pdf, nu) == 0.0 <==>
      exists i :: 0 <= i < n && !Skipped(pose[i]) && Density(pose, models, i, pdf, nu) == 0.0
  {
    if n > 0 {
      ProductFromOneZeroIff(pose, models, n - 1, pdf, nu);
      var acc := ProductScore(pose, models, n - 1, 1.0, pdf, nu);
      if !Skipped(pose[n - 1]) {
        var p := Density(pose, models, n - 1, pdf, nu);
        assert acc * p == 0.0 <==> acc == 0.0 || p == 0.0;
      }
    }
  }

  /** Started at 1, the product of positive densities is positive. */
  lemma {:induction false} ProductFromOnePositive<M, D>(pose: seq<Vec3>, models: seq<Fitted<M>>, n: nat, pdf: (M, D) -> real, nu: (real, real) -> D)
    requires n <= |pose| && n <= |models|
    requires forall i :: 0 <= i < n ==> Density(pose, models, i, pdf, nu) > 0.0
    ensures ProductScore(pose, models, n, 1.0, pdf, nu) > 0.0
  {
    if n > 0 {
      ProductFromOnePositive(pose, models, n - 1, pdf, nu);
      var acc := ProductScore(pose, models, n - 1, 1.0, pdf, nu);
      var p := Density(pose, models, n - 1, pdf, nu);
      assert acc * p > 0.0;
    }
  }

  /**
   * `calc_rarenesses`: for each pose in order, add the densities of the bones
   * at positions `0 .. |models|-1` that are not skipped, starting from 0.
   * `None` where `pose[i]` raises `IndexError` because a pose has fewer bones
   * than there are models.
   */
  method CalcRarenesses<M, D>(dist: seq<seq<Vec3>>, models: seq<Fitted<M>>, pdf: (M, D) -> real, nu: (real, real) -> D)
    returns (r: Option<seq<real>>)
    ensures r.None? <==> exists k :: 0 <= k < |dist| && |dist[k]| < |models|
    ensures r.Some? ==> |r.value| == |dist|
    ensures r.Some? ==> forall k :: 0 <= k < |dist| ==>
      |models| <= |dist[k]| && r.value[k] == SumScore(dist[k], models, |models|, pdf, nu)
  {
    var scores: seq<real> := [];
    var k := 0;
    while k < |dist|
      invariant 0 <= k <= |dist|
      invariant |scores| == k
      invariant forall j :: 0 <= j < k ==> |models| <= |dist[j]| && scores[j] == SumScore(dist[j], models, |models|, pdf, nu)
    {
      var pose := dist[k];
      var rareness := 0.0;
      var i := 0;
      while i < |models|
        invariant 0 <= i <= |models| && i <= |pose|
        invariant rareness == SumScore(pose, models, i, pdf, nu)
      {
        if i >= |pose| {
          return None;
        }
        if pose[i].x != 0.0 {
          rareness := rareness + pdf(models[i].model, nu(pose[i].y, pose[i].z));
        }
        i := i + 1;
      }
      scores := scores + [rareness];
      k := k + 1;
    }
    return Some(scores);
  }

  /**
   * The scoring loop of `calc_rareness_with_model`: for each pose in order,
   * multiply an accumulator started at `start` by the densities of the bones
   * that are not skipped. `None` where `pose[i]` raises `IndexError`.
   */
  method ProductRarenesses<M, D>(dist: seq<seq<Vec3>>, models: seq<Fitted<M>>, start: real, pdf: (M, D) -> real, nu: (real, real) -> D)
    returns (r: Option<seq<real>>)
    ensures r.None? <==> exists k :: 0 <= k < |dist| && |dist[k]| < |models|
    ensures r.Some? ==> |r.value| == |dist|
    ensures r.Some? ==> forall k :: 0 <= k < |dist| ==>
      |models| <= |dist[k]| && r.value[k] == ProductScore(dist[k], models, |models|, start, pdf, nu)
  {
    var scores: seq<real> := [];
    var k := 0;
    while k < |dist|
      invariant 0 <= k <= |dist|
      invariant |scores| == k
      invariant forall j :: 0 <= j < k ==> |models| <= |dist[j]| && scores[j] == ProductScore(dist[j], models, |models|, start, pdf, nu)
    {
      var pose := dist[k];
      var rareness := start;
      var i := 0;
      while i < |models|
        invariant 0 <= i <= |models| && i <= |pose|
        invariant rareness == ProductScore(pose, models, i, start, pdf, nu)
      {
        if i >= |pose| {
          return None;
        }
        if pose[i].x != 0.0 {
          rareness := rareness * pdf(models[i].model, nu(pose[i].y, pose[i].z));
        }
        i := i + 1;
      }
      scores := scores + [rareness];
      k := k + 1;
    }
    return Some(scores);
  }
}
