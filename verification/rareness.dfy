/**
 * The two entry points: `calc_rareness` (decompose, fit, score by sum) and
 * `calc_rareness_with_model` (decompose, score by product against given
 * models). Both pair each score with the first two fields of its corpus row.
 */
module Rareness {
  import opened Options
  import opened Geometry
  import opened Skeleton
  import opened Bones
  import opened Fitting
  import opened Scoring

  /**
   * One corpus row: `d[0]` the joint positions (indexed by the full joint
   * table), `d[1]` and `d[2]` opaque values the core does not interpret.
   */
  datatype Record<L, E> = Record(joints: seq<Vec3>, tag: L, meta: E)

  /** One result row `[d[0], d[1], r]`. */
  datatype Scored<L> = Scored(joints: seq<Vec3>, tag: L, rareness: real)

  /**
   * `[[d[0], d[1], r] for d, r in zip(data, scores)]`: rows up to the shorter
   * of the two lists, each keeping its row's first two fields.
   */
  function ZipResults<L, E>(data: seq<Record<L, E>>, scores: seq<real>): (r: seq<Scored<L>>)
    ensures |r| == if |data| <= |scores| then |data| else |scores|
    ensures forall k :: 0 <= k < |r| ==> r[k] == Scored(data[k].joints, data[k].tag, scores[k])
  {
    if |data| == 0 || |scores| == 0 then []
    else [Scored(data[0].joints, data[0].tag, scores[0])] + ZipResults(data[1..], scores[1..])
  }

  /** Every row's joints cover every pair of the fixed skeleton. */
  predicate Decomposable<L, E>(data: seq<Record<L, E>>) {
    forall k :: 0 <= k < |data| ==> BoneVectors(data[k].joints, SkeletonPairs).Some?
  }

  /** `direct_dist`: the bone vectors of every row. */
  function CorpusBones<L, E>(data: seq<Record<L, E>>): seq<seq<Vec3>>
    requires Decomposable(data)
  {
    seq(|data|, k requires 0 <= k < |data| => BoneVectors(data[k].joints, SkeletonPairs).value)
  }

  /** The models the fit loop returns for the corpus. */
  function CorpusModels<L, E, M>(data: seq<Record<L, E>>, fit: (nat, seq<Vec3>) -> Option<M>): seq<Fitted<M>>
    requires Decomposable(data)
  {
    FitPrefix(CorpusBones(data), |SkeletonPairs|, fit)
  }

  /**
   * `calc_rareness`: decompose every row, fit one model per bone, score each
   * row by the sum scorer. `None` when a row lacks a joint of the skeleton
   * (`IndexError`) or the corpus is empty (`data.shape[1]` raises). Otherwise
   * one result per row, in order, with the row's first two fields unchanged.
   */
  method CalcRareness<L, E, M, D>(data: seq<Record<L, E>>, fit: (nat, seq<Vec3>) -> Option<M>, pdf: (M, D) -> real, nu: (real, real) -> D)
    returns (r: Option<seq<Scored<L>>>)
    ensures r.None? <==> |data| == 0 || !Decomposable(data)
    ensures r.Some? ==> |r.value| == |data|
    ensures r.Some? ==> forall k :: 0 <= k < |data| ==>
      r.value[k].joints == data[k].joints && r.value[k].tag == data[k].tag &&
      r.value[k].rareness == SumScore(CorpusBones(data)[k], CorpusModels(data, fit), |CorpusModels(data, fit)|, pdf, nu)
  {
    var anns := seq(|data|, k requires 0 <= k < |data| => data[k].joints);
    var dist := DecomposeCorpus(anns, SkeletonPairs);
    if dist.None? {
      assert !Decomposable(data) by {
        var k :| 0 <= k < |anns| && BoneVectors(anns[k], SkeletonPairs).None?;
        assert BoneVectors(data[k].joints, SkeletonPairs).None?;
      }
      return None;
    }
    assert Decomposable(data) by {
      forall k | 0 <= k < |data|
        ensures BoneVectors(data[k].joints, SkeletonPairs).Some?
      {
        assert anns[k] == data[k].joints;
      }
    }
    if |dist.value| == 0 {
      return None;
    }
    assert dist.value == CorpusBones(data);
    var models := FitPerBone(dist.value, |SkeletonPairs|, fit);
    var scores := CalcRarenesses(dist.value, models, pdf, nu);
    r := Some(ZipResults(data, scores.value));
  }

  /**
   * `calc_rareness_with_model`: decompose every row and score it by the
   * product scorer against the given models, the accumulator starting at
   * `start` (0 in the source). `None` when a row lacks a joint of the skeleton,
   * or when there are more models than bones and some row is scored. Started
   * at 0, every score is 0.
   */
  method CalcRarenessWithModel<L, E, M, D>(data: seq<Record<L, E>>, models: seq<Fitted<M>>, start: real, pdf: (M, D) -> real, nu: (real, real) -> D)
    returns (r: Option<seq<Scored<L>>>)
    ensures r.None? <==> !Decomposable(data) || (|data| > 0 && |models| > |SkeletonPairs|)
    ensures r.Some? ==> |r.value| == |data|
    ensures r.Some? ==> forall k :: 0 <= k < |data| ==>
      r.value[k].joints == data[k].joints && r.value[k].tag == data[k].tag &&
      r.value[k].rareness == ProductScore(CorpusBones(data)[k], models, |models|, start, pdf, nu)
    ensures r.Some? && start == 0.0 ==> forall k :: 0 <= k < |data| ==> r.value[k].rareness == 0.0
  {
    var anns := seq(|data|, k requires 0 <= k < |data| => data[k].joints);
    var dist := DecomposeCorpus(anns, SkeletonPairs);
    if dist.None? {
      assert !Decomposable(data) by {
        var k :| 0 <= k < |anns| && BoneVectors(anns[k], SkeletonPairs).None?;
        assert BoneVectors(data[k].joints, SkeletonPairs).None?;
      }
      return None;
    }
    assert Decomposable(data) by {
      forall k | 0 <= k < |data|
        ensures BoneVectors(data[k].joints, SkeletonPairs).Some?
      {
        assert anns[k] == data[k].joints;
      }
    }
    assert dist.value == CorpusBones(data);
    var scores := ProductRarenesses(dist.value, models, start, pdf, nu);
    if scores.None? {
      return None;
    }
    r := Some(ZipResults(data, scores.value));
    if start == 0.0 {
      forall k | 0 <= k < |data|
        ensures r.value[k].rareness == 0.0
      {
        ProductFromZeroIsZero(dist.value[k], models, |models|, pdf, nu);
      }
    }
  }

  /**
   * When the fit of every bone succeeds, position `i` of the model list holds
   * bone `i`'s own model, so each row's sum equals the sum by stored bone
   * index.
   */
  lemma FullFitScoresOwnBones<L, E, M, D>(data: seq<Record<L, E>>, fit: (nat, seq<Vec3>) -> Option<M>, pdf: (M, D) -> real, nu: (real, real) -> D, k: nat)
    requires Decomposable(data) && k < |data|
    requires forall j :: 0 <= j < |SkeletonPairs| ==> Succeeds(CorpusBones(data), j, fit)
    ensures |CorpusModels(data, fit)| == |SkeletonPairs|
    ensures SumScore(CorpusBones(data)[k], CorpusModels(data, fit), |SkeletonPairs|, pdf, nu) ==
      IndexedSum(CorpusBones(data)[k], CorpusModels(data, fit), |SkeletonPairs|, pdf, nu)
  {
    var dist := CorpusBones(data);
    var n := |SkeletonPairs|;
    FitPrefixFull(dist, n, fit);
    var models := CorpusModels(data, fit);
    forall i | 0 <= i < n
      ensures models[i].bone == i
    {
      FitPositionIsOwnBone(dist, n, fit, i);
    }
    DenseModelsScoreOwnBones(dist[k], models, n, pdf, nu);
  }

  /** A corpus whose rows all carry the full joint table decomposes. */
  lemma FullRowsDecompose<L, E>(data: seq<Record<L, E>>)
    requires forall k :: 0 <= k < |data| ==> |data[k].joints| >= |AllJointNames|
    ensures Decomposable(data)
    ensures forall k :: 0 <= k < |data| ==> |CorpusBones(data)[k]| == 17 && Skipped(CorpusBones(data)[k][14])
  {
    forall k | 0 <= k < |data|
      ensures BoneVectors(data[k].joints, SkeletonPairs).Some?
      ensures |BoneVectors(data[k].joints, SkeletonPairs).value| == 17
      ensures Skipped(BoneVectors(data[k].joints, SkeletonPairs).value[14])
    {
      SkeletonBones(data[k].joints);
    }
  }

  /**
   * When the fit of every bone raises, the model list is empty and every row
   * of the corpus scores 0.
   */
  lemma NoFitScoresZero<L, E, M, D>(data: seq<Record<L, E>>, fit: (nat, seq<Vec3>) -> Option<M>, pdf: (M, D) -> real, nu: (real, real) -> D)
    requires Decomposable(data)
    requires forall j :: 0 <= j < |SkeletonPairs| ==> !Succeeds(CorpusBones(data), j, fit)
    ensures CorpusModels(data, fit) == []
    ensures forall k :: 0 <= k < |data| ==> SumScore(CorpusBones(data)[k], CorpusModels(data, fit), |CorpusModels(data, fit)|, pdf, nu) == 0.0
  {
    FitPrefixNoneFit(CorpusBones(data), |SkeletonPairs|, fit);
  }
}
