/**
 * Decomposition of a pose (one position per joint of the full table) into one
 * bone vector per (child, parent) pair: parent position minus child position.
 */
module Bones {
  import opened Options
  import opened Geometry
  import opened Skeleton

  /** Both joints of pair `p` exist in the pose `ann`. */
  predicate Covers(ann: seq<Vec3>, p: Pair) {
    p.child < |ann| && p.parent < |ann|
  }

  /**
   * `[ann[p] - ann[c] for c, p in pairs]`: one vector per pair, in pair order,
   * or `None` where an index raises `IndexError`.
   */
  function BoneVectors(ann: seq<Vec3>, pairs: seq<Pair>): (r: Option<seq<Vec3>>)
    ensures r.Some? <==> forall k :: 0 <= k < |pairs| ==> Covers(ann, pairs[k])
    ensures r.Some? ==> |r.value| == |pairs|
    ensures r.Some? ==> forall k :: 0 <= k < |pairs| ==>
      r.value[k] == Sub(ann[pairs[k].parent], ann[pairs[k].child])
  {
    if |pairs| == 0 then Some([])
    else if !Covers(ann, pairs[0]) then None
    else match BoneVectors(ann, pairs[1..])
      case None => None
      case Some(rest) => Some([Sub(ann[pairs[0].parent], ann[pairs[0].child])] + rest)
  }

  /** The pose `ann` moved as a whole by `t`. */
  function Shift(ann: seq<Vec3>, t: Vec3): seq<Vec3> {
    seq(|ann|, i requires 0 <= i < |ann| => Add(ann[i], t))
  }

  /**
   * Bone vectors depend only on the relative placement of the joints: moving
   * the whole pose leaves them, and their failures, unchanged.
   */
  lemma BonesIgnoreTranslation(ann: seq<Vec3>, pairs: seq<Pair>, t: Vec3)
    ensures BoneVectors(Shift(ann, t), pairs) == BoneVectors(ann, pairs)
  {
    var moved := Shift(ann, t);
    assert forall k :: 0 <= k < |pairs| ==> (Covers(moved, pairs[k]) <==> Covers(ann, pairs[k]));
    if BoneVectors(ann, pairs).Some? {
      var a := BoneVectors(moved, pairs).value;
      var b := BoneVectors(ann, pairs).value;
      assert |a| == |b|;
      forall k | 0 <= k < |a|
        ensures a[k] == b[k]
      {
        var p := pairs[k];
        assert moved[p.parent] == Add(ann[p.parent], t);
        assert moved[p.child] == Add(ann[p.child], t);
      }
      assert a == b;
    }
  }

  /**
   * For any pair table whose indices lie below `n`, a pose with at least `n`
   * joints decomposes into one vector per pair.
   */
  lemma BonesOfCoveringPose(ann: seq<Vec3>, pairs: seq<Pair>, n: nat)
    requires |ann| >= n
    requires forall k :: 0 <= k < |pairs| ==> pairs[k].child < n && pairs[k].parent < n
    ensures BoneVectors(ann, pairs).Some?
    ensures |BoneVectors(ann, pairs).value| == |pairs|
  {
    assert forall k :: 0 <= k < |pairs| ==> Covers(ann, pairs[k]);
  }

  /** A pair that is its own parent gives the zero vector, whatever the pose. */
  lemma SelfPairBoneIsZero(ann: seq<Vec3>, pairs: seq<Pair>, self: nat)
    requires BoneVectors(ann, pairs).Some?
    requires self < |pairs| && pairs[self].child == pairs[self].parent
    ensures BoneVectors(ann, pairs).value[self] == Zero
  {
    var p := pairs[self];
    assert Sub(ann[p.parent], ann[p.child]) == Zero;
  }

  /**
   * With the fixed skeleton, a pose that has every joint of the full table
   * decomposes into exactly 17 bone vectors, and bone 14 (pelvis to pelvis)
   * is the zero vector whatever the pose.
   */
  lemma SkeletonBones(ann: seq<Vec3>)
    requires |ann| >= |AllJointNames|
    ensures BoneVectors(ann, SkeletonPairs).Some?
    ensures |BoneVectors(ann, SkeletonPairs).value| == 17
    ensures BoneVectors(ann, SkeletonPairs).value[14] == Zero
  {
    PairsInRange();
    BonesOfCoveringPose(ann, SkeletonPairs, 28);
    SelfPairBoneIsZero(ann, SkeletonPairs, 14);
  }

  /**
   * The outer loop over the corpus: the bone vectors of every pose, in corpus
   * order, or `None` when some pose lacks a joint that a pair names.
   */
  method DecomposeCorpus(anns: seq<seq<Vec3>>, pairs: seq<Pair>) returns (r: Option<seq<seq<Vec3>>>)
    ensures r.Some? <==> forall k :: 0 <= k < |anns| ==> BoneVectors(anns[k], pairs).Some?
    ensures r.Some? ==> |r.value| == |anns|
    ensures r.Some? ==> forall k :: 0 <= k < |anns| ==> BoneVectors(anns[k], pairs) == Some(r.value[k])
  {
    var dist: seq<seq<Vec3>> := [];
    var k := 0;
    while k < |anns|
      invariant 0 <= k <= |anns|
      invariant |dist| == k
      invariant forall i :: 0 <= i < k ==> BoneVectors(anns[i], pairs) == Some(dist[i])
    {
      var bones := BoneVectors(anns[k], pairs);
      if bones.None? {
        return None;
      }
      dist := dist + [bones.value];
      k := k + 1;
    }
    return Some(dist);
  }
}
