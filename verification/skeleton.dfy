/**
 * The fixed skeleton topology: the table of all 28 joint names of the corpus,
 * the 17 joints that are used, the parent of each used joint (as a position in
 * the used list) and the derived list of (child index, parent index) pairs over
 * the full joint table.
 */
module Skeleton {
  import opened Options

  /** One bone: indices of its child joint and its parent joint in the full joint table. */
  datatype Pair = Pair(child: nat, parent: nat)

  /**
   * The joint names of the corpus's schema, one constructor per name
   * (`head_top` is `HeadTop`, and so on).
   */
  datatype JointName =
    | Spine3 | Spine4 | Spine2 | Spine | Pelvis
    | Neck | Head | HeadTop | LeftClavicle | LeftShoulder | LeftElbow
    | LeftWrist | LeftHand | RightClavicle | RightShoulder | RightElbow | RightWrist
    | RightHand | LeftHip | LeftKnee | LeftAnkle | LeftFoot | LeftToe
    | RightHip | RightKnee | RightAnkle | RightFoot | RightToe

  /** The full joint table, in the corpus's indexing order. */
  const AllJointNames: seq<JointName> := [
    Spine3, Spine4, Spine2, Spine, Pelvis,
    Neck, Head, HeadTop, LeftClavicle, LeftShoulder, LeftElbow,
    LeftWrist, LeftHand, RightClavicle, RightShoulder, RightElbow, RightWrist,
    RightHand, LeftHip, LeftKnee, LeftAnkle, LeftFoot, LeftToe,
    RightHip, RightKnee, RightAnkle, RightFoot, RightToe]

  /** The joints that take part in the bone decomposition. */
  const JointNames: seq<JointName> := [
    HeadTop, Neck, RightShoulder, RightElbow, RightWrist,
    LeftShoulder, LeftElbow, LeftWrist, RightHip, RightKnee,
    RightAnkle, LeftHip, LeftKnee, LeftAnkle, Pelvis,
    Spine, Head]

  /** For each used joint, the position in `JointNames` of its parent. */
  const JointTree: seq<nat> := [
    1, 15, 1, 2, 3,
    1, 5, 6, 14, 8,
    9, 14, 11, 12, 14,
    14, 1]

  /**
   * Python's `names.index(n)`: the position of the first occurrence of `n`,
   * or `None` where Python raises `ValueError`.
   */
  function IndexOf(names: seq<JointName>, n: JointName): (r: Option<nat>)
    ensures r.Some? <==> n in names
    ensures r.Some? ==> r.value < |names| && names[r.value] == n
    ensures r.Some? ==> forall j :: 0 <= j < r.value ==> names[j] != n
  {
    if |names| == 0 then None
    else if names[0] == n then Some(0)
    else match IndexOf(names[1..], n)
      case None => None
      case Some(k) => Some(k + 1)
  }

  /**
   * `[all.index(n) for n in used]`: every lookup in order, `None` as soon as one
   * of them raises.
   */
  function LookupAll(all: seq<JointName>, used: seq<JointName>): (r: Option<seq<nat>>)
    ensures r.Some? <==> forall k :: 0 <= k < |used| ==> used[k] in all
    ensures r.Some? ==> |r.value| == |used|
    ensures r.Some? ==> forall k :: 0 <= k < |used| ==> IndexOf(all, used[k]) == Some(r.value[k])
  {
    if |used| == 0 then Some([])
    else match IndexOf(all, used[0])
      case None => None
      case Some(c) =>
        match LookupAll(all, used[1..])
        case None => None
        case Some(rest) => Some([c] + rest)
  }

  /** `[used[i] for i in tree]`: `None` where an index raises `IndexError`. */
  function Select(used: seq<JointName>, tree: seq<nat>): (r: Option<seq<JointName>>)
    ensures r.Some? <==> forall k :: 0 <= k < |tree| ==> tree[k] < |used|
    ensures r.Some? ==> |r.value| == |tree|
    ensures r.Some? ==> forall k :: 0 <= k < |tree| ==> r.value[k] == used[tree[k]]
  {
    if |tree| == 0 then Some([])
    else if tree[0] >= |used| then None
    else match Select(used, tree[1..])
      case None => None
      case Some(rest) => Some([used[tree[0]]] + rest)
  }

  /** `list(zip(children, parents))`: pairs up to the shorter of the two lists. */
  function ZipPairs(children: seq<nat>, parents: seq<nat>): (r: seq<Pair>)
    ensures |r| == if |children| <= |parents| then |children| else |parents|
    ensures forall k :: 0 <= k < |r| ==> r[k] == Pair(children[k], parents[k])
  {
    if |children| == 0 || |parents| == 0 then []
    else [Pair(children[0], parents[0])] + ZipPairs(children[1..], parents[1..])
  }

  /**
   * `pair_joints` computed from a joint table, a used-joint list and a parent
   * list: `None` when a lookup raises.
   */
  function PairJoints(all: seq<JointName>, used: seq<JointName>, tree: seq<nat>): (r: Option<seq<Pair>>)
    ensures r.Some? <==>
      (forall k :: 0 <= k < |used| ==> used[k] in all) &&
      (forall k :: 0 <= k < |tree| ==> tree[k] < |used| && used[tree[k]] in all)
    ensures r.Some? ==> |r.value| == if |used| <= |tree| then |used| else |tree|
    ensures r.Some? ==> forall k :: 0 <= k < |r.value| ==>
      tree[k] < |used| &&
      IndexOf(all, used[k]) == Some(r.value[k].child) &&
      IndexOf(all, used[tree[k]]) == Some(r.value[k].parent)
  {
    match (LookupAll(all, used), Select(used, tree))
    case (Some(children), Some(parentNames)) =>
      (match LookupAll(all, parentNames)
       case Some(parents) => Some(ZipPairs(children, parents))
       case None => None)
    case _ => None
  }

  /** Every used joint name occurs in the full table. */
  lemma UsedNamesKnown()
    ensures forall k :: 0 <= k < |JointNames| ==> JointNames[k] in AllJointNames
  {
    PairsNameTheirJoints();
    forall k | 0 <= k < |JointNames|
      ensures JointNames[k] in AllJointNames
    {
      assert AllJointNames[SkeletonPairs[k].child] == JointNames[k];
    }
  }

  /** No used joint name appears twice. */
  lemma UsedNamesDistinct()
    ensures forall i, j :: 0 <= i < j < |JointNames| ==> JointNames[i] != JointNames[j]
  {
  }

  /**
   * For any tables whose used names all occur in the full table, whose parent
   * positions are in range and whose used names are distinct: every lookup
   * succeeds, there is one pair per used joint, pair k names used joint k and
   * its parent, and no two pairs share a child.
   */
  lemma PairJointsWellFormed(all: seq<JointName>, used: seq<JointName>, tree: seq<nat>)
    requires TablesConsistent(all, used, tree)
    ensures PairJoints(all, used, tree).Some?
    ensures var pairs := PairJoints(all, used, tree).value;
      |pairs| == |used| &&
      (forall k :: 0 <= k < |used| ==>
        pairs[k].child < |all| && all[pairs[k].child] == used[k] &&
        pairs[k].parent < |all| && all[pairs[k].parent] == used[tree[k]]) &&
      (forall i, j :: 0 <= i < j < |used| ==> pairs[i].child != pairs[j].child) &&
      (forall k :: 0 <= k < |used| && tree[k] == k ==> pairs[k].child == pairs[k].parent)
  {
    var pairs := PairJoints(all, used, tree).value;
    forall i, j | 0 <= i < j < |used|
      ensures pairs[i].child != pairs[j].child
    {
      assert all[pairs[i].child] == used[i];
      assert all[pairs[j].child] == used[j];
    }
  }

  /** Every parent position of the fixed tree points into the used list. */
  lemma TreeInRange()
    ensures |JointTree| == |JointNames| == 17
    ensures forall k :: 0 <= k < |JointTree| ==> JointTree[k] < |JointNames|
  {
  }

  /** The conditions under which `PairJointsWellFormed` applies. */
  predicate TablesConsistent(all: seq<JointName>, used: seq<JointName>, tree: seq<nat>) {
    && (forall k :: 0 <= k < |used| ==> used[k] in all)
    && (forall i, j :: 0 <= i < j < |used| ==> used[i] != used[j])
    && |tree| == |used|
    && (forall k :: 0 <= k < |tree| ==> tree[k] < |used|)
  }

  /** The fixed tables meet those conditions. */
  lemma SkeletonTablesConsistent()
    ensures TablesConsistent(AllJointNames, JointNames, JointTree)
  {
    UsedNamesKnown();
    UsedNamesDistinct();
    TreeInRange();
  }

  /** The position of each name in `AllJointNames`. */
  function Position(j: JointName): nat {
    match j
    case Spine3 => 0
    case Spine4 => 1
    case Spine2 => 2
    case Spine => 3
    case Pelvis => 4
    case Neck => 5
    case Head => 6
    case HeadTop => 7
    case LeftClavicle => 8
    case LeftShoulder => 9
    case LeftElbow => 10
    case LeftWrist => 11
    case LeftHand => 12
    case RightClavicle => 13
    case RightShoulder => 14
    case RightElbow => 15
    case RightWrist => 16
    case RightHand => 17
    case LeftHip => 18
    case LeftKnee => 19
    case LeftAnkle => 20
    case LeftFoot => 21
    case LeftToe => 22
    case RightHip => 23
    case RightKnee => 24
    case RightAnkle => 25
    case RightFoot => 26
    case RightToe => 27
  }

  /** `Position` inverts the full table, so no name occurs in it twice. */
  lemma AllNamesDistinct()
    ensures forall i :: 0 <= i < |AllJointNames| ==> Position(AllJointNames[i]) == i
    ensures forall i, j ::
      0 <= i < |AllJointNames| && 0 <= j < |AllJointNames| && AllJointNames[i] == AllJointNames[j] ==> i == j
  {
    forall i | 0 <= i < |AllJointNames|
      ensures Position(AllJointNames[i]) == i
    {
    }
  }

  /** `pair_joints` for the fixed tables, as (child index, parent index) pairs. */
  const SkeletonPairs: seq<Pair> := [
    Pair(7, 5), Pair(5, 3), Pair(14, 5), Pair(15, 14), Pair(16, 15),
    Pair(9, 5), Pair(10, 9), Pair(11, 10), Pair(23, 4), Pair(24, 23),
    Pair(25, 24), Pair(18, 4), Pair(19, 18), Pair(20, 19), Pair(4, 4),
    Pair(3, 4), Pair(6, 5)]

  /** Every index of the literal pair list is a position of the full table. */
  lemma PairsInRange()
    ensures |SkeletonPairs| == 17
    ensures forall k :: 0 <= k < |SkeletonPairs| ==> SkeletonPairs[k].child < 28 && SkeletonPairs[k].parent < 28
    ensures SkeletonPairs[14] == Pair(4, 4)
  {
    forall k | 0 <= k < |SkeletonPairs|
      ensures SkeletonPairs[k].child < 28 && SkeletonPairs[k].parent < 28
    {
      assert k == 0 || k == 1 || k == 2 || k == 3 || k == 4 || k == 5 || k == 6 || k == 7 || k == 8 || k == 9 || k == 10 || k == 11 || k == 12 || k == 13 || k == 14 || k == 15 || k == 16;
    }
  }

  /**
   * When the full table has no repeated name, the pair list is determined by
   * the names it points at: any list whose pair k points at used joint k and
   * its parent is the one `PairJoints` computes.
   */
  lemma PairJointsIs(all: seq<JointName>, used: seq<JointName>, tree: seq<nat>, expected: seq<Pair>)
    requires TablesConsistent(all, used, tree)
    requires forall i, j :: 0 <= i < |all| && 0 <= j < |all| && all[i] == all[j] ==> i == j
    requires |expected| == |used|
    requires forall k :: 0 <= k < |used| ==>
      expected[k].child < |all| && all[expected[k].child] == used[k] &&
      expected[k].parent < |all| && all[expected[k].parent] == used[tree[k]]
    ensures PairJoints(all, used, tree) == Some(expected)
  {
    PairJointsWellFormed(all, used, tree);
    var pairs := PairJoints(all, used, tree).value;
    forall k | 0 <= k < |used|
      ensures pairs[k] == expected[k]
    {
      assert all[pairs[k].child] == all[expected[k].child];
      assert all[pairs[k].parent] == all[expected[k].parent];
    }
    assert pairs == expected;
  }

  /** Pair k of the literal table names used joint k and its parent. */
  lemma PairsNameTheirJoints()
    ensures |SkeletonPairs| == |JointNames| == |JointTree| == 17 && |AllJointNames| == 28
    ensures forall k :: 0 <= k < 17 ==> JointTree[k] < 17
    ensures forall k :: 0 <= k < 17 ==>
      SkeletonPairs[k].child < 28 && AllJointNames[SkeletonPairs[k].child] == JointNames[k] &&
      SkeletonPairs[k].parent < 28 && AllJointNames[SkeletonPairs[k].parent] == JointNames[JointTree[k]]
  {
    forall k | 0 <= k < 17
      ensures JointTree[k] < 17
      ensures SkeletonPairs[k].child < 28 && AllJointNames[SkeletonPairs[k].child] == JointNames[k]
      ensures SkeletonPairs[k].parent < 28 && AllJointNames[SkeletonPairs[k].parent] == JointNames[JointTree[k]]
    {
      assert k == 0 || k == 1 || k == 2 || k == 3 || k == 4 || k == 5 || k == 6 || k == 7 || k == 8 || k == 9 || k == 10 || k == 11 || k == 12 || k == 13 || k == 14 || k == 15 || k == 16;
    }
  }

  /**
   * Evaluating the comprehensions on the fixed tables raises nothing and gives
   * exactly `SkeletonPairs`.
   */
  lemma SkeletonTable()
    ensures PairJoints(AllJointNames, JointNames, JointTree) == Some(SkeletonPairs)
  {
    SkeletonTablesConsistent();
    AllNamesDistinct();
    PairsNameTheirJoints();
    PairJointsIs(AllJointNames, JointNames, JointTree, SkeletonPairs);
  }

  /**
   * No two pairs of the fixed list share a child, so each used joint has
   * exactly one parent; the pelvis (pair 14) is its own parent.
   */
  lemma SkeletonShape()
    ensures |SkeletonPairs| == 17
    ensures forall i, j :: 0 <= i < j < 17 ==> SkeletonPairs[i].child != SkeletonPairs[j].child
    ensures SkeletonPairs[14].child == SkeletonPairs[14].parent
  {
    PairsInRange();
    PairsNameTheirJoints();
    UsedNamesDistinct();
    forall i, j | 0 <= i < j < 17
      ensures SkeletonPairs[i].child != SkeletonPairs[j].child
    {
      assert AllJointNames[SkeletonPairs[i].child] == JointNames[i];
      assert AllJointNames[SkeletonPairs[j].child] == JointNames[j];
    }
  }
}
