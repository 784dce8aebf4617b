/**
 * The best-effort per-bone fit loop. The fit of one bone (conversion of its
 * column to spherical coordinates, the maximum-likelihood fit of the spherical
 * distribution and the diagnostic plot) is an injected function `fit` that
 * returns `None` where that code raises.
 */
module Fitting {
  import opened Options
  import opened Geometry

  /** One entry `[i, model]` of the fit loop's result. */
  datatype Fitted<M> = Fitted(bone: nat, model: M)

  /** Every pose of the corpus has at least `n` bones, so `data[:, j]` exists for `j < n`. */
  predicate Wide(dist: seq<seq<Vec3>>, n: nat) {
    forall k :: 0 <= k < |dist| ==> n <= |dist[k]|
  }

  /** `data[:, j]`: bone `j` of every pose, in corpus order. */
  function Column(dist: seq<seq<Vec3>>, j: nat): seq<Vec3>
    requires Wide(dist, j + 1)
  {
    seq(|dist|, k requires 0 <= k < |dist| => dist[k][j])
  }

  /** Whether the fit of bone `j` returns a model rather than raising. */
  predicate Succeeds<M>(dist: seq<seq<Vec3>>, j: nat, fit: (nat, seq<Vec3>) -> Option<M>)
    requires Wide(dist, j + 1)
  {
    fit(j, Column(dist, j)).Some?
  }

  /**
   * The fit loop's result after attempting bones `0 .. n-1` in order: one entry
   * per bone whose fit succeeded, never more entries than attempts.
   */
  function FitPrefix<M>(dist: seq<seq<Vec3>>, n: nat, fit: (nat, seq<Vec3>) -> Option<M>): (r: seq<Fitted<M>>)
    requires Wide(dist, n)
    ensures |r| <= n
  {
    if n == 0 then []
    else
      var earlier := FitPrefix(dist, n - 1, fit);
      match fit(n - 1, Column(dist, n - 1))
      case Some(m) => earlier + [Fitted(n - 1, m)]
      case None => earlier
  }

  /** One step of the loop: the entries so far are kept, and bone `n-1` is appended when its fit succeeds. */
  lemma FitPrefixStep<M>(dist: seq<seq<Vec3>>, n: nat, fit: (nat, seq<Vec3>) -> Option<M>)
    requires Wide(dist, n) && n > 0
    ensures var earlier := FitPrefix(dist, n - 1, fit);
      FitPrefix(dist, n, fit) ==
        if Succeeds(dist, n - 1, fit) then earlier + [Fitted(n - 1, fit(n - 1, Column(dist, n - 1)).value)]
        else earlier
  {
  }

  /**
   * Every entry holds a bone below `n` together with that bone's own fitted
   * model, and the stored bone indices strictly increase (so they are distinct).
   */
  lemma {:induction false} FitPrefixSorted<M>(dist: seq<seq<Vec3>>, n: nat, fit: (nat, seq<Vec3>) -> Option<M>)
    requires Wide(dist, n)
    ensures var r := FitPrefix(dist, n, fit);
      forall i :: 0 <= i < |r| ==> r[i].bone < n && fit(r[i].bone, Column(dist, r[i].bone)) == Some(r[i].model)
    ensures var r := FitPrefix(dist, n, fit);
      forall i, j :: 0 <= i < j < |r| ==> r[i].bone < r[j].bone
  {
    if n > 0 {
      FitPrefixSorted(dist, n - 1, fit);
      FitPrefixStep(dist, n, fit);
    }
  }

  /**
   * A bone below `n` appears in the result exactly when its fit succeeds: a
   * failed bone is absent, and a failure does not stop later bones from being
   * attempted.
   */
  lemma {:induction false} FitPrefixComplete<M>(dist: seq<seq<Vec3>>, n: nat, fit: (nat, seq<Vec3>) -> Option<M>, j: nat)
    requires Wide(dist, n) && j < n
    ensures Succeeds(dist, j, fit) <==> exists i :: 0 <= i < |FitPrefix(dist, n, fit)| && FitPrefix(dist, n, fit)[i].bone == j
  {
    var r := FitPrefix(dist, n, fit);
    var earlier := FitPrefix(dist, n - 1, fit);
    FitPrefixSorted(dist, n - 1, fit);
    FitPrefixStep(dist, n, fit);
    if j == n - 1 {
      if Succeeds(dist, j, fit) {
        assert r[|r| - 1].bone == j;
      } else {
        assert r == earlier;
      }
    } else {
      FitPrefixComplete(dist, n - 1, fit, j);
      if exists i :: 0 <= i < |earlier| && earlier[i].bone == j {
        var i :| 0 <= i < |earlier| && earlier[i].bone == j;
        assert r[i].bone == j;
      }
      if exists i :: 0 <= i < |r| && r[i].bone == j {
        var i :| 0 <= i < |r| && r[i].bone == j;
        assert i < |earlier| && earlier[i].bone == j;
      }
    }
  }

  /** The result has one entry per bone exactly when no fit failed. */
  lemma {:induction false} FitPrefixFull<M>(dist: seq<seq<Vec3>>, n: nat, fit: (nat, seq<Vec3>) -> Option<M>)
    requires Wide(dist, n)
    ensures |FitPrefix(dist, n, fit)| == n <==> forall j :: 0 <= j < n ==> Succeeds(dist, j, fit)
  {
    if n > 0 {
      FitPrefixFull(dist, n - 1, fit);
      FitPrefixStep(dist, n, fit);
    }
  }

  /** If the first `m` bones all fit, the result holds at least `m` entries. */
  lemma {:induction false} FitPrefixAtLeast<M>(dist: seq<seq<Vec3>>, n: nat, fit: (nat, seq<Vec3>) -> Option<M>, m: nat)
    requires Wide(dist, n) && m <= n
    requires forall j :: 0 <= j < m ==> Succeeds(dist, j, fit)
    ensures m <= |FitPrefix(dist, n, fit)|
  {
    if m == n {
      FitPrefixFull(dist, n, fit);
    } else {
      FitPrefixAtLeast(dist, n - 1, fit, m);
    }
  }

  /**
   * The entry at list position `i` belongs to bone `i` or a later one, and it
   * belongs to bone `i` itself exactly when the fits of bones `0 .. i` all
   * succeeded. Once one of them fails, position and bone index part ways.
   */
  lemma {:induction false} FitPositionIsOwnBone<M>(dist: seq<seq<Vec3>>, n: nat, fit: (nat, seq<Vec3>) -> Option<M>, i: nat)
    requires Wide(dist, n) && i < |FitPrefix(dist, n, fit)|
    ensures i <= FitPrefix(dist, n, fit)[i].bone
    ensures FitPrefix(dist, n, fit)[i].bone == i <==> forall j :: 0 <= j <= i ==> Succeeds(dist, j, fit)
  {
    var r := FitPrefix(dist, n, fit);
    var earlier := FitPrefix(dist, n - 1, fit);
    if i < |earlier| {
      FitPositionIsOwnBone(dist, n - 1, fit, i);
      assert r[i] == earlier[i];
    } else {
      assert r[i] == Fitted(n - 1, fit(n - 1, Column(dist, n - 1)).value);
      if r[i].bone == i {
        FitPrefixFull(dist, n - 1, fit);
      } else if forall j :: 0 <= j <= i ==> Succeeds(dist, j, fit) {
        FitPrefixAtLeast(dist, n - 1, fit, i + 1);
      }
    }
  }

  /**
   * When no fit succeeds (for instance every fit raises because the corpus is
   * too small for the diagnostic subsample), the result is empty.
   */
  lemma {:induction false} FitPrefixNoneFit<M>(dist: seq<seq<Vec3>>, n: nat, fit: (nat, seq<Vec3>) -> Option<M>)
    requires Wide(dist, n)
    requires forall j :: 0 <= j < n ==> !Succeeds(dist, j, fit)
    ensures FitPrefix(dist, n, fit) == []
  {
    if n > 0 {
      FitPrefixNoneFit(dist, n - 1, fit);
      FitPrefixStep(dist, n, fit);
    }
  }

  /**
   * `calc_fitted_fb8`: attempt the fit of every bone `0 .. width-1` in order,
   * append `Fitted(j, model)` when it succeeds and skip the bone when it raises.
   */
  method FitPerBone<M>(dist: seq<seq<Vec3>>, width: nat, fit: (nat, seq<Vec3>) -> Option<M>)
    returns (fitted: seq<Fitted<M>>)
    requires Wide(dist, width)
    ensures fitted == FitPrefix(dist, width, fit)
    ensures |fitted| <= width
    ensures forall i, j :: 0 <= i < j < |fitted| ==> fitted[i].bone < fitted[j].bone
    ensures forall i :: 0 <= i < |fitted| ==>
      fitted[i].bone < width && fit(fitted[i].bone, Column(dist, fitted[i].bone)) == Some(fitted[i].model)
  {
    fitted := [];
    for j := 0 to width
      invariant fitted == FitPrefix(dist, j, fit)
    {
      var col := seq(|dist|, k requires 0 <= k < |dist| => dist[k][j]);
      assert col == Column(dist, j);
      match fit(j, col) {
        case Some(m) =>
          fitted := fitted + [Fitted(j, m)];
        case None =>
      }
    }
    FitPrefixSorted(dist, width, fit);
  }
}
