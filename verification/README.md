# Pose rareness: a Dafny model

This project models the computational core of `notebook_pose_rareness.py`, a
notebook module that scores how unusual each human pose in an annotated corpus
is. A pose is a list of 3-D joint positions indexed by a fixed table of 28
joint names. A fixed skeleton of 17 (child, parent) joint pairs turns each pose
into 17 bone vectors (parent position minus child position). One spherical
FB8 distribution is fitted per bone over the whole corpus, best-effort: a bone
whose fit raises is left out of the model list. A pose's rareness then
combines, bone by bone, the density that the model list gives to the bone's
direction. `calc_rareness` fits the models itself and adds the densities;
`calc_rareness_with_model` takes a model list and multiplies them.

Modules, in dependency order:

- `Options` (`options.dfy`): `Option`, whose `None` stands for a Python
  exception that escapes the modelled function (`IndexError`, `ValueError`).
- `Geometry` (`geometry.dfy`): 3-D vectors over `real`.
- `Skeleton` (`skeleton.dfy`): the joint-name tables, the parent list, the
  `list.index` lookups and comprehensions that build `pair_joints`, and the
  resulting literal pair list with its proved shape.
- `Bones` (`bones.dfy`): per-pose decomposition into bone vectors and the
  corpus loop that builds `direct_dist`.
- `Fitting` (`fitting.dfy`): the per-bone fit loop `calc_fitted_fb8` as a
  method, proved against the recursive function `FitPrefix`.
- `Scoring` (`scoring.dfy`): the sum and product scorers as loops proved
  against the functions `SumScore` and `ProductScore`, plus a reference
  scorer keyed by stored bone index (`IndexedSum`).
- `Rareness` (`rareness.dfy`): the two entry points and the zip of scores
  with corpus rows.

The FB8 fit (`fb8_mle` behind `hp_fits`, together with `asSpherical`), the
density `pdf` and `spherical_coordinates_to_nu` are library or numeric code.
They enter the model as function-valued parameters: `fit(j, column)` returns
`None` where the fit of bone `j` raises, `pdf(model, d)` is the density and
`nu(a, b)` builds the direction.

Joint names are constructors of the enumeration `JointName` (`Spine3`,
`HeadTop`, …) rather than strings; only equality of names matters to the code.

Behaviour of the code that a reader might not expect:

- Each result row is `[d[0], d[1], r]`: the row's joint positions, its second
  field and the score. The third field of a corpus row is dropped
  (`Rareness.Scored`).
- The scorers skip bone `i` when its x component is 0 (`pose[i][0] == 0`),
  not when the vector is zero. The direction they score is built from the
  bone's Cartesian y and z components, not from spherical angles.
- The scorers walk the model list by list position `i` and apply
  `models[i]` to bone `i`. The bone index stored in the entry is never read.
  After a failed fit, later models shift down one position per earlier
  failure and are applied to the wrong bones
  (`Scoring.FailedFirstFitShiftsModel`, `Scoring.PositionalScoreMisattributes`). They line up
  exactly when no earlier fit failed (`Fitting.FitPositionIsOwnBone`).
- Parent position 14 of the pelvis is the pelvis itself, so bone 14 is the
  zero vector for every pose and is always skipped (`Bones.SkeletonBones`,
  `Rareness.FullRowsDecompose`).
- An empty corpus makes `calc_rareness` raise: the empty `direct_dist` has no
  second dimension for `data.shape[1]`. `calc_rareness_with_model` returns an
  empty list for an empty corpus.
- `calc_rareness_with_model` raises `IndexError` when it is given more models
  than a pose has bones (17) and the corpus is not empty.

## Model

| member | source | states |
|---|---|---|
| Skeleton.IndexOf | notebook_pose_rareness.py:28-29 | `list.index`: defined exactly when the name occurs; the result is the position of its first occurrence |
| Skeleton.LookupAll | notebook_pose_rareness.py:28 | the child lookups succeed exactly when every used name is in the full table; one index per name, each the `index` of that name |
| Skeleton.Select | notebook_pose_rareness.py:29 | `joint_names[i] for i in joint_tree` succeeds exactly when every parent position is in range; entry k is the name at parent position k |
| Skeleton.ZipPairs | notebook_pose_rareness.py:30 | `zip` stops at the shorter list; pair k joins child k and parent k |
| Skeleton.PairJoints | notebook_pose_rareness.py:28-30 | `pair_joints` is computed exactly when all lookups succeed; pair k holds the indices of used joint k and of its parent |
| Skeleton.PairJointsWellFormed | notebook_pose_rareness.py:28-30 | for consistent tables: one pair per used joint, each naming its joint and its parent, no child repeated, a joint that is its own parent gives a self pair |
| Skeleton.PairJointsIs | notebook_pose_rareness.py:28-30 | with a duplicate-free full table, the pair list is the unique list whose pairs point at each used joint and its parent |
| Skeleton.UsedNamesKnown | notebook_pose_rareness.py:12-21 | every used joint name occurs in the full table, so no lookup raises `ValueError` |
| Skeleton.UsedNamesDistinct | notebook_pose_rareness.py:18-21 | the used joint names are distinct |
| Skeleton.TreeInRange | notebook_pose_rareness.py:18-26 | the parent list has one entry per used joint, each a valid position in the used list |
| Skeleton.SkeletonTablesConsistent | notebook_pose_rareness.py:12-26 | the fixed tables satisfy the conditions of `PairJointsWellFormed` |
| Skeleton.AllNamesDistinct | notebook_pose_rareness.py:12-16 | the 28 names of the full table are pairwise distinct |
| Skeleton.PairsInRange | notebook_pose_rareness.py:12-30 | the literal pair list has 17 pairs, every index is below 28, and pair 14 is (4, 4) |
| Skeleton.PairsNameTheirJoints | notebook_pose_rareness.py:12-30 | pair k of the literal pair list indexes used joint k and its parent in the full table |
| Skeleton.SkeletonTable | notebook_pose_rareness.py:12-30 | evaluating the module-level comprehensions raises nothing and yields exactly the literal pair list |
| Skeleton.SkeletonShape | notebook_pose_rareness.py:18-30 | 17 pairs, no two with the same child, and pair 14 (pelvis) is its own parent |
| Bones.BoneVectors | notebook_pose_rareness.py:139 | a pose decomposes exactly when it has both joints of every pair; vector k is parent minus child of pair k |
| Bones.BonesIgnoreTranslation | notebook_pose_rareness.py:139 | moving a whole pose leaves its bone vectors and its failures unchanged |
| Bones.BonesOfCoveringPose | notebook_pose_rareness.py:139 | a pose with every indexed joint decomposes into one vector per pair |
| Bones.SelfPairBoneIsZero | notebook_pose_rareness.py:139 | a pair that is its own parent gives the zero vector, whatever the pose |
| Bones.SkeletonBones | notebook_pose_rareness.py:23-30 | a pose with all 28 joints decomposes into 17 vectors, and bone 14 is the zero vector |
| Bones.DecomposeCorpus | notebook_pose_rareness.py:137-140 | the corpus loop fails exactly when some pose lacks a joint; otherwise one bone list per pose, in order, each that pose's bone vectors |
| Fitting.FitPrefix | notebook_pose_rareness.py:123-132 | after attempting n bones there are at most n entries |
| Fitting.FitPrefixSorted | notebook_pose_rareness.py:126-129 | every entry holds an attempted bone and that bone's own fitted model; stored bones strictly increase |
| Fitting.FitPrefixComplete | notebook_pose_rareness.py:126-131 | a bone appears in the result exactly when its fit succeeds; a failure does not stop later bones |
| Fitting.FitPrefixFull | notebook_pose_rareness.py:126-131 | the result has one entry per bone exactly when no fit failed |
| Fitting.FitPrefixAtLeast | notebook_pose_rareness.py:126-131 | when the first m bones fit, at least m entries are returned |
| Fitting.FitPrefixNoneFit | notebook_pose_rareness.py:126-131 | when every fit raises, the result is empty |
| Fitting.FitPositionIsOwnBone | notebook_pose_rareness.py:126-131 | the entry at position i belongs to bone i or a later one, and to bone i exactly when bones 0..i all fitted |
| Fitting.FitPerBone | notebook_pose_rareness.py:123-132 | the loop's result is `FitPrefix`: at most one entry per bone, sorted by bone, each with that bone's own model |
| Scoring.SumAllSkippedIsZero | notebook_pose_rareness.py:48-54 | a pose whose scored bones are all skipped, or an empty model list, scores 0 |
| Scoring.SumBounds | notebook_pose_rareness.py:48-55 | with non-negative densities the sum is non-negative and at least every unskipped bone's density |
| Scoring.SumIgnoresStoredIndex | notebook_pose_rareness.py:49-54 | the sum depends on the models by position only, never on their stored bone indices |
| Scoring.DenseModelsScoreOwnBones | notebook_pose_rareness.py:49-54 | when entry i holds bone i throughout, the positional sum equals the sum by stored bone index |
| Scoring.FailedFirstFitShiftsModel | notebook_pose_rareness.py:126-157 | when the fit of bone 0 fails and that of bone 1 succeeds, the loop returns only bone 1's entry, and the positional sum applies bone 1's model to bone 0 where the sum by stored index applies it to bone 1 |
| Scoring.PositionalScoreMisattributes | notebook_pose_rareness.py:152-157 | a concrete instance of that shift (bone 1's model at position 0, one density function) where the positional sum is 10 and the sum by stored bone index is 15 |
| Scoring.CalcRarenesses | notebook_pose_rareness.py:45-56 | fails exactly when some pose has fewer bones than there are models; otherwise one score per pose, in order, each the sum of its unskipped densities from 0 |
| Scoring.ProductRarenesses | notebook_pose_rareness.py:178-188 | fails exactly when some pose has fewer bones than there are models; otherwise one score per pose, each the product of its unskipped densities times the start value |
| Scoring.ProductFromZeroIsZero | notebook_pose_rareness.py:180-186 | started at 0, the product scorer returns 0 for every pose |
| Scoring.ProductFromZeroLosesDensity | notebook_pose_rareness.py:180-186 | a bone of density 0.5 scores 0 from start 0 and 0.5 from start 1 |
| Scoring.ProductFromOneZeroIff | notebook_pose_rareness.py:180-186 | started at 1, the product is 0 exactly when some unskipped bone has density 0 |
| Scoring.ProductFromOnePositive | notebook_pose_rareness.py:180-186 | started at 1, positive densities give a positive product |
| Rareness.ZipResults | notebook_pose_rareness.py:160 | one row per pair of corpus row and score, up to the shorter list; each keeps the row's joints and second field |
| Rareness.CalcRareness | notebook_pose_rareness.py:135-166 | fails exactly when the corpus is empty or some row lacks a skeleton joint; otherwise one result per row, in order, keeping joints and second field, scored by the sum over the fitted models |
| Rareness.CalcRarenessWithModel | notebook_pose_rareness.py:169-196 | fails exactly when some row lacks a skeleton joint, or the corpus is non-empty and there are more models than bones; otherwise one result per row scored by the product; from the source's start 0 every score is 0 |
| Rareness.FullFitScoresOwnBones | notebook_pose_rareness.py:141-157 | when every bone fits, the fitted list has 17 entries and each row's sum equals the sum by stored bone index |
| Rareness.NoFitScoresZero | notebook_pose_rareness.py:141-158 | when the fit of every bone raises, the model list is empty and every row's sum score is 0 |
| Rareness.FullRowsDecompose | notebook_pose_rareness.py:137-140 | a corpus whose rows carry all 28 joints decomposes into 17 bones per row, with bone 14 always skipped |

## Left out

- `asSpherical`, `fb8_mle` and `hp_fits`: floating-point trigonometry and a numeric maximum-likelihood fit; the whole per-bone fit is the parameter `fit`, which returns `None` where it raises.
- `FB8Distribution.pdf` and `spherical_coordinates_to_nu`: library numerics, modelled as the parameters `pdf` and `nu`.
- `hp_plot_fb8`, `make_title` and the plotting, saving and random subsample in `hp_fits`: not modelled step by step, but they can raise inside the fit loop's `try` (the subsample of 10,000 poses raises `ValueError` for a smaller corpus; saving raises when the figure directory is missing), and that drops the bone. The parameter `fit` covers this by returning `None`; when every fit fails the model list is empty and every sum score is 0 (`Fitting.FitPrefixNoneFit`, `Rareness.NoFitScoresZero`).
- Writing the pickle files, the timestamps in their names, the `toy` flag that chooses those names, and the progress messages: file I/O, the clock and console output.
- Floating-point arithmetic: coordinates, densities and scores are `real`, so rounding and NaN are not modelled.
- Numpy array shapes: the corpus is a sequence of records and each pose a sequence of vectors; an empty corpus is taken to keep its row shape, which the `with_model` path needs to return an empty list.
- The kind of exception (`IndexError`, `ValueError`) is not kept: every uncaught failure is `None`.
- Rareness.CalcRarenessWithModel: takes the accumulator's start value as a parameter; the source always starts at 0.

## Findings

| source | as written | input that shows it | evidently intended | confidence | as-written member | corrected member |
|---|---|---|---|---|---|---|
| notebook_pose_rareness.py:180-186 | the product accumulator starts at `rareness = 0`, so every `rareness *= p` keeps it 0 and every pose scores 0 | any pose with one unskipped bone of density 0.5 and one model: the score is 0 | start the product at 1, so the score is the product of the unskipped densities (0.5 here) and is 0 only when some density is 0 | high, not executed | Scoring.ProductFromZeroIsZero | Scoring.ProductFromOneZeroIff |
