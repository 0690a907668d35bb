# Verified models of seven core algorithms

This project models the parts of the repository that hold real algorithms or state machines, and
proves what they promise. Every member carries its contract; `dafny verify dfyconfig.toml` checks
all of it.

**Statistics** (`src/ztare/experiment_stats.py`). Ordinary least squares by in-place Gauss-Jordan
elimination on `[XtX | I]`, over exact reals: whatever rows are swapped, a run that does not raise
returns a true inverse; beta is the unique least-squares minimiser; leverages are a projection
diagonal; and the closed form `e / (1 - h)` is the error of every actual refit without that row.
Tie-averaged ranks, Spearman's rho and the Benjamini-Hochberg step-up are modelled as loops over
arrays and tied to order-free counts.

**Mirror puzzle** (`environment_files/ar25/0c556536/ar25.py`). The depth-capped breadth-first search
paints exactly the cells within 1 to 13 permitted reflections, in closed form for two lines at a gap.
In the unbounded plane the reflections close within 13 steps exactly when the permitted axes of each
direction coincide. On the grid, for at most two lines in each direction and distinct ones across the
grid, the cap cuts nothing off the pieces of a kind exactly when it can be split between the two
directions so that first line, gap and grid size satisfy a plain inequality in each.
The maps built from the search agree on pieces without pixels below -1, and a class with the
original's fields refines a step function with undo, step budget and cached layers, about which
run-long properties are proved.

**Paint ring** (`environment_files/cd82/fb555c5d/cd82.py`). Stamps on a 10 by 10 canvas, their
algebra (who wins, what is dead, what commutes, also as seen by a win test that ignores both
diagonals), and the animation machine: every animation takes 14 ticks and paints once, so any play
is a sequence of stamps, and it ends solved exactly at the first of them after which the canvas
matches. Position and colour after any play, and the stamps, can be read off the actions alone.

**Canonical graph** (`claude_arcagireview/probes/canonical_graph_prototype.py`). The explicit-stack
flood fill that locates the controllable object, and the split of observed transitions into
deterministic, nondeterministic and frontier pairs.

**Import closure** (`deploy/vps_run.py`). The recursive post-order walk over a possibly cyclic
import graph.

**Bundle promotion** (`projects/eu_union_stability/promote_hypothesis.py`). Snapshot-then-switch on
files refines a plain map of bundles with a cursor; the Jaccard distance is a metric.

**Freeze manifest** (`benchmarks/constraint_memory/run_benchmark.py`). The fail-closed promotion
decision, whose count and set checks together force a bijection between rows and source specimens.

Floats are modelled as `real`, JSON values and files as maps, exceptions as `Result` or `Option`
values. Code that works in place is a method on arrays or on a class with the original's fields,
proved against a function of the old state; the properties are lemmas about that function.

## Where the code does something other than it says

- "singular design matrix (collinear channels)" is raised by a tolerance, not by collinearity. Collinear
  channels always raise (`Regression.DependentDesignRaises`). For any number of channels the elimination
  runs through without a swap exactly when every column keeps a squared distance of at least the
  tolerance from the span of the earlier ones, and the first closer column raises exactly when no later
  column can replace it (`Collinearity`). Whatever is swapped, the fit raises exactly when some stage finds
  every column left, less its oblique projection on the columns used, too nearly orthogonal to the
  column of that stage (`Pivoting.RaisesIff`). `SingleChannel.IndependentDesignThatRaises` is an independent
  design that raises, `Collinearity.SwapCanRescue` a close one that does not.
- "singular design matrix in LOO fold" is right exactly when some leverage is one or all of them clear
  the tolerance (`Regression.FoldVerdictRightIff`); `SingleChannel.FullRankFoldsRejected` is a fit that is
  rejected although every fold has full rank.
- The import closure is announced as dependency-first. That holds exactly when no listed file is on an
  import cycle (`ImportClosure.FirstIffAcyclic`, with `ImportCycleOutOfOrder` as an example); on a cycle
  the walk still terminates and lists each file once.
- For a negative alpha, which the code accepts, the step-up still rejects by rank. The usual test
  `p <= alpha R / n` then no longer describes what it rejects (`StepUp.ValueTestIffAlphaNonNegative`).
  Lowering can take a rejection back only for a negative alpha and a negative entry: a rejection survives
  every lowering exactly when its own entry is at most alpha (`RejectionFinalIff`), all of them do exactly
  when alpha is not negative (`LoweringSafeIff`, with a pair of inputs for each other alpha in
  `LoweringUnrejects`), and entries that are p-values at all, none below zero, are not rejected in the
  first place (`NonNegativeNeverRejected`).
- Two distinct parallel axes make the reflections endless, and the depth cap can then cut off grid cells
  (`MirrorReach.CapCutsCell`). For at most two lines in each direction, distinct ones across the grid,
  `MirrorCap.NoPieceCutIff` says exactly when it cuts none.
- Undo finds an axis by its tag, so with two axes of one tag, or an axis without one, some arrangement
  cannot be restored (`MirrorGame.RestoreExactIff`); a single undo is exact under the condition of
  `MirrorUndo.UndoExactIff`, and `UndoFailsInPlay` is a play in which it is not.
- The owner map and the merged map can disagree at a covered cell unless the last covering piece of some
  group shows a pixel of at least 0 there (`MirrorMaps.MapsAgreeIff`, `DarkPixelIsOwned`).
- A counted transition with a negative action lands in none of the three lists of the graph
  (`CanonicalGraph.RowPredicted`, `NegativeActionLost`).
- A promotion with a root that has no thesis keeps the old thesis of the active bundle, so the bundle is
  then not what the root held (`Promotion.SwitchKeepsIff`, `ThesislessRootIsMixed`).
- The manifest function lets a review row that names no raw review pass the check for one: the absent
  path is the working directory, which exists (`FreezeManifest.RawReviewIff`, `AbsentRawReviewIsPromoted`).
  An absent prompt path raises instead. The rows of a real run are not affected: every row without an error
  that `run_ordinary_review_one` returns (`run_benchmark.py:1008-1009`) carries the path of a raw review it
  has written.

## Model

| member | source | states |
|---|---|---|
| `GaussJordan.Invert` | src/ztare/experiment_stats.py:329-353 | The in-place elimination returns exactly what the stage function `Inverse` gives, and None exactly when the original raises |
| `GaussJordan.RunStage` | src/ztare/experiment_stats.py:334-352 | One pass of the outer loop: pivot choice with optional swap, division and clearing; reports a missing pivot exactly when no row below qualifies |
| `GaussJordan.BringPivot` | src/ztare/experiment_stats.py:335-344 | Swaps only when the diagonal entry is below the tolerance, with the first row below it that exceeds the tolerance |
| `GaussJordan.ClearColumn` | src/ztare/experiment_stats.py:347-352 | Every other row, and only those, loses its multiple of the pivot row, from column i on |
| `GaussJordan.DivideProgress` | src/ztare/experiment_stats.py:345-346 | Dividing from column i on keeps the elimination invariant and makes the pivot 1: the skipped columns were already zero |
| `GaussJordan.ClearProgress` | src/ztare/experiment_stats.py:347-352 | Clearing turns column i into a unit column and keeps "left block = right block times XtX" |
| `GaussJordan.StageProgress` | src/ztare/experiment_stats.py:334-352 | One whole stage advances the invariant by one column, whichever row was swapped in |
| `GaussJordan.ReduceProgress` | src/ztare/experiment_stats.py:334-352 | The invariant holds after all stages, so the left block ends as the identity |
| `GaussJordan.InverseIsLeftInverse` | src/ztare/experiment_stats.py:329-353 | For any square matrix: if no stage fails, the right block times the matrix is the identity |
| `GaussJordan.InverseInverts` | src/ztare/experiment_stats.py:329-353 | For the symmetric XtX the result is a symmetric two-sided inverse |
| `Collinearity.PivotIsDistance` | src/ztare/experiment_stats.py:334-336 | The pivot of a column reached without a swap is its squared distance from the span of the earlier columns |
| `Collinearity.InPlaceIffKeepsDistance` | src/ztare/experiment_stats.py:335-344 | A column is its own pivot if and only if that distance is at least the tolerance |
| `Collinearity.NoPivotIffNoRescue` | src/ztare/experiment_stats.py:338-344 | At a closer column no row qualifies if and only if every later column, less its projection on the earlier ones, is orthogonal to it within the tolerance |
| `Collinearity.ApartIffNeverSwaps` | src/ztare/experiment_stats.py:334-352 | For any number of channels: the elimination runs through without a swap if and only if every column keeps that distance; such a design never raises |
| `Collinearity.RaisesAtIff` | src/ztare/experiment_stats.py:334-344 | Without a swap before it, column k raises if and only if it is the first close column and no later one can replace it |
| `Collinearity.RaisesIffClose` | src/ztare/experiment_stats.py:334-344 | Unless a swap is on offer at the first close column, the fit raises if and only if some column is close |
| `Pivoting.RowIsOblique` | src/ztare/experiment_stats.py:334-352 | After any stages, a row not yet used holds its column less the combination of the used columns that makes it orthogonal to the first i, and in column i its product with that column |
| `Pivoting.ObliqueUnique` | src/ztare/experiment_stats.py:345-352 | There is only one such combination: row operations lose nothing |
| `Pivoting.PivotIsFirstUsable` | src/ztare/experiment_stats.py:335-344 | The pivot is the first column left whose product is large enough: at least the tolerance for the column itself, above it for a later one |
| `Pivoting.StageReached` | src/ztare/experiment_stats.py:334-352 | One stage, with or without a swap, keeps all that and moves the chosen column to the used ones |
| `Pivoting.RaisesIff` | src/ztare/experiment_stats.py:334-344 | For every design: the fit raises if and only if, the first usable column being taken at each stage, some stage finds none |
| `Collinearity.SwapCanRescue` | src/ztare/experiment_stats.py:337-342 | A concrete design with a close column that does not raise, because the next column is swapped in |
| `LeastSquares.GramAction` | src/ztare/experiment_stats.py:327 | XtX v is X transposed applied to X v |
| `LeastSquares.Pythagoras` | src/ztare/experiment_stats.py:327-355 | The error of any coefficients is the fitted error plus the squared distance between the two fits |
| `LeastSquares.Descent` | src/ztare/experiment_stats.py:327-355 | Off the normal equations some other coefficients have a smaller error |
| `LeastSquares.MinimisesIffNormal` | src/ztare/experiment_stats.py:327-354 | Coefficients minimise the squared error if and only if they solve the normal equations |
| `LeastSquares.UniqueMinimiser` | src/ztare/experiment_stats.py:354 | With independent columns the least-squares coefficients are unique |
| `LeastSquares.CoefficientsNormal` | src/ztare/experiment_stats.py:353-354 | The computed beta solves the normal equations |
| `LeastSquares.InvertibleIsIndependent` | src/ztare/experiment_stats.py:353 | An inverse of XtX exists only for independent columns |
| `LeastSquares.HatColumn` | src/ztare/experiment_stats.py:356-359 | Column i of the hat matrix has entry i and squared length both equal to the leverage (idempotence) |
| `LeastSquares.LeverageBounds` | src/ztare/experiment_stats.py:356-359 | Every leverage lies between 0 and 1 |
| `LeastSquares.LeverageTotal` | src/ztare/experiment_stats.py:356-359 | The leverages sum to the number of coefficients |
| `LeastSquares.LeverageGap` | src/ztare/experiment_stats.py:388 | One minus the leverage is at most the squared distance of the unit vector of the row from any fit |
| `LeastSquares.ShiftedFit` | src/ztare/experiment_stats.py:387-393 | Moving beta by s times the inverse applied to row i solves the normal equations of the other rows |
| `LeastSquares.DeletionKeepsRank` | src/ztare/experiment_stats.py:388-389 | Dropping a row keeps the design full rank if and only if its leverage is below 1 |
| `LeastSquares.DeletedNormal` | src/ztare/experiment_stats.py:387-393 | The closed-form coefficients solve the normal equations without row i and leave e/(1-h) there |
| `LeastSquares.DeletedResidual` | src/ztare/experiment_stats.py:387-393 | PRESS: any least-squares fit of the other n-1 rows misses the deleted response by exactly e/(1-h) |
| `Regression.OlsFit` | src/ztare/experiment_stats.py:314-360 | Error cases exactly; otherwise the unique minimiser, fitted values that are beta[0] plus the channels weighted by the rest of beta, leverages in [0,1] summing to k+1, and the PRESS identity at every row |
| `Regression.PressHolds` | src/ztare/experiment_stats.py:387-393 | For every row: rank survives deletion iff h<1, and then a fit exists and each fit misses by e/(1-h) |
| `Regression.HatHolds` | src/ztare/experiment_stats.py:356-359 | The leverages the fit returns are a projection diagonal: each in [0,1], total k+1 |
| `Regression.FitWithFits` | src/ztare/experiment_stats.py:353-360 | Whenever the elimination succeeds the returned fit has every promised property |
| `Regression.FitBeatsMean` | src/ztare/experiment_stats.py:377-384 | A least-squares fit with intercept has an error of at most the variation around the mean |
| `Regression.DependentDesignRaises` | src/ztare/experiment_stats.py:343-344 | Truly collinear channels always raise |
| `Regression.PressExceedsError` | src/ztare/experiment_stats.py:390-394 | The sum of squared leave-one-out errors is at least the squared error of the fit |
| `Regression.VariationSplits` | src/ztare/experiment_stats.py:377-384 | With an intercept the variation of the response is the squared error plus the variation of the fitted values |
| `Regression.PressIsRefits` | src/ztare/experiment_stats.py:387-393 | The leave-one-out errors are the misses of actual refits without each row, whichever least-squares refits one takes |
| `Regression.R2Explains` | src/ztare/experiment_stats.py:383-384 | r2 times the variation of y is the variation of the fitted values |
| `Regression.AdjustedExplains` | src/ztare/experiment_stats.py:385 | (1 - r2_adj)(n - k - 1) is (1 - r2)(n - 1) |
| `Regression.LooExplains` | src/ztare/experiment_stats.py:386-394 | Refits without each row exist, and whichever one takes, 1 - r2_loo times the variation of y is the sum of their squared misses |
| `Regression.AdjustmentLowers` | src/ztare/experiment_stats.py:385 | The adjusted score never exceeds the plain one |
| `Regression.ScoreOrder` | src/ztare/experiment_stats.py:383-394 | Before rounding, 0 <= r2 <= 1, adjusted <= r2 and leave-one-out <= r2 |
| `Regression.FoldVerdictRightIff` | src/ztare/experiment_stats.py:388-389 | "singular design matrix in LOO fold" is reported exactly for singular folds if and only if some leverage is one or every leverage clears the tolerance |
| `Regression.OlsMultichannelR2` | src/ztare/experiment_stats.py:363-405 | Which of five errors is returned is decided exactly; otherwise the three scores are those of `R2Explains`, `AdjustedExplains` and `LooExplains`, in the order of `ScoreOrder` |
| `SingleChannel.SingleChannelRaises` | src/ztare/experiment_stats.py:334-344 | The case of one channel, where no swap is ever on offer: the fit raises if and only if the channel varies by less than the tolerance |
| `SingleChannel.SingleChannelCollinear` | src/ztare/experiment_stats.py:343-344 | ... but the design is collinear if and only if it does not vary at all |
| `SingleChannel.IndependentDesignThatRaises` | src/ztare/experiment_stats.py:343-344 | A concrete varying channel for which "collinear channels" is raised wrongly |
| `SingleChannel.FullRankFoldsRejected` | src/ztare/experiment_stats.py:388-389 | A concrete fit reported as having a singular fold although every fold has full rank |
| `Ordering.SortIndices` | src/ztare/experiment_stats.py:149 | The index sort: every index once, keys in order |
| `Ordering.SortIndicesStable` | src/ztare/experiment_stats.py:149 | Indices with equal keys keep their own order |
| `Ordering.CountPermuted` | src/ztare/experiment_stats.py:237 | Threshold counts are the same for any reordering of the list |
| `Ordering.SortedBlock` | src/ztare/experiment_stats.py:151-156 | In sorted order a maximal block of ties starts after exactly the smaller entries and ends at the last equal one |
| `Ordering.SortedRank` | src/ztare/experiment_stats.py:239-241 | The r-th smallest value is at most t if and only if at least r values are |
| `Ranks.AverageRanks` | src/ztare/experiment_stats.py:148-160 | The nested loops compute #less + (#equal + 1)/2 for every entry |
| `Ranks.BlockRank` | src/ztare/experiment_stats.py:152-159 | The rank written for a block of ties is #less + (#equal + 1)/2 |
| `Ranks.RankTotal` | src/ztare/experiment_stats.py:148-160 | The ranks sum to n(n+1)/2 whatever the ties |
| `Ranks.RanksOrdered` | src/ztare/experiment_stats.py:148-160 | The ranks are ordered exactly as the values |
| `Ranks.SameOrderSameRanks` | src/ztare/experiment_stats.py:148-160 | Any strictly increasing transform of a sample leaves its ranks unchanged |
| `Ranks.CorrelationBounded` | src/ztare/experiment_stats.py:167-174 | The quotient lies between -1 and 1, by Cauchy-Schwarz, and is zero when either sample is constant |
| `Ranks.CorrelationShare` | src/ztare/experiment_stats.py:167-174 | The quotient times both roots is the inner product of the deviations, also where a root is zero |
| `Ranks.SpearmanRho` | src/ztare/experiment_stats.py:163-174 | None exactly on short or unequal samples; otherwise the bounded rho with rho dx dy equal to the inner product of the rank deviations, dx and dy being the roots of their variations |
| `Ranks.RhoIsOneIff` | src/ztare/experiment_stats.py:163-174 | rho is 1 if and only if both samples vary and are ordered alike |
| `Ranks.RhoIsMinusOneIff` | src/ztare/experiment_stats.py:163-174 | rho is -1 if and only if both samples vary and are ordered oppositely |
| `LinearAlgebra.CauchySchwarz` | src/ztare/experiment_stats.py:169-174 | The squared inner product is at most the product of the squared lengths |
| `StepUp.LastUnderCritical` | src/ztare/experiment_stats.py:238-241 | The scan finds one less than R, the largest r with at least r p-values at most alpha r/n |
| `StepUp.RejectionsStepUp` | src/ztare/experiment_stats.py:238-241 | R is the largest r such that p n <= alpha r for at least r of the p-values, in plain arithmetic |
| `StepUp.LoneRejection` | src/ztare/experiment_stats.py:238-245 | If just one p-value is at most alpha, it is rejected if and only if p n <= alpha |
| `StepUp.QValueShare` | src/ztare/experiment_stats.py:246-250 | The q-value times the rank is the smaller of p n and the rank |
| `StepUp.BhFdr` | src/ztare/experiment_stats.py:231-251 | Entries in input order; rejected for the first R ranks in p-value order, R being the largest r with at least r entries p n <= alpha r; critical value times n is alpha times the rank, and the q-value is that of `QValueShare`; for alpha >= 0 ties share a verdict |
| `StepUp.RankVersusValue` | src/ztare/experiment_stats.py:239-245 | For alpha >= 0 the ranks up to R are exactly the p-values at most alpha R/n |
| `StepUp.OrderIndependent` | src/ztare/experiment_stats.py:231-251 | R and the verdict on a p-value are the same for any order of the input |
| `StepUp.NeverUnrejects` | src/ztare/experiment_stats.py:231-251 | Raising alpha never takes a rejection back, and lowering p-values does not either unless the new alpha and some entry are negative; the number of rejections never falls |
| `StepUp.NonNegativeNeverRejected` | src/ztare/experiment_stats.py:238-241 | With a negative alpha a list without negative entries has no rejections |
| `StepUp.RejectionFinalIff` | src/ztare/experiment_stats.py:231-251 | Whatever alpha: a rejection survives every lowering of entries if and only if its own entry is at most alpha |
| `StepUp.LoweringUnrejects` | src/ztare/experiment_stats.py:239-245 | For each negative alpha a concrete pair of inputs: lowering one entry takes the rejection of another back |
| `StepUp.LoweringSafeIff` | src/ztare/experiment_stats.py:231-251 | Lowering entries never takes a rejection back, whatever they are, if and only if alpha >= 0 |
| `StepUp.ValueTestIffAlphaNonNegative` | src/ztare/experiment_stats.py:239-245 | The value test describes the selection on every input if and only if alpha >= 0 |
| `Mirrors.ReflectionMirrors` | environment_files/ar25/0c556536/ar25.py:1580-1587 | Reflection is an involution, fixes exactly the line of the axis, and puts the image as far beyond it as the cell is before it |
| `Mirrors.BallInClosed` | environment_files/ar25/0c556536/ar25.py:1574-1599 | No number of reflections leaves a set closed under the permitted axes |
| `Mirrors.ThreeCollapse` | environment_files/ar25/0c556536/ar25.py:1579-1592 | With one line per direction any three reflections equal one of them |
| `Mirrors.ThirdStepAddsNothing` | environment_files/ar25/0c556536/ar25.py:1574-1599 | With one line per direction the orbit is complete after two reflections |
| `Mirrors.BallIsOrbit` | environment_files/ar25/0c556536/ar25.py:1561-1577 | ... so the depth cap never cuts there: every depth from 2 on gives the same cells |
| `Mirrors.ShearNeverCloses` | environment_files/ar25/0c556536/ar25.py:1579-1586 | Two distinct parallel axes translate, so no finite nonempty set of cells is closed under them |
| `Mirrors.ReflectionsCloseIff` | environment_files/ar25/0c556536/ar25.py:1561-1577 | In the unbounded plane the reflections close within 13 steps if and only if nothing is in the grid or the permitted axes of each direction coincide |
| `MirrorSearch.CollectSeeds` | environment_files/ar25/0c556536/ar25.py:1562-1573 | The visited set and the queue start with exactly the opaque in-grid pixels |
| `MirrorSearch.Visit` | environment_files/ar25/0c556536/ar25.py:1579-1599 | One axis for one popped cell keeps the queue in depth order and paints only blank grid cells |
| `MirrorSearch.Expand` | environment_files/ar25/0c556536/ar25.py:1574-1599 | One pass of the search loop keeps the frontier invariant; items beyond depth 12 are dropped unexpanded |
| `MirrorSearch.FrontCovers` | environment_files/ar25/0c556536/ar25.py:1574-1577 | When the front of the queue has depth d, everything within d reflections has been visited |
| `MirrorSearch.Spread` | environment_files/ar25/0c556536/ar25.py:1558-1599 | A blank cell is painted if and only if it is no seed and 1 to 13 permitted reflections, possibly through cells off the grid, lead to it |
| `MirrorKinds.UprightImagePainted` | environment_files/ar25/0c556536/ar25.py:1580-1592 | The image of an opaque pixel in an upright axis is reached, unless the piece is restricted to level axes or covers it |
| `MirrorKinds.LevelImagePainted` | environment_files/ar25/0c556536/ar25.py:1584-1592 | The same for an axis that is level and not upright, unless the piece is restricted to upright ones |
| `MirrorKinds.RestrictionsKept` | environment_files/ar25/0c556536/ar25.py:1588-1592 | A reflection of a piece restricted to upright axes lies in the row of an opaque pixel, of one restricted to level axes in its column |
| `MirrorKinds.NothingReflected` | environment_files/ar25/0c556536/ar25.py:1588-1592 | With both restrictions, or without tags on the axes, nothing is reflected |
| `MirrorReach.WithinIff` | environment_files/ar25/0c556536/ar25.py:1574-1599 | For any axes, n reflections reach a cell if and only if its two coordinates take n in all, each a shift by twice a difference of sums of lines or a turn about one |
| `MirrorReach.PaintedIff` | environment_files/ar25/0c556536/ar25.py:1597-1599 | A blank grid cell is painted if and only if it is no seed and 13 reflections suffice in that sense |
| `MirrorReach.TwoLinesIff` | environment_files/ar25/0c556536/ar25.py:1579-1596 | With two lines at a gap, n reflections lead from x to x + 2 k gap with 2k between -n and n and to 2 first + 2 k gap - x with 2k - 1 between -n and n, and nowhere else |
| `MirrorReach.PaintedByTwoLines` | environment_files/ar25/0c556536/ar25.py:1561-1599 | The exact painted cells for two upright lines: of some seed in the row, the shifts with k from -6 to 6 and the turns with 2k - 1 from -13 to 13 |
| `MirrorReach.CapCutsCell` | environment_files/ar25/0c556536/ar25.py:1561-1577 | A concrete piece and two axes with a grid cell that 14 reflections reach and the search leaves blank |
| `MirrorCap.SufficesIff` | environment_files/ar25/0c556536/ar25.py:1574-1586 | In one direction, distinct lines across the grid, for any cap: it leads wherever any number of reflections do if and only if neither border lies beyond the first line image out of reach and the grid is shorter than the first shift out of reach, or ends at a line on both sides |
| `MirrorCap.NoPieceCutIff` | environment_files/ar25/0c556536/ar25.py:1561-1599 | With at most two lines in each direction, distinct ones across the grid: the cap of 13 cuts no grid cell off any piece of a kind if and only if it splits into two shares of which each suffices for its direction |
| `MirrorMaps.Stamp` | environment_files/ar25/0c556536/ar25.py:1600-1609 | A piece overwrites exactly the grid cells its opaque pixels cover |
| `MirrorMaps.GroupMap` | environment_files/ar25/0c556536/ar25.py:1556-1610 | Each cell holds the entry of the last piece with an entry other than -1 there, else 4 if some piece is reflected to it, else -1 |
| `MirrorMaps.Overlay` | environment_files/ar25/0c556536/ar25.py:1623-1625 | A layer replaces exactly the cells where it is above -1 |
| `MirrorMaps.MergedMap` | environment_files/ar25/0c556536/ar25.py:1620-1626 | Every cell of the map is that of `MergedCellMerges`: the unrestricted group over the vertical-only one over the horizontal-only one |
| `MirrorMaps.SelectKeepsOrder` | environment_files/ar25/0c556536/ar25.py:1612-1616 | A group is the pieces of its kind, each once and in their order |
| `MirrorMaps.GroupCellPaints` | environment_files/ar25/0c556536/ar25.py:1556-1610 | What a group shows at a cell, by positions in the pixel rows alone |
| `MirrorMaps.MergedCellMerges` | environment_files/ar25/0c556536/ar25.py:1620-1626 | Where groups overlap, the value above -1 of the unrestricted group is shown, else that of the upright-only one, else that of the level-only one, else -1 |
| `MirrorMaps.OwnerMap` | environment_files/ar25/0c556536/ar25.py:1628-1680 | The owner is the last piece with an entry other than -1 there, else the last piece reflected to it, else none |
| `MirrorMaps.MapsAgree` | environment_files/ar25/0c556536/ar25.py:1612-1680 | Without pixels below -1, a cell is lit in the merged map if and only if it has an owner |
| `MirrorMaps.MapsAgreeIff` | environment_files/ar25/0c556536/ar25.py:1612-1680 | The two maps agree at a cell whatever the axes if and only if no piece covers it or the last covering piece of some group shows a pixel of at least 0 |
| `MirrorMaps.DarkPixelIsOwned` | environment_files/ar25/0c556536/ar25.py:1612-1680 | A concrete piece with a pixel -2: its cell has an owner and is dark in the merged map |
| `MirrorMaps.LitIffShown` | environment_files/ar25/0c556536/ar25.py:1620-1626 | The merged map lights a cell if and only if one of the three groups owns it and shows no pixel below -1 there |
| `MirrorMaps.OwnedIffGroupOwns` | environment_files/ar25/0c556536/ar25.py:1612-1680 | A cell has an owner if and only if it has one in one of the three groups |
| `MirrorMaps.Wins` | environment_files/ar25/0c556536/ar25.py:1688-1696 | Fails exactly on a target that cannot be indexed; else holds if and only if every target, negative indices counted from the far end, is lit in the merged map |
| `MirrorMaps.IndexedIsRemainder` | environment_files/ar25/0c556536/ar25.py:1688-1696 | The cell looked up for a target is its position modulo the size of the grid |
| `MirrorMaps.WonIffOwned` | environment_files/ar25/0c556536/ar25.py:1688-1696 | With visible pixels only, winning means that every target has an owner |
| `MirrorGame.RestorePrefix` | environment_files/ar25/0c556536/ar25.py:1323-1328 | After k records the first k axes are back in place and the others untouched, if each axis is found by its own tag |
| `MirrorGame.MissedAxis` | environment_files/ar25/0c556536/ar25.py:1323-1328 | An axis that its own record misses keeps its place or takes that of another record |
| `MirrorGame.RestoreExactIff` | environment_files/ar25/0c556536/ar25.py:1309-1329 | Every arrangement of the axes is restored exactly if and only if each axis has a tag and is the first to carry it |
| `MirrorRuns.RestoreTaken` | environment_files/ar25/0c556536/ar25.py:1318-1329 | Restoring a snapshot reproduces exactly the arrangement it was taken from |
| `MirrorRuns.MoveSaves` | environment_files/ar25/0c556536/ar25.py:1722-1778 | A move saves the old arrangement if and only if it changes it; blocked, fixed and zero moves push nothing and move nothing |
| `MirrorRuns.UndoHistory` | environment_files/ar25/0c556536/ar25.py:1716-1721 | Undo makes the newest saved arrangement the current one and charges nothing |
| `MirrorRuns.SelectionHistory` | environment_files/ar25/0c556536/ar25.py:1779-1846 | Cycling and clicking change no position and no saved arrangement |
| `MirrorRuns.StepAdvances` | environment_files/ar25/0c556536/ar25.py:1698-1847 | Every step appends to the history of arrangements, drops its newest, or keeps it |
| `MirrorRuns.FloorKept` | environment_files/ar25/0c556536/ar25.py:1698-1847 | Over any run that never undoes below a level, the arrangements up to that level are untouched |
| `MirrorRuns.UndosPeel` | environment_files/ar25/0c556536/ar25.py:1716-1721 | k undos take off exactly the k newest arrangements |
| `MirrorRuns.UndoRestores` | environment_files/ar25/0c556536/ar25.py:1698-1777 | After any actions, as many undos as there are moves left on the stack bring back every piece, every axis and the stack |
| `MirrorUndo.RestoredAxis` | environment_files/ar25/0c556536/ar25.py:1323-1328 | Each axis ends at the spot of the last record that finds it, and else stays |
| `MirrorUndo.UndoExactIff` | environment_files/ar25/0c556536/ar25.py:1309-1329 | For any axes, undoing a move restores the board if and only if for every axis the last record finding it holds its own spot, or none finds it and it did not move |
| `MirrorUndo.UndoFailsInPlay` | environment_files/ar25/0c556536/ar25.py:1716-1777 | Two upright axes at 0 and 4: one move right of the second and one undo lose the board |
| `MirrorRuns.MoveInside` | environment_files/ar25/0c556536/ar25.py:1744-1758 | A move that is not blocked leaves every piece inside the grid |
| `MirrorRuns.StepContained` | environment_files/ar25/0c556536/ar25.py:1698-1847 | One step keeps all pieces, current and saved, inside the grid |
| `MirrorRuns.RunContained` | environment_files/ar25/0c556536/ar25.py:1698-1847 | Over every run pieces that start inside the grid stay inside it, whatever tags the axes carry |
| `MirrorRuns.RunBudget` | environment_files/ar25/0c556536/ar25.py:1759-1791 | Over every run the budget falls by exactly the charged steps (cycling, and effective moves that do not win), and the level is lost if and only if it was or they used the budget up |
| `MirrorPlay.MoveShiftsOneSprite` | environment_files/ar25/0c556536/ar25.py:1731-1758 | An effective move takes the selected sprite one cell in the pressed direction and no other anywhere; an axis moves only across its own line |
| `MirrorPlay.OppositeMoveReturns` | environment_files/ar25/0c556536/ar25.py:1722-1778 | The opposite button takes an effective move back if and only if the sprite was within bounds before |
| `MirrorPlay.RunWonIsSolved` | environment_files/ar25/0c556536/ar25.py:1698-1847 | Over every run a level that counts as won has every target lit |
| `MirrorPlay.CycleWalks` | environment_files/ar25/0c556536/ar25.py:1779-1791 | k presses of the cycle button move the selection k places round the movable sprites, cost k steps and move nothing |
| `MirrorPlay.HintPlays` | environment_files/ar25/0c556536/ar25.py:1702-1711 | Once begun the hint plays to its end whatever is pressed, and changes nothing else |
| `MirrorLaws.PieceMovesIff` | environment_files/ar25/0c556536/ar25.py:1731-1758 | A free piece moves one cell in the pressed direction if and only if all of it then lies on the grid; otherwise nothing changes |
| `MirrorLaws.AxisMovesIff` | environment_files/ar25/0c556536/ar25.py:1739-1758 | A free axis moves across its own line if and only if it then fits: an upright one in x only, a level one in y only, an untagged one in both; otherwise nothing changes |
| `MirrorLaws.MoveCounts` | environment_files/ar25/0c556536/ar25.py:1768-1778 | What a move does to the counters: a winning one only wins; another one that leads anywhere costs a step, loses with the last, and below 50 steps on level 1 starts the hint if nothing was reselected |
| `MirrorLaws.TakeMeans` | environment_files/ar25/0c556536/ar25.py:1309-1316 | A snapshot has the place of every piece, and of every axis under its upright tag, else its level tag, else none |
| `MirrorLaws.UndoPlacesPieces` | environment_files/ar25/0c556536/ar25.py:1318-1322 | Undo puts every piece where the last snapshot has it, drops the snapshot and changes nothing else; without one it does nothing |
| `MirrorLaws.UndoPlacesAxes` | environment_files/ar25/0c556536/ar25.py:1323-1328 | Undo puts an axis where the last record says for whose tag it is the first axis, and leaves an axis that is so for no record |
| `MirrorLaws.NextInCycleIs` | environment_files/ar25/0c556536/ar25.py:1782-1784 | Cycling goes to the sprite after the selected one, from the last to the first, and to the first when the selected one is not movable |
| `MirrorLaws.CycleSelects` | environment_files/ar25/0c556536/ar25.py:1779-1791 | Cycling selects that sprite, marks a change of selection, costs a step and loses with the last |
| `MirrorLaws.FirstMovableIs` | environment_files/ar25/0c556536/ar25.py:1841-1844 | What is selected by default: the first free axis, else the first free piece, else nothing |
| `MirrorLaws.ClickSelects` | environment_files/ar25/0c556536/ar25.py:1835-1846 | A click selects the sprite it hits and marks a change of selection; one that hits none keeps the selection or makes the default one; it is free |
| `MirrorLaws.IdleTicks` | environment_files/ar25/0c556536/ar25.py:1702-1715 | A hint runs from 1 over 7 to its end; else a won level is left; whatever is pressed |
| `MirrorMachine.Ar25.constructor` | environment_files/ar25/0c556536/ar25.py:1331-1385 | A level starts with the first movable axis, else piece, selected, no history and fresh overlay layers |
| `MirrorMachine.Ar25.Refresh` | environment_files/ar25/0c556536/ar25.py:1682-1686 | The three cached layers become those of the current pieces and axes |
| `MirrorMachine.Ar25.TakeSnapshot` | environment_files/ar25/0c556536/ar25.py:1309-1316 | Saves the place of every piece, and of every axis under its tag |
| `MirrorMachine.Ar25.RestoreSnapshot` | environment_files/ar25/0c556536/ar25.py:1318-1329 | Places pieces by position and axes by first matching tag, then refreshes the layers |
| `MirrorMachine.Ar25.MoveSelected` | environment_files/ar25/0c556536/ar25.py:1722-1778 | The move branch does what the move function says of the old state, and leaves the layers equal to a recomputation |
| `MirrorMachine.Ar25.DoStep` | environment_files/ar25/0c556536/ar25.py:1698-1847 | Each call is the step function of the old state, and the cached layers always equal a fresh recomputation |
| `PaintCanvas.LastStampWins` | environment_files/cd82/fb555c5d/cd82.py:709-738 | After any stamps a cell shows the colour of the last one that covers it |
| `PaintCanvas.UntouchedCell` | environment_files/cd82/fb555c5d/cd82.py:709-738 | A cell that no stamp covers keeps its colour |
| `PaintCanvas.DeadStamp` | environment_files/cd82/fb555c5d/cd82.py:709-738 | A stamp whose cells are all covered again later can be dropped without trace |
| `PaintCanvas.RepeatedStampIsDead` | environment_files/cd82/fb555c5d/cd82.py:709-738 | A stamp repeated later at the same place, in any colour, was in vain |
| `PaintCanvas.CommuteIff` | environment_files/cd82/fb555c5d/cd82.py:709-738 | Two stamps commute on every canvas if and only if they share a colour or no cell |
| `PaintCanvas.CommuteComparedIff` | environment_files/cd82/fb555c5d/cd82.py:740-753 | They commute as far as the win test sees if and only if they share a colour or overlap only on the diagonals |
| `PaintCanvas.OppositeStamps` | environment_files/cd82/fb555c5d/cd82.py:709-738 | Basket stamps are disjoint where compared if and only if opposite on the ring, and disjoint everywhere if and only if opposite halves |
| `PaintCanvas.StampBasket` | environment_files/cd82/fb555c5d/cd82.py:709-738 | The slice and triangle loops paint exactly the cells of the half or triangle at the ring position, on a copy |
| `PaintCanvas.StampSpout` | environment_files/cd82/fb555c5d/cd82.py:613-628 | The spout paints exactly its 3 by 4 box, on a copy |
| `PaintCanvas.CompareMasked` | environment_files/cd82/fb555c5d/cd82.py:745-752 | The masked comparison holds if and only if canvas and target agree at every cell with column other than row and other than 9 less row |
| `PaintGame.RingMoves` | environment_files/cd82/fb555c5d/cd82.py:531-549 | An arrow moves one place along the ring or not at all, the opposite arrow takes it back, and both directions are always available |
| `PaintGame.BasketFacesCanvas` | environment_files/cd82/fb555c5d/cd82.py:393-412 | One formula for all eight positions: the basket paints exactly the cells on its own side of the centre, swings towards the centre, and the spout box lies inside its half |
| `PaintGame.QuarterTurn` | environment_files/cd82/fb555c5d/cd82.py:613-628 | Two ring positions further on, the stamps are the same ones turned by a quarter |
| `PaintGame.SpoutBox` | environment_files/cd82/fb555c5d/cd82.py:619-627 | The spout paints the outer three lines of the half of the basket, four cells wide in the middle |
| `PaintGame.RestingPlaces` | environment_files/cd82/fb555c5d/cd82.py:393-412 | The screen positions of the eight basket homes and the four spout homes |
| `PaintGame.RestsAtSeat` | environment_files/cd82/fb555c5d/cd82.py:393-412 | The basket rests above, beside or below the canvas as its seat in the 3 by 3 square says |
| `PaintGame.OutwardIsOffset` | environment_files/cd82/fb555c5d/cd82.py:692-707 | The offset of a swing is its counter times its direction |
| `PaintGame.TickOnPath` | environment_files/cd82/fb555c5d/cd82.py:692-707 | One tick keeps a swing at its offset from home, painted exactly on the way back |
| `PaintGame.TickPhase` | environment_files/cd82/fb555c5d/cd82.py:692-707 | A swing paints at its seventh tick only and ends at its fourteenth only |
| `PaintGame.StepKeepsInv` | environment_files/cd82/fb555c5d/cd82.py:630-671 | Every step keeps the invariant (one animation at a time, on its path, spout slot equal to the even ring index) |
| `PaintGame.BasketAnimation` | environment_files/cd82/fb555c5d/cd82.py:673-707 | Whatever is pressed, a basket animation runs 14 ticks, stamps once at tick 7 and ends at home |
| `PaintGame.SpoutAnimation` | environment_files/cd82/fb555c5d/cd82.py:574-611 | The same for the spout, whose stamp is the slot of the even ring position |
| `PaintGame.PerformStamps` | environment_files/cd82/fb555c5d/cd82.py:630-707 | An action carried to its end paints exactly its stamp, leaves everything at rest, and solves the level if and only if it painted and the canvas then matches |
| `PaintGame.PlayPaints` | environment_files/cd82/fb555c5d/cd82.py:630-707 | Over any play the canvas is the starting canvas under the stamps made, in order |
| `PaintGame.CellAfterPlay` | environment_files/cd82/fb555c5d/cd82.py:630-738 | After any play every cell shows the last stamp over it, or its starting colour |
| `PaintHand.PerformMovesHand` | environment_files/cd82/fb555c5d/cd82.py:531-571 | An action carried to its end moves the basket one seat if that is on the ring, or sets the colour of the swatch, and does neither otherwise |
| `PaintHand.StampIsMark` | environment_files/cd82/fb555c5d/cd82.py:574-586 | Which stamp an action makes, from which seat and in which colour: the basket anywhere, the spout only where the level has one and beside the canvas |
| `PaintHand.PlayFollowsActions` | environment_files/cd82/fb555c5d/cd82.py:531-671 | After any play the basket is where the arrows carried out lead, the colour is the one they leave, and each stamp was made from the seat and in the colour of its moment |
| `PaintHand.LastSwatchWins` | environment_files/cd82/fb555c5d/cd82.py:566-571 | The colour after any actions is that of the last swatch among them |
| `PaintGame.SolvedAtFirstMatch` | environment_files/cd82/fb555c5d/cd82.py:630-753 | A play ends solved exactly at the first stamp after which the canvas matches the target off its diagonals |
| `PaintMachine.Cd82.constructor` | environment_files/cd82/fb555c5d/cd82.py:447-463 | A level starts at ring position 0 with colour 15 and everything at rest |
| `PaintMachine.Cd82.CheckSolved` | environment_files/cd82/fb555c5d/cd82.py:740-753 | The level is solved exactly when canvas and target agree off both diagonals |
| `PaintMachine.Cd82.RedrawSprites` | environment_files/cd82/fb555c5d/cd82.py:487-518 | Basket and spout are rebuilt at the homes of the ring position, the spout at even ones only |
| `PaintMachine.Cd82.AdvanceBasket` | environment_files/cd82/fb555c5d/cd82.py:683-707 | One basket tick is the tick of the step function; it completes the action exactly at the end |
| `PaintMachine.Cd82.AdvanceSpout` | environment_files/cd82/fb555c5d/cd82.py:587-611 | One spout tick likewise |
| `PaintMachine.Cd82.DoStep` | environment_files/cd82/fb555c5d/cd82.py:630-671 | Each call is the step function of the old state; the action completes exactly past 100 actions or when all is at rest |
| `FloodFill.PushNeighbour` | claude_arcagireview/probes/canonical_graph_prototype.py:112-116 | Exactly an unseen palette cell of the grid is marked and pushed |
| `FloodFill.Advance` | claude_arcagireview/probes/canonical_graph_prototype.py:109-116 | One pop keeps "popped and waiting cells are those seen since the start, each once" and makes progress |
| `FloodFill.Explore` | claude_arcagireview/probes/canonical_graph_prototype.py:107-116 | The stack search returns its 4-connected component exactly, each cell once, and marks nothing else |
| `FloodFill.ScanComponent` | claude_arcagireview/probes/canonical_graph_prototype.py:107-122 | Exploring and judging one component replaces the best one exactly when it has all palette colours and is larger |
| `FloodFill.ScanCell` | claude_arcagireview/probes/canonical_graph_prototype.py:105-122 | After each cell, seen is the union of the components begun so far and best the first largest full one |
| `FloodFill.ComponentIsBlob` | claude_arcagireview/probes/canonical_graph_prototype.py:107-116 | The cells that paths reach from a palette cell are sealed, and no smaller part of them is |
| `FloodFill.BlobIsComponent` | claude_arcagireview/probes/canonical_graph_prototype.py:107-116 | A sealed set without a smaller sealed part is what paths reach from any of its cells |
| `FloodFill.FirstLargestWins` | claude_arcagireview/probes/canonical_graph_prototype.py:117-123 | The component kept at the end is larger than any other with every palette colour, or as large and read before it |
| `FloodFill.ComponentsPartition` | claude_arcagireview/probes/canonical_graph_prototype.py:99-123 | Two components are equal or disjoint, so no cell is explored twice |
| `FloodFill.Locate` | claude_arcagireview/probes/canonical_graph_prototype.py:99-123 | None if and only if no blob has every palette colour, a blob being a sealed set of palette cells that no smaller part seals; else the corner of the bounding box of the largest such blob, the first read among equals |
| `CanonicalGraph.DestinationMeans` | claude_arcagireview/probes/canonical_graph_prototype.py:163-170 | The destinations of a pair are those of its counted rows |
| `CanonicalGraph.ArityMeans` | claude_arcagireview/probes/canonical_graph_prototype.py:166 | The arity is one more than the largest action of the non-environment rows |
| `CanonicalGraph.WitnessedMeans` | claude_arcagireview/probes/canonical_graph_prototype.py:165-170 | A transition is counted once for every row that shows it |
| `CanonicalGraph.CollectEdges` | claude_arcagireview/probes/canonical_graph_prototype.py:161-170 | The counters hold exactly the counted transitions, each as often as it was seen |
| `CanonicalGraph.ClassifyNode` | claude_arcagireview/probes/canonical_graph_prototype.py:173-184 | The actions of one node are each put in the one list their destinations call for |
| `CanonicalGraph.BuildGraph` | claude_arcagireview/probes/canonical_graph_prototype.py:153-196 | The graph lists each observed node once and each pair once under its verdict |
| `CanonicalGraph.NodesMean` | claude_arcagireview/probes/canonical_graph_prototype.py:161-172 | The nodes are those that some row outside the environment leads out of, both its ends located; the arity is one more than the largest action of all such rows |
| `CanonicalGraph.PairMeans` | claude_arcagireview/probes/canonical_graph_prototype.py:173-184 | A listed pair is frontier without a row that shows it, deterministic when all of its rows agree, and otherwise listed with exactly the destinations that rows show |
| `CanonicalGraph.Partition` | claude_arcagireview/probes/canonical_graph_prototype.py:172-184 | Nodes times actions is the disjoint union of det, nondet and frontier |
| `CanonicalGraph.TargetsAreTheRest` | claude_arcagireview/probes/canonical_graph_prototype.py:199-204 | The acquisition targets are exactly the pairs that are not deterministic |
| `CanonicalGraph.RowPredicted` | claude_arcagireview/probes/canonical_graph_prototype.py:163-184 | det predicts every counted row it covers; a counted row is covered by det or nondet if and only if its action is not negative |
| `CanonicalGraph.NegativeActionLost` | claude_arcagireview/probes/canonical_graph_prototype.py:163-184 | A single counted row with action -1 leaves its node without a pair in any of the three lists |
| `CanonicalGraph.RowsOnlyAdvance` | claude_arcagireview/probes/canonical_graph_prototype.py:163-184 | Appending rows keeps every pair and moves it only from frontier to det to nondet, never changing a destination |
| `ImportClosure.Closure.Visit` | deploy/vps_run.py:487-505 | A call sees exactly the files that its own leads to off those seen before, lists the new ones in the order of its imports, ends with its own file, and terminates on cyclic imports |
| `ImportClosure.WhitePath` | deploy/vps_run.py:487-505 | A finished call has seen everything that walks off the files seen before lead to from its own |
| `ImportClosure.LedMore` | deploy/vps_run.py:494-504 | A further import adds exactly what it leads to and no earlier one did |
| `ImportClosure.FinishFile` | deploy/vps_run.py:505 | Appending a finished file keeps "each import is listed earlier or leads back" |
| `ImportClosure.LeanImportSourceClosure` | deploy/vps_run.py:470-508 | Exactly the reachable files, each once, source last, the others in the order of the first import of the source that leads to them off the source; an import listed after its importer leads back to it |
| `ImportClosure.FirstIffAcyclic` | deploy/vps_run.py:470-508 | The list is dependency-first if and only if no listed file is on an import cycle |
| `ImportClosure.ImportCycleOutOfOrder` | deploy/vps_run.py:470-508 | Two files that import each other: the closure lists one of them before its import |
| `Jaccard.DistanceIsRatio` | projects/eu_union_stability/promote_hypothesis.py:195-199 | The distance is the share of the elements of the union on which the two sets differ |
| `Jaccard.Symmetric` | projects/eu_union_stability/promote_hypothesis.py:195-199 | The distance does not depend on the order of its arguments |
| `Jaccard.Bounded` | projects/eu_union_stability/promote_hypothesis.py:195-199 | The distance lies between 0 and 1, also for two empty sets |
| `Jaccard.ZeroIffEqual` | projects/eu_union_stability/promote_hypothesis.py:195-199 | The distance is zero if and only if the sets are equal |
| `Jaccard.DifferencesAdd` | projects/eu_union_stability/promote_hypothesis.py:195-199 | Going through b counts every difference of a and c, and what only b has twice |
| `Jaccard.WiderGround` | projects/eu_union_stability/promote_hypothesis.py:195-199 | Measured against a larger union the share of differences does not grow |
| `Jaccard.TriangleInequality` | projects/eu_union_stability/promote_hypothesis.py:195-199 | The distance satisfies the triangle inequality for any three sets, empty ones included |
| `Promotion.Project.InferActive` | projects/eu_union_stability/promote_hypothesis.py:57-69 | The loop finds the bundle equal to the root, and None unless there is exactly one |
| `Promotion.Project.SnapshotRoot` | projects/eu_union_stability/promote_hypothesis.py:97-119 | Thesis copied if the root has one, test model copied or removed, nothing for a missing bundle |
| `Promotion.Project.PromoteBundle` | projects/eu_union_stability/promote_hypothesis.py:299-338 | Either one of four failures and nothing changed, or snapshot, copy and mark, as the command function says |
| `Promotion.PromoteMeans` | projects/eu_union_stability/promote_hypothesis.py:299-338 | The first of four reasons to fail, whose order is fixed; else the root becomes and is marked as the named bundle, and a snapshot changes just the bundle the root belongs to: the assumed one, else the marked one, else the only one equal to it |
| `Promotion.SwitchKeepsIff` | projects/eu_union_stability/promote_hypothesis.py:317-338 | Bundles with the active entry replaced by the root stay the same if and only if the root has a thesis or the bundle has none; the root then holds the target |
| `Promotion.ThesislessRootIsMixed` | projects/eu_union_stability/promote_hypothesis.py:97-119 | A concrete promotion from a root without a thesis: the old thesis stays beside the new test model |
| `Promotion.InferredSnapshotIsIdle` | projects/eu_union_stability/promote_hypothesis.py:57-69 | A snapshot into an inferred active bundle changes nothing |
| `Promotion.RootSurvivesIff` | projects/eu_union_stability/promote_hypothesis.py:310-338 | The old root content survives in some bundle if and only if it was saved into an existing bundle or equalled one already |
| `Promotion.ExecuteRefines` | projects/eu_union_stability/promote_hypothesis.py:299-338 | One edit or switch on disk is the same edit or switch of a plain map with a cursor |
| `Promotion.RunRefines` | projects/eu_union_stability/promote_hypothesis.py:299-338 | So is any run of edits and switches |
| `Promotion.EditSurvivesRoundTrip` | projects/eu_union_stability/promote_hypothesis.py:299-338 | Edit, switch away and switch back: the edit is in the root again |
| `BenchmarkRuns.DetectSpecimen` | benchmarks/constraint_memory/run_benchmark.py:655-694 | Family detection implies structural detection; with neither, no keyword occurs in what the evaluator wrote |
| `BenchmarkRuns.DetectionMeans` | benchmarks/constraint_memory/run_benchmark.py:655-694 | The family is detected by a family keyword or by all of at least one expected flag, the structural failure by that or the same with the structural lists |
| `BenchmarkRuns.RunVerdict` | benchmarks/constraint_memory/run_benchmark.py:841-866 | Family implies structural also after adjudication; with an adjudicator set, only matching flags or its own confirmation can count |
| `BenchmarkRuns.VerdictMeans` | benchmarks/constraint_memory/run_benchmark.py:841-866 | Without an adjudicator the detection; with one, flags and its answer about a bad specimen, and no keywords |
| `BenchmarkRuns.Summarize` | benchmarks/constraint_memory/run_benchmark.py:1017-1045 | One entry for each condition, with the counts and rates of that condition's rows |
| `BenchmarkRuns.CountsMean` | benchmarks/constraint_memory/run_benchmark.py:1017-1031 | Attempted, counted, failed, bad and good rows are numbers of places in the list of rows |
| `BenchmarkRuns.RatesMean` | benchmarks/constraint_memory/run_benchmark.py:1032-1041 | Detection and false acceptance times the bad rows, and false rejection times the good ones, are numbers of places; no rate over none |
| `BenchmarkRuns.ReviewRates` | benchmarks/constraint_memory/run_benchmark.py:968-1009 | In a condition of ordinary reviews the family rate is 0, a fatal flaw counts as structural detection and accepting the claim as passing the threshold |
| `BenchmarkRuns.AttemptsSplit` | benchmarks/constraint_memory/run_benchmark.py:1020-1028 | Attempted rows are counted specimens plus errors |
| `BenchmarkRuns.FamilyAtMostStructural` | benchmarks/constraint_memory/run_benchmark.py:1032-1033 | In every condition 0 <= family detection rate <= structural detection rate <= 1 |
| `FreezeManifest.SourceRunSpecimenIds` | benchmarks/constraint_memory/run_benchmark.py:284-302 | The distinct ids of the source rows without an error; fails exactly on missing, ill-formed or empty results |
| `FreezeManifest.ProvenanceFirst` | benchmarks/constraint_memory/run_benchmark.py:1073-1087 | Model, time and provider are each the first usable one of their candidates, imported provenance before the row itself |
| `FreezeManifest.CollectRow` | benchmarks/constraint_memory/run_benchmark.py:1061-1109 | One pass of the loop: it raises exactly on a null path, a directory as prompt or a missing id; else one entry, its digest and its defects |
| `FreezeManifest.BuildFreezeManifest` | benchmarks/constraint_memory/run_benchmark.py:1048-1151 | Which exception is raised, all entries and digests, the exact list of blockers, and promotable if and only if it is empty |
| `FreezeManifest.NoDefectsIff` | benchmarks/constraint_memory/run_benchmark.py:1064-1095 | No provenance failure is recorded if and only if every row has prompt, raw path, model, time and provider |
| `FreezeLaws.DefectsMean` | benchmarks/constraint_memory/run_benchmark.py:1062-1091 | A row is charged with exactly what it lacks: a prompt path, a raw path, a model, a time, a provider under any of their keys |
| `FreezeLaws.DefectsRise` | benchmarks/constraint_memory/run_benchmark.py:1062-1091 | Each defect of a row is recorded once, prompt before raw review before model, time and provider |
| `FreezeLaws.DefectsInOrder` | benchmarks/constraint_memory/run_benchmark.py:1061-1091 | The defects of rows follow each other in the order of the rows |
| `FreezeLaws.RaisedMeans` | benchmarks/constraint_memory/run_benchmark.py:1062-1094 | A row raises for a null path, else for a prompt path that is a directory, which an absent one is, else for a missing specimen id |
| `FreezeLaws.EntryMeans` | benchmarks/constraint_memory/run_benchmark.py:1092-1105 | An entry holds the specimen, the digest of the text of the prompt file if there is one, and the first usable model, time and provider |
| `FreezeLaws.BlockersMean` | benchmarks/constraint_memory/run_benchmark.py:1107-1120 | A blocker is recorded if and only if it objects: no source run, ids missing or extra against the wanted ones, error rows and their number, what a successful row lacks, a summary of another size |
| `FreezeLaws.BlockersByKind` | benchmarks/constraint_memory/run_benchmark.py:1107-1120 | The blockers stand in the order of their kinds |
| `FreezeLaws.DocumentedMeans` | benchmarks/constraint_memory/run_benchmark.py:1062-1091 | A row is documented if and only if it lacks none of the five |
| `FreezeManifest.OneRowEachIff` | benchmarks/constraint_memory/run_benchmark.py:1049-1055 | The pigeonhole: as many rows as ids and equal sets of ids, if and only if rows and ids are in bijection and no id is empty |
| `FreezeManifest.PromotableIff` | benchmarks/constraint_memory/run_benchmark.py:1048-1142 | No blockers if and only if bound, error-free, documented and in bijection with the source ids |
| `FreezeManifest.WithoutSourceIds` | benchmarks/constraint_memory/run_benchmark.py:1053 | Without source ids the rows are compared with themselves, so repeated specimens pass |
| `FreezeManifest.FreezeRun` | benchmarks/constraint_memory/run_benchmark.py:1249-1374 | Over the whole tail of a run: it fails exactly without usable source ids, on mixed sources or on a row that raises, with the first of these as its exception; else the manifest is promotable if and only if the source run is given and that bijection and documentation hold |
| `FreezeManifest.RawReviewIff` | benchmarks/constraint_memory/run_benchmark.py:1065-1072 | A promoted row really has a raw review if and only if its raw path is not a directory, which an absent path is |
| `FreezeManifest.AbsentRawReviewIsPromoted` | benchmarks/constraint_memory/run_benchmark.py:1065-1072 | A concrete promotable manifest whose row names no raw review |

## Left out

- Floating-point rounding, NaN and the display rounding of statistics; square roots enter `Ranks.SpearmanRho` as parameters that are required to be the roots.
- Bootstrap intervals, the permutation, equivalence and power computations, Bayes factors and the manifest hash in the statistics file: random draws or `exp`/`log` formulas without the structure proved here.
- The statistical meaning of the Benjamini-Hochberg procedure (control of the false discovery rate): only its selection rule is modelled.
- MirrorMachine.Ar25.DoStep: pieces that rotate when they cross an axis, rendering, the position of the hint sprite, and the search for the sprite under a click, which enters as the parameter `picked`; entering the next level is a flag, and the engine's own loss handling is one too.
- MirrorMachine.Ar25.constructor: the cycling order comes with the level instead of being listed here; a level needs a movable sprite and target cells that can be indexed; otherwise the original divides by zero when cycling, or raises when the level loads.
- MirrorMachine.Ar25.MoveSelected: pieces that rotate when they cross an axis.
- MirrorPlay.HintPlays: the position of the blinking hint sprite.
- Collinearity.RaisesIffClose: a design at whose first close column a swap is on offer; it may get through (`Collinearity.SwapCanRescue`), and since its later pivots are no longer distances it is decided by `Pivoting.RaisesIff` instead.
- MirrorCap.NoPieceCutIff: three or more distinct lines in one direction, or lines beside the grid; `MirrorReach.PaintedIff` says what is painted for those too.
- Regression.OlsMultichannelR2: the residual root mean square and the channel names of the report.
- PaintMachine.Cd82.constructor: levels without a canvas or a target sprite.
- PaintMachine.Cd82.CheckSolved: levels without a canvas or a target sprite, for which the original returns early.
- PaintMachine.Cd82.RedrawSprites: rotation and recolouring of the rebuilt sprites.
- PaintMachine.Cd82.DoStep: sprite art, the step bar and the mapping from a click to what was clicked, which enters as a parameter; levels without a canvas or a target, which the original never solves; after a solved level nothing more is modelled.
- CanonicalGraph.BuildGraph: nodes come in some order, not in that of their printed form; the alpha function, with its digest and rarity mask, is an arbitrary function of the grid.
- FloodFill.Locate: the choice of the palette from difference signatures (`mover_locator` above the nested function); the palette is a parameter.
- ImportClosure.Closure.Visit: comment stripping and the import pattern; each file comes with its list of imported paths.
- ImportClosure.LeanImportSourceClosure: comment stripping, the import pattern and the mapping of module names to paths; each file comes with its list of imported paths.
- Promotion.Project.PromoteBundle: archiving of status files, the diversity report, time stamps, and file contents that cannot be read; bundle names are non-empty.
- BenchmarkRuns.DetectSpecimen: the lists of the keywords that matched.
- BenchmarkRuns.RunVerdict: staging, the evaluator and adjudicator calls, and the score itself; what they answer are parameters.
- BenchmarkRuns.Summarize: mean scores and the score-decoupling rate, which are plain averages, and the list of failed ids.
- FreezeManifest.SourceRunSpecimenIds: the sorted order of the ids.
- FreezeManifest.BuildFreezeManifest: sorting of the listed ids and sources (compared as sets here), paths that are equal only after normalisation, text decoding, and the echoed arguments; the digest is an arbitrary function.
- All command-line, HTTP, SSH and process plumbing, prompts and user interface code.
