# statmorph core, modelled in Dafny

This project models the discrete and control logic of `SourceMorphology` in
`statmorph.py`, the morphology pipeline that measures non-parametric statistics of a
galaxy in an image (Gini, multimode, asymmetry, Petrosian and half-light radii, rmax).

The model covers:

- quantile and mode helpers (`quantile.dfy`);
- postage-stamp geometry, the stamp masks and the zero-masked cutouts (`stamp.dfy`);
- in-place bad-pixel removal on a two-dimensional array (`badpixels.dfy`);
- the skybox search with its halving of the box size, and the sky asymmetry (`skybox.dfy`);
- the bracketing scans that feed the root finder in the fraction-of-total and
  Petrosian radius computations (`scans.dfy`);
- the Gini coefficient (`gini.dfy`);
- the multimode objective, its stage-1 grid search and the final A2/A1 ratio (`multimode.dfy`);
- rmax, forcing the brightest pixel into a segmap, and the 8-connected component
  that holds it (`shape.dfy`, `component.dfy`);
- the guard and dispatch skeleton of the asymmetry function (`asymmetry.dfy`);
- the segmap cross-check and the object's `flag` field (`morphology.dfy`).

Shared datatypes and grid helpers are in `values.dfy` and `grids.dfy`.

Images are grids of reals (`seq<seq<real>>`), or `array2` where the source edits them in place.
NaN is the `Num.NaN` constructor and the -99.0 sentinel is `Stat.Invalid`.

Numerical library calls are parameters of the model:

- aperture photometry: the sums at a radius, or per aperture;
- `brentq`: any function that returns a point inside the bracket; for the Petrosian radius it also returns the radii at which it evaluated the Petrosian function;
- `basinhopping`: any step that does not make the objective worse;
- `ndi.label`: through a clump-area function.

The object's `flag` is a field of class `SourceMorphology`. Each method merges its own
outcome into it, as the source does with `self.flag = 1` and `max(self.flag, flag)`; no
method ever clears it.

## Model

| member | source | states |
|---|---|---|
| Values.Trunc | statmorph.py:381 | `int()` truncates toward zero: the result is the floor for non-negative inputs and the ceiling for negative ones |
| Values.Abs | statmorph.py:66 | the absolute value is non-negative and equals x or -x |
| Grids.And | statmorph.py:354-356 | the elementwise conjunction of two segmaps of the same shape |
| Grids.Rot180 | statmorph.py:932 | `bkg[::-1, ::-1]`: the entry at (i, j) is the one at (ny-1-i, nx-1-j) |
| Quantile.QuantileIndex | statmorph.py:24-33 | the index is below n; q == 1 gives the last index; otherwise k <= q*n < k+1, that is k is int(q*n) |
| Quantile.QuantileValue | statmorph.py:24-33 | the quantile is an element of the sorted input |
| Quantile.QuantileIndexMonotone | statmorph.py:24-33 | q1 <= q2 implies index(q1) <= index(q2) |
| Quantile.QuantileMonotone | statmorph.py:24-33 | on a sorted input, q1 <= q2 implies quantile(q1) <= quantile(q2) |
| Quantile.QuantileIsQuantile | statmorph.py:24-33 | at most q*n elements lie strictly below the returned value, and at least q*n lie at or below it |
| Quantile.Mode | statmorph.py:35-41 | on the sorted sample, 2.5*median - 1.5*mean lies on the far side of the median from the mean |
| Quantile.MedianWithinRange | statmorph.py:35-41 | the median of a sorted input lies between its first and last element |
| Quantile.ModeOfConstant | statmorph.py:35-41 | for a constant sample, the mean, the median and the mode all equal that constant |
| Stamp.BoxDistance | statmorph.py:374-377 | dist is at least the distance from the centroid to each side of the bounding box, and non-negative for a well-formed box |
| Stamp.HalfSizeCoversDistance | statmorph.py:379-381 | int(dist * cutout_extent) >= dist when cutout_extent >= 1 |
| Stamp.SliceStamp | statmorph.py:366-388 | the stamp slice is clipped to the image |
| Stamp.SliceStampCoversBox | statmorph.py:374-388 | the stamp covers the label's bounding box clipped to the image, and contains the centroid pixel when that pixel is in the image |
| Stamp.SliceGrid | statmorph.py:398 | indexing with the stamp slice gives the window's entries, shifted to the stamp's origin |
| Stamp.MaskStamp | statmorph.py:390-402 | the stamp mask has the segmap's shape |
| Stamp.MaskStampNoBg | statmorph.py:404-413 | the no-background mask has the segmap's shape |
| Stamp.MaskStampRelations | statmorph.py:390-413 | the stamp mask implies the no-background mask; they differ exactly on unmasked background; the no-background mask is clear exactly on unmasked pixels of the label |
| Stamp.ZeroMasked | statmorph.py:415-426 | `np.where(~mask, data, 0)`: masked pixels are zero and the others keep their value |
| Stamp.KeepWhere | statmorph.py:1320-1328 | `np.where(segmap, image, 0)`: pixels outside the segmap are zero and the others keep their value |
| Stamp.ClampNonNegative | statmorph.py:444-452 | each pixel becomes itself or zero, whichever is larger |
| Stamp.CutoutMaskZeroed | statmorph.py:415-426 | the zero-masked cutout has the stamp's shape |
| Stamp.CutoutNoBg | statmorph.py:427-435 | the no-background cutout has the stamp's shape |
| Stamp.CutoutContents | statmorph.py:415-435 | the zero-masked cutout keeps exactly the unmasked pixels of the label and of the background; the no-background cutout keeps exactly the unmasked pixels of the label |
| Stamp.CutoutMidSumNonNegative | statmorph.py:1320-1328 | the MID cutout is non-negative pixel by pixel, so its sum (the multimode "invalid" value) is non-negative |
| BadPixels.Reflect | statmorph.py:308-309 | the convolution's reflect boundary maps -1 to 0 and n to n-1, and leaves in-range indices alone |
| BadPixels.OutlierMask | statmorph.py:300-314 | each pixel's flag is the outlier test against the mean and variance of its 8 neighbours in the input image |
| BadPixels.RemoveBadPixels | statmorph.py:291-318 | every pixel is judged on the original image; exactly the outliers are zeroed in place; the count returned is the number of outliers |
| BadPixels.ZeroSelected | statmorph.py:315-316 | zeroes exactly the selected pixels, leaves the others unchanged, and returns how many were selected |
| BadPixels.FlatImageHasNoOutliers | statmorph.py:300-314 | a constant image has no outliers |
| BadPixels.SpikeOutlierAt | statmorph.py:300-314 | in a flat image with one interior spike and n_sigma >= 1, a pixel is an outlier exactly when it is the spike |
| BadPixels.IsolatedSpikeIsSoleOutlier | statmorph.py:291-318 | a single interior spike on a flat image is the only outlier, and the count is 1 |
| Skybox.FirstClearInRow | statmorph.py:868-873 | the inner loop returns the first column j in range whose box is all background and unmasked, or reports that none is |
| Skybox.FirstClearFrom | statmorph.py:865-873 | the nested loops return the first clear box in row-major order, or report that no box in range is clear |
| Skybox.FindClear | statmorph.py:865-873 | the loop method finds exactly the first clear box in row-major order |
| Skybox.ZeroSizeBoxFound | statmorph.py:865-873 | a box of size zero is always found when the stamp is wider and taller than twice the border |
| Skybox.Skybox | statmorph.py:852-889 | a stamp narrower than 2*border gives the empty box and the flag; otherwise the result is the first clear box at the final size, or the flag and the corner box at (border, border) once the size is below the border; the box lies in the stamp, and the final size is one of size, size // 2, size // 4, ... |
| Skybox.SkyboxSkippedSizes | statmorph.py:875-886 | every larger size tried before the final one had no clear box, and was at least the border |
| Skybox.AbsDiffRot180 | statmorph.py:932-936 | the difference from the rotated background is non-negative, and zero exactly where the pixel equals its mirror |
| Skybox.SkyAsymmetry | statmorph.py:925-936 | NaN exactly for an empty skybox; otherwise non-negative |
| Skybox.SkyAsymmetryZeroIffSymmetric | statmorph.py:925-936 | the sky asymmetry is zero exactly when the background equals its 180-degree rotation |
| Scans.ScanFrom | statmorph.py:96-114 | the scan stops at the first exact zero or the first negative-to-positive step, with lo = hi - 1; otherwise it runs out |
| Scans.ScanIsFirstStop | statmorph.py:96-114 | the scan evaluates exactly the samples up to the first stop, and stops there |
| Scans.ScanFromRunsOut | statmorph.py:98-99 | with no stopping sample the scan runs out of points |
| Scans.FarBeforeNearIffFirstFar | statmorph.py:107-110 | "r_min is not defined yet" happens exactly when the first sample is positive |
| Scans.FirstFarNeedsNear | statmorph.py:105-113 | if the first sample is not positive, every positive sample the scan reaches comes after a negative one |
| Scans.RInnerBelowTotalIff | statmorph.py:92-93 | r_total > min(0.5, 0.2*r_total) exactly when r_total > 0 |
| Scans.Linspace | statmorph.py:94 | 100 points, starting at r_inner and ending at r_total |
| Scans.LinspaceWithin | statmorph.py:94 | every grid point lies between the endpoints |
| Scans.LinspaceIncreasing | statmorph.py:94 | the grid is strictly increasing |
| Scans.FractionOfTotal | statmorph.py:61-69 | abs(ap_sum)/total - fraction is at least -fraction |
| Scans.FractionSamples | statmorph.py:100-101 | one sample per grid radius |
| Scans.ScanFractions | statmorph.py:96-114 | the loop returns the root or bracket the scan finds, in radii, and flags a positive first sample |
| Scans.RadiusAtFractionScan | statmorph.py:71-114 | a non-positive total gives NaN and the flag; r_total <= 0 breaks the assertion; otherwise the outcome is the scan of the grid |
| Scans.RadiusAtFraction | statmorph.py:71-119 | NaN for a non-positive total; an exception when the scan runs out; an exact root or the root finder's point inside the bracket otherwise, lying in [r_inner, r_total]; the flag is the one the scan sets |
| Scans.PetrosianFunction | statmorph.py:509-539 | a zero aperture mean gives 1 - eta and raises the flag; the value is never below -eta |
| Scans.PetroRadiusClosedForm | statmorph.py:561-581 | after k steps of `r += dr` the radius is r_inner + k*dr |
| Scans.PetroGrid | statmorph.py:557-581 | the scan's first `steps` radii |
| Scans.PetrosianSamples | statmorph.py:568 | one sample per radius |
| Scans.PetrosianScan | statmorph.py:556-581 | the scan finds the first exact root or positive-to-negative bracket, or is still running after `steps` samples; it raises the flag for a negative first value, a radius at or past r_outer, or an evaluation that raised it |
| Scans.ScanPetrosian | statmorph.py:564-581 | over any grid of radii, the loop returns the root or bracket the scan finds, in radii, and raises the flag exactly for a negative first value or a visited radius at or past r_outer or whose evaluation raised it |
| Scans.PetroSample | statmorph.py:565-568 | one pass of the loop gives the negated sample at the i-th radius, and warns exactly when that radius is at or past r_outer or its evaluation raised the flag, extending the warning over the first i radii by one |
| Scans.PetroGridReachesOuter | statmorph.py:557-565 | the radius reaches r_outer exactly from the 100th point on |
| Scans.PetroWarningIffPastOuter | statmorph.py:565-567 | when no evaluation raises the flag itself, the "larger than cutout" warning fires exactly when the scan evaluates more than 99 radii |
| Scans.ZeroFluxScanNeverStops | statmorph.py:527-581 | when every aperture mean is zero and eta < 1, every sample is 1 - eta and the Petrosian scan never stops, for any number of samples |
| Gini.SelectedAbs | statmorph.py:759-762 | the selected values are non-negative, one per segmap pixel |
| Gini.GiniOf | statmorph.py:754-772 | the result is -99.0 with the flag exactly when n <= 1 or the values sum to zero |
| Gini.GiniNumeratorNonNegative | statmorph.py:768-770 | for ascending non-negative values, the sum of (2i-n-1)*v_i is non-negative |
| Gini.GiniNumeratorAtMost | statmorph.py:768-770 | for non-negative values, that sum is at most (n-1) times the sum of the values |
| Gini.GiniInUnitInterval | statmorph.py:754-772 | a valid Gini coefficient of ascending non-negative values lies in [0, 1] |
| Gini.GiniOfEqualValues | statmorph.py:754-772 | equal positive values give Gini 0 |
| Gini.GiniOfSinglePeak | statmorph.py:754-772 | all zeros but one positive value gives Gini 1 |
| Multimode.MultimodeRatio | statmorph.py:1358-1373 | outside [0, 1] or for a single clump the ratio is the invalid value; otherwise it lies in [-A2, 0) |
| Multimode.RatioNegativeIffValid | statmorph.py:1358-1373 | with a non-negative invalid value, the ratio is negative exactly when q is in [0, 1] and there are at least two clumps |
| Multimode.MultimodeStatistic | statmorph.py:1454-1456 | M = A2/A1 lies in (0, 1] |
| Multimode.RatioIsStatisticTimesA2 | statmorph.py:1370-1373 | the objective is -(A2/A1)*A2, the final statistic times -A2 |
| Multimode.StepSize | statmorph.py:1418-1437 | the step after h halvings of 0.02 is positive |
| Multimode.GridSize | statmorph.py:1421 | `np.arange(0, 1, step)` has at least 50 points |
| Multimode.GridSpansUnit | statmorph.py:1421 | the grid's points times the step cover exactly [0, 1) |
| Multimode.StepBelowThreshold | statmorph.py:1430-1437 | the step drops below 1e-3 at the fifth halving, and not before |
| Multimode.QuantileGrid | statmorph.py:1421 | every grid quantile lies in [0, 1) |
| Multimode.Ratios | statmorph.py:1422-1424 | one ratio per grid quantile |
| Multimode.ArgMin | statmorph.py:1425 | `np.argmin`: the first index holding the smallest value |
| Multimode.MinimumDecides | statmorph.py:1425-1429 | the smallest ratio is non-negative exactly when no ratio of that attempt is valid |
| Multimode.EvaluateRatios | statmorph.py:1422-1424 | the array filled in the loop holds each grid quantile's ratio |
| Multimode.GridMinimum | statmorph.py:1421-1427 | q0 and ratio_min are the first minimum of the attempt; ratio_min >= 0 exactly when no ratio is valid |
| Multimode.MultimodeStage1 | statmorph.py:1418-1438 | stage 1 stops at the first attempt with a negative minimum, or gives up on the last attempt; every earlier attempt had no valid ratio |
| Multimode.Stage1GivesUpIffNoValidRatio | statmorph.py:1418-1438 | stage 1 reports a single clump exactly when no attempt, down to the finest step, has a valid ratio |
| Multimode.Stage2ResultUnique | statmorph.py:1418-1456 | stage 1 can stop at only one attempt, with one start point and one smallest ratio, so the final M is determined |
| Shape.RowMax | statmorph.py:1675 | the largest distance over a row's segmap pixels is reached by one of them, and is none for an empty row |
| Shape.GridMaxIsMaximum | statmorph.py:1675 | the largest distance over the segmap is reached by a segmap pixel and bounds all of them; none exactly for an empty segmap |
| Shape.Rmax | statmorph.py:1657-1682 | rmax squared is the largest squared distance from the snapped centre to a segmap pixel centre; the flag is raised exactly when it is zero |
| Shape.RmaxZeroIffOnlyCentre | statmorph.py:1677-1680 | rmax < 1 exactly when the segmap holds only the centre pixel, so rmax is then 0 |
| Shape.ForceSeed | statmorph.py:1309-1313 | the seed pixel is set, the others are unchanged, and it reports whether the seed was missing |
| Component.SeedComponent | statmorph.py:1314-1318 | the flood fill is a new array; it holds the seed, lies in the segmap, is closed under 8-adjacency within it, and lies in every such closed set holding the seed |
| Component.ComponentProperties | statmorph.py:1651-1655 | a finished fill (empty work list) is the seed's 8-connected component |
| Asymmetry.ApertureFor | statmorph.py:996-1012 | CAS uses a circle of r_cas; outer needs positive, non-NaN half-light radius and rmax, and uses the annulus between them; shape needs a positive rmax, and uses a circle of rmax |
| Asymmetry.AsymmetryFunction | statmorph.py:955-1033 | out of bounds exactly when the centre leaves the image; invalid exactly for a missing aperture or a zero absolute sum; otherwise asym * abs_sum = abs_diff minus the sky term, which shape asymmetry and a NaN sky leave out |
| Asymmetry.OutOfBoundsIgnoresRadii | statmorph.py:979-983 | a centre outside the image gives 100.0 whatever the radii |
| Asymmetry.ShapeAsymmetryOfSymmetricSource | statmorph.py:1019-1025 | shape asymmetry is measured when the sum is positive, is non-negative, and is zero for a symmetric source |
| Asymmetry.CasRadius | statmorph.py:1154-1158 | NaN or a non-positive radius becomes -99.0; otherwise the radius is kept |
| Morphology.AreaMax | statmorph.py:351-353 | area_max is one of the three areas and at least each of them |
| Morphology.OverlapWithinEach | statmorph.py:351-356 | the overlap is no larger than any of the three segmaps |
| Morphology.OverlapRatioInUnit | statmorph.py:361 | overlap / area_max lies in [0, 1] |
| Morphology.DisagreeAtExtremeRatios | statmorph.py:357-364 | a threshold above 1 always flags; a threshold at or below 0 flags exactly when all segmaps are empty |
| Morphology.SelfOverlap | statmorph.py:354-356 | a segmap overlaps itself in its whole area |
| Morphology.IdenticalSegmapsAgree | statmorph.py:346-364 | three identical segmaps, with a threshold at most 1, raise no flag exactly when they are non-empty |
| Morphology.DisjointSegmapsDisagree | statmorph.py:346-364 | segmaps with no common pixel have no overlap, and raise the flag exactly for a positive threshold or when all three are empty |
| Morphology.SourceMorphology.constructor | statmorph.py:259 | the flag starts cleared, with the given skybox size, border size and overlap ratio |
| Morphology.SourceMorphology.SliceSkybox | statmorph.py:844-889 | the box is the skybox search's, the skybox size field becomes its final size, one of the halvings of the size held on entry, and its flag is merged in |
| Morphology.SourceMorphology.CheckSegmaps | statmorph.py:346-364 | the flag is set when the segmaps are empty or overlap less than the ratio, and is otherwise unchanged |
| Morphology.SourceMorphology.MeasureGini | statmorph.py:754-772 | -99.0 with the flag exactly for at most one pixel or a zero sum; otherwise in [0, 1] |
| Morphology.SourceMorphology.MeasureMultimode | statmorph.py:1376-1456 | 0.0 with the flag exactly when stage 1 finds no valid ratio at any step; otherwise M is A2/A1 of the clumps at the quantile basin-hopping reaches from stage 1's start point, with temperature -0.5 * ratio_min and stage 1's step, and lies in (0, 1] |
| Morphology.SourceMorphology.RadiusAtFractionCas | statmorph.py:1144-1160 | -99.0 exactly for a non-positive total; an exception exactly when the scan runs out; otherwise the scan's exact root or brentq's point on its bracket, in (0, r_upper]; the flag is merged unless the call raises |
| Morphology.SourceMorphology.PetrosianRadius | statmorph.py:541-587 | the Petrosian radius is the exact root or the root finder's point in the first bracket; no result while the scan is still running; the flag merges the scan's warnings and the flag of every Petrosian evaluation the root finder made |
| Morphology.SourceMorphology.MeasureRmax | statmorph.py:1657-1682 | rmax squared, with the flag set exactly when it is zero |
| Morphology.SourceMorphology.HalfLightRadius | statmorph.py:1562-1579 | rmax == 0 gives 0.0 and leaves the flag; otherwise the fraction-of-total radius at 0.5 within rmax: NaN for a non-positive total, an exception for a negative rmax or a scan that runs out, otherwise the scan's exact root or the root finder's point in its bracket, within [0, rmax]; the scan's flag is merged unless the call raises |
| Morphology.SourceMorphology.MeasureAsymmetry | statmorph.py:955-1033 | the asymmetry value as a float (100.0, -99.0 or the measure), with the flag set for out-of-bounds and invalid outcomes |
| Morphology.SourceMorphology.AddBrightestPixel | statmorph.py:1309-1313 | the brightest pixel is forced into the segmap, nothing else changes, and the flag is set if it was missing |
| Morphology.SourceMorphology.KeepSeedComponent | statmorph.py:1306-1318 | after forcing the seed, the result is a new array holding the 8-connected component of the updated segmap that holds the seed |

## Left out

- Aperture photometry (circular, annular and elliptical apertures, and aperture areas) is a parameter. The scans take the sums at each radius, and the asymmetry takes the sums per aperture.
- `opt.brentq` is any function that returns a point inside the bracket it is given. For the Petrosian radius it is any function that returns a point and the radii it evaluated; the flag merges the Petrosian function's flag at each of those radii.
- `opt.fmin` and the asymmetry-centre search are left out; the asymmetry function is modelled for a given centre.
- `opt.basinhopping` is any step that never makes the multimode objective worse than its start point.
- Image rotation, moments, M20, smoothness, intensity, deviation, S/N per pixel, covariance and ellipse parameters, the Sersic fit and the smoothing filters are left out. These are floating-point image operations in libraries.
- The MID and Gini segmap thresholds and sigma clipping are left out; the segmaps are inputs.
- `photutils.SourceProperties` (centroid, bounding box, brightest pixel) supplies inputs. The "centroid is masked" check in the constructor is not modelled.
- `print` diagnostics, `__getitem__` and the `source_morphology` batch loop are left out.
- IEEE arithmetic is not modelled. Reals are exact, so `np.linspace` and `np.arange` give exact grid points, and the Petrosian radius `r += dr` accumulates without rounding. NaN and the -99.0 sentinel are constructors, not floats.
- Shape.Rmax: returns rmax squared, an integer, rather than its square root.
- Quantile.Mode: takes the unmasked values already sorted (as does `Quantile.Median`). `np.ma.median` sorts internally; sorting, and the fact that the mean does not depend on the order, are not modelled.
- Gini.GiniOf: takes the sorted pixel values as input. `MeasureGini` ties them to the segmap's absolute values by a multiset equality, in place of `np.sort`.
- `ndi.label` is modelled by a flood fill (`Component.SeedComponent`). Multimode only sees clump areas in decreasing order, through a parameter.
- Scans.PetrosianScan: the source loop has no upper bound. The model runs its first `steps` samples and reports `Exhausted` if it has not stopped by then. On a stamp without flux the source loop never ends (`Scans.ZeroFluxScanNeverStops`); the model reports `Exhausted` for every bound.
- Skybox.Skybox: requires `border_size > 0` or a non-empty stamp. With a zero border and an empty stamp, the source halves a skybox size of 0 forever.
- Scans.PetrosianScan: the assertion `r_inner < r_outer` is a precondition, as is a non-negative annulus width (the `r_in >= 0` assertion of the Petrosian function).
- Morphology.SourceMorphology.MeasureRmax: requires a non-empty segmap; `np.max` of an empty selection raises.
- Morphology.SourceMorphology.MeasureMultimode: basin-hopping is a parameter, so the quantile it settles on is whatever that parameter returns. The model only requires that it is never worse than its start point.
- Exceptions are the `Raises` and `None` outcomes, not control flow.
- The bad-pixel test compares squares, `(x - mean)^2 > n_sigma^2 * variance`, rather than taking a square root. A negative `n_sigma` is handled by its own case.
