# Shading correction factor of a window, modelled in Dafny

This project models the annual calculation of the shading correction factor of one window
with an overhang and two side fins. The factor is the ratio of the solar irradiation the
window receives with its devices in place to the irradiation it would receive without them.
It is accumulated per air-conditioning period (cooling, heating, none), per month and per
hour of the day:

- the hourly weather records are tagged with their period;
- the window azimuth is resolved from a compass label or an angle;
- the window and device dimensions are validated and completed with defaults;
- the diffuse shading coefficients of the sky and of the ground are computed once;
- a first pass over the 8761 hourly records counts the sub-hour steps with the sun up;
- a second pass over the hours 0 .. 8759 and their sub-hour steps apportions each hour's
  direct and diffuse totals to the steps and computes the sunlit part of the window;
- each step adds a numerator and a denominator contribution;
- the grid sums the contributions into 15 rows (three periods and twelve months, with rows
  -2, -1 and 0 reached through negative indices) and 26 columns (the hours 0 .. 24 and a
  day column -1), and takes the ratio in the third table.

The modules follow the structure of the program:

| module | what it holds |
|---|---|
| `Results` | the error kinds that stop the program, as `Result` values |
| `Numerics` | pi, square root, arc tangent, logarithm, tangent and cosine passed in as values, with the few properties the calculation needs (`Sound`) |
| `Calendar` | the running hour to day and hour, the sub-hour clock time, the hour bucket of a step, the month of a record |
| `Azimuth` | the window azimuth from a compass label or an angle, and the sun's azimuth relative to the window |
| `Geometry` | the 18 window and device dimensions, their validation field by field, and their fixed output order |
| `Shadow` | the shadow of one device on a quadrant, the inclusion-exclusion sum over the four window corners, the sunlit area |
| `ViewFactor` | the view factors to the sky and the ground, and the diffuse and reflected shading coefficients |
| `Periods` | the period tag of a record, and the loop that writes the tags into the records in place |
| `Apportion` | the sun-up count of an hour, and the split of an hourly total over the steps of the window around it |
| `Terms` | the incidence angle, the glazing's incidence angle characteristic, and the numerator and denominator terms of one step |
| `Grid` | the accumulation grid: adding one step's value to its four cells, the two passes over it, and the ratio cells |
| `Sweep` | the two passes of the main calculation, filling the sun-up counts and the per-step numerators and denominators |

The imperative parts of the program stay imperative:

- the dictionary that the geometry fields are validated into (`Geometry.ValidateFields`);
- the tag loop that writes into the records (`Periods.TagPeriods`, on an `array`);
- the two passes of the main calculation over preallocated arrays (`Sweep.CountSunlitSteps`,
  `Sweep.FillSamples`);
- the accumulation and ratio loops over a three-dimensional array (`Grid.Output`).

The sun-up count of one hour (`Apportion.SunlitCount`) is a method too. It has no loop, but
for one step per hour it adds 1 to a counter (Shading_Correction_Factor_Modules.py:1070-1072).

Each of these methods is proved against a function of its inputs. The properties of the
calculation are proved about those functions.

The program documents the relative azimuth by formula (1) in its own comment
(Shading_Correction_Factor_Modules.py:240-249). The code
(Shading_Correction_Factor_Modules.py:259-267) keeps a difference of exactly -180 degrees,
where the formula adds a turn and gives +180. The model follows the code:
`Azimuth.Azwjdt` states the closed range [-180, 180], and `Azimuth.AzwjdtKeepsMinus180`
shows the case. Both values describe the same direction.

## Model

| member | source | states |
|---|---|---|
| `Calendar.NDayNHour` | Shading_Correction_Factor_Modules.py:24-31 | For hours 0 .. 8760 the day is in 1 .. 365 and (day - 1) * 24 + hour gives back the running hour. Every hour except 8760 has its hour of day in 0 .. 23; hour 8760 gives (365, 24). |
| `Calendar.NDayNHourInverse` | Shading_Correction_Factor_Modules.py:24-31 | Every day in 1 .. 365 and hour in 0 .. 23 is recovered from its running hour. |
| `Calendar.SubHourTime` | Shading_Correction_Factor_Modules.py:34-38 | Step mm of ndt lies in the hour [nHour, nHour + 1), and step 0 is the full hour. |
| `Calendar.Truncate` | Shading_Correction_Factor_Modules.py:41-45 | The integer conversion truncates toward zero, for negative arguments as well. |
| `Calendar.HourBucket` | Shading_Correction_Factor_Modules.py:41-45 | The bucket is the hour nearest the time; a time half-way between two hours goes to the later one. |
| `Calendar.HourBucketOfStep` | Shading_Correction_Factor_Modules.py:34-45 | Steps in the first half of an hour count toward that hour and steps from the half-way step on count toward the next one. |
| `Calendar.StepFraction` | Shading_Correction_Factor_Modules.py:34-38 | mm / ndt lies in [0, 1) and reaches 0.5 exactly when 2 * mm >= ndt. |
| `Calendar.FloorUnique` | Shading_Correction_Factor_Modules.py:41-45 | Truncation of a non-negative number is the unique n with n <= x < n + 1. |
| `Calendar.HourBucketRange` | Shading_Correction_Factor_Modules.py:41-45 | Every step of the hours 0 .. 8759 falls into a column 0 .. 24. |
| `Calendar.Month` | Shading_Correction_Factor_Modules.py:1043-1047 | The month m satisfies m * 10000 <= code < (m + 1) * 10000, which is floor division. |
| `Calendar.MonthOfCode` | Shading_Correction_Factor_Modules.py:1043-1047 | A record code built from month, day and hour gives back its month. |
| `Azimuth.IndexOf` | Shading_Correction_Factor_Modules.py:226-229 | The result is the first position of the label, or the length exactly when the label is absent. |
| `Azimuth.LabelsDistinct` | Shading_Correction_Factor_Modules.py:226-227 | The 16 compass labels are pairwise distinct, so each has one index. |
| `Azimuth.Azwj` | Shading_Correction_Factor_Modules.py:224-240 | A compass label maps to its angle. An angle outside (-180, 180] fails with the azimuth error, and so does a label that is not a compass label. Every other angle is returned as it is. Every accepted azimuth lies in (-180, 180]. |
| `Azimuth.LabelAzimuth` | Shading_Correction_Factor_Modules.py:226-231 | The label at index i is accepted and maps to (i - 7) * 22.5 degrees. |
| `Azimuth.CardinalAzimuths` | Shading_Correction_Factor_Modules.py:226-231 | South is 0, east -90, west 90 and north 180 degrees. |
| `Azimuth.LabelAzimuthsDistinct` | Shading_Correction_Factor_Modules.py:226-231 | Different labels give different azimuths. |
| `Azimuth.Azwjdt` | Shading_Correction_Factor_Modules.py:259-267 | The result differs from the plain difference by 0 or one turn. A difference already within [-180, 180] is kept. A difference within [-540, 540] is brought into [-180, 180]. |
| `Azimuth.AzwjdtCanonical` | Shading_Correction_Factor_Modules.py:259-267 | For azimuths in (-180, 180]: whenever the difference plus some whole number of turns lies strictly inside (-180, 180), the result is that value. |
| `Azimuth.AzwjdtKeepsMinus180` | Shading_Correction_Factor_Modules.py:240-267 | A difference of exactly -180 stays -180, where formula (1) gives +180. A difference of +180 stays +180. |
| `Geometry.ToList` | Shading_Correction_Factor_Modules.py:422-429 | The list has 18 entries, with X2 at index 1 and Y2 at index 8. |
| `Geometry.FromList` | Shading_Correction_Factor_Modules.py:474 | Unpacking takes X2 from index 1 and Y2 from index 8. |
| `Geometry.ListRoundTrip` | Shading_Correction_Factor_Modules.py:422-429 | Packing a geometry into the list and unpacking it give the geometry back. Unpacking a list and packing it give the list back. |
| `Geometry.Area` | Shading_Correction_Factor_Main.py:70 | The window area is entry 1 times entry 8 of the list, which is X2 * Y2. |
| `Geometry.ValidAreaPositive` | Shading_Correction_Factor_Modules.py:292-296 | A validated geometry has a positive window area. |
| `Geometry.DictOf` | Shading_Correction_Factor_Modules.py:279-282 | The dictionary holds exactly the names that occur in the pairs. |
| `Geometry.DictOfLastWins` | Shading_Correction_Factor_Modules.py:281-282 | A name entered several times keeps its last value. |
| `Geometry.EnterPairs` | Shading_Correction_Factor_Modules.py:279-282 | The loop over the pairs builds exactly `DictOf` of them. |
| `Geometry.TableWellFormed` | Shading_Correction_Factor_Modules.py:284-429 | The 18 field names are distinct. Each attachment offset is checked after its parent, and its parent is an optional length. The output order is a permutation of the 18 fields. |
| `Geometry.NamesDistinct` | Shading_Correction_Factor_Modules.py:284-420 | The 18 field names are pairwise distinct. |
| `Geometry.KindsWellFormed` | Shading_Correction_Factor_Modules.py:356-420 | Each attachment offset refers to an earlier optional field as its default and cap. |
| `Geometry.OutputOrderInjective` | Shading_Correction_Factor_Modules.py:422-429 | The output order names each of the 18 fields exactly once. |
| `Geometry.GetOr` | Shading_Correction_Factor_Modules.py:284-288 | A missing name reads as the default, a present one as its value. |
| `Geometry.Rejection` | Shading_Correction_Factor_Modules.py:284-420 | A rejected field fails as missing when absent and as invalid, with its value, when present. |
| `Geometry.ValueProperties` | Shading_Correction_Factor_Modules.py:284-420 | An accepted required length is its given value and positive. An optional length is its value or 0, and not negative once accepted. An accepted offset is its value when it is at most its parent, and otherwise the parent. |
| `Geometry.FirstRejected` | Shading_Correction_Factor_Modules.py:284-420 | The result is the first rejected field from `from` on, or 18 when none is rejected. |
| `Geometry.Assemble` | Shading_Correction_Factor_Modules.py:422-429 | Entry k of the output list is the validated field named at position k of the output order. |
| `Geometry.Resolve` | Shading_Correction_Factor_Modules.py:277-431 | Validation succeeds exactly when no field is rejected. Entry k of the result is the validated value of the field at position k of the output order. |
| `Geometry.Validated` | Shading_Correction_Factor_Modules.py:284-420 | The 18 validated values, field by field. |
| `Geometry.ResolveValid` | Shading_Correction_Factor_Modules.py:284-420 | A validated geometry has positive X2 and Y2, no negative length, and every offset between 0 and its parent. |
| `Geometry.ResolveFieldByField` | Shading_Correction_Factor_Modules.py:284-420 | X2 and Y2 are as given. Missing X1, X3, Y1, Y3 and depths become 0. Each offset falls back to its parent when it is missing or larger than the parent. |
| `Geometry.CheckField` | Shading_Correction_Factor_Modules.py:284-420 | One field check fails exactly when the field is rejected, with that field's error. Otherwise it writes the field's validated value into the dictionary. |
| `Geometry.CheckSeesRaw` | Shading_Correction_Factor_Modules.py:284-420 | A field check reads only the field and its parent, so a dictionary that agrees with the input on those decides the same. |
| `Geometry.ValidateFields` | Shading_Correction_Factor_Modules.py:284-420 | The in-place checks fail exactly when some field is rejected, with the first rejected field's error. On success every field holds its validated value. |
| `Geometry.FirstRejectedAt` | Shading_Correction_Factor_Modules.py:284-420 | When field k is the first rejected one, validation fails with field k's error. |
| `Geometry.SetWSSize` | Shading_Correction_Factor_Modules.py:277-431 | Entering the pairs, validating in place and listing the fields gives exactly `Resolve` of the entered dictionary, the error included. |
| `Shadow.RegionIsStripIntegral` | Shading_Correction_Factor_Modules.py:489-498 | The three-case shadow formula equals the integral over depth of the shaded strip widths, for every quadrant and every positive reach. |
| `Shadow.TipInsideIsStrips` | Shading_Correction_Factor_Modules.py:491-492 | The case with the shadow's tip inside the quadrant is the strip integral. |
| `Shadow.TriangleIsStrips` | Shading_Correction_Factor_Modules.py:493-494 | The triangular case is the strip integral. |
| `Shadow.TrapezoidIsStrips` | Shading_Correction_Factor_Modules.py:495-496 | The trapezoidal case is the strip integral. |
| `Shadow.RegionBounds` | Shading_Correction_Factor_Modules.py:489-498 | For a quadrant of non-negative sides and a positive reach, the shadow lies between 0 and the quadrant's area. |
| `Shadow.TriangleBounds` | Shading_Correction_Factor_Modules.py:493-494 | The triangular case lies between 0 and the quadrant's area. |
| `Shadow.TrapezoidBounds` | Shading_Correction_Factor_Modules.py:495-496 | The trapezoidal case lies between 0 and the quadrant's area. |
| `Shadow.DeviceShadowBounds` | Shading_Correction_Factor_Modules.py:473-486 | A device never hides a negative area or more than its quadrant, including the no-shadow case. |
| `Shadow.Clamp` | Shading_Correction_Factor_Modules.py:597 | The clamped value is never negative, never above a non-negative cap, and unchanged when it already lies within [0, cap]. |
| `Shadow.SunlitPlus` | Shading_Correction_Factor_Modules.py:580-601 | The sunlit area with the sun on the x+ side lies within [0, X2 * Y2] and is 0 outside that side. |
| `Shadow.SunlitMinus` | Shading_Correction_Factor_Modules.py:743-764 | The sunlit area with the sun on the x- side lies within [0, X2 * Y2] and is 0 outside that side. |
| `Shadow.SunlitArea` | Shading_Correction_Factor_Modules.py:778-787 | The sunlit area lies within [0, X2 * Y2] and is 0 when the sun is down or behind the window. Azimuths in (-90, 0) use the x+ formula and azimuths in [0, 90) the x- formula. |
| `Shadow.ZeroDepthPlus` | Shading_Correction_Factor_Modules.py:481-482 | With no overhang depth and no x+ fin depth the inclusion-exclusion sum is exactly X2 * Y2. The whole window is sunlit for the sun on the x+ side. |
| `Shadow.ZeroDepthMinus` | Shading_Correction_Factor_Modules.py:656-657 | With no overhang depth and no x- fin depth the sum is exactly X2 * Y2. The whole window is sunlit for the sun on the x- side. |
| `Shadow.Mirror` | Shading_Correction_Factor_Modules.py:647-661 | Mirroring exchanges the x+ and x- dimensions and keeps the window's size. |
| `Shadow.SumMirror` | Shading_Correction_Factor_Modules.py:743-759 | The x- sum of a geometry is the x+ sum of its mirror image, for any shadow function. |
| `Shadow.MirrorOverhang` | Shading_Correction_Factor_Modules.py:647-661 | The overhang quadrant for the sun on the x- side is the x+ quadrant of the mirror image at the mirrored corner. |
| `Shadow.MirrorFin` | Shading_Correction_Factor_Modules.py:712-726 | The same holds for the side fin. |
| `Shadow.OverhangHalfShaded` | Shading_Correction_Factor_Modules.py:580-601 | The 1 m square window `SquareUnderOverhang`, under a 1 m overhang and with the sun at 45 degrees, is half sunlit. |
| `ViewFactor.FaOrientation` | Shading_Correction_Factor_Modules.py:830-837 | A degenerate rectangle contributes 0, and swapping either side's ends changes the sign. |
| `ViewFactor.PhiYp` | Shading_Correction_Factor_Modules.py:857-870 | The sky view factor lies within [0, 0.5]. |
| `ViewFactor.PhiYm` | Shading_Correction_Factor_Modules.py:906-919 | The ground view factor lies within [0, 0.5]. |
| `ViewFactor.GammaYp` | Shading_Correction_Factor_Modules.py:882-886 | The diffuse sky shading coefficient lies within [0, 1]. |
| `ViewFactor.GammaYm` | Shading_Correction_Factor_Modules.py:931-935 | The reflected shading coefficient lies within [0, 1]. |
| `Periods.PeriodTag` | Shading_Correction_Factor_Modules.py:1023-1034 | The tag is 0, 1 or 2. |
| `Periods.PeriodTagWindows` | Shading_Correction_Factor_Modules.py:1023-1034 | A code in the cooling window gets 2. Failing that, a code in the heating window gets 1, and any other code 0. A window whose start is after its end wraps around the year. Cooling wins on overlap. |
| `Periods.Tagged` | Shading_Correction_Factor_Modules.py:1022-1034 | Every record keeps its code and irradiation and gets its code's tag. |
| `Periods.TaggedTags` | Shading_Correction_Factor_Modules.py:1022-1034 | Every tag after tagging is 0, 1 or 2. |
| `Periods.TagPeriods` | Shading_Correction_Factor_Modules.py:1022-1034 | The in-place loop leaves the records equal to `Tagged` of the old records. |
| `Apportion.Positives` | Shading_Correction_Factor_Modules.py:1078 | The count of positive samples is at most their number, and equals it when all are positive. |
| `Apportion.PositivesAppend` | Shading_Correction_Factor_Modules.py:1078 | The count is additive over concatenation. |
| `Apportion.EdgesAndInterior` | Shading_Correction_Factor_Modules.py:1078-1079 | The half-weighted count is the interior count plus half of each positive end sample. |
| `Apportion.HalfWeightedRange` | Shading_Correction_Factor_Modules.py:1073-1079 | The count lies within [0, ndt] and equals ndt when every sample is positive. |
| `Apportion.Samples` | Shading_Correction_Factor_Modules.py:1076-1077 | There are ndt + 1 samples, at the times nHour + m / ndt for m from -ndt / 2 to ndt / 2. |
| `Apportion.SunlitCount` | Shading_Correction_Factor_Modules.py:1064-1095 | For ndt = 1 the count is 1 when the sun is up at the hour and 0 otherwise. For a positive even ndt it is the half-weighted count. Any other ndt fails with the subdivision error. |
| `Apportion.SunlitCountRange` | Shading_Correction_Factor_Modules.py:1073-1079 | For a positive even ndt the count lies within [0, ndt]. |
| `Apportion.SdhmNonNegative` | Shading_Correction_Factor_Modules.py:1108-1128 | Non-negative totals and counts give a non-negative share, and so a non-negative irradiation on the horizontal. |
| `Apportion.SdhmCases` | Shading_Correction_Factor_Modules.py:1111-1127 | With the sun down the share is 0. Before the half-way step it is this hour's share and after it the next hour's. At the half-way step it is the mean of both. |
| `Apportion.SdhmSplits` | Shading_Correction_Factor_Modules.py:1111-1114 | A step's share is the sum of what it receives from this hour and from the next, and a count of 0 contributes nothing. |
| `Apportion.Receipts` | Shading_Correction_Factor_Modules.py:1111-1114 | One receipt per sample of the window around an hour. |
| `Apportion.Weights` | Shading_Correction_Factor_Modules.py:1078-1079 | One weight per sample. |
| `Apportion.ReceivedIsShare` | Shading_Correction_Factor_Modules.py:1111-1114 | Each sample receives the hour's share times its own sun-up weight. |
| `Apportion.Scaled` | Shading_Correction_Factor_Modules.py:1111-1114 | Scaling keeps the length. |
| `Apportion.SumScaled` | Shading_Correction_Factor_Modules.py:1111-1114 | The sum of scaled weights is the factor times the sum of the weights. |
| `Apportion.WeightsPrefix` | Shading_Correction_Factor_Modules.py:1078-1079 | Each prefix of the weights sums to the count over that prefix, with the first sample at half weight. |
| `Apportion.WeightsWhole` | Shading_Correction_Factor_Modules.py:1078-1079 | The weights sum to the half-weighted count. |
| `Apportion.WindowTotalWhole` | Shading_Correction_Factor_Modules.py:1078-1114 | The receipts of the window sum to the share times the half-weighted count. |
| `Apportion.ReceiptsAreShares` | Shading_Correction_Factor_Modules.py:1111-1114 | The receipts are the weights scaled by the share. |
| `Apportion.ApportionConserves` | Shading_Correction_Factor_Modules.py:1064-1114 | The samples of the window around an hour receive exactly that hour's total when its count is positive, and nothing when the count is 0. This is stated for one window of samples. In the second pass, the samples of the hour after midnight are taken on the earlier day, which the program's comment at Shading_Correction_Factor_Modules.py:1074-1075 accepts. So the statement does not carry over to that hour. |
| `Terms.CosTheta` | Shading_Correction_Factor_Modules.py:1190-1194 | The incidence cosine is the product, floored at 0. |
| `Terms.CosThetaWithinUnit` | Shading_Correction_Factor_Modules.py:1190-1194 | For cos h in [0, 1] and a cosine in [-1, 1], the incidence cosine lies within [0, 1]. |
| `Terms.EtaUpToShift` | Shading_Correction_Factor_Modules.py:1197-1201 | Prepending a coefficient to the polynomial adds it and multiplies the rest by the cosine. |
| `Terms.EtaIsHorner` | Shading_Correction_Factor_Modules.py:1197-1201 | The sum of k_i * c^i equals its Horner form. |
| `Terms.EtaAtGrazing` | Shading_Correction_Factor_Modules.py:1197-1201 | At cosine 0 the characteristic is the constant coefficient. |
| `Terms.EtaAtNormal` | Shading_Correction_Factor_Modules.py:1197-1201 | At cosine 1 the characteristic is the sum of the coefficients. |
| `Terms.HornerAtOne` | Shading_Correction_Factor_Modules.py:1197-1201 | The Horner form at 1 is the sum of the coefficients. |
| `Terms.TermsScale` | Shading_Correction_Factor_Modules.py:1264-1307 | Each numerator term is its denominator term scaled: by the sunlit share for the direct part, and by the shading coefficients for the sky and the ground. |
| `Terms.Scf00Loss` | Shading_Correction_Factor_Modules.py:1311-1324 | The numerator of a step is its denominator less the direct irradiation on the shaded part and the unshaded shares of the diffuse parts. |
| `Terms.Scf00Unshaded` | Shading_Correction_Factor_Modules.py:1311-1324 | Without shading a step's numerator equals its denominator. |
| `Terms.Scf00Bounds` | Shading_Correction_Factor_Modules.py:1311-1324 | With non-negative data, a sunlit area within the window and coefficients within [0, 1], the numerator lies between 0 and the denominator. |
| `Grid.PyIndex` | Shading_Correction_Factor_Modules.py:1385-1389 | A Python index in [-n, n) reaches a cell in [0, n), itself or itself plus n. |
| `Grid.AddedCounts` | Shading_Correction_Factor_Modules.py:1385-1389 | What a step adds to a cell is its value times the number of the four targets that are that cell. |
| `Grid.Ratio` | Shading_Correction_Factor_Modules.py:1397-1402 | The ratio times a non-zero denominator gives back the numerator, and a zero denominator gives 0. |
| `Grid.AddSample` | Shading_Correction_Factor_Modules.py:1385-1389 | The four `+=` add the value to the period and month rows at the hour column and the day column of one table, and change nothing else. |
| `Grid.AddStep` | Shading_Correction_Factor_Modules.py:1371-1389 | A step adds its numerator and denominator to their tables at the cells of its tag, its month and its hour bucket. |
| `Grid.AddHour` | Shading_Correction_Factor_Modules.py:1361-1389 | An hour adds each of its steps. |
| `Grid.Finalise` | Shading_Correction_Factor_Modules.py:1397-1402 | The ratio loop sets every cell of the third table to the ratio and leaves the first two unchanged. |
| `Grid.Output` | Shading_Correction_Factor_Modules.py:1351-1404 | Every cell of the first two tables is the sum of the values of all steps that reach it. Every cell of the third is their ratio. |
| `Grid.FourDistinctCells` | Shading_Correction_Factor_Modules.py:1382-1389 | For tags 0 .. 2, months 1 .. 12 and hour buckets 0 .. 24 the four targets of a step are distinct cells. |
| `Grid.StepsOverSplit` | Shading_Correction_Factor_Modules.py:1371-1389 | A sum over the steps of an hour splits at its last step. |
| `Grid.CellsSumSplit` | Shading_Correction_Factor_Modules.py:1361-1389 | A sum over the hours splits at its last hour. |
| `Grid.StepsOverAgree` | Shading_Correction_Factor_Modules.py:1371-1389 | Two sets of cells that receive the same share of every step receive the same sum over an hour. |
| `Grid.StepsOverZero` | Shading_Correction_Factor_Modules.py:1371-1389 | An empty sum over steps is 0. |
| `Grid.CellsSumZero` | Shading_Correction_Factor_Modules.py:1361-1389 | An empty sum over hours is 0. |
| `Grid.CellsSumAgree` | Shading_Correction_Factor_Modules.py:1361-1389 | Cells that receive the same share of every step receive the same annual sum. |
| `Grid.Columns` | Shading_Correction_Factor_Modules.py:1352-1358 | The cells of one row in the hour columns 0 .. n - 1. |
| `Grid.ColumnsShares` | Shading_Correction_Factor_Modules.py:1385-1389 | Across the hour columns of a row, a step is received once when it reaches the row. |
| `Grid.DayColumnIsSumOfHours` | Shading_Correction_Factor_Modules.py:1385-1389 | The day column of every row equals the sum of its hour columns 0 .. 24. |
| `Grid.PeriodsUpTo` | Shading_Correction_Factor_Modules.py:1352-1358 | The cells of the three period rows in one column. |
| `Grid.MonthsUpTo` | Shading_Correction_Factor_Modules.py:1352-1358 | The cells of the twelve month rows in one column. |
| `Grid.PeriodsShare` | Shading_Correction_Factor_Modules.py:1382-1389 | A step with a tag in 0 .. 2 is received exactly once in the three period rows. |
| `Grid.MonthsShare` | Shading_Correction_Factor_Modules.py:1367-1389 | A step with a month in 1 .. 12 is received exactly once in the twelve month rows. |
| `Grid.PeriodsMatchMonths` | Shading_Correction_Factor_Modules.py:1361-1389 | In every column the three period rows sum to the same total as the twelve month rows. |
| `Grid.StepSumOrdered` | Shading_Correction_Factor_Modules.py:1371-1389 | If every step's numerator lies between 0 and its denominator, so do the sums over an hour. |
| `Grid.HourSumOrdered` | Shading_Correction_Factor_Modules.py:1361-1389 | The same holds for the sums over the hours. |
| `Grid.FactorWithinUnit` | Shading_Correction_Factor_Modules.py:1397-1402 | Under that condition every cell's numerator lies between 0 and its denominator, and the factor lies within [0, 1]. |
| `Sweep.HourCount` | Shading_Correction_Factor_Main.py:73-83 | The sun-up count of an hour lies within [0, ndt]. |
| `Sweep.CountSunlitSteps` | Shading_Correction_Factor_Main.py:73-83 | The first pass succeeds exactly for a valid number of steps. On success it fills all 8761 entries 0 .. 8760 with their hour's count; otherwise it returns the subdivision error. |
| `Sweep.Counts` | Shading_Correction_Factor_Main.py:73-83 | There are 8761 counts, each within [0, ndt]. |
| `Sweep.SunlitAreaAt` | Shading_Correction_Factor_Modules.py:778-787 | The area lies within [0, Awj] and is 0 when the sun is down or behind the window. |
| `Sweep.SunlitAreaOf` | Shading_Correction_Factor_Main.py:144 | The same holds for every sun position. |
| `Sweep.StepIrradiationSymmetric` | Shading_Correction_Factor_Main.py:129-132 | The direct and diffuse irradiation of a step are apportioned alike and differ only in the record column they read. Exchanging the two columns of every record exchanges the two step irradiations. |
| `Sweep.FillHour` | Shading_Correction_Factor_Main.py:102-150 | Every step of the hour is written, and no other hour changes. |
| `Sweep.FillSamples` | Shading_Correction_Factor_Main.py:86-150 | Every step of the hours 0 .. 8759 is written once with its contribution. Row 8760 keeps its zeros. |
| `Sweep.StepWithinDenominator` | Shading_Correction_Factor_Modules.py:1311-1324 | With non-negative irradiation, a characteristic not negative on [0, 1] and the cosines of real angles, each step's numerator lies between 0 and its denominator. |
| `Sweep.ShadingCorrectionFactor` | Shading_Correction_Factor_Main.py:20-154 | The records are tagged in place. An invalid azimuth or number of steps fails first with its error, and nothing else fails. On success, every step holds its contribution, computed with the window azimuth, coefficients and area fixed before the passes. The grid cells are the sums and ratios of `Grid.Output`. With non-negative irradiation, a characteristic not negative on [0, 1], a positive window area and the cosines of real angles, every factor lies within [0, 1]. |
| `Sweep.CubicCharacteristicAdmitted` | Shading_Correction_Factor_Modules.py:1197-1201 | A characteristic such as c - c^3, which is negative only above c = 1, meets that hypothesis. |
| `Sweep.FactorsWithinUnit` | Shading_Correction_Factor_Modules.py:1397-1402 | Contributions computed under the same hypotheses give factors within [0, 1] in every cell. |
| `Numerics.Abs` | Shading_Correction_Factor_Modules.py:478 | The absolute value is non-negative and is the value or its negation. |

## Left out

- File and CSV loading are not modelled: `input_Point`, the CSV read and its header check in
  `input_SRData`, and `input_IncidentAngleCharacteristics`. Their results are parameters of
  `Sweep.ShadingCorrectionFactor`: the records array, the period dates, the coefficients
  `ks`, the characteristic `etaIsr` of diffuse irradiation, the azimuth specification and
  the geometry.
- The solar position is not modelled: declination, equation of time, hour angle, sin h,
  cos h, the altitude and the solar azimuth. It is the parameter `sun(nDay, tt)`.
- The transcendental functions are values (`Numerics.Transcendentals`): pi, square root, arc
  tangent, logarithm, tangent and cosine in degrees. Only their guards and clamps are
  modelled, with the properties `Sound` names.
- `sys.exit` is modelled as an `Err` result. The process stopping is not modelled.
- Floating-point arithmetic is modelled as exact `real` arithmetic. Rounding and the order of
  summation are not modelled.
- `Azimuth.Azwj`: for an input that is neither a compass label nor a number, `float()` raises
  a `ValueError` (Shading_Correction_Factor_Modules.py:229). The model returns
  `Err(InvalidAzimuth)` instead. `sys.exit` (line 233) is reached only for a number outside
  (-180, 180], and that is also `Err(InvalidAzimuth)`. A numeric string such as "45" is not
  parsed: it becomes such an error, not the angle 45. The value of an accepted compass label is
  stated by `Azimuth.LabelAzimuth`.
- The `== ""` branches of `set_WSSize` are not modelled. They are unreachable, because
  comparing "" with 0 fails before them.
- The flat list input of `set_WSSize`, with names and values alternating, is modelled as a
  sequence of (name, value) pairs. An odd-length list is not modelled.
- `Sweep.ShadingCorrectionFactor` takes the validated geometry and requires only a non-zero
  window area. It does not call `set_WSSize`, because the main calculation receives the
  18-value list already built.
- `Sweep.ShadingCorrectionFactor` requires every record's month to be a valid Python row
  index (-15 .. 14). An out-of-range month is an `IndexError` in the program, and it is not
  modelled as an error result.
- The month is computed but not used in the second pass of the main calculation. It is left
  out there.
- `Sweep.ShadingCorrectionFactor`: the bound of the factors within [0, 1] is stated only
  under these conditions:
  - the irradiation is non-negative;
  - the glazing's characteristic is non-negative for cosines in [0, 1], and `etaIsr` is
    non-negative;
  - the window area is positive;
  - the solar position and the cosine are those of real angles (`BoundedCosines`: cos h in
    [0, 1], every cosine in [-1, 1]).

  The program promises nothing for other data.
- `Shadow.SumMirror`: the mirror symmetry is stated for the inclusion-exclusion sums and the
  device quadrants. It is not stated for the clamped sunlit areas.
- The records are modelled as an array written in place by the tag loop, which is what the
  program intends. Whether the frame's values write through is a property of the frame
  library and is not modelled.
