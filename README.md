# Septic pumping-interval engine

This project models the calculation core of a septic-tank pumping planner. It covers four steps:

- **Base interval.** It looks up the recommended interval in years between pumpings for a tank capacity in gallons and a household size. The lookup uses a two-dimensional table. Between table points it interpolates linearly or bilinearly. Outside the tabulated tank range it falls back to the edge row.
- **Adjustments.** A fixed sequence of adjustment factors is applied to the base interval. Each factor fires on a form answer (garbage disposal, water usage, laundry frequency and habits, water softener, system age). Each factor that fires multiplies the running interval and is recorded. The result is clamped to 1-10 years and rounded to one decimal.
- **Next date.** The next pumping date is the last pumped date with the interval added to its year.
- **Risk level.** The risk band is Low, Moderate or High, with its display colours.

The model is written in Dafny over exact reals and unbounded integers, in five modules:

- `Interpolation`: the linear and bilinear interpolation formulas and their bounds.
- `BaseInterval`: the table resolver.
  - The table is a parameter, `map<int, map<int, real>>`. A well-formed table has at least one row and only positive cells.
  - The empty `Math.max`/`Math.min` brackets (`-Infinity`/`+Infinity`) are the datatype `Extended`.
  - Every path that yields `undefined` or `NaN` yields `None`.
- `Adjustments`: the adjustment pipeline.
  - The specification function `Adjust` folds the seven stages (`Apply`, `Run`).
  - The method `ApplyAdjustments` follows the original's sequence of `if` blocks, one `AdjustBy` step per block. It is proved equal to `Adjust`.
  - Lemmas state which factors are recorded, in which order, the product they form, and the clamp and rounding bounds.
- `Schedule`: the risk bands and the next pumping date.
  - A class `JsDate` models the mutable date object: `setFullYear` truncates the year and rolls February 29 over to March 1 in a common year.
  - The method `CalculateNextPumpDate` is proved equal to the function `NextPumpDate`.
- `PumpingFrequency`: the top-level composition.
  - The method `CalculatePumpingFrequency` is proved equal to the function `Frequency`.
  - `FrequencyProperties` collects what a result promises.

Two behaviours of the code are worth stating plainly:

- The input form stores the garbage-disposal and water-softener answers as booleans (`src/pages/InputForm.jsx:100`, `:103`). The adjustment pipeline fires those two stages only on the string `'yes'` (`src/logic/calculatePumpingFrequency.js:82`, `:129`). The model keeps a form answer as a `FormValue` (absent, text or boolean) and fires only on `Text("yes")`. `BooleanTogglesNeverFire` states the consequence: a boolean answer never fires.
- `setFullYear` (`src/logic/calculatePumpingFrequency.js:164`) keeps month and day, except that February 29 carries over into March 1 when the target year is a common year. `WithYear` and `WholeYearsAdded` state this.

## Model

| member | source | states |
|---|---|---|
| Interpolation.Lerp | src/logic/calculatePumpingFrequency.js:72-73 | linear interpolation between two cells stays between them (strictly inside for an interior point and distinct cells) and hits each endpoint exactly |
| Interpolation.BlendIsLerp | src/logic/calculatePumpingFrequency.js:57-58 | the weighted form of the bilinear step equals the offset form used by the one-axis cases |
| Interpolation.Blend | src/logic/calculatePumpingFrequency.js:57-61 | the weighted interpolation stays between its two values and hits each endpoint exactly |
| Interpolation.Bilinear | src/logic/calculatePumpingFrequency.js:49-66 | the bilinear blend of four corners lies between their minimum and their maximum |
| Interpolation.BilinearAtSmallerTank | src/logic/calculatePumpingFrequency.js:57-65 | at the smaller tank size the bilinear blend reduces to interpolation along household size in that row |
| Interpolation.BilinearMidpoint | src/logic/calculatePumpingFrequency.js:57-65 | at the midpoint of both brackets the bilinear blend is the mean of the four corners |
| BaseInterval.Largest | src/logic/calculatePumpingFrequency.js:15 | the maximum of a nonempty key set is a member and bounds every key |
| BaseInterval.Smallest | src/logic/calculatePumpingFrequency.js:16 | the minimum of a nonempty key set is a member and is below every key |
| BaseInterval.ClosestSmaller | src/logic/calculatePumpingFrequency.js:15 | the lower bracket is -Infinity exactly when every key exceeds the query; otherwise it is the greatest key not above it |
| BaseInterval.ClosestLarger | src/logic/calculatePumpingFrequency.js:16 | the upper bracket is +Infinity exactly when every key is below the query; otherwise it is the least key not below it |
| BaseInterval.Cell | src/logic/calculatePumpingFrequency.js:51-54 | a bracket-cell read (the corner reads here, and likewise at lines 37, 41-42 and 69-70) is present exactly when the tank key is tabulated and the household bracket is finite and tabulated in that row, and then it is that positive table value |
| BaseInterval.EdgeLookup | src/logic/calculatePumpingFrequency.js:20-21 | the edge row lookup is undefined exactly when neither column min(6, people) nor column 6 exists; a defined result is positive |
| BaseInterval.CalculateBaseInterval | src/logic/calculatePumpingFrequency.js:4-74 | every base interval the resolver produces is positive |
| BaseInterval.ExactHit | src/logic/calculatePumpingFrequency.js:9-11 | a tabulated (tank, people) pair returns its cell unchanged |
| BaseInterval.BelowRangeUsesSmallestRow | src/logic/calculatePumpingFrequency.js:19-22 | below the smallest tank size the smallest row is read at min(6, people), else at column 6, else undefined |
| BaseInterval.AboveRangeUsesLargestRow | src/logic/calculatePumpingFrequency.js:24-27 | above the largest tank size the largest row is read at min(6, people), else at column 6, else undefined |
| BaseInterval.BracketsFound | src/logic/calculatePumpingFrequency.js:14-16 | neighbouring keys that enclose the query strictly are exactly the brackets the resolver picks |
| BaseInterval.EnclosesFound | src/logic/calculatePumpingFrequency.js:14-16 | neighbouring keys that enclose the query, or the query itself when it is a key, are exactly the brackets the resolver picks |
| BaseInterval.TankInterpolationBetween | src/logic/calculatePumpingFrequency.js:35-46 | between two tank sizes, at a household size tabulated in both, the result is defined and lies between the two cells, strictly when they differ |
| BaseInterval.PeopleInterpolationBetween | src/logic/calculatePumpingFrequency.js:68-73 | at a tabulated tank size, between two household sizes, the result is defined and lies between the two cells, strictly when they differ |
| BaseInterval.BilinearBetweenCorners | src/logic/calculatePumpingFrequency.js:49-66 | with neither axis tabulated and all four corners present, the result is defined and lies between the corners' minimum and maximum |
| BaseInterval.PeopleOutOfRangeIsUndefined | src/logic/calculatePumpingFrequency.js:30-73 | inside the tank range, its end keys included, a household size beyond the smaller bracket row's keys makes the result undefined |
| BaseInterval.EdgeColumnOnlyAboveLargestTank | src/logic/calculatePumpingFrequency.js:24-32 | at the largest tabulated tank size a household beyond every column is undefined, while a tank one gallon larger reads column 6 of that row |
| BaseInterval.DefinedWithinPeopleRange | src/logic/calculatePumpingFrequency.js:4-74 | on a rectangular table whose rows hold column 6, every household size within the column range resolves for every tank size |
| Schedule.DetermineRiskLevel | src/logic/calculatePumpingFrequency.js:170-174 | the band is Low iff interval >= 5, Moderate iff 3 <= interval < 5, High iff interval < 3 |
| Schedule.RiskMonotone | src/logic/calculatePumpingFrequency.js:170-174 | a longer interval never has a more severe band |
| Schedule.RiskMetadataFollowsBand | src/logic/calculatePumpingFrequency.js:171-173 | the colours are determined by the band alone |
| Schedule.DaysInMonth | src/logic/calculatePumpingFrequency.js:164 | months have 28-31 days; February has 29 exactly in leap years |
| Schedule.TruncateTowardZero | src/logic/calculatePumpingFrequency.js:164 | the year argument is truncated toward zero |
| Schedule.WithYear | src/logic/calculatePumpingFrequency.js:164 | changing the year gives a valid date in that year with month and day kept, except that February 29 becomes March 1 in a common year |
| Schedule.JsDate.constructor | src/logic/calculatePumpingFrequency.js:163 | a new date object holds the given calendar date |
| Schedule.JsDate.SetFullYear | src/logic/calculatePumpingFrequency.js:164 | setting the year updates the object in place to the old date moved to the truncated year |
| Schedule.NextPumpDate | src/logic/calculatePumpingFrequency.js:159-167 | the next date is absent exactly when the last pumped date is absent, and it is a valid calendar date |
| Schedule.CalculateNextPumpDate | src/logic/calculatePumpingFrequency.js:159-167 | the imperative date computation through the date object equals the next-date specification |
| Schedule.WholeYearsAdded | src/logic/calculatePumpingFrequency.js:164 | the year advances by the whole years of the interval; month and day are kept, except that February 29 goes to March 1 in a common year |
| Schedule.FractionIgnored | src/logic/calculatePumpingFrequency.js:164 | for non-negative years and intervals, the fractional part of the interval does not change the date |
| Adjustments.FiredMembers | src/logic/calculatePumpingFrequency.js:80-147 | a stage is among the fired ones exactly when it is in the stage list and its condition holds, and there are no more fired stages than stages |
| Adjustments.RecordsAt | src/logic/calculatePumpingFrequency.js:84-145 | the k-th record is the name, multiplier and description of the k-th fired stage |
| Adjustments.Clamp | src/logic/calculatePumpingFrequency.js:149 | the clamped interval lies in [1, 10], equals the input inside that range, and is 1 below it and 10 above it |
| Adjustments.RoundTenth | src/logic/calculatePumpingFrequency.js:152 | rounding to one decimal moves a value by at most 0.05 and gives a whole number of tenths |
| Adjustments.RoundTenthInRange | src/logic/calculatePumpingFrequency.js:149-152 | rounding a clamped interval keeps it within [1, 10] |
| Adjustments.AtMostSixFactors | src/logic/calculatePumpingFrequency.js:92-106 | because the two water-usage stages exclude each other, at most six of the seven stages fire |
| Adjustments.AtMostOneWaterUsageFactor | src/logic/calculatePumpingFrequency.js:92-106 | the low and high water-usage factors are never both recorded |
| Adjustments.ScaleMultiplies | src/logic/calculatePumpingFrequency.js:83-140 | each stage scales the interval by its recorded multiplier |
| Adjustments.RunRecordsFired | src/logic/calculatePumpingFrequency.js:80-147 | running the stages appends exactly the records of the fired stages and multiplies the interval by their product |
| Adjustments.AdjustProperties | src/logic/calculatePumpingFrequency.js:77-156 | the factors are the fired stages' records (at most six); the final interval lies in [1, 10] within 0.05 of the clamped product of base and multipliers; the reported base is within 0.05 of the input |
| Adjustments.AdjustBy | src/logic/calculatePumpingFrequency.js:82-89 | one adjustment block multiplies the interval and appends the factor exactly when its condition holds |
| Adjustments.ApplyAdjustments | src/logic/calculatePumpingFrequency.js:77-156 | the sequence of adjustment blocks, clamp and rounding computes exactly the pipeline specification |
| Adjustments.FactorsInPipelineOrder | src/logic/calculatePumpingFrequency.js:80-147 | the recorded factors follow the fixed stage order with strictly increasing rank, so no stage is recorded twice |
| Adjustments.NoFactorsIffNothingFires | src/logic/calculatePumpingFrequency.js:77-156 | the factor list is empty iff no condition holds, and then an in-range base comes back as the final interval, rounded |
| Adjustments.ChainIsBaseIffNothingFires | src/logic/calculatePumpingFrequency.js:80-147 | the seven adjustment blocks leave a positive interval unchanged if and only if no condition holds |
| Adjustments.ProductOneOnlyWhenNothingFires | src/logic/calculatePumpingFrequency.js:80-147 | for a positive base, the base times the recorded multipliers equals the base if and only if no factor is recorded, since no product of multipliers that can fire together is 1 |
| Adjustments.BooleanTogglesNeverFire | src/logic/calculatePumpingFrequency.js:82 | boolean garbage-disposal and softener answers never fire, since only the string "yes" does |
| Adjustments.GarbageDisposalAndHighWaterUsage | src/logic/calculatePumpingFrequency.js:82-105 | with only a disposal and high water usage, the factors are those two in order and the final interval is the clamped base x 0.595, rounded |
| PumpingFrequency.CalculatePumpingFrequency | src/logic/calculatePumpingFrequency.js:177-195 | the composed calculation equals the specification function: the resolver, then the pipeline, then date and risk from the rounded final interval |
| PumpingFrequency.FrequencyProperties | src/logic/calculatePumpingFrequency.js:177-195 | a result exists iff the base resolves; its final interval is in [1, 10] within 0.05 of the clamped product; the factors are the fired records; the risk band and next date come from the rounded final interval; the inputs are echoed |
| PumpingFrequency.TabulatedWithoutAdjustments | src/logic/calculatePumpingFrequency.js:177-195 | a tabulated in-range cell with no factor firing is reported, rounded, as both base and final interval with no factors |

## Left out

- The interval table's contents: the table is a parameter, and lemmas state properties for any well-formed table rather than for the shipped data file.
- Parsing of the form: `parseInt` of tank size, household size and system age is taken as already done. An unparsable system age is `None` and never fires. An unparsable size, which would give `NaN`, is not modelled.
- IEEE-754 arithmetic: the model computes over exact reals. Binary rounding of the multipliers and of `toFixed` at exact half-tenths is not modelled, nor are `NaN` intervals.
- CalculateBaseInterval: every `undefined`/`NaN` outcome collapses to `None`, and the top level then returns `None`. The original behaves in three ways instead:
  - An `undefined` base makes `baseInterval.toFixed` throw a `TypeError` (`src/logic/calculatePumpingFrequency.js:154`).
  - A `NaN` base flows on. With a last-pumped date, `setFullYear(NaN)` yields an invalid date and `toISOString()` throws a `RangeError` (lines 164-166).
  - The results page catches either error and sends the user back to the form (`src/pages/ResultsPage.jsx:26-29`).
  - Without a date, the original returns `NaN` intervals with risk level High, since `NaN >= 5` and `NaN >= 3` are false (lines 171-173).
- CalculateBaseInterval: the edge fallback `a || b` is modelled as "the cell if present, else column 6". This equals JavaScript's truthiness only because well-formed cells are positive.
- Non-integer household sizes at the interpolation step: the resolver takes integer sizes, as `parseInt` produces them.
- Date parsing, time zones and the `toISOString().split('T')[0]` formatting: a date is a (year, month, day) value, and the last pumped date is already parsed.
- Schedule.WholeYearsAdded: stated for non-negative years and intervals only, where truncation and floor agree. The truncating year update itself covers every input.
- The system and soil type fields are carried in the inputs but used by no computation, as in the original.
- The surrounding application (forms, local storage, report and PDF export, configuration) is not part of the core.
