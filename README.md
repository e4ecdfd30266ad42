# Oura training predictor — verified model of the calculation core

This project models, in Dafny, the numeric core of a personal fitness
dashboard that reads daily activity and readiness data from an Oura ring:

- **Min-max normalisation** of one table column (`normalize_column`).
- **Training load index**: the per-day sum of five normalised activity
  metrics. It is written into the day table as the new column
  `training_load_index` (`calculate_training_load_index`).
- **Adaptive Karvonen zones**: five fixed bands of the heart-rate reserve,
  scaled by one modifier built from readiness and the acute:chronic
  training-load ratio, clamped to [0.925, 1.075], capped at the whole
  reserve and rounded to beats per minute (`adaptive_karvonen_zone_bounds`).

Files and modules:

- `rounding.dfy` (`Rounding`): Python 3's one-argument `round`, which rounds
  half to even.
- `normalize.dfy` (`Normalization`): the `Cell` type of a pandas float column
  (a number or NaN), the column minimum and maximum (both skip NaN), and
  `NormalizeColumn`.
- `training_load.dfy` (`TrainingLoad`): the load index as a function of five
  columns, and the `Table` class. Its method `CalculateTrainingLoadIndex`
  changes the table in place, as the source changes the caller's DataFrame.
- `karvonen.dfy` (`Karvonen`): the modifier, the zone table as a function,
  the source's loop as the method `AdaptiveKarvonenZoneBounds` proved equal
  to that function, and the zone properties as lemmas.

Modelling decisions:

- Numbers are exact rationals (`real`). Every `round` is `RoundHalfEven`.
- A table column is `seq<Cell>`, where a `Cell` is `Num(x)` or `NaN`, so the
  pandas behaviour is written out. `min` and `max` skip NaN. A column
  without two distinct numbers normalises to NaN at every entry: a constant
  column divides 0 by 0, an all-NaN column stays NaN, and an empty column
  stays empty. Every row of the index is then NaN too, because NaN + x is
  NaN.
- The model follows the code in these cases:
  - The clamp is 0.925 / 1.075, as the code has it. The comment beside it
    says 0.85 / 1.15.
  - A constant column gives NaN at every row (0/0). It is not treated as
    a zero contribution.
  - A negative reserve (`hr_max < hr_rest`) does not collapse the zones
    onto `hr_rest`. Every zone is turned upside down instead
    (`ZonesInvertedBelowRest`).
  - A zero reserve collapses every zone onto `round(hr_rest)`, not onto
    `hr_rest` itself.
- `readiness` is unconstrained. The docstring expects 0–1, but the
  application passes the raw 0–100 readiness score (src/app.py:70, 91).
  `ModifierSaturates` and `RawReadinessIgnored` show the consequence: for
  every readiness of 1 or more and every ratio of at most 1, the modifier is
  1.075, so the zones do not depend on readiness at all.
- A missing input column raises `KeyError` in the source before anything is
  assigned. The model returns `MissingColumn(name)` for the first missing
  column in evaluation order, and the table is left unchanged.

## Model

| member | source | states |
|---|---|---|
| `Rounding.RoundHalfEven` | src/utils/calculations.py:56-57 | the result is an integer within one half of x, and on an exact tie it is the even one (Python 3 `round`) |
| `Rounding.RoundHalfEvenUnique` | src/utils/calculations.py:56-57 | those two properties determine the rounded value uniquely |
| `Rounding.RoundHalfEvenMonotone` | src/utils/calculations.py:56-57 | rounding never reverses the order of two values |
| `Rounding.RoundHalfEvenOfInt` | src/utils/calculations.py:56-57 | an integral value rounds to itself |
| `Normalization.NumMin` | src/utils/calculations.py:9 | `col.min()`: NaN exactly when the column holds no number; otherwise a number of the column that is at most every number in it |
| `Normalization.NumMax` | src/utils/calculations.py:9 | `col.max()`: NaN exactly when the column holds no number; otherwise a number of the column that is at least every number in it |
| `Normalization.Scale` | src/utils/calculations.py:9 | `(x - min) / (max - min)` lies in [0, 1], and it is 0 exactly at the minimum and 1 exactly at the maximum |
| `Normalization.QuotientBounds` | src/utils/calculations.py:9 | a quotient whose numerator lies between 0 and the positive denominator is in [0, 1], and it is 0 or 1 exactly when the numerator is 0 or the denominator |
| `Normalization.HasSpread` | src/utils/calculations.py:9 | the denominator `max - min` is a non-zero number; what this means for the column is stated by `HasSpreadIff` |
| `Normalization.NormalizeColumn` | src/utils/calculations.py:7-9 | same length as the input; an entry is a number exactly when the input entry is a number and the column has spread; every number lies in [0, 1]; it is 0 exactly at the column minimum and 1 exactly at the column maximum |
| `Normalization.HasSpreadIff` | src/utils/calculations.py:9 | the denominator `max - min` is non-zero exactly when two numbers of the column differ |
| `Normalization.NormalizeReachesBothEnds` | src/utils/calculations.py:7-9 | with spread, some row normalises to exactly 0 and some row to exactly 1 |
| `Normalization.NormalizePreservesOrder` | src/utils/calculations.py:9 | normalisation keeps the order of any two numbers, in both directions |
| `Normalization.ScaleMonotone` | src/utils/calculations.py:9 | the linear map keeps order in both directions |
| `Normalization.NumMinIs` | src/utils/calculations.py:9 | any number of the column that bounds all others from below is the minimum |
| `Normalization.NumMaxIs` | src/utils/calculations.py:9 | any number of the column that bounds all others from above is the maximum |
| `Normalization.NormalizeIdempotent` | src/utils/calculations.py:7-9 | normalising a normalised column changes nothing |
| `Normalization.NormalizedExtremes` | src/utils/calculations.py:7-9 | with spread, the normalised column has minimum exactly 0 and maximum exactly 1 |
| `Normalization.ScaleUnit` | src/utils/calculations.py:9 | normalising against a minimum of 0 and a maximum of 1 leaves every value unchanged |
| `TrainingLoad.AddCells` | src/utils/calculations.py:115-119 | float addition of two cells: a number exactly when both are numbers, and then their exact sum |
| `TrainingLoad.AddColumns` | src/utils/calculations.py:115-119 | row-by-row addition of two equal-length columns; the length is kept, and each row is the cell sum |
| `TrainingLoad.LoadIndex` | src/utils/calculations.py:114-120 | one value per row; a row is a number exactly when all five inputs are numbers there and all five columns have spread, and that number lies in [0, 5] |
| `TrainingLoad.LoadIndexValue` | src/utils/calculations.py:114-120 | every number of the index is the exact sum of the five normalised terms of its row, in source order |
| `TrainingLoad.Sum5` | src/utils/calculations.py:114-120 | the five-term column sum keeps the length, and each row is the left-to-right cell sum of that row |
| `TrainingLoad.IndexFacts` | src/utils/calculations.py:114-120 | for five columns normalised as `NormalizeColumn` promises: a row of their sum is a number exactly when all five inputs are numbers there and all five columns have spread; it is then the exact sum of the five terms and lies in [0, 5] |
| `TrainingLoad.NormalizedHolds` | src/utils/calculations.py:7-9 | the output of `normalize_column` has the input's length, is a number exactly where the input is and the column has spread, and lies in [0, 1] |
| `TrainingLoad.RowSum` | src/utils/calculations.py:115-119 | five normalised cells sum to a number exactly when all five are numbers, and that sum is in [0, 5] |
| `TrainingLoad.FlatColumnVoidsIndex` | src/utils/calculations.py:114-120 | if any of the five columns lacks spread (a division of zero by zero), every row of the index is NaN |
| `TrainingLoad.SingleDayIndexUndefined` | src/utils/calculations.py:114-120 | a one-day table always gets a NaN index |
| `TrainingLoad.FirstAbsent` | src/utils/calculations.py:115-119 | `Done` exactly when all required columns exist; otherwise the first required column, in reading order, that the table lacks |
| `TrainingLoad.HasInputColumns` | src/utils/calculations.py:115-119 | the table has all five input columns exactly when `FirstAbsent` finds none missing, so the sum is read without a `KeyError` |
| `TrainingLoad.Table.Valid` | src/utils/calculations.py:110-122 | every column of the table has one entry per row |
| `TrainingLoad.Table.constructor` | src/utils/calculations.py:110 | a table built from equal-length columns is valid and holds exactly those columns and that row count |
| `TrainingLoad.Table.CalculateTrainingLoadIndex` | src/utils/calculations.py:110-122 | the outcome is the first missing column, if any, and then the table is unchanged; otherwise exactly the key `training_load_index` is added or overwritten with `LoadIndex` of the five columns, and every other column and the row count stay as they were |
| `Karvonen.Clamp` | src/utils/calculations.py:46 | `max(lo, min(x, hi))` lies in [lo, hi]; it is x inside the range, lo below it and hi above it |
| `Karvonen.Min` | src/utils/calculations.py:46-54 | Python's `min`: at most both arguments and equal to one of them |
| `Karvonen.Max` | src/utils/calculations.py:41-46 | Python's `max`: at least both arguments and equal to one of them |
| `Karvonen.ReadinessMod` | src/utils/calculations.py:40 | readiness 0..1 maps into 0.8..1.2; a readiness of 1 or more gives at least 1.2 |
| `Karvonen.AcrMod` | src/utils/calculations.py:41 | never above 1.1, and exactly 1.1 precisely when the ratio is at most 1 |
| `Karvonen.AcrModNonIncreasing` | src/utils/calculations.py:41 | the ratio term never grows as the ratio grows |
| `Karvonen.Modifier` | src/utils/calculations.py:44-46 | the effective modifier lies in [0.925, 1.075] for all inputs; it equals the raw product whenever that product is already in the range, 0.925 when the product is below it and 1.075 when it is above it |
| `Karvonen.CombinedModifier` | src/utils/calculations.py:40-46 | the source's step-by-step computation of the readiness term, the ratio term, their product and the clamp yields exactly `Modifier` |
| `Karvonen.ModifierSaturates` | src/utils/calculations.py:40-46 | for readiness at least 1 and ratio at most 1, the modifier is exactly 1.075 |
| `Karvonen.RawReadinessIgnored` | src/utils/calculations.py:40-46 | on that input range the zone table is the same for every readiness value |
| `Karvonen.AdjustedFraction` | src/utils/calculations.py:50-54 | the scaled fraction is at most 1.0; it is the plain product whenever that product is at most 1.0, and exactly 1.0 when the product exceeds it |
| `Karvonen.AdjustedFractionMonotone` | src/utils/calculations.py:50-54 | scaling by a positive modifier keeps band endpoints in (0, 1] and in order |
| `Karvonen.CapOnlyAtTop` | src/utils/calculations.py:50-54 | within the clamp range, the 1.0 cap can bind only the upper end of zone 5; that end is 1.0 for a modifier of at least 1 and the modifier itself below 1 |
| `Karvonen.ExactRate` | src/utils/calculations.py:56-57 | `hr_rest + hr_reserve * fraction` is `hr_rest` at fraction 0 or with a zero reserve, and `hr_max` at fraction 1 |
| `Karvonen.ExactRateMonotone` | src/utils/calculations.py:56-57 | with a non-negative reserve, the exact rate grows with the fraction |
| `Karvonen.ExactRateAntitone` | src/utils/calculations.py:56-57 | with a negative reserve, the exact rate falls as the fraction grows |
| `Karvonen.HeartRate` | src/utils/calculations.py:56-57 | the bpm is an integer within one half of the exact rate |
| `Karvonen.ZoneBounds` | src/utils/calculations.py:50-57 | each end of a zone is an integer within one half of the exact rate at its scaled and capped band endpoint |
| `Karvonen.HeartRateMonotone` | src/utils/calculations.py:56-57 | with a non-negative reserve, a larger fraction never gives a lower bpm |
| `Karvonen.HeartRateAntitone` | src/utils/calculations.py:56-57 | with a negative reserve, a larger fraction never gives a higher bpm |
| `Karvonen.HeartRateZeroReserve` | src/utils/calculations.py:56-57 | with a zero reserve, every fraction gives `round(hr_rest)` |
| `Karvonen.ZoneTable` | src/utils/calculations.py:48-59 | the result has exactly the keys 1 to 5 |
| `Karvonen.ZonesUpTo` | src/utils/calculations.py:48-58 | after n steps of the loop, the keys are exactly 1 to n |
| `Karvonen.ZoneAt` | src/utils/calculations.py:49-58 | zone z holds the rounded bounds of base band z under the modifier |
| `Karvonen.TableZone` | src/utils/calculations.py:27-58 | each zone of the full table is built from its own base band, the reserve and the clamped modifier |
| `Karvonen.AdaptiveKarvonenZoneBounds` | src/utils/calculations.py:12-59 | with the modifier of `CombinedModifier`, the loop over bands 1 to 5 (scale, cap at 1.0, round) builds exactly the zone table `ZoneTable` |
| `Karvonen.BandWithinReserve` | src/utils/calculations.py:49-57 | with a non-negative reserve, one band gives `round(hr_rest) <= min_hr <= max_hr <= round(hr_max)` |
| `Karvonen.BandInverted` | src/utils/calculations.py:49-57 | with a negative reserve, one band gives `round(hr_max) <= max_hr <= min_hr <= round(hr_rest)` |
| `Karvonen.ZonesWithinReserve` | src/utils/calculations.py:27-58 | with `hr_max >= hr_rest`, every zone satisfies `round(hr_rest) <= min_hr <= max_hr <= round(hr_max)` |
| `Karvonen.ZonesContiguous` | src/utils/calculations.py:27-57 | zone k's high end equals zone k+1's low end, for all inputs |
| `Karvonen.ZonesNonDecreasing` | src/utils/calculations.py:27-58 | with `hr_max >= hr_rest`, both ends of the zones are non-decreasing from zone 1 to zone 5 |
| `Karvonen.BandsOrdered` | src/utils/calculations.py:49-57 | with a non-negative reserve, a band lying below another end for end gives a zone lying below the other's |
| `Karvonen.ZonesCollapse` | src/utils/calculations.py:35-57 | with `hr_max == hr_rest`, every zone is `(round(hr_rest), round(hr_rest))` |
| `Karvonen.ZonesInvertedBelowRest` | src/utils/calculations.py:35-57 | with `hr_max < hr_rest`, every zone is upside down and lies between `round(hr_max)` and `round(hr_rest)` |
| `Karvonen.WorkedExample` | src/utils/calculations.py:12-59 | rest 60, max 190, readiness 0.8, ratio 1.0: the modifier is 1.075 and the zones are (130,144), (144,158), (158,172), (172,186), (186,190) |
| `Karvonen.ExampleModifier` | src/utils/calculations.py:40-46 | readiness 0.8 and ratio 1.0 give the raw product 1.232, clamped to 1.075 |
| `Karvonen.ExampleHeartRate` | src/utils/calculations.py:56-57 | one bound of that example rounds to the integer within one half of its exact value |

## Left out

- `fetch_oura_data`, `fetch_user_max_hr` and `fetch_user_resting_hr`: HTTP
  calls, JSON and DataFrame reshaping, UI error messages and an
  exponentially weighted mean. Their results (the table, `hr_max`,
  `hr_rest`) are plain inputs here. This includes the `None` that
  `fetch_user_max_hr` can return.
- src/utils/oauth.py, the Streamlit layout and session handling in
  src/app.py, and the Plotly charts in src/components/graphs.py: these are
  wrappers around libraries and contain no calculation of their own.
- The acute:chronic ratio that the application computes (src/app.py:82-85,
  the last index value divided by the mean index) is not modelled. Its
  NaN and division-by-zero behaviour belongs to numpy. Here `acr` is a
  plain input.
- IEEE-754 doubles are modelled as exact rationals. A value that lies
  exactly halfway between two integers in rational arithmetic can round
  the other way in floating point, and `0.8 + 0.4 * readiness` and similar
  sums are not rounded here.
- Non-numeric columns, such as the `day` dates, are not modelled. The
  `Table` holds numeric columns only, on one shared row index, so
  pandas' index alignment is trivial.
- Python's mixing of `int` and `float` (for example `max(0, acr - 1)`) is
  not modelled. Every quantity is a `real`.
