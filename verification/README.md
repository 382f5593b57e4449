# Zillow feature engineering, modelled in Dafny

This project models the data-transformation component of a real-estate valuation
pipeline (`src/components/data_transformation.py`). The component turns the raw
property records of the Zillow dataset into model features and splits off the
regression target `taxvaluedollarcnt`.

A data frame is a `Table`: a set of column labels and a sequence of records (maps
from label to cell), with a cell `None` for pandas' NaN. Counts, areas and years are
`real`s. The model covers `DataTransformation.feature_engineering` step by step:

- **Room-count repair.** `roomcnt_fixed` replaces `roomcnt`.
- **Garage cleaning.** A zero garage area next to a positive car count is masked,
  then imputed with the median of its car-count group.
- **Engineered features.** Four ε-guarded ratios, the age of the home and two 0/1 flags.
- **Top-K bucketing.** Three region ids keep their top 50 values (sentinel `-1`),
  `propertycountylandusecode` its top 15 and `propertylandusetypeid` its top 5
  (sentinel `"other"`). Each bucketed column is then one-hot encoded with
  `drop_first`.
- **One-hot encoding.** The four low-cardinality columns are encoded with `drop_first`.
- **Zoning drop.** `propertyzoningdesc` is dropped.

`initiate_data_transformation` is modelled on two frames already read. It splits
each transformed frame into features `X` and target `y`, and shows that `X` with
`y` concatenated back (what the code saves) has the same columns and cells as the
transformed frame; column order is not modelled.

Modules:

| module | file | what it holds |
|---|---|---|
| `Wrappers` | wrappers.dfy | `Option` (NaN) and `Result` (an operation that raises) |
| `Values` | values.dfy | cell values (number or text) and the category order `get_dummies` sorts by |
| `Schema` | schema.dfy | the column labels the component names, as a `Field` index |
| `Tables` | tables.dfy | frames, columns, `Adjusts`/`Replaces` (which columns a stage may touch), value counts |
| `Stats` | stats.dfy | sorting and pandas' median |
| `Cleaning` | cleaning.dfy | room-count repair, garage masking and group-median imputation |
| `Derived` | derived.dfy | the engineered features and their row-wise relations |
| `TopK` | topk.dfy | most-frequent selection and bucketing |
| `OneHot` | onehot.dfy | `get_dummies(drop_first=True)` |
| `Encoding` | encoding.dfy | top-K encodings and repeated one-hot encoding |
| `Transformation` | transformation.dfy | `feature_engineering` as a whole, with its failure cases |
| `Pipeline` | pipeline.dfy | the X/y split of `initiate_data_transformation` |

How pandas behaves is stated where the code relies on it:

- **Comparisons with NaN are false.** A NaN room count falls back to
  bedrooms + bathrooms + 1.
- **`value_counts` ignores NaN.** NaN never enters a top set and is bucketed to the sentinel.
- **`get_dummies` sorts the present values.** It gives NaN an all-zero row and drops
  the first category. With the numeric order, the `-1` sentinel of a region id is
  the dropped category whenever it occurs and no kept id lies below `-1`.
- **`groupby(...).transform` leaves rows with a NaN key out of every group (pandas 1.5 and later).**
  Such a row comes out of the imputation with a missing garage area.
- **`median` skips NaN.** A group with no present area leaves its missing areas missing.

The code applies `feature_engineering` to the training and test frames separately.
It therefore chooses top-K sets and `get_dummies` categories per frame, and the two
feature frames can have different indicator columns. The model keeps this behaviour.

Some consequences of the code that a reader might not expect:

- **The output is not fully numeric.** The raw region ids, `propertylandusetypeid`
  and the text column `propertycountylandusecode` stay in the frame beside their
  indicator columns (`RawCategoricalsKept`).
- **Rare region ids are bucketed to `-1`.** Only the two land-use columns use an
  `"other"` bucket.
- **Zero denominators get no sentinel.** Every denominator is shifted by `1e-5`
  instead.
- **Missing required fields raise.** A missing input column raises, and so does a
  text cell in a numeric input, except a text garage area in a row whose car
  count is NaN: that row is left out of the group medians and its area becomes
  NaN. Nothing is flagged or substituted (`FirstProblem`).
- **`price_per_sqft` is computed from the target.** `y` can be recovered exactly from
  two feature columns wherever `price_per_sqft` is present (`SplitLeaks`).

## Model

| member | source | states |
|---|---|---|
| Tables.WithColumn | src/components/data_transformation.py:69-73 | `df[c] = vals`: the column set gains `c`, `c` reads back exactly `vals`, and every other column reads as before |
| Tables.WithoutColumn | src/components/data_transformation.py:74 | `df.drop(columns=[c])`: the column set loses exactly `c`, the rows stay, and every other column reads as before |
| Tables.Count | src/components/data_transformation.py:110 | the `value_counts` entry of a value: exactly the number of cells holding it (its multiplicity in the column), so at most the column length and positive exactly when some cell holds it |
| Cleaning.RoomFixed | src/components/data_transformation.py:69-73 | a positive room count is kept; otherwise the result exists exactly when bedrooms and bathrooms do and exceeds their sum by 1; with non-negative counts it is positive, and at least 1 on the fallback |
| Cleaning.RoomFixedIdempotent | src/components/data_transformation.py:69-73 | repairing an already repaired room count changes nothing, whatever the bedroom and bathroom counts |
| Cleaning.FixRoomCount | src/components/data_transformation.py:69-74 | `roomcnt_fixed` holds the repaired count of every row, `roomcnt` is gone, no other column changes |
| Cleaning.MaskGarage | src/components/data_transformation.py:82 | an area changes exactly when it is zero beside a positive car count, and then becomes missing; no inconsistent row remains |
| Cleaning.GroupAreas | src/components/data_transformation.py:83-84 | the group's present areas with multiplicity: each value occurs as many times as rows with that car count hold it as their area |
| Cleaning.HoldersStep | src/components/data_transformation.py:83-84 | the rows of a group holding a value are those among the earlier rows plus, when it matches, the last row |
| Cleaning.GroupArrangements | src/components/data_transformation.py:83-84 | any sorted sequence holding each area as often as the group does is an arrangement of the group's areas |
| Cleaning.FillArea | src/components/data_transformation.py:83-84 | a row without a car count comes out missing; a present area is kept; a missing one is filled exactly when its group has a present area, with the middle element (or mean of the two middle elements) of the group's areas sorted, which splits the group in halves and lies between its smallest and largest area |
| Cleaning.Impute | src/components/data_transformation.py:83-84 | the imputed column keeps the length, and each row is filled as `FillArea` states: missing without a car count, kept when present, else its group's median if the group has an area (a second pass changes nothing, `ImputeIdempotent`) |
| Cleaning.ImputeIdempotent | src/components/data_transformation.py:83-84 | imputing twice is imputing once |
| Cleaning.CleanedConsistent | src/components/data_transformation.py:79-84 | after masking and imputation no row has a zero garage area beside a positive car count, given non-negative raw areas |
| Cleaning.CleanGarage | src/components/data_transformation.py:82-84 | each garage area cell becomes the masked and imputed area, a number or NaN (never text); every other column is unchanged |
| Cleaning.CleanStage | src/components/data_transformation.py:69-84 | only `roomcnt`, `roomcnt_fixed` and the garage area change; `roomcnt` is gone; both repairs hold cell by cell, the garage area holding NaN exactly where no imputed area exists |
| Stats.Insert | src/components/data_transformation.py:84 | inserting into a sorted list keeps it sorted and adds exactly the new element to its multiset |
| Stats.Sort | src/components/data_transformation.py:84 | the result is sorted and a permutation of the input |
| Stats.SortedUnique | src/components/data_transformation.py:84 | two sorted lists with the same multiset of elements are equal |
| Stats.Median | src/components/data_transformation.py:84 | the result is the middle of every sorted arrangement of the values; it has at least half the values on each side and lies between a smallest and a largest value |
| Stats.CountLeWitness | src/components/data_transformation.py:84 | a positive count of values at or below a bound is witnessed by such a value (and likewise `CountGeWitness` above a bound) |
| Stats.MiddleSplits | src/components/data_transformation.py:84 | the middle element (or mean of the two middle elements) of a sorted list splits it in halves |
| Derived.GuardedRatio | src/components/data_transformation.py:90-94 | the ratio exists exactly when both operands exist and `den + 1e-5` is non-zero, and then times `den + 1e-5` gives back the numerator |
| Derived.GuardedDenominatorPositive | src/components/data_transformation.py:90-94 | with a non-negative denominator the guarded denominator is positive and the ratio exists |
| Derived.HomeAge | src/components/data_transformation.py:91 | the age exists exactly when the year does, and age + year = 2025 |
| Derived.MultiUnitFlag | src/components/data_transformation.py:100 | the flag is 0 or 1, and 1 exactly when the unit count is present and above 1 |
| Derived.HasGarageFlag | src/components/data_transformation.py:101-102 | the flag is 0 or 1, and 1 exactly when the car count or the area, NaN read as 0, is positive |
| Derived.WithRatio | src/components/data_transformation.py:90-94 | adds one column holding, row by row, the guarded ratio of two others, and changes no other column |
| Derived.AddPriceAndAge | src/components/data_transformation.py:90-91 | adds `price_per_sqft` and `age_of_home`, each agreeing with its inputs row by row |
| Derived.AddDensities | src/components/data_transformation.py:92-94 | adds `bath_per_bed`, `rooms_per_sqft` and `garage_sqft_ratio`, each agreeing with its inputs row by row |
| Derived.AddFlags | src/components/data_transformation.py:100-102 | adds `multi_unit` and `has_garage`, each agreeing with its inputs row by row |
| Derived.AddFeatures | src/components/data_transformation.py:90-102 | only the seven feature columns are new, every other column is unchanged, and all seven relations hold |
| Derived.EngineeredReplaced | src/components/data_transformation.py:104-145 | a later stage that touches none of the features or their inputs keeps every feature relation |
| Derived.TargetRecoverable | src/components/data_transformation.py:90 | wherever `price_per_sqft` is present, `taxvaluedollarcnt = price_per_sqft * (calculatedfinishedsquarefeet + 1e-5)` |
| TopK.Distinct | src/components/data_transformation.py:110 | the present values of a column, each once |
| TopK.SelectTop | src/components/data_transformation.py:110 | picks min(k, candidates) candidates, none occurring less often than a candidate left out |
| TopK.Bucket | src/components/data_transformation.py:111 | each cell is kept when present and in the kept set, and becomes the sentinel otherwise, NaN included (no NaN survives and kept values keep their counts: `BucketRange`, `BucketKeepsCount`) |
| TopK.TopValues | src/components/data_transformation.py:110 | the kept set holds present values only, min(k, distinct present values) of them, none occurring less often than a value left out |
| TopK.BucketRange | src/components/data_transformation.py:110-111 | the bucketed column has no NaN and holds only kept values and the sentinel, so at most k + 1 distinct values |
| TopK.BucketKeepsCount | src/components/data_transformation.py:110-111 | a kept value other than the sentinel occurs in the bucketed column as often as in the source |
| TopK.AddTopColumn | src/components/data_transformation.py:111 | adds the bucketed column and changes no other column |
| OneHot.Categories | src/components/data_transformation.py:112 | the categories are the present values, strictly sorted |
| OneHot.FirstCategoryIsLeast | src/components/data_transformation.py:112 | the dropped category is the least present value |
| OneHot.EncodeRow | src/components/data_transformation.py:112 | removes the source cell, adds one indicator per kept category, keeps every other cell, and sets at most one indicator |
| OneHot.Encode | src/components/data_transformation.py:136-137 | the source column is gone, the indicator columns are new, every other column is unchanged, each indicator is 1 exactly on its category, and each row sets at most one |
| OneHot.EncodeWidth | src/components/data_transformation.py:112 | a column's indicators number one fewer than its distinct present values, and none for an all-NaN column |
| OneHot.ZeroIndicators | src/components/data_transformation.py:112 | a cell's indicators over a sorted category list are all zero exactly when it is NaN or the first category |
| OneHot.EncodeMeaning | src/components/data_transformation.py:112 | after encoding a field, each of its indicators is a column, the field's only new columns are its indicators, and every row's indicator for a category is 1 exactly when the field held that category |
| OneHot.EncodedAllZero | src/components/data_transformation.py:112 | in an encoded frame a row's indicators are all zero exactly when its value was NaN or the first category |
| OneHot.EncodedOneHot | src/components/data_transformation.py:112 | in an encoded frame each row sets at most one indicator of the field |
| OneHot.EncodesAsKept | src/components/data_transformation.py:112-137 | a later encoding of other fields keeps an earlier field's indicators and their values |
| OneHot.EncodesAsAdjusted | src/components/data_transformation.py:69-112 | an earlier stage that only rewrites plain columns leaves a field's encoding derived from the same values |
| OneHot.EncodeReplaces | src/components/data_transformation.py:112 | encoding replaces exactly the source column by its indicator columns |
| Encoding.TopKCategories | src/components/data_transformation.py:108-112 | every indicator of a bucketed column is for a kept value or the sentinel |
| Encoding.TopKWidth | src/components/data_transformation.py:108-112 | a top-K encoding adds at most k indicator columns |
| Encoding.TopKIndicatorMeaning | src/components/data_transformation.py:108-112 | an indicator is 1 exactly when the raw value is kept and equals its category, or is not kept and its category is the sentinel |
| Encoding.EncodeTopK | src/components/data_transformation.py:118-121 | bucketing then encoding replaces only the bucketed column by indicators, which encode the bucketed source column; the raw column stays |
| Encoding.EncodeTopAll | src/components/data_transformation.py:108-112 | a list of top-K encodings replaces exactly the set of their bucketed columns, and each bucketed column's indicators encode its own bucketed source column |
| Encoding.EncodeAll | src/components/data_transformation.py:136-137 | encoding several columns replaces exactly those columns by their indicators, each encoding its own column of the input |
| Transformation.FirstProblem | src/components/data_transformation.py:69-137 | no error exactly when every listed column can be read; otherwise the error of the first column that cannot |
| Transformation.TopSpecsShape | src/components/data_transformation.py:108-130 | the five bucketings read the three region ids and the two land-use columns and write their five `_top` columns, each once |
| Transformation.LowShape | src/components/data_transformation.py:136 | the four low-cardinality columns, each once |
| Transformation.EncodeHighCardinality | src/components/data_transformation.py:108-130 | the five top-K encodings replace exactly the five bucketed columns, each encoding its bucketed source |
| Transformation.EncodeLowCardinality | src/components/data_transformation.py:136-137 | replaces exactly the four low-cardinality columns by indicators, each encoding its own column |
| Transformation.DropZoning | src/components/data_transformation.py:143-145 | the columns are the old ones less `propertyzoningdesc`, whether or not it was there; every remaining column reads as before |
| Transformation.EncodeStages | src/components/data_transformation.py:104-145 | all encodings and the drop replace exactly the encoded columns, every encoding survives the later ones, and the only new indicators are those of the top-K and low-cardinality fields |
| Transformation.EncodingsCarried | src/components/data_transformation.py:108-145 | the top-K indicators survive the low-cardinality encoding and the drop; the low-cardinality columns read the same after the top-K encodings as before |
| Transformation.EncodedAdjusted | src/components/data_transformation.py:69-137 | the cleaning and feature stages leave every categorical column as it was, so the encodings are those of the raw columns |
| Transformation.RawCategoricalsKept | src/components/data_transformation.py:108-130 | no step overwrites or drops the raw region-id and land-use columns: a frame that passes the unnamed columns through keeps them unchanged |
| Transformation.TransformedTopK | src/components/data_transformation.py:108-130 | in the output (any frame holding the encodings of the raw frame) each bucketing has at most k indicators, each for a top-k value of the raw column or the sentinel; a row sets at most one; a kept value's indicator is 1 exactly in the rows holding it, the sentinel's exactly in the rows whose value was collapsed |
| Transformation.TransformedLow | src/components/data_transformation.py:136-137 | in the output (any frame holding the encodings of the raw frame) each low-cardinality indicator holds the one-hot code of the raw value: at most one set per row, all zero exactly for NaN or the first category |
| Transformation.FeatureEngineering | src/components/data_transformation.py:50-148 | succeeds exactly on a readable frame, else fails with the first problem; on success the rows stay in order, both repairs hold cell by cell (NaN, never text, where the imputed garage area is missing), all feature relations hold, every encoded field's indicators encode its raw (bucketed) column, `roomcnt` and every encoded column are gone, new columns are features or top-K and low-cardinality indicators only, and every other column is unchanged |
| Pipeline.Split | src/components/data_transformation.py:179-181 | fails exactly when the target is missing; otherwise `X` is every other column unchanged and `y` is the target column |
| Pipeline.SplitRecombine | src/components/data_transformation.py:186-187 | concatenating `y` back onto `X` gives the split frame |
| Pipeline.SplitLeaks | src/components/data_transformation.py:90 | any `X`, `y` that recombine into a frame satisfying the `price_per_sqft` relation leak the target: `y` is determined by `price_per_sqft` and `calculatedfinishedsquarefeet` in `X` wherever the former is present |
| Pipeline.SplitPart | src/components/data_transformation.py:180-187 | on a frame holding the target, `X` lacks the target, `y` has one cell per row, and concatenating them back gives the frame |
| Pipeline.InitiateTransformation | src/components/data_transformation.py:165-190 | succeeds exactly when both frames are readable; fails with the training frame's first problem, else the test frame's; each saved frame is its transformed frame, and both leak the target |

## Left out

- Reading and writing CSV files, `os.makedirs` and the artifact paths: I/O. The frames are parameters, and the saved frame is stated as `X` with `y` put back.
- Logging and the `CustomException` wrapper: a failure is a `Failure` carrying the column that could not be read.
- Floating point: every number is an exact `real`, so the ratio features and the target leakage hold exactly. With doubles they hold up to rounding.
- Pipeline.SplitLeaks: over doubles the identity holds only up to rounding, because the model divides exactly.
- TopK.TopValues: states only that the result is a top-k set. Which of several equally frequent values `nlargest` keeps depends on pandas' tie order, which the model fixes arbitrarily.
- OneHot.Categories: orders numbers before text, numbers by value and text by character code. pandas' order for a column mixing numbers and text is not modelled.
- `np.where(..., "other")` on the numeric `propertylandusetypeid` turns the kept ids into strings. The model keeps them as numbers, so indicator labels and the dropped category can differ from pandas'.
- `get_dummies` column labels, column order and dtypes (boolean indicators, `astype(int)` flags): indicator columns are `Dummy(source, value)` labels holding 0 or 1.
- Transformation.FirstProblem: a text cell in a numeric input is treated as raising where the column is first read. pandas raises at the first operation that rejects text, and `== 0` on text does not raise. The garage area is the exception the model does follow: its text raises only in a row with a numeric car count, and only after the car count has been read.
- Derived.GuardedRatio: where `den + 1e-5` is exactly zero the model yields a missing value. pandas yields `inf` or `-inf` there, and NaN only for `0 / 0`; the model has no infinities.
- Column order of every frame: a frame's columns are a set, so no stage fixes an order. In particular `pd.concat([X, y], axis=1)` puts `taxvaluedollarcnt` last in the saved CSV, and the model does not say so.
- In-place mutation of the caller's frame by `df[...] = ...` and `inplace=True`: the model is functional.
- Columns other than the ones the component names are `Other(name)` labels and pass through unchanged.
- The unused `preprocessor_obj_path` and `save_object` import.
