# petcare-cost-prediction, modelled in Dafny

The petcare-cost-prediction system predicts what a pet insurance claim will cost. Around its web
front ends, training jobs and database clients sit a few small, deterministic pieces of logic, and
this project models those pieces as immutable datatypes and pure functions:

- **Artifact resolution.** The three `find_latest_file` copies pick the newest
  `light_gbm_regression_YYYYMMDD_HHMMSS.<ext>` artifact (`Artifacts`). The model registries
  `MODELS` are in `ModelRegistry`, and the extension-normalising path rules in `Paths`.
- **Feature encoding.**
  - The backend's request preprocessing, with its breed fallback and the calendar-day age, is in
    `BackendPreprocess` and `Age`.
  - The data pipeline's one-hot decoding and min-max inversion are in `DatapipelinePreprocess`.
  - The config-driven column transformer is in `ConfigPreprocess`.
  - The hand-rolled label and one-hot encoder is in `EncodingPipeline`.
- **Evaluation bookkeeping.** The trainer's residuals, outlier groups and recorded artifact paths
  are in `Evaluation`; the CSV registration path is in `DataRegister`.
- **Drift monitoring.** The scheduler's row-count alert policy and baseline (`Monitoring`), its
  senders (`Notify`), error reports (`Report`) and one scheduled cycle (`Scheduler`).
- **Dashboard and BI data logic.**
  - Row filters with the `ALL` wildcard, inner joins with residuals, date-folder selection, the
    model-data container and the record schema: `DashboardServices`, `FilterController`,
    `DashboardController`, `DashboardContainer` and `DashboardSchema`.
  - The BI repositories and services: `BiModel` and `BiService`.

Shared modules hold the Python and pandas vocabulary the rest is written in:
- `Wrappers`: `Option`, `Result`, and exceptions as values.
- `Text`: `str` and `os.path` helpers.
- `Calendar`: proleptic Gregorian ordinals as `date.toordinal` gives them, and `strftime` /
  `strptime` on fixed-width formats.
- `Seqs`: filters and distinct values.
- `Frames` and `Joins`: records as maps from column to cell, pandas' comparisons, masks, and
  `merge(how="inner")`.

A frame is a column list and a sequence of records; a missing cell reads as `Null`. sklearn and
LightGBM objects are opaque tags, and what they compute is an input. Files on disk are a map from
path to content. The database, the clock, the SMTP and HTTP transports and directory listings are
parameters. The SMTP and HTTP transports leave an effect log.

The data pipeline's `dump_pipeline` and `load_pipeline`
(datapipeline/src/models/preprocess.py:227-235) are the backend's code line for line. They are
modelled once, as `BackendPreprocess.DumpPipeline` and `BackendPreprocess.LoadPipeline`.

## Model

| member | source | states |
|---|---|---|
| Calendar.OrdinalOrder | backend/preprocess.py:32 | day ordinals order dates exactly as the calendar does and identify them, so a day difference is signed by chronological order |
| Calendar.OrdinalNextDay | backend/preprocess.py:32 | consecutive calendar days have consecutive ordinals, month and year ends and leap days included |
| Calendar.BeforeStrictOrder | backend/utils.py:69 | `>` on timestamps is a strict total order |
| Calendar.ChronologicalOrder | backend/utils.py:69 | timestamp order is order of elapsed seconds |
| Calendar.StampRoundTrip | backend/utils.py:67 | parsing a printed `%Y%m%d_%H%M%S` stamp with the same format gives back the printed time |
| Calendar.StampCanonical | backend/utils.py:67 | every text the stamp format accepts is the printed form of what it parsed to, so a stamp has one spelling |
| Calendar.StampOrder | backend/utils.py:67-69 | on printed stamps, string order is chronological order |
| Calendar.DateTimeRoundTrip | backend/preprocess.py:25 | `%Y-%m-%d %H:%M:%S` parses its own printing back to the same time |
| Calendar.DateRoundTrip | backend/preprocess.py:30 | `%Y-%m-%d` parses a printed date back to that date at midnight |
| Calendar.WhenRoundTrip | scheduler/src/jobs/report.py:9 | the report's `%Y-%m-%d, %H:%M:%S` parses its own printing back to the same time |
| Paths.WithExt | backend/preprocess.py:160-165 | the written path always ends in the extension: a path already carrying it is kept, one without an extension gains it, and any other extension is replaced |
| Paths.WithExtSplits | backend/preprocess.py:161-163 | the normalised path splits back into the original root and the new extension |
| Paths.WithExtIdempotent | backend/preprocess.py:161-163 | normalising an already normalised path changes nothing, for any path whose last component is named |
| Paths.WithExtDirectory | backend/preprocess.py:161-163 | a directory path is not idempotent: it gains a hidden `.pkl` file name, which then gains a second extension |
| Paths.WithExtPlainName | main.py:66-68 | a dot-free artifact name joined to a directory just gains the extension, and its base name is the name plus the extension |
| Text.SplitExt | backend/preprocess.py:161 | `splitext` splits the path into root and extension that concatenate back to it; there is an extension exactly when the last component has a non-leading dot, and it starts with its only dot |
| Text.Basename | backend/utils.py:67 | `split('/')[-1]` is a slash-free suffix of the path, and the whole path when it has no slash |
| Text.Join | dashboard/src/controllers/dashboard_controller.py:43 | `os.path.join` of an absolute name is that name; otherwise the result starts with the directory and ends with the name |
| Text.JoinBasename | backend/utils.py:39 | the base name of a joined slash-free name is that name |
| Text.RemoveAllNoOccurrence | backend/utils.py:67 | `replace` leaves a string without any occurrence of the pattern |
| Text.LexTotal | dashboard/src/controllers/dashboard_controller.py:33 | Python's string order is total |
| Text.LexTransitive | dashboard/src/controllers/dashboard_controller.py:33 | Python's string order is transitive |
| Text.LexDigits | backend/utils.py:67-69 | for equally long digit strings, the string order is the numeric order |
| Text.PadValue | backend/utils.py:67 | a zero-padded field reads back as the number it prints |
| Text.ValuePad | backend/utils.py:67 | a digit string is the zero-padded print of its value |
| Frames.Le | dashboard/src/services/data_service.py:28 | `<=` raises exactly for two present values of different kinds, and holds exactly for comparable values in that order |
| Frames.Ge | dashboard/src/services/data_service.py:28 | `>=` raises exactly for two present values of different kinds, and holds exactly for comparable values in that order |
| Frames.LtTransitive | dashboard/src/services/data_service.py:52-53 | the order `min` and `max` use is transitive |
| Frames.LtTotal | dashboard/src/services/data_service.py:52-53 | two comparable values are equal or ordered one way or the other |
| Frames.MaskOf | dashboard/src/services/data_service.py:28 | a mask exists exactly when every record's comparison is defined, holds each record's answer, and otherwise raises one record's error |
| Frames.KeepIsFilter | dashboard/src/services/data_service.py:28 | indexing with a mask keeps, in order, the records whose mask entry is true |
| Frames.Where | dashboard/src/services/data_service.py:28-33 | filtering keeps the columns and raises only `KeyError` or `TypeError` |
| Frames.WhereSpec | dashboard/src/services/data_service.py:28-33 | a filter succeeds exactly when the column exists and every record's test is defined, and then keeps, in order, exactly the satisfying records |
| Frames.WhereKeeps | dashboard/src/services/data_service.py:28-33 | a filtered frame is an order-preserving part of the input holding every satisfying record and nothing else |
| Frames.WhereCommute | dashboard/src/services/data_service.py:22-35 | two filters that each succeed give the same frame in either order |
| Frames.Unique | dashboard/src/services/data_service.py:43 | `unique` raises `KeyError` exactly for a missing column; otherwise it lists every value of the column, each once, in order of first occurrence, and nothing else |
| Frames.Extreme | dashboard/src/services/data_service.py:51-54 | `min` and `max` raise `TypeError` exactly when present values of two kinds meet, or when a text or date column has a gap (pandas fills the gaps of an object column with an infinity before comparing); otherwise they skip missing values, give a missing value exactly when nothing is present, and else give a present value that bounds all others and shares their kind |
| Frames.SkipNaExtreme | dashboard/src/services/data_service.py:51-54 | the gap-skipping reduction raises `TypeError` exactly for mixed kinds and otherwise gives a present value that bounds all present values, or a missing value when there is none |
| Frames.SelectColumns | dashboard/src/services/prediction_service.py:61-65 | selection succeeds exactly when every listed column exists, and keeps each record's cells in exactly those columns, in the listed order |
| Frames.Missing | dashboard/src/services/prediction_service.py:61-65 | the listed columns the frame lacks, and no others |
| Frames.Drop | bi/src/service.py:122 | `drop` raises exactly for a missing column; otherwise only that column goes, and every record keeps its other cells |
| Frames.SetColumn | pipeline/src/pipeline.py:227 | assignment overwrites or appends the column, holding the given values, and leaves every other cell alone |
| Frames.Sub | dashboard/src/services/prediction_service.py:57 | subtraction of numbers is their difference; a missing operand gives a missing result whatever the other is (pandas retries an object-column operation only where both cells are present); two present operands that are not both numbers raise `TypeError` |
| Frames.Div | dashboard/src/services/prediction_service.py:58 | division of numbers by a non-zero number is their quotient; a zero divisor gives a missing value (pandas gives an infinity, see Left out); a missing operand gives a missing result; two present operands that are not both numbers raise `TypeError` |
| Frames.ParseUnsigned | bi/src/service.py:137 | text that reads as an unsigned number holds only digits and at most one `.`, with at least one digit |
| Frames.ParseFloat | bi/src/service.py:137 | text that reads as a number holds only digits, at most one `.` and at most a leading sign, with at least one digit |
| Frames.ParseFloatDecimal | bi/src/service.py:137 | every signed or unsigned decimal `a.b` with at least one digit reads as the number it writes, negated under `-` |
| Frames.ParseFloatInteger | bi/src/service.py:137 | every signed or unsigned run of digits reads as the whole number it writes, negated under `-` |
| Frames.AsFloat | bi/src/service.py:137 | `float` of one cell: numbers and gaps pass unchanged, text converts exactly when it reads as a number and raises `ValueError` otherwise, and a date or timestamp raises `TypeError`; a converted cell is a number or a gap |
| Frames.CastValues | bi/src/service.py:137 | a run of cells converts exactly when every cell does, cell by cell and in order; otherwise the exception is that of the first cell that does not convert |
| Frames.CastColumn | pipeline/src/preprocess.py:212 | `astype(float)` of a column raises `KeyError` without the column; otherwise it succeeds exactly when every cell converts, replaces each cell by its conversion and keeps every other cell and the column list; a failure is the first failing cell's exception |
| Frames.ZipColumns | dashboard/src/services/prediction_service.py:57-58 | a column operation succeeds on every record and holds each record's result, in order |
| Frames.Derive | dashboard/src/services/prediction_service.py:57-58 | both operand columns exist, each record's new cell is the operation on its operands, and every other cell is unchanged |
| Frames.PairsSpec | dashboard/src/services/prediction_service.py:49-54 | every merged pair matches on all keys, and every matching pair is merged |
| Frames.RightColumns | dashboard/src/services/prediction_service.py:49-54 | the right frame contributes exactly its non-key columns |
| Frames.InnerMerge | dashboard/src/services/prediction_service.py:49-54 | the merge raises exactly when a key column is missing from either side |
| Frames.InnerMergeSpec | dashboard/src/services/prediction_service.py:49-54 | each merged record combines a matching left and right record, and every matching pair gives a merged record |
| Frames.PairsUnmatched | dashboard/src/services/prediction_service.py:49-54 | a left record with no match contributes nothing |
| Joins.WithResidual | dashboard/src/services/prediction_service.py:57-58 | both price columns and the base exist; record by record `diff` is the difference of the two price columns and `error_rate` is `diff` over the base column, with `Frames.Sub` and `Frames.Div` semantics (a zero base gives a missing rate, see Left out); every other cell is unchanged |
| Joins.ResidualSelected | dashboard/src/services/prediction_service.py:57-65 | after selecting the output columns, each record's residual cells still relate to its price cells, and its other cells are the input's |
| Joins.PutCell | dashboard/src/services/prediction_service.py:49-54 | a merged column only one input column is renamed to holds that column's cell |
| Joins.CombineKey | dashboard/src/services/prediction_service.py:49-54 | a key cell of a merged record is the left record's |
| Joins.MergeKeyCell | dashboard/src/services/prediction_service.py:49-54 | each merged record carries in a key column the value both records of its pair hold |
| Artifacts.GlobRecursiveSpec | backend/utils.py:35-42 | the matches are the walked paths, files and sub-directories alike, that fit `*light_gbm_regression_*.<ext>`, kept in walk order; every walked path that fits is among them |
| Artifacts.FindLatest | backend/utils.py:61-73 | raises exactly when some candidate's name does not parse, with the first such candidate's error; returns `None` exactly when every stamp is at or before the epoch; otherwise returns a candidate whose stamp is latest, and every candidate before it is strictly earlier, so the first of equal stamps wins |
| Artifacts.FindLatestFile | backend/utils.py:59-73 | the recursive resolver: raises exactly when a matching path's stamp does not parse; gives `None` exactly when every matching path's stamp is at or before the epoch, in particular when nothing matches; otherwise returns the first latest matching path, which was walked |
| Artifacts.FindLatestFlat | datapipeline/src/models/models.py:45-59 | the flat resolver: only direct children whose name starts with the prefix and ends in the extension are candidates; `None` exactly when every candidate's stamp is at or before the epoch; otherwise the first latest of them, joined to the folder |
| Artifacts.ArtifactStamp | backend/utils.py:67 | a path whose last component is `light_gbm_regression_<printed stamp>.<ext>` is read back as exactly the printed time, whatever the directory |
| Artifacts.TrainingArtifactsPair | main.py:66-68 | the preprocessor (`.pkl`) and the model (`.txt`) named from one training time are both read back as that time, so the resolver pairs them |
| Artifacts.LetterStemRaises | pipeline/src/models/models.py:66 | a stem that starts with a letter raises `ValueError` under `%Y%m%d_%H%M%S` |
| Artifacts.ServingArtifactRaises | pipeline/src/models/models.py:24-28 | an artifact named after the registered serving model matches the glob, yet its stem `serving_<stamp>` makes the stamp parse raise `ValueError` |
| Artifacts.FindLatestBySuffix | pipeline/src/models/models.py:58-72 | the resolver with the stamp read from the last 15 characters of the stem: raises exactly when such a reading fails; `None` exactly when every match's stamp is at or before the epoch; otherwise returns the first latest match |
| Artifacts.SuffixStampAnyName | pipeline/src/models/models.py:66 | the suffix reading recovers the printed time from any name that ends in a printed stamp, the serving model's included |
| Artifacts.SuffixStampAgrees | backend/utils.py:67 | on the names training produces the suffix reading and the original reading give the same time |
| ModelRegistry.GetModel | pipeline/src/models/models.py:38-43 | the first registered entry with that name, or `ValueError("cannot find the model")` |
| ModelRegistry.HasValueIffFound | pipeline/src/models/models.py:30-43 | `has_value(name)` holds exactly when `get_model(name)` succeeds |
| ModelRegistry.RegistryContents | datapipeline/src/models/models.py:22-42 | the data pipeline registry knows only `light_gbm_regression` and the training pipeline registry only `light_gbm_regression_serving`, one entry each |
| ModelRegistry.ListedModelsResolve | pipeline/src/models/models.py:34-43 | every entry `get_list` returns is known to `has_value`, and `get_model` of its name returns the first listed entry of that name |
| Age.DateOf | backend/preprocess.py:22-30 | a timestamp reduces to its date and a date to itself; a string is parsed with the given format and raises `ValueError` exactly when it does not parse; anything else is left without a date |
| Age.CalculateAge | backend/preprocess.py:20-33 | the claim time is reduced before the birth, so its parse error wins; the age exists exactly when both reduce to dates, and is then the ordinal of the claim date minus that of the birth date |
| Age.AgeNextDay | backend/preprocess.py:32 | a claim one calendar day later is exactly one day older |
| Age.AgeSign | backend/preprocess.py:32 | the age is negative, zero or positive exactly as the claim is before, on or after the birth date; negative ages are returned, not rejected |
| Age.AgeIgnoresTime | backend/preprocess.py:22-23 | the claim's time of day does not change the age |
| Age.AgeFromText | backend/preprocess.py:24-30 | canonical strings give the same age as the dates and times they print |
| Age.Years | backend/utils.py:48-52 | `days // 30 // 12` is the floor of the days over 360 |
| Age.YearsMonotone | backend/utils.py:52 | years grow with days and are negative exactly for negative days |
| Age.Ages | backend/preprocess.py:133-135 | the per-row ages exist exactly when every row's age does, one per row in order; otherwise the error is one of a row's |
| Age.WithAge | backend/preprocess.py:132-136 | a frame without rows raises `ValueError` (its `apply` yields a frame, not a column); otherwise `KeyError` when `birth` or `created_at` is missing, an age failure is raised as is, and on success the rows are kept, `age` replaces the two source columns, each row's age is its `calculate_age`, and every other cell is unchanged |
| BackendPreprocess.RemapBreeds | backend/preprocess.py:130 | `KeyError` exactly when `pet_breed_id` is missing; otherwise an id equal to some training breed is kept and any other id, a missing one included, becomes `0`; all other cells and the row count are unchanged |
| BackendPreprocess.Range | backend/preprocess.py:142-143 | the recorded pair is the column's maximum and minimum over its present values; it raises exactly when those values cannot be compared |
| BackendPreprocess.RangeOrdered | backend/preprocess.py:142 | with one present value the recorded minimum is comparable to and not above the maximum |
| BackendPreprocess.AgeStep | backend/preprocess.py:132-136 | a batch that already has `age` is left alone; otherwise `age` is derived and the two source columns dropped, and a batch without rows raises `ValueError` |
| BackendPreprocess.Preprocess | backend/preprocess.py:129-146 | `KeyError` when `pet_breed_id` is missing; a batch without rows that must derive `age` raises `ValueError`; on success the breed remap comes first, then the age step, the rows are kept, `age` and `weight_kg` are present, and the recorded ranges are those of the resulting frame |
| BackendPreprocess.PreprocessBreeds | backend/preprocess.py:130 | after preprocessing every breed id is a training breed or the fallback `0`, training breeds are kept, and no row is lost |
| BackendPreprocess.RemapIntoVocabulary | backend/preprocess.py:130 | after remapping every id is a training breed or `0`; when `0` is not a training breed, an id is a training breed afterwards exactly when it was before |
| BackendPreprocess.PreprocessAgeColumns | backend/preprocess.py:132-136 | with `age` present the columns and ages are kept, `birth` and `created_at` included; otherwise each row's age is its `calculate_age` and both source columns are gone |
| BackendPreprocess.StatsOrdered | backend/preprocess.py:142-143 | for a batch with one present age and weight, `age_min <= age_max` and `weight_min <= weight_max` |
| BackendPreprocess.Transform | backend/preprocess.py:153-154 | the loaded transformer is applied to exactly the given frame; with none loaded the call raises `AttributeError`, and a frame lacking one of the columns the transformer was fitted on raises `ValueError` |
| BackendPreprocess.PreprocessThenTransform | backend/utils.py:14-20 | the transformer is never refitted; it succeeds exactly when preprocessing succeeds, a transformer is loaded and the preprocessed frame has all its columns; the result is then the transform of the preprocessed frame and the recorded ranges become those of that frame; with a transformer loaded, a missing column raises `ValueError` |
| BackendPreprocess.RequestPreprocessed | backend/utils.py:14-17 | a request's one record always preprocesses: it gets the remapped breed and its day age, and loses `birth` and `created_at` |
| BackendPreprocess.RequestColumns | backend/utils.py:14-17 | a preprocessed request has exactly the columns `pet_breed_id`, `gender`, `neuter_yn`, `weight_kg` and `age` |
| BackendPreprocess.RequestTransforms | backend/utils.py:14-20 | a request is transformed exactly when a transformer is loaded that was fitted on none but those five columns |
| BackendPreprocess.PostprocessOutput | backend/utils.py:46-56 | the response copies the request's breed, gender, neuter state and weight; a zero-day age is zero years |
| BackendPreprocess.ResponseAgeMatchesFeature | backend/utils.py:48-52 | the response's age is the floor over 360 of the day age the model was fed, and it is negative exactly when the claim predates the birth |
| BackendPreprocess.DumpPipeline | backend/preprocess.py:160-165 | the written path ends in `.pkl`, a `.pkl` path is kept, and the disk gains the transformer at the returned path |
| BackendPreprocess.LoadPipeline | backend/preprocess.py:167-169 | loading succeeds exactly when the file exists and then replaces the transformer with the stored one |
| BackendPreprocess.DumpLoadRoundTrip | backend/preprocess.py:160-169 | loading from the returned path restores the dumped transformer, and dumping again to that path writes the same file |
| DatapipelinePreprocess.Group | datapipeline/src/models/preprocess.py:162-182 | each group column is `categorical__<field>_<value>`, one per category value, in order |
| DatapipelinePreprocess.LastSegment | datapipeline/src/models/preprocess.py:240 | `split("_")[-1]` is the longest suffix without an underscore |
| DatapipelinePreprocess.LastSegmentOf | datapipeline/src/models/preprocess.py:240 | the last segment of a group column is the value it was named after, when that value has no underscore |
| DatapipelinePreprocess.GroupDistinct | datapipeline/src/models/preprocess.py:162-182 | distinct category values give distinct group columns |
| DatapipelinePreprocess.FixedGroups | datapipeline/src/models/preprocess.py:160-182 | the groups are fixed, whatever the data: nine breed, two gender and two neutering columns, all distinct, each decoding to its own category value |
| DatapipelinePreprocess.ArgMax | datapipeline/src/models/preprocess.py:240 | `idxmax` skips missing values and finds the first position holding the largest number; there is none exactly when every value is missing |
| DatapipelinePreprocess.DecodeRow | datapipeline/src/models/preprocess.py:239-251 | decoding succeeds exactly when the group's cells are numbers or missing and not all missing, and yields the last segment of one of the group's columns |
| DatapipelinePreprocess.DecodeOneHot | datapipeline/src/models/preprocess.py:239-251 | a one-hot record decodes to the category whose column holds the 1 |
| DatapipelinePreprocess.GenderRoundTrip | datapipeline/src/models/preprocess.py:173-177 | a one-hot gender record decodes to its gender |
| DatapipelinePreprocess.DecodeFirstLargest | datapipeline/src/models/preprocess.py:239-241 | the decoded category is that of the first column holding the group's largest number, so on a tie the earliest column wins |
| DatapipelinePreprocess.UnscaleInverts | datapipeline/src/models/preprocess.py:33-39 | the reverse scaler undoes min-max scaling over a non-degenerate range and sends 0 to the minimum and 1 to the maximum |
| DatapipelinePreprocess.ScaleBounds | datapipeline/src/models/preprocess.py:33-39 | a value within the range scales into `[0, 1]`, so the reverse scaler's input is a scaled value |
| DatapipelinePreprocess.UnscaleCell | datapipeline/src/models/preprocess.py:254-263 | numbers are unscaled with the recorded bounds, and only a missing operand gives a missing result |
| DatapipelinePreprocess.Preprocess | datapipeline/src/models/preprocess.py:184-208 | `age` is always derived from `birth` and `created_at`, which are dropped, keeping every record; the recorded maxima and minima are those of the new `age` and of `weight_kg`; an age failure is raised as is, so a batch without rows raises `ValueError` |
| DatapipelinePreprocess.FirstError | datapipeline/src/models/preprocess.py:239-263 | a per-record step succeeds exactly when it succeeds on every record, and otherwise raises one record's error |
| DatapipelinePreprocess.Step | datapipeline/src/models/preprocess.py:239-263 | one column assignment succeeds exactly when the selected columns are present and the step succeeds on every record; a missing column raises `KeyError` |
| DatapipelinePreprocess.Steps | datapipeline/src/models/preprocess.py:239-263 | after the five assignments every group and both scaled columns are present and every record passes all five steps; a missing gender column raises `KeyError` |
| DatapipelinePreprocess.InverseRow | datapipeline/src/models/preprocess.py:239-272 | each record holds its decoded gender, neutering and breed and its unscaled weight and age, and none of its transformed fields |
| DatapipelinePreprocess.InverseColumns | datapipeline/src/models/preprocess.py:239-272 | a column survives exactly when it was there or is written, and is not a transformed column; all five written columns survive |
| DatapipelinePreprocess.InverseTransform | datapipeline/src/models/preprocess.py:237-274 | `AttributeError` before any `preprocess`; `KeyError` without the gender group; otherwise every record is kept and decoded, every transformed column was present and is removed, and the five targets are present |
| DatapipelinePreprocess.NotEncoded | datapipeline/src/models/preprocess.py:239-272 | no written column is one of the removed transformed columns, so the drops never remove a decoded value |
| ConfigPreprocess.ImputerOf | pipeline/src/preprocess.py:103-116 | the imputer always comes first; a configured strategy is used as given, otherwise numeric columns impute the mean and all other types a constant; exactly the non-numeric columns fill with `"unknown"` |
| ConfigPreprocess.HandlingStep | pipeline/src/preprocess.py:119-129 | a second step is added exactly for `standard_scale`, `minmax_scale` or `one_hot`, each giving its own estimator, the encoder ignoring unknown categories with dense output; a missing, empty or unknown handling adds none |
| ConfigPreprocess.ColumnSteps | pipeline/src/preprocess.py:104-129 | one or two steps: the imputer, then the handling step when there is one |
| ConfigPreprocess.Transformers | pipeline/src/preprocess.py:102-135 | one transformer per configured column, in configuration order, named `transform_<column>` and reading only that column |
| ConfigPreprocess.DefinePipeline | pipeline/src/preprocess.py:95-141 | unconfigured columns are dropped and transformer `i` is the pipeline of configured column `i` |
| ConfigPreprocess.DefinedColumns | pipeline/src/preprocess.py:132-140 | every transformer reads exactly one column and starts with an imputer, and a column is transformed exactly when it is configured |
| ConfigPreprocess.EmptyConfigDropsAll | pipeline/src/preprocess.py:92-99 | without a `columns` entry, or with an empty one, the transformer is empty and drops everything |
| ConfigPreprocess.OneHotColumn | pipeline/src/preprocess.py:107-129 | a categorical one-hot column imputes the constant `"unknown"` unless another strategy is configured, then encodes ignoring unseen categories |
| ConfigPreprocess.New | pipeline/src/preprocess.py:90-92 | a new preprocessor has no transformer; a given configuration is kept, and a missing one defines no transformers |
| ConfigPreprocess.Fit | pipeline/src/preprocess.py:145-152 | the transformer is defined only when there is none, then fitted on `x`: `ValueError` exactly when a column it reads is missing from `x`, or it has an estimator and `x` has no rows, or an imputer's strategy is not one of `mean`, `median`, `most_frequent` and `constant` (the strategy refusal is the one raised when the columns are present); on success the configuration is untouched and the fitting frame is `x` |
| ConfigPreprocess.Transform | pipeline/src/preprocess.py:154-161 | `ValueError` without a transformer and `NotFittedError` for an unfitted one; `ValueError` for a frame missing a column it reads or, with an estimator, without rows; otherwise the encoding of `x` under the specification and the frame it was fitted on |
| ConfigPreprocess.FitTransform | pipeline/src/preprocess.py:163-164 | `fit` then `transform` on the same frame: it fails exactly when fitting does (a missing column, no rows, or an imputer strategy the imputer refuses), with `ValueError`, and otherwise encodes the frame it fitted on |
| ConfigPreprocess.FitTransformThenTransform | pipeline/src/preprocess.py:145-164 | after `fit_transform(x)`, a later `transform(y)` encodes `y` with the fitting on `x`, or refuses `y` as fitting would |
| ConfigPreprocess.FirstFitNeedsConfiguredColumns | pipeline/src/preprocess.py:95-152 | a first fit raises exactly when some configured column is not a column of the frame, or some column is configured and the frame has no rows, or some column configures a `missing_value` other than `mean`, `median`, `most_frequent` and `constant` (so the `zero`, `drop`, `mode` and `special_value` choices of the configuration tool all make it raise); the defaults are accepted |
| ConfigPreprocess.RefuseFit | pipeline/src/preprocess.py:145-152 | a refused fit always raises `ValueError`, and a missing column is reported before anything else |
| ConfigPreprocess.ValidColumnSteps | pipeline/src/preprocess.py:103-116 | a configured column's steps pass the imputer's strategy check exactly when its `missing_value`, if given, is one of the four strategies the imputer knows |
| ConfigPreprocess.RefitKeepsSpec | pipeline/src/preprocess.py:147-148 | after a successful fit the transformer no longer depends on the configuration: a later fit keeps it, even after the configuration is changed |
| ConfigPreprocess.FeatureNames | pipeline/src/preprocess.py:186-191 | `ValueError` without a transformer; names exist exactly for a fitted transformer and are those of its transformers over what the encoders learned from the fitting frame |
| ConfigPreprocess.NamesOfSpec | pipeline/src/preprocess.py:191 | every feature name starts with its transformer's name and `__`, and there is one per scaled column and one per learned category of an encoded column |
| ConfigPreprocess.DumpPipeline | pipeline/src/preprocess.py:166-178 | transformer and configuration are written together at the `.pkl` path, which is returned; a `.pkl` path is kept |
| ConfigPreprocess.LoadPipeline | pipeline/src/preprocess.py:180-184 | a missing file raises; otherwise both the transformer and the configuration are replaced by the stored ones |
| ConfigPreprocess.DumpLoadRoundTrip | pipeline/src/preprocess.py:166-184 | loading from the returned path restores the dumped state into any preprocessor |
| ConfigPreprocess.SplitTrainTest | pipeline/src/preprocess.py:195-224 | `KeyError` when `price` is missing; a price that does not convert to float (text that does not read as a number, or a date) raises; otherwise it succeeds exactly when the transformer fits the training rows (columns present, rows present, imputer strategies known) and accepts the test rows; the preprocessor is fitted on the training rows only, the test rows are only transformed with it, the targets are the `price` column, and each side has as many targets as feature rows |
| EncodingPipeline.MergeConfig | pipeline/src/pipeline.py:28-31 | a sub-map the user gives replaces the default one as a whole, and a sub-map the user leaves out keeps its default |
| EncodingPipeline.ShallowMerge | pipeline/src/pipeline.py:28-51 | the update is shallow: for any user configuration, a given sub-map without `missing_value` or `handling` reads that key as `"none"` rather than inheriting the default; a sub-map the user leaves out reads as standard scaling with the mean, or one-hot with the mode |
| EncodingPipeline.OneHotName | pipeline/src/pipeline.py:145 | an indicator column is named `<col>_<value>`, so it starts with the column's name and is longer |
| EncodingPipeline.OneHotNames | pipeline/src/pipeline.py:145 | one indicator name per fitted key, in order, none of them the column itself |
| EncodingPipeline.New | pipeline/src/pipeline.py:11-38 | a new pipeline holds the merged configuration and no columns, scalers or mappings |
| EncodingPipeline.MapColumn | pipeline/src/pipeline.py:220 | mapping a column changes each record's cell in that column through the function and nothing else |
| EncodingPipeline.FillNa | pipeline/src/pipeline.py:103-107 | `fillna` replaces a missing value and keeps a present one |
| EncodingPipeline.RemoveFirst | pipeline/src/pipeline.py:69-72 | `list.remove` drops the first occurrence and leaves a list without the name alone |
| EncodingPipeline.PartitionSpec | pipeline/src/pipeline.py:64-72 | over distinct column names, a column is numeric exactly when pandas types it as a number, categorical exactly when not, and the target is in neither |
| EncodingPipeline.Fill | pipeline/src/pipeline.py:101-107 | a strategy with a value fills that column's gaps, and nothing else in the frame changes |
| EncodingPipeline.FitNumericColumn | pipeline/src/pipeline.py:100-117 | the column is imputed by the strategy, then exactly the two scaling handlings fit a scaler of their kind on the imputed column; other handlings change nothing; a scaling handling on a frame without rows raises the scaler's `ValueError` for 0 samples, and nothing else raises |
| EncodingPipeline.FitCategoricalColumn | pipeline/src/pipeline.py:130-146 | the column is imputed by the strategy, then exactly `label` and `one_hot` record its distinct imputed values; other handlings change nothing; under `mode` a column without any present value (or a frame without rows) raises `KeyError(0)` from `mode()[0]`, and nothing else raises |
| EncodingPipeline.FitNumeric | pipeline/src/pipeline.py:89-117 | raises exactly when there is a numeric column, the handling scales and the frame has no rows; otherwise fitting numeric columns touches only scalers, keeps the frame's shape and the non-numeric cells, and leaves the configuration and mappings alone |
| EncodingPipeline.FitCategorical | pipeline/src/pipeline.py:119-146 | raises `KeyError(0)` exactly when the strategy is `mode` and some categorical column has no present value; otherwise fitting categorical columns touches only mappings, keeps the frame's shape, and leaves the configuration and scalers alone |
| EncodingPipeline.Fit | pipeline/src/pipeline.py:53-87 | the column lists are the dtype partition without the target, the configuration is kept, and the caller's frame keeps its shape; a refusal is either the scaler's 0-sample `ValueError` or `mode()[0]`'s `KeyError(0)` |
| EncodingPipeline.FitRaises | pipeline/src/pipeline.py:53-146 | `fit` raises exactly when there is a numeric column, the handling scales and the frame has no rows, or the categorical strategy is `mode` and some categorical column has no present value |
| EncodingPipeline.LabelMapping | pipeline/src/pipeline.py:139-142 | labels number the distinct imputed values in order of first occurrence, each value once |
| EncodingPipeline.FitFillsUnknown | pipeline/src/pipeline.py:135-146 | with `unknown` imputation the caller's column has no gap after fitting, and a gap makes `unknown` a fitted category |
| EncodingPipeline.TransformNumericColumn | pipeline/src/pipeline.py:183-195 | an absent column is skipped; a present column with a fitted scaler on a frame without rows raises the scaler's 0-sample `ValueError`, and nothing else raises; the frame's shape and every other column are kept |
| EncodingPipeline.NumericTransformCell | pipeline/src/pipeline.py:183-195 | each cell of a present numeric column after transform: a gap becomes 0 under `zero` and stays a gap under any other strategy; a fitted scaler is then applied to the cell, and without one the cell is kept |
| EncodingPipeline.FittedScalerApplied | pipeline/src/pipeline.py:100-195 | a column fitted with a scaling handling is rescaled at transform time by a scaler of that kind fitted on the column as the fit imputed it |
| EncodingPipeline.Label | pipeline/src/pipeline.py:218-222 | a fitted value gets its position among the fitted keys and any other value `-1` |
| EncodingPipeline.Indicator | pipeline/src/pipeline.py:227 | the indicator is 1 exactly when the value equals the key and 0 otherwise |
| EncodingPipeline.AddIndicators | pipeline/src/pipeline.py:226-227 | the records are kept and the columns become the old ones plus every indicator name |
| EncodingPipeline.AddIndicatorsLast | pipeline/src/pipeline.py:226-227 | each indicator column holds the indicator of the last key with that name |
| EncodingPipeline.TransformCategoricalColumn | pipeline/src/pipeline.py:208-228 | an absent column is skipped and every record is kept |
| EncodingPipeline.Transform | pipeline/src/pipeline.py:148-173 | numeric columns are transformed before categorical ones, and every record is kept; it raises the 0-sample `ValueError` exactly when the frame has no rows and holds some fitted numeric column with a scaler |
| EncodingPipeline.LabelTransform | pipeline/src/pipeline.py:213-222 | after the transform-time imputation (`unknown` fills gaps with `"unknown"`, any other strategy leaves them), a value among the fitted keys becomes its position and any other value `-1`; a gap the fit kept is itself a fitted key and gets its label, so a gap becomes `-1` only when the fit saw none |
| EncodingPipeline.OneHotTransform | pipeline/src/pipeline.py:213-228 | the column is replaced by one indicator per fitted key, 1 exactly where the record, after the transform-time imputation, equals the key (a gap equals nothing); every other cell is unchanged |
| EncodingPipeline.UnseenAllZero | pipeline/src/pipeline.py:213-228 | a value not among the fitted keys after the transform-time imputation gets 0 in every indicator column |
| EncodingPipeline.AbsentColumnsSkipped | pipeline/src/pipeline.py:183-186 | a frame holding none of the fitted columns comes back unchanged |
| EncodingPipeline.TransformImputesNothing | pipeline/src/pipeline.py:188-222 | mean, median and mode imputation happen only while fitting, so a column without scaler or encoding keeps its gaps |
| Evaluation.Residual | pipeline/src/jobs/train.py:74-75 | `diff` is `Frames.Sub` of the true price and the prediction and `error_rate` is `Frames.Div` of `diff` by the true price: for numbers the difference and its ratio to a non-zero true price; a missing side gives missing values whatever the other is; two present values that are not both numbers raise |
| Evaluation.EvalRow | pipeline/src/jobs/train.py:66-75 | row `i` keeps the features of test row `i` and adds the true price and prediction at `i`; past either end the missing side is empty; `diff` and `error_rate` are its residual |
| Evaluation.EvalRows | pipeline/src/jobs/train.py:67-75 | the frame has one row per position, each the evaluation row at that position, and fails only through one of them |
| Evaluation.Evaluate | pipeline/src/jobs/train.py:48-89 | `y` without `claim_price` raises `AttributeError`, unequal targets and predictions raise `ValueError`; the evaluation frame is as long as the longer side and the logged groups are its `diff >= 100000` and `diff <= -100000` rows; the metrics then succeed exactly when the frame has rows and every true price and prediction is a number, and otherwise raise `ValueError` |
| Evaluation.MissingTargetWritesNothing | pipeline/src/jobs/train.py:78-89 | a test record without a true price makes the metrics raise, so training ends with that error and nothing is written to disk |
| Evaluation.EvalAligned | pipeline/src/jobs/train.py:66-74 | with one prediction per test row, evaluation row `i` holds test row `i`'s features, its true price and prediction, and their difference |
| Evaluation.OutlierGroups | pipeline/src/jobs/train.py:50-56 | both outlier bounds are inclusive, no row is in both groups, and a residual below 100000 in size is in neither |
| Evaluation.ExpensiveIsUnderPrediction | pipeline/src/jobs/train.py:50-52 | the group logged as predicted 100000 or more too high holds exactly the rows predicted 100000 or more too low |
| Evaluation.OverPredictedPredictsHigher | pipeline/src/jobs/train.py:50-56 | the rows predicted at least 100000 above the true price are exactly the `diff <= -100000` rows |
| Evaluation.Persist | pipeline/src/jobs/train.py:122-133 | the preprocessor is dumped, and its returned `.pkl` path recorded, exactly when both it and its path are given; the model is saved last, under its path, when one is given; nothing else is written |
| Evaluation.TrainAndEvaluate | pipeline/src/jobs/train.py:100-135 | training and prediction come first; an evaluation error, the metrics' refusal included, is raised before anything is written; otherwise the evaluation is returned with the persisted paths |
| DataRegister.Register | pipeline/src/jobs/register.py:14-23 | predictions are written at the path with its extension replaced by `.csv` (appended when there is none, kept when already `.csv`), and that path is returned |
| DataRegister.RegisterIdempotent | pipeline/src/jobs/register.py:17-19 | registering again at the returned path writes the same file, and the returned path keeps the given path's root |
| Monitoring.AnalyzeThreshold | scheduler/src/jobs/monitor.py:20-26 | the policy fires exactly when at least 30 rows were added: 30 fires, 29 does not, and a dataset that does not grow never fires |
| Monitoring.AnalyzeCountsOnly | scheduler/src/jobs/monitor.py:23-26 | only the two row counts matter, not the rows' contents |
| Monitoring.NewMonitor | scheduler/src/jobs/monitor.py:30-37 | the baseline is the stored record when it reads, and `None` when reading fails for any reason |
| Monitoring.Alert | scheduler/src/jobs/monitor.py:39-41 | without a baseline the policy raises `TypeError`; otherwise it fires exactly when the snapshot has at least 30 more rows than the baseline |
| Monitoring.Record | scheduler/src/jobs/monitor.py:43-49 | the snapshot overwrites the record file; the baseline becomes that snapshot only when there was none, and is otherwise kept |
| Monitoring.UpdateRecord | scheduler/src/jobs/monitor.py:43-49 | raises exactly when writing the record file does, with its exception; otherwise the snapshot overwrites the record file and the baseline becomes that snapshot only when there was none |
| Monitoring.UpdateEnablesAlert | scheduler/src/jobs/monitor.py:39-49 | after any update the alert is defined |
| Monitoring.BaselineSetOnce | scheduler/src/jobs/monitor.py:43-49 | however many updates follow, the in-memory baseline stays the first one ever set, while the file holds the last snapshot |
| Notify.Validate | scheduler/src/jobs/notify.py:23-25 | validation passes exactly when the receiver's field named by the sender's type is set and non-empty, and otherwise raises `ValueError` naming that type |
| Notify.EmailSend | scheduler/src/jobs/notify.py:45-56 | a send succeeds exactly when the receiver has an email, the message is a dict holding content and subject, and the whole SMTP session, closing `QUIT` included, completes; with those inputs exactly one mail goes from the sender's address to the receiver with that subject and content exactly when the session gets past `sendmail`, so a failing `QUIT` raises after the mail is out; a session that connected ends with `QUIT`; a missing email sends nothing at all |
| Notify.MailsOfSession | scheduler/src/jobs/notify.py:53-56 | only the `sendmail` step of a session sends mail, so a session cut short before it sends none, even with the closing `QUIT` |
| Notify.HttpSend | scheduler/src/jobs/notify.py:62-70 | raises exactly when the receiver has no HTTP server; otherwise posts the message there once, and gives the response exactly when one arrives with a status below 400 or from 600 on |
| Notify.NotifierSend | scheduler/src/jobs/notify.py:31-32 | the notifier hands message and receiver unchanged to the sender's own `send`, drops its value, and mail only ever goes to the receiver's email |
| Report.GenerateReport | scheduler/src/jobs/report.py:7-20 | the report is a dict of exactly `subject` and `content`; the subject is the alert title framing the time, and the content holds the time, the exception's class name and its message |
| Report.FieldsOccur | scheduler/src/jobs/report.py:13-18 | each interpolated field of the body occurs in it, the time right after the first label |
| Report.Framed | scheduler/src/jobs/report.py:12 | the subject starts with the title's head and ends with its tail, and cutting both off gives back the time text |
| Report.ReportWhen | scheduler/src/jobs/report.py:9-14 | subject and content carry the one clock reading: the text inside the subject parses back, in the `%Y-%m-%d, %H:%M:%S` format, to that reading, and the same text follows the first label of the content |
| Scheduler.Mailer | scheduler/main.py:39 | the email sender sends from the configured address |
| Scheduler.MainSetup | scheduler/main.py:39-43 | start-up builds an SMTP sender on smtp.naver.com port 587, an operator receiver with only the email set, and a server receiver with only the model server URL set |
| Scheduler.DbMonitoring | scheduler/main.py:54-71 | a failing retrieval, or a failing write of the record file (it happens before the `try`), raises out of the cycle with nothing sent; otherwise the record is updated and the snapshot is written to the record path before any decision |
| Scheduler.CycleDecision | scheduler/main.py:60-65 | since the update precedes `alert`, the decision never raises and compares the snapshot with the updated baseline |
| Scheduler.FirstCycleQuiet | scheduler/main.py:60-66 | with no persisted record, the first cycle compares the snapshot with itself and sends nothing |
| Scheduler.RetrainIffAlert | scheduler/main.py:63-67 | a POST goes out exactly when the policy fires and a model server is configured, and it carries a `None` message to that server; a quiet cycle only updates the record |
| Scheduler.ReportSendsNoPost | scheduler/main.py:69-71 | reporting a failure never posts to the model server |
| Scheduler.FailureReportedOnce | scheduler/main.py:63-71 | when the policy fires with no model server, the raised exception is reported in one email to the operator exactly when the session gets past `sendmail`, and the cycle itself raises exactly when the SMTP session fails, with the transport's exception |
| Scheduler.FailureCycle | scheduler/main.py:63-71 | such a cycle has the effects and outcome of reporting the missing server |
| Scheduler.RaisingCycle | scheduler/main.py:63-71 | when the `try` body raises, the cycle's effects are the body's followed by the report's, and its outcome is the report's |
| Scheduler.MissingServerReport | scheduler/main.py:69-71 | the report of a missing server reaches an operator with an address in one email exactly when the session gets past `sendmail`; a failing session raises the transport's exception, even after the email is out |
| Scheduler.StaleBaselineRepeats | scheduler/main.py:59-67 | as written, once a snapshot is far enough past the in-memory baseline, the next cycle on the same snapshot requests retraining again |
| Scheduler.CorrectedMonitoring | scheduler/main.py:54-71 | the corrected cycle advances the baseline to the snapshot whenever it requests retraining, and leaves monitor and record file alone on a quiet cycle |
| Scheduler.CorrectedNoRepeat | scheduler/main.py:54-71 | with the baseline advanced, the cycle after a firing one on an unchanged snapshot sends nothing |
| Scheduler.CorrectedAgreesOnDecision | scheduler/main.py:63-67 | the corrected cycle requests retraining exactly when the written one does |
| DashboardContainer.GetModelData | dashboard/src/models/container.py:28-30 | a frame is returned exactly when one is stored under the model's name, and it is the stored one |
| DashboardContainer.SetClaims | dashboard/src/models/container.py:16-18 | the claims become the given frame and nothing else in the container changes |
| DashboardContainer.SetPredictions | dashboard/src/models/container.py:20-22 | the predictions become the given frame and nothing else in the container changes |
| DashboardContainer.AddModelData | dashboard/src/models/container.py:24-26 | the model's lookup then finds the new frame, every other model's lookup is unchanged, and so is the rest of the container |
| DashboardContainer.ClearModelData | dashboard/src/models/container.py:32-34 | every model lookup then finds nothing and the rest of the container is unchanged |
| DashboardContainer.AddTwice | dashboard/src/models/container.py:24-26 | adding a model twice is the same as adding only the later frame |
| DashboardContainer.AddCommutes | dashboard/src/models/container.py:24-26 | adding two different models in either order gives the same container |
| DashboardServices.RunStepsSpec | dashboard/src/services/data_service.py:22-35 | a successful chain of filters keeps, in order, exactly the records that pass every filter |
| DashboardServices.StepOrderIrrelevant | dashboard/src/services/data_service.py:22-35 | two successful filter chains with the same filters in any order give the same frame |
| DashboardServices.OneCharacterAge | dashboard/src/services/data_service.py:27-28 | a one-character text selection on `age` first compares the column with the text, raising `TypeError` when some present age is not text, and otherwise fails with `IndexError` at item 1; an empty text fails with `IndexError` at item 0 |
| DashboardServices.ServiceStep | dashboard/src/services/data_service.py:24-33 | `"ALL"` filters nothing; `age` is bounded inclusively by the selection's items 0 and 1, failing on a selection that cannot be indexed (for a one-character text the `>=` comparison runs first, see OneCharacterAge); other columns keep the values equal to the selection (an enum by its value), and a tuple equals none (true of text columns; numeric columns differ, see Left out) |
| DashboardServices.Retrieve | dashboard/src/services/data_service.py:11-21 | nothing loaded gives `None`, no filter list gives the whole frame, and a filtered frame keeps its columns |
| DashboardServices.RetrieveClaims | dashboard/src/services/data_service.py:11-35 | filtering works on the loaded claims: `None` before loading, the claims' columns after |
| DashboardServices.RetrievePredictions | dashboard/src/services/prediction_service.py:12-36 | the same filtering on the loaded predictions: `None` before loading, the predictions' columns after |
| DashboardServices.RetrieveSpec | dashboard/src/services/data_service.py:17-35 | a successful retrieve keeps, in their order, exactly the records that pass every selection |
| DashboardServices.RetrieveIgnoresAll | dashboard/src/services/data_service.py:24-25 | appending an `"ALL"` selection for any column changes nothing |
| DashboardServices.MemberLikeValue | dashboard/src/services/data_service.py:30-33 | an enum member filters exactly like its plain value |
| DashboardServices.UniqueValues | dashboard/src/services/data_service.py:37-43 | `[]` before loading; otherwise raises exactly for a missing column, and lists every value of the column once, in order of first occurrence, and nothing else |
| DashboardServices.ValueRange | dashboard/src/services/data_service.py:45-54 | `(0, 0)` before loading; otherwise the bounds lie among the column's values and bound every non-missing one, and are missing exactly when every value is |
| DashboardServices.Summarize | dashboard/src/services/prediction_service.py:38-65 | the explicit predictions, else the container's; without either an empty frame, otherwise the thirteen summary columns in order |
| DashboardServices.SummarizeRecord | dashboard/src/services/prediction_service.py:49-58 | every summary record belongs to a claim and to a prediction with its `claim_id`, its `diff` is predicted minus actual price and its `error_rate` is `diff` over the actual price |
| DashboardServices.SummarizeDropsUnpredicted | dashboard/src/services/prediction_service.py:49-54 | a claim whose `claim_id` no prediction carries is not in the summary |
| FilterController.NumericFilterOption | dashboard/src/controllers/filter_controller.py:28-36 | the variable's option is a range carrying its name, and it is the column's minimum and maximum (or `(0, 0)` before loading), failing exactly when the range cannot be taken |
| FilterController.CategoryFilterOption | dashboard/src/controllers/filter_controller.py:38-46 | the option lists every value of the column once, in order of first occurrence, and nothing else, followed by `"ALL"` as its last entry; before loading it is `["ALL"]` alone |
| FilterController.FilterOptionsSpec | dashboard/src/controllers/filter_controller.py:14-26 | one option per numeric or categorical variable, in the order given, with the variable's name and a range exactly for the numeric ones; other types are skipped |
| FilterController.FilterOptionsStep | dashboard/src/controllers/filter_controller.py:18-22 | the head variable's option is asked for before any later variable's, so its failure is raised first |
| FilterController.FilterOptionsRaises | dashboard/src/controllers/filter_controller.py:14-26 | `get_filter_options` raises exactly when some numeric or categorical variable's option raises |
| FilterController.FilterOptionsRaisesFirst | dashboard/src/controllers/filter_controller.py:18-22 | the exception raised is that of the first supported variable whose option raises |
| FilterController.ControllerStep | dashboard/src/controllers/filter_controller.py:55-67 | `"ALL"` filters nothing, a two-element tuple keeps values within it inclusively, and any other selection (an enum by its value) keeps the equal values |
| FilterController.ApplyFilters | dashboard/src/controllers/filter_controller.py:48-53 | no frame gives no frame; a filtered frame keeps the columns it had |
| FilterController.ApplyFiltersSpec | dashboard/src/controllers/filter_controller.py:48-69 | the filtered frame keeps, in their order, exactly the records that pass every filter |
| FilterController.ControllerMatchesServices | dashboard/src/controllers/filter_controller.py:55-67 | when every range is on `age` and only there, applying the filters gives what the data service's `retrieve` gives |
| DashboardController.DateFolders | dashboard/src/controllers/dashboard_controller.py:30-32 | exactly the listed names that are directories and start with a `dddd-dd-dd` date |
| DashboardController.SortDescendingSpec | dashboard/src/controllers/dashboard_controller.py:33 | the reverse sort orders the dates newest first and keeps every date as often as it was listed |
| DashboardController.LoadAvailableDates | dashboard/src/controllers/dashboard_controller.py:26-38 | the container offers the date folders of the records directory, newest first, and nothing when the directory cannot be listed; nothing else changes |
| DashboardController.InitializeContainer | dashboard/src/controllers/dashboard_controller.py:20-24 | a fresh container with nothing loaded, offering only date folders of the records directory |
| DashboardController.DatePrefixOfPrinted | dashboard/src/controllers/dashboard_controller.py:32 | the date pattern only anchors at the start: every name that begins with a date printed as `%Y-%m-%d` counts, whatever follows |
| DashboardController.LoadClaims | dashboard/src/controllers/dashboard_controller.py:40-55 | `True` exactly when the date's `insurance_claim.csv` is read, and then the claims and the selected date are set and nothing else changes; on any failure the container is untouched |
| DashboardController.LoadModel | dashboard/src/controllers/dashboard_controller.py:77-97 | the first model folder's readable predictions become the container's, and with claims loaded a successful comparison is stored under the model's name; a failing model changes nothing |
| DashboardController.LoadModelsSpec | dashboard/src/controllers/dashboard_controller.py:77-97 | after the loop, a model has data exactly when it had some before or its comparison succeeds, and then holds that comparison |
| DashboardController.LoadPredictionModels | dashboard/src/controllers/dashboard_controller.py:57-102 | `False` with the container untouched when the date's prediction directory is missing or has no model folder; otherwise the answer is whether some model data was stored |
| DashboardController.LoadPredictionModelsSpec | dashboard/src/controllers/dashboard_controller.py:73-99 | after clearing, the model data holds exactly the model folders whose comparison succeeds, each with its comparison |
| DashboardController.NoClaimsNoModels | dashboard/src/controllers/dashboard_controller.py:88-99 | without loaded claims the load always reports failure |
| DashboardController.LoadedModelExists | dashboard/src/controllers/dashboard_controller.py:57-99 | a successful load means claims were loaded and some model folder's comparison succeeded |
| DashboardController.FirstModelPredictions | dashboard/src/controllers/dashboard_controller.py:84-85 | the container's predictions become the first model folder's, when that file reads |
| DashboardSchema.Lookup | dashboard/src/schema.py:9-56 | `Enum(s)` finds a listed member whose value is `s`, and finds none exactly when no listed member has that value |
| DashboardSchema.LookupValue | dashboard/src/schema.py:9-56 | when values tell members apart, looking up a member's value finds that member |
| DashboardSchema.EnumsComplete | dashboard/src/schema.py:9-56 | the member lists hold every member of each enumeration |
| DashboardSchema.ValuesInjective | dashboard/src/schema.py:9-28 | distinct gender, breed and neuter members have distinct values |
| DashboardSchema.DistrictPrefix | dashboard/src/schema.py:31-56 | the first two characters of a district's name identify the district |
| DashboardSchema.DistrictValuesInjective | dashboard/src/schema.py:31-56 | distinct districts have distinct names |
| DashboardSchema.EnumRoundTrips | dashboard/src/schema.py:9-28 | each gender, breed and neuter member is recovered from its value |
| DashboardSchema.DistrictRoundTrip | dashboard/src/schema.py:31-56 | each district is recovered from its name |
| DashboardSchema.ParseGender | dashboard/src/schema.py:9-11 | a member is found exactly when `s` is some gender's value, and it has that value |
| DashboardSchema.ParseBreed | dashboard/src/schema.py:15-23 | a member is found exactly when `s` is some breed's value, and it has that value |
| DashboardSchema.ParseNeutralized | dashboard/src/schema.py:26-28 | a member is found exactly when `s` is `y` or `n`'s value, and it has that value |
| DashboardSchema.ParseDistrict | dashboard/src/schema.py:31-56 | a member is found exactly when `s` is some district's name, and it has that name |
| DashboardSchema.NewPet | dashboard/src/schema.py:59-66 | a pet is built exactly when all four strings are values of their enumerations, with those members and the numbers as given; otherwise a validation error |
| DashboardSchema.CheckColumns | dashboard/src/schema.py:70-80 | the frame passes exactly when every listed column is present with every cell passing its check, and comes back unchanged; otherwise a schema error |
| DashboardSchema.Validate | dashboard/src/schema.py:70-80 | a frame validates exactly when all seven schema columns are present and every cell passes its column's check, and comes back unchanged |
| DashboardSchema.PetRowCells | dashboard/src/schema.py:59-78 | a pet's row always passes the enumeration checks, and passes the age, weight and price checks exactly when they are at least 0, above 0 and above 0 |
| DashboardSchema.PetFrameValid | dashboard/src/schema.py:59-80 | a frame of pets validates exactly when every pet's age is at least 0 and its weight and price are positive |
| BiModel.ToTimestamp | bi/src/model.py:24 | a timestamp is kept, a date becomes midnight, a missing cell is `NaT`; a string is read as date and time or else as a date, raising when neither form reads; a number raises (pandas reads it as epoch nanoseconds, see Left out) |
| BiModel.AgeDays | bi/src/model.py:24 | the claim column is converted before the birth column; the age is missing when either instant is, and otherwise is the whole days of the difference rounded down (86400 times it is at most the seconds, which are below 86400 times it plus one) |
| BiModel.AgeDaysAgreesWithCalculateAge | bi/src/model.py:24 | for a birth date and a claim timestamp the BI age equals the day age `calculate_age` gives, whatever the claim's time of day |
| BiModel.AgeColumnValues | bi/src/model.py:24 | the age column exists exactly when every row's age does, and holds each row's age in order |
| BiModel.LoadDf | bi/src/model.py:18-33 | a missing file raises `FileNotFoundError`; on success both source columns were present, the rows and columns are kept, `age` is added, each row's age is its `AgeDays` and every other cell is unchanged |
| BiModel.LoadClaims | bi/src/model.py:35-49 | succeeds exactly when `load_df` does, and then replaces only the claim frame |
| BiModel.LoadPredictions | bi/src/model.py:51-74 | succeeds exactly when both files load, and then replaces the prediction and record frames and keeps the claims |
| BiModel.UniqueOf | bi/src/model.py:85 | attribute access on the frame: `AttributeError` exactly when the frame or the column is missing, else the distinct values in order of first occurrence |
| BiModel.BreedsOf | bi/src/model.py:86 | one integer breed per value, succeeding exactly when every value is a whole number |
| BiModel.SelectBreeds | bi/src/model.py:81-86 | one breed per distinct `pet_breed_id`, in order of first occurrence, each equal to its value |
| BiModel.MembersOf | bi/src/model.py:106 | each value becomes the member with that value, succeeding exactly when every value is some member's; otherwise `ValueError` |
| BiModel.SelectGenders | bi/src/model.py:101-106 | the genders' values are exactly the distinct `gender` values in order |
| BiModel.SelectNeuterStates | bi/src/model.py:111-116 | the neuter states' values are exactly the distinct `neuter_yn` values in order |
| BiModel.Active | bi/src/model.py:133-140 | only breed, age, gender and neuter-state columns are ever filtered on |
| BiModel.SelectWhere | bi/src/model.py:132-142 | no filter returns the frame itself, possibly `None`; with filters a missing frame raises `AttributeError`, and otherwise the call succeeds exactly when every filtered column exists and keeps the columns |
| BiModel.SelectWhereSpec | bi/src/model.py:132-142 | a successful selection keeps, in order, exactly the records equal to every applied filter value |
| BiModel.SelectClaims | bi/src/model.py:124-142 | with no truthy argument the claim frame comes back as it is; otherwise the claim frame's columns are kept |
| BiModel.SelectPredictions | bi/src/model.py:148-166 | with no truthy argument the prediction frame comes back as it is; otherwise its columns are kept |
| BiModel.FalsyArgumentsIgnored | bi/src/model.py:133-136 | an argument is not a filter exactly when it is missing, zero or the empty string; with no filter argument both repositories return their frame as it is |
| BiService.GenderLabels | bi/src/service.py:36-39 | succeeds exactly when the genders can be listed, and then gives one label per distinct `gender` value, equal to it, in order of first occurrence (member names equal their values, bi/src/schema.py:7-9) |
| BiService.NeuterLabels | bi/src/service.py:46-49 | one label per distinct `neuter_yn` value, equal to it, in order of first occurrence (bi/src/schema.py:16-18) |
| BiService.GenderLabelsSpec | bi/src/service.py:36-39 | the labels have no duplicates and every value of the column is among them |
| BiService.BreedNames | bi/src/service.py:66-77 | without claims or without a `pet_breed_id` column the repository raises `AttributeError`; any other failure is the `Breed` validation's `ValidationError` |
| BiService.BreedNamesSpec | bi/src/service.py:66-77 | listing succeeds exactly when every id is a whole number; the names are then the ids of the column, each once, and every id of the column is among them |
| BiService.BreedsOfDistinct | bi/src/model.py:85-86 | reading breeds from a column's distinct values fails exactly when some value is not a whole number, and otherwise gives each value once |
| BiService.AgeBreedNames | bi/src/service.py:53-64 | the age service reads a repository its constructor never sets, so every call raises `AttributeError` |
| BiService.SelectAges | bi/src/model.py:92-96 | the age repository returns nothing |
| BiService.RetrieveClaimPricesSpec | bi/src/service.py:84-99 | a successful retrieval holds, in order, the claims equal to every truthy filter argument |
| BiService.RetrieveClaimPrices | bi/src/service.py:84-99 | without a filter the loaded claims (or `None`) as they are; with one, `AttributeError` when nothing is loaded, and otherwise success exactly when every filtered column exists, keeping the columns |
| BiService.Evaluate | bi/src/service.py:130-152 | no claim frame raises `TypeError`; a key missing from either side raises; a merged `claim_price` that does not convert to float raises that conversion's exception; a result has exactly the nine listed columns |
| BiService.EvaluatedRecord | bi/src/service.py:136-152 | each record of the residual step keeps the merged record's keys and its claim price as given, and `diff` and `error_rate` are computed from that price converted to float |
| BiService.RestoredCells | bi/src/service.py:136-152 | the float conversion is not written back: the selected `claim_price` is the merged one, and every other listed column is the residual frame's |
| BiService.Aggregate | bi/src/service.py:106-160 | claims and records are never touched; a filtered call leaves the container as it was; an unfiltered call drops `claim_price` from the stored prediction frame itself; a stored frame without `claim_price` gives `KeyError` and no change; no stored frame gives `AttributeError`; a result has the nine listed columns |
| BiService.SecondUnfilteredCallRaises | bi/src/service.py:115-122 | after one unfiltered evaluation the next unfiltered one raises `KeyError` and changes nothing |
| BiService.FilteredCallsRepeat | bi/src/service.py:115-122 | a filtered evaluation can be repeated with the same outcome |
| BiService.MergedKeys | bi/src/service.py:130-135 | each merged record comes from a claim and a prediction that agree with it on all five keys |
| BiService.EvaluateRecord | bi/src/service.py:130-152 | each evaluated record shares its five keys with some claim and some prediction, its claim price converts to float, `diff` is that float minus `prediction` and `error_rate` is `diff` over that float |
| BiService.AggregateRecord | bi/src/service.py:106-160 | each record of a successful evaluation pairs a given claim with a stored prediction that equals every truthy filter argument and agrees with the claim on the five keys, with `diff` the claim price as a float minus the prediction |

## Left out

- Input and output are parameters or left out: database clients, CSV and pickle files (a map from path to content), SMTP and HTTP transports (an effect log and an outcome), the clock, environment variables, the APScheduler loop, and the FastAPI, Streamlit and MLflow layers.
- Library numerics are opaque: the values sklearn's imputers, scalers and encoders learn and produce, `train_test_split`'s shuffle, LightGBM training, prediction, saving and loading, and the mean, median and mode imputation of the hand-rolled encoder. Each is a tag or an input function.
- Floating-point statistics are left out: `calculate_model_metrics`, `analyze_by_category`, `district_service`, the summary statistics and the price rounding. Prices and residuals are `real`, with no rounding.
- pandas dtypes are not modelled. A column counts as numeric when all its present cells are numbers. `inf` is not a value, and neither are duplicate column names.
- `pd.to_datetime` format inference is left out. Strings are parsed only with the explicit formats the code passes. `strptime` accepts only the canonical fixed-width form of each directive, not the unpadded variants Python also takes.
- `re.match(r'\d{4}-\d{2}-\d{2}', …)` is modelled with ASCII digits. Python's `\d` also matches other Unicode decimal digits.
- When several records of a frame would raise, the model raises for the first record. pandas may report a different one. What the model yields for an exception is only that the call raises, with that kind; the partial state a Python object is left in after an exception is not modelled, except where the code catches it.
- BiModel.BreedsOf: pydantic's coercion is reduced to "a whole number is accepted". String digits and booleans, which pydantic would also coerce, raise `ValidationError` here.
- DashboardSchema.Validate: pandera's dtype checks are reduced to the kind of each cell: text, a number, or a whole number for the integer columns. Nullable and coercion settings are not modelled.
- Frames.Div: a zero divisor gives a missing value, because infinity is not a value of this model. pandas gives plus or minus infinity for a non-zero dividend and NaN for `0 / 0`.
- Joins.WithResidual: a zero base price gives a missing `error_rate`, where pandas gives plus or minus infinity (NaN when `diff` is also zero), because infinity is not a value of this model.
- Evaluation.Residual: a zero true price gives a missing `error_rate`, where pandas gives plus or minus infinity (NaN when `diff` is also zero), for the same reason.
- Frames.ParseFloat: only plain decimal text is read as a number. Python's `float` also accepts surrounding whitespace, an exponent, underscores between digits, and `inf` and `nan` spellings; such text raises `ValueError` here. The same holds for Frames.AsFloat, Frames.CastColumn and BiService.Evaluate.
- BiModel.ToTimestamp: a number raises `TypeError`. `pd.to_datetime` reads it as nanoseconds since the epoch, but timestamps here have whole seconds and there is no conversion from a day count back to a date. The claim files hold their dates as text.
- BiModel.LoadDf: both date columns are checked for presence before either is parsed, and the age is derived record by record. pandas parses all of `created_at` before it looks up `birth`, so when both a `created_at` parse and `birth` fail it reports the parse error.
- DashboardServices.ServiceStep: a tuple compared with a column other than `age` matches nothing, which is what pandas does for a text column. For a numeric column pandas compares a two-row column position by position and raises `ValueError` for other lengths. The dashboard's views offer a range only for `age`.
- ConfigPreprocess.Fit: only the transformer's refusals of a missing column, of a frame without rows and of an unknown imputer strategy are modelled. Failures that depend on cell values, such as a mean imputer or a scaler given text, are not.
- Scheduler.FirstCycleQuiet: stated for a cycle whose record file write succeeds; a failed write raises before any decision, as Scheduler.DbMonitoring states.
- Scheduler.RetrainIffAlert: stated for a cycle whose record file write succeeds; a failed write raises before any decision, as Scheduler.DbMonitoring states.
- Scheduler.FailureReportedOnce: stated for a cycle whose record file write succeeds; a failed write raises before any decision, as Scheduler.DbMonitoring states.
- Scheduler.FailureCycle: stated for a cycle whose record file write succeeds; a failed write raises before any decision, as Scheduler.DbMonitoring states.
- Scheduler.RaisingCycle: stated for a cycle whose record file write succeeds; a failed write raises before any decision, as Scheduler.DbMonitoring states.
- Scheduler.StaleBaselineRepeats: stated for a cycle whose record file write succeeds; a failed write raises before any decision, as Scheduler.DbMonitoring states.
- Scheduler.CorrectedAgreesOnDecision: stated for a cycle whose record file write succeeds; a failed write raises before any decision, as Scheduler.DbMonitoring states.
- Scheduler.CorrectedMonitoring: takes the record file write to succeed. The correction is about the baseline, and a failed write would raise as in Scheduler.DbMonitoring.
- EncodingPipeline.Fit: a refused fit returns only the exception. The partly fitted scalers and mappings, and the caller's frame as far as the in-place `fillna` had got, are not modelled. Failures that depend on cell values, such as a scaler given text, are not modelled either.
- ConfigPreprocess.SplitTrainTest: `train_test_split`'s own refusal of too few rows is not modelled, since the split is an input mask. A price in a syntax beyond plain decimals raises, as under Frames.ParseFloat.
- BackendPreprocess.Transform: the only refusal of the loaded transformer that is modelled is a missing fitted column, which scikit-learn's `ColumnTransformer` reports for a frame. Failures that depend on cell values are not.
- Evaluation.Evaluate: the values of the root mean squared, mean absolute and mean absolute percentage errors are not computed. The model states only when the metrics refuse their input.
- Artifacts.FindLatest: the epoch sentinel is 1970-01-01 00:00:00 as a naive time. `datetime.fromtimestamp(0)` is the epoch in the host's local time zone, so on a host away from UTC the sentinel moves by the zone's offset.
- Evaluation.TrainAndEvaluate: the artifact record's unset paths are `None`. In Python the attributes are never assigned and reading them raises `AttributeError`.
- backend/schema.py is not part of this model. `BackendPreprocess` takes the request's fields as a record.
- pipeline/src/models/preprocess.py is not part of this model.
- The `Monitor` and `Container` classes are immutable datatypes with transition functions. Each Python mutation is a new value.

Behaviour a reader might not expect; the model follows the code:
- A cycle writes the record and baseline before `alert` decides (scheduler/main.py:60-65).
- `calculate_age` returns negative ages rather than rejecting them (backend/preprocess.py:32).
- `raise_for_status` raises only for statuses 400 to 599. Any other status, 1xx and 3xx included, returns the response (scheduler/src/jobs/notify.py:66).
- Among artifacts with equal stamps, `find_latest_file` keeps the first in walk order (backend/utils.py:69).
- The district order is that of dashboard/src/schema.py. dashboard/src/models/enums.py lists the districts in a different order.

## Findings

| source | as written | input that shows it | evidently intended | confidence | as-written member | corrected member |
|---|---|---|---|---|---|---|
| pipeline/src/models/models.py:58-72 | the stamp is what is left of the stem after removing `light_gbm_regression_`, so artifacts named after the registered model `light_gbm_regression_serving` keep `serving_` in front and the parse raises | a walk holding `light_gbm_regression_serving_20240618_041413.pkl` | read the stamp from the last 15 characters of the stem, so serving artifacts resolve too | not executed | Artifacts.ServingArtifactRaises | Artifacts.FindLatestBySuffix |
| scheduler/src/jobs/monitor.py:48-49 | the in-memory baseline is set only when it is `None`, so once the database has grown 30 rows past it, every later cycle requests retraining, even with no new rows | a baseline of 0 rows, then two cycles that each see the same 30-row snapshot | advance the baseline when retraining is requested, so one growth step triggers one request | not executed | Scheduler.StaleBaselineRepeats | Scheduler.CorrectedMonitoring |
| pipeline/src/jobs/train.py:50-52 | the group logged as predicted 100000 or more too high is selected by `diff >= 100000` with `diff = y_true - y_pred`, which holds the under-predictions | a row with true price 200000 and prediction 50000 | log the `diff <= -100000` rows under that label | not executed | Evaluation.ExpensiveIsUnderPrediction | Evaluation.OverPredictedPredictsHigher |
