# Disease-prediction feature pipeline, modelled in Dafny

This project models the two halves of the repository's feature handling. Between them they must keep training-time and prediction-time features consistent.

- **The fit-time transformer** (`DataTransformation.initiate_data_transformation`). It does the following to the train and test frames:
  - drops the columns whose names start with `Unnamed`;
  - fills the missing cells of every numeric column, in both frames, with the training median;
  - for every categorical column that is not entirely missing in the training frame, fills missing cells with `"missing"`, fits one `LabelEncoder` on train and test together, and replaces both frames' values with the integer codes;
  - records `train_columns`, the cleaned training labels without the last one (the target).
- **The inference-time aligner** (`PredictionPipeline.predict` with the dict branch of `_apply_label_encoders`). It does the following to an arbitrary input frame:
  - strips the `Unnamed` columns;
  - appends each absent training column as a column of `0`;
  - keeps exactly `train_columns`, in their order;
  - encodes every column that has an encoder, mapping values the encoder has not seen to `classes_[0]`;
  - returns the matrix handed to the classifier.

Files:

- `tables.dfy` (module `Tables`): frames as values. A frame is an ordered list of distinct labels, a map from label to column, and a row count. A cell is a number, a string or missing. The module holds the `Unnamed` drop, `fillna`, `.values` and taking one row.
- `statistics.dfy` (module `Statistics`): pandas' `Series.median()` in exact real arithmetic. Missing cells are skipped, the numbers sorted, and the middle one or the mean of the two middle ones taken.
- `label_encoding.dfy` (module `LabelEncoding`): scikit-learn's `LabelEncoder`.
  - `Fit` keeps the sorted distinct values.
  - `IndexOf` and `Transform` give each value's position.
  - `Decode` reads `classes_` back.
- `data_transformation.dfy` (module `DataTransformation`): the transformer, in two parts.
  - `Transformation` states its result column by column.
  - Three imperative methods run the two column loops the source runs. They update the frames and the encoder dictionary one column at a time, and are proved to compute `Transformation`.
- `prediction_pipeline.dfy` (module `Prediction`): the aligner, in two parts.
  - `Aligned` states its result column by column.
  - The class `PredictionPipeline` holds the loaded encoder map and `train_columns`. Its methods run the source's loops, over the dictionary's items and over the set of missing columns.
- `consistency.dfy` (module `Consistency`): how the two halves meet.
  - The artifacts the transformer would persist satisfy what the pipeline needs.
  - A fit-time value gets the same code at inference.
  - A training row sent through `predict` comes back as the features fitted for it exactly when the median loop filled none of its feature cells.

Where the two halves raise, the model returns `Err`. The median loop raises `KeyError` for a numeric training column that the test frame lacks. The encoding loop raises `KeyError` for an encoded column that the test frame lacks, and `TypeError` from `le.fit` when that test column holds numbers among its strings. The model reports the first failing column in the order of the loops.

Where the code and the design description disagree, the model follows the code:

- **All-missing numeric training column.** The design says fitting fails with a data error. In the code the median is NaN, and `fillna(NaN)` changes nothing, so the column stays missing in both frames (`MedianFilled`, `MedianFill`).
- **Absent columns at inference.** The design asks for the training median, or an encoded `"missing"`, in an absent column. The code writes `0`. For a column with an encoder, that `0` is not a class, so its cells become code 0 (`AbsentColumns`).
- **Schema check after completion.** The design describes one; the code has none. Projection cannot fail once the missing columns are added (`StagesAligned`).

## Model

| member | source | states |
|---|---|---|
| Tables.DropUnnamed | src/components/data_transformation.py:30-31 | No kept label starts with "Unnamed". Every other column is kept with its cells, and the row count is kept. A well-formed frame stays well formed. |
| Tables.KeepNamedInOrder | src/components/data_transformation.py:30-31 | The kept labels occur in the original label list in the same relative order. |
| Tables.KeepNamedDistinct | src/components/data_transformation.py:30-31 | Dropping labels from a repeat-free list leaves it repeat-free. |
| Tables.Values | src/pipelines/prediction_pipeline.py:64 | `.values` has one row per frame row and one entry per column. |
| Statistics.NumValues | src/components/data_transformation.py:35 | The values the median is taken over are exactly the numbers of the column. |
| Statistics.SortSpec | src/components/data_transformation.py:35 | The median's sort gives an ascending permutation of the values. |
| Statistics.MedianOrderIndependent | src/components/data_transformation.py:35 | The median depends only on the multiset of values, not on row order. |
| Statistics.MedianSplits | src/components/data_transformation.py:35 | At least half of the sorted values lie at or below the median, and at least half at or above it. |
| Statistics.MedianWithinRange | src/components/data_transformation.py:35 | Some value lies at or below the median, and some at or above it. |
| LabelEncoding.InsertClassSpec | src/components/data_transformation.py:51 | Inserting a value into a sorted repeat-free class list keeps it sorted and repeat-free, and adds exactly that value. |
| LabelEncoding.UniqueSpec | src/components/data_transformation.py:51 | The distinct values are strictly ascending, and they are exactly the values that occur. |
| LabelEncoding.FitSpec | src/components/data_transformation.py:51 | `classes_` after fit is strictly ascending, holds exactly the fitted values, and is non-empty for non-empty input. |
| LabelEncoding.FitDependsOnlyOnValueSet | src/components/data_transformation.py:51 | Two inputs with the same set of values fit the same encoder, whatever their order or repetitions. |
| LabelEncoding.SortedClassesUnique | src/components/data_transformation.py:51 | Two strictly ascending lists with the same elements are equal, so `classes_` is determined by the value set. |
| LabelEncoding.IndexOfSpec | src/components/data_transformation.py:52-53 | A class gets the index of its first occurrence, and that index points back at it. A non-class gets the list length. |
| LabelEncoding.TransformSpec | src/components/data_transformation.py:52-53 | Transforming values that are all classes gives in-range codes that point back at each value. |
| LabelEncoding.Decode | src/components/data_transformation.py:52-53 | Decoding code k gives a class whose code is k, so decode inverts transform. |
| LabelEncoding.IndexOfInjective | src/components/data_transformation.py:52-53 | Two classes get the same code if and only if they are the same value. |
| DataTransformation.FirstTrue | src/components/data_transformation.py:34-54 | Finds the first flagged column: it is flagged, and no earlier column is. None means no column is flagged. |
| DataTransformation.AllButLast | src/components/data_transformation.py:63 | `columns[:-1]`: appending the last label gives back the list, and an empty list stays empty. |
| DataTransformation.FillNumericColumn | src/components/data_transformation.py:35-37 | One pass of the median loop fails exactly when the test frame lacks a numeric column, with KeyError on that column. Otherwise both frames have the column median-filled. |
| DataTransformation.FillNumericColumns | src/components/data_transformation.py:34-37 | Failing at the first numeric column the test frame lacks, or else both frames with every numeric column median-filled. |
| DataTransformation.EncodeObjectColumn | src/components/data_transformation.py:41-54 | Fails exactly when the column is encodable and the test frame lacks it (KeyError) or holds numbers (TypeError). Otherwise the column is skipped, or encoded in both frames and its encoder recorded. |
| DataTransformation.EncodeObjectColumns | src/components/data_transformation.py:40-54 | Failing at the first failing column, or else both frames fully encoded and the full encoder map. |
| DataTransformation.InitiateDataTransformation | src/components/data_transformation.py:29-54 | The method made of the drop and the two loops computes exactly the column-wise `Transformation`, error cases included. |
| DataTransformation.TransformationOk | src/components/data_transformation.py:29-54 | On success the outputs are the transformed frames, the encoder map and `columns[:-1]`, and no training column made either loop raise. |
| DataTransformation.TransformationFails | src/components/data_transformation.py:34-54 | Fitting fails if and only if some cleaned training column makes the median loop or the encoding loop raise. |
| DataTransformation.TransformedTableValid | src/components/data_transformation.py:34-54 | Filling and encoding keep a frame's labels, keys and length, and keep it well formed. |
| DataTransformation.TransformationShape | src/components/data_transformation.py:30-54 | Both output frames have the original labels minus the 'Unnamed' ones, in the original order, with no 'Unnamed' label, the original row counts, and well-formed columns. |
| DataTransformation.TrainColumnsAllButLast | src/components/data_transformation.py:63 | `train_columns` is the cleaned training labels with the last one removed, one shorter, in the same order. |
| DataTransformation.MedianFilledCell | src/components/data_transformation.py:35-37 | A median-filled cell is the training median when it was missing and a median exists; otherwise it is unchanged. |
| DataTransformation.MedianFill | src/components/data_transformation.py:34-37 | In both frames, each missing cell of a numeric column becomes the median of the training column, and every other cell is kept. A training column with no numbers leaves its cells missing. |
| DataTransformation.MedianIgnoresTest | src/components/data_transformation.py:35-37 | The test frame never influences the training frame's numeric columns. |
| DataTransformation.EncoderKeys | src/components/data_transformation.py:41-54 | A column has an encoder if and only if it is a named object column of the training frame that is not entirely missing. The target column is included. |
| DataTransformation.UntouchedColumns | src/components/data_transformation.py:41-44 | A column that neither loop touches keeps its cells in both frames. This covers other dtypes and entirely missing object columns. Such a column gets no encoder. |
| DataTransformation.LabelsOfFilled | src/components/data_transformation.py:48-49 | After the "missing" fill, a column without numbers holds only strings, and its labels are exactly those strings. |
| DataTransformation.EncoderOf | src/components/data_transformation.py:48-54 | An encoder is fitted on the filled train cells followed by the filled test cells, and both output columns are that encoder's transform of the filled columns. |
| DataTransformation.ColumnVocabulary | src/components/data_transformation.py:48-51 | The vocabulary fitted on two filled columns is strictly ascending and holds exactly their strings. It covers every filled cell, and is non-empty when the training column has a present cell. |
| DataTransformation.Vocabulary | src/components/data_transformation.py:48-51 | Each encoder's classes are the sorted set of distinct values of its column in train and test together, after the "missing" fill, and are non-empty. |
| DataTransformation.CodesOfKnownLabels | src/components/data_transformation.py:52-53 | Each code of a column of known labels is in range and decodes to its label. Two codes are equal if and only if their labels are. |
| DataTransformation.EncodeConcat | src/components/data_transformation.py:51-53 | Transforming train and test separately gives the transform of their concatenation. |
| DataTransformation.ColumnCodes | src/components/data_transformation.py:51-53 | Each code written into two filled columns is below the vocabulary size and decodes to the filled value. Two codes are equal if and only if the filled values are. |
| DataTransformation.EncodedCodes | src/components/data_transformation.py:51-53 | Every encoded cell of train and test holds a code below the vocabulary size that decodes to the filled original value, so no value is unseen. |
| DataTransformation.EncodedInjective | src/components/data_transformation.py:51-53 | Two encoded cells, in either frame, hold the same code if and only if their filled values are equal. |
| Prediction.KnownLabels | src/pipelines/prediction_pipeline.py:36 | The unseen-value mapping keeps the column's length. |
| Prediction.Project | src/pipelines/prediction_pipeline.py:55 | `df[train_columns]` has exactly the listed labels in the listed order, and the same row count. |
| Prediction.Aligned | src/pipelines/prediction_pipeline.py:46-58 | The aligned frame has exactly the training labels, the input's row count, and one column per training label. |
| Prediction.EncodeKnownLength | src/pipelines/prediction_pipeline.py:34-37 | Encoding a column keeps its length. |
| Prediction.AlignedValid | src/pipelines/prediction_pipeline.py:55 | The aligned frame is well formed whenever the training labels do not repeat. |
| Prediction.EncodeKnownCell | src/pipelines/prediction_pipeline.py:34-37 | Encoding a column is encoding each of its cells. |
| Prediction.EncodeCellSpec | src/pipelines/prediction_pipeline.py:34-37 | After the "missing" fill, a class gets a code that decodes back to it. Anything else gets code 0: an unseen string, a number such as an added 0, or "missing" when it is not a class. |
| Prediction.EncodeCellInRange | src/pipelines/prediction_pipeline.py:34-37 | Every encoded cell is a code below the number of classes. |
| Prediction.AlignedShape | src/pipelines/prediction_pipeline.py:55 | The output has exactly the training columns in order, one matrix row per input row, and one entry per training column. |
| Prediction.AlignedIgnoresUnnamed | src/pipelines/prediction_pipeline.py:47 | 'Unnamed' input columns never reach the output: aligning the input equals aligning it with them stripped. |
| Prediction.AlignedIgnoresOrderAndExtras | src/pipelines/prediction_pipeline.py:55 | Two inputs that agree on the training columns give the same output frame and matrix, however their columns are ordered and whatever extra columns they have. |
| Prediction.AbsentColumns | src/pipelines/prediction_pipeline.py:50-52 | A training column the input lacks, or has only under an 'Unnamed' label, comes out all zeros, or all code 0 when it has an encoder. |
| Prediction.PassThrough | src/pipelines/prediction_pipeline.py:31-32 | A training column without an encoder passes through unchanged. |
| Prediction.EncodersOutsideColumnsIgnored | src/pipelines/prediction_pipeline.py:31-32 | Encoders whose column is not a training column, such as the target's, can be removed without changing the output. |
| Prediction.AlignedEncodedCells | src/pipelines/prediction_pipeline.py:34-37 | Each output cell of a column with an encoder is an in-range code. A known value gets a code that decodes back to it; an unseen one gets code 0. |
| Prediction.ApplyEncodersStep | src/pipelines/prediction_pipeline.py:31-37 | Applying one more encoder changes that encoder's column alone, and only when the frame has that column. |
| Prediction.StagesAligned | src/pipelines/prediction_pipeline.py:46-58 | After the drop and the zero columns, every training column is present, and projecting and encoding give the aligned frame. |
| Prediction.PredictionPipeline.constructor | src/pipelines/prediction_pipeline.py:10-19 | The pipeline holds the loaded encoder map and `train_columns`. |
| Prediction.PredictionPipeline.ApplyLabelEncoders | src/pipelines/prediction_pipeline.py:28-42 | The dict loop, visiting the encoders in any order, encodes exactly the columns that have an encoder and keeps the rest. |
| Prediction.PredictionPipeline.AddMissingColumns | src/pipelines/prediction_pipeline.py:50-52 | Every training column the frame lacks is appended as zeros, and every existing column and the row count are kept. The result is well formed, with the existing labels first in their order. |
| Prediction.PredictionPipeline.Predict | src/pipelines/prediction_pipeline.py:44-64 | The matrix handed to the classifier is the values of the column-wise aligned frame. |
| Consistency.ArtifactsLoadable | src/components/data_transformation.py:41-63 | The persisted encoder map holds fitted, sorted, non-empty class lists, and `train_columns` does not repeat, as the pipeline's constructor requires. |
| Consistency.PrefixDistinct | src/components/data_transformation.py:63 | A prefix of a repeat-free label list is repeat-free. |
| Consistency.FilledCell | src/pipelines/prediction_pipeline.py:34 | Filling cell by cell at inference agrees with the column-wide fill at fit time. |
| Consistency.SameCodeCell | src/pipelines/prediction_pipeline.py:37 | For a filled value that is a class, the inference code equals the fit-time code. |
| Consistency.SameCodesInColumn | src/pipelines/prediction_pipeline.py:34-37 | When every filled cell is a class, inference encodes each cell to the fit-time code. |
| Consistency.FilledColumnsInVocabulary | src/components/data_transformation.py:48-51 | Every filled cell of train and test is a class of the encoder fitted on both. |
| Consistency.SameCodeAsFit | src/pipelines/prediction_pipeline.py:34-37 | Every training or test value of an encoded column is encoded at inference to the code the transformer wrote for it. |
| Consistency.FeatureColumns | src/components/data_transformation.py:63 | Every feature column is a named, typed column of the cleaned training frame. |
| Consistency.RoundTripCell | src/pipelines/prediction_pipeline.py:50-55 | For one feature cell of a training row, inference reproduces the fitted cell if and only if the median loop did not fill it. |
| Consistency.RowPrefixMatches | src/pipelines/prediction_pipeline.py:64 | A one-row frame over the first labels of another frame equals that frame's row i, so restricted, if and only if they agree column by column. |
| Consistency.AlignedRowMatches | src/pipelines/prediction_pipeline.py:55-64 | An aligned one-row input equals row i of a frame restricted to its first labels if and only if the two agree on every training column. |
| Consistency.RowAgreesIffNothingFilled | src/components/data_transformation.py:34-53 | A training row, aligned, agrees with its fitted features on every feature column if and only if no feature cell of it was median-filled. |
| Consistency.TrainRowRoundTrip | src/pipelines/prediction_pipeline.py:46-64 | A training row sent through `predict` with the persisted artifacts gives the fitted features of that row minus the last column if and only if the median loop filled none of its feature cells. |

## Left out

- Reading and writing files. `pd.read_csv`, `joblib.dump`, `joblib.load`, `os.makedirs` and the artifact paths are I/O. The transformer returns the frames, the encoder map and `train_columns` it would persist. The pipeline's constructor takes the loaded encoder map and `train_columns` as arguments. Atomic replacement of artifacts is not modelled, and the code does not provide it.
- The classifier. `model.predict` at prediction_pipeline.py line 67 and the model artifact are foreign calls. `Predict` returns the matrix handed to it.
- The non-dict preprocessor branch, prediction_pipeline.py lines 38-41. It calls an opaque scikit-learn transformer.
- Logging and the `CustomException` wrapping. An exception is modelled as `Err` naming the failing column and the kind of error (`MissingColumn` for `KeyError`, `MixedTypes` for `TypeError`).
- pandas dtype inference. `select_dtypes` is replaced by a map from training column to kind (numeric, object, other), given as input.
- Floating point. Medians and cells are exact reals. NaN is the `Missing` cell, and codes are whole reals.
- DataTransformation.InitiateDataTransformation: requires that training object columns hold only strings and missing cells, as `read_csv` produces them. A training object column holding numbers also makes `le.fit` raise, which the model does not cover.
- DataTransformation.InitiateDataTransformation: assumes the chained `train_df[col].fillna(median, inplace=True)` updates the frame. Under pandas copy-on-write that statement leaves the frame unchanged, which the model does not cover.
- Prediction.PredictionPipeline.constructor: requires every loaded encoder to have a sorted, non-empty class list, and `train_columns` to have no repeats. The code does not check this. An empty `classes_` would make line 36 raise `IndexError`, and that error path is not modelled. `Consistency.ArtifactsLoadable` proves that the transformer's own artifacts satisfy this.
- Prediction.PredictionPipeline.Predict: requires a well-formed input frame with unique labels. pandas allows duplicate labels, and those are not modelled.
- Prediction.PredictionPipeline.AddMissingColumns: states the appended columns' contents but not their order among themselves. The order is Python's set iteration order, which projection on line 55 then discards.
- Prediction.PredictionPipeline.ApplyLabelEncoders: the dict's iteration order is left open, and the result is proved the same for every order. The aliasing of `df` with a view of the input frame is not modelled, because frames are values.
