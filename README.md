# Categorical-column helpers, modelled in Dafny

This project models the two data-preparation helpers in
`Helpers/transformations.py`:

- `classify_categorical_columns(train_data, test_data)` picks the columns of a
  training frame whose dtype is `"object"`. It then splits them into *safe*
  and *unsafe* columns. A column is safe when every value it takes in the
  testing frame also occurs in the training frame, so an ordinal encoder
  fitted on the training data can encode it.
- `use_OH_encoding(OH_encoder, df, columns, training)` hands the requested
  columns to a one-hot encoder. It uses `fit_transform` when training and
  `transform` otherwise. It gives the result the frame's row index, drops the
  requested columns from the frame and appends the encoder's columns. Last, it
  turns every column label into a string.

Both helpers build new frames and lists and never change the frames they are
given. The one thing they change is the encoder object, which `fit_transform`
fits (see "## Left out"). So the model is a set of datatypes, functions and
lemmas:

- `sequences.dfy` (module `Sequences`) holds facts about subsequences and
  duplicate-free sequences. It also has `SetToList`, a listing of a set in an
  unspecified order, which stands for Python's `list(set(...))`.
- `frames.dfy` (module `Frames`) holds the frame data model:
  - labels, which are strings or integer positions;
  - an `"object"`/other dtype tag;
  - columns and frames;
  - `frame[label]` lookup;
  - the exceptions the helpers let escape, as a `Result`.
- `classification.dfy` (module `Classification`) models
  `classify_categorical_columns`. `Classify` returns the triple, or the
  `KeyError` that line 31 raises when a categorical training column is absent
  from the testing frame. The lemmas that follow state what each of the three
  lists is.
- `onehot.dfy` (module `OneHotEncoding`) models `use_OH_encoding`.
  - The encoder is opaque: a pair of functions from the selected columns to a
    block of rows and columns.
  - `OneHotEncode` returns the new frame, or the `KeyError` of `df[columns]`,
    or the `ValueError` of the index assignment at line 62.
  - `str` of a column position is written out as a decimal rendering, with its
    parse-back round trip.

## Model

| member | source | states |
|---|---|---|
| Classification.Classify | Helpers/transformations.py:30-33 | a failure is a `KeyError` naming a categorical training column that the testing frame lacks; on success the safe and unsafe lists together have as many entries as the categorical list |
| Frames.Lookup | Helpers/transformations.py:31 | `frame[x]` finds a column exactly when `x` is one of the frame's labels, and the column it finds carries that label |
| Frames.LookupUnique | Helpers/transformations.py:31 | when labels are unique, `frame[c.name]` is the column `c` itself |
| Classification.CategoricalColumns | Helpers/transformations.py:30 | the categorical list keeps the training columns' order, and a label is in it exactly when an `"object"` column carries it |
| Classification.CoveredMeansEveryValueSeen | Helpers/transformations.py:31 | `set(test).issubset(set(train))` holds exactly when every testing value also occurs among the training values |
| Classification.SafeColumns | Helpers/transformations.py:31 | it fails exactly when some categorical column is missing from the testing frame, and the failure names the first one in order; on success it keeps categorical order and holds exactly the categorical columns whose testing values are covered |
| Classification.FirstMissingSkipsPresent | Helpers/transformations.py:31 | if the first column is present in the testing frame, the first missing column of the rest is the first missing column of the whole list |
| Classification.IsSafeMeansEveryTestValueSeen | Helpers/transformations.py:31 | with unique labels, a training column and the testing column of the same label pass the safety test exactly when every testing value occurs in the training column |
| Classification.ClassifyFailsOnMissingColumn | Helpers/transformations.py:30-33 | the classification succeeds exactly when every `"object"` training column exists in the testing frame; otherwise it raises a `KeyError` for the first missing one in column order |
| Classification.ClassifyCategorical | Helpers/transformations.py:30 | the categorical list is the training labels of `"object"` columns, in training order |
| Classification.ClassifySafe | Helpers/transformations.py:31 | the safe list is a subsequence of the categorical list, and holds exactly the categorical columns that pass the safety test |
| Classification.SafeInTrainingOrder | Helpers/transformations.py:30-31 | the safe list also keeps the order of the training columns |
| Classification.ClassifyUnsafe | Helpers/transformations.py:32 | the unsafe list has no duplicates and holds exactly the categorical columns that fail the safety test, in no promised order |
| Classification.SafeMeansEveryTestValueSeen | Helpers/transformations.py:31-32 | a categorical training column is safe exactly when every value of the testing column with its label occurs in it, and unsafe exactly when some testing value does not |
| Classification.ClassifyPartitions | Helpers/transformations.py:31-32 | safe and unsafe are disjoint, together make up the categorical columns, and their lengths add up to the categorical count |
| Classification.SplitCounts | Helpers/transformations.py:32 | a duplicate-free list split into a kept subsequence and a listing of the other members has as many entries as the two parts together |
| Classification.NoObjectColumnsClassifyEmpty | Helpers/transformations.py:30-33 | a training frame without `"object"` columns yields three empty lists, whatever the testing frame holds |
| Classification.CategoricalDetermined | Helpers/transformations.py:30 | any subsequence of the training labels holding exactly the `"object"` columns' labels is the categorical list: its order is fixed |
| Classification.SafeDetermined | Helpers/transformations.py:31 | any subsequence of the categorical list with the safe membership is the safe list: its order is fixed |
| Classification.SafeColorExample | Helpers/transformations.py:30-33 | training colours red and blue, testing colour red: the colour column is categorical and safe, and nothing is unsafe |
| Classification.UnsafeColorExample | Helpers/transformations.py:30-33 | training colour red, testing colours red and green: the colour column is categorical and unsafe, and nothing is safe |
| Sequences.Elements | Helpers/transformations.py:31-32 | `set(list)` holds exactly the list's members |
| Sequences.NoDuplicatesCardinality | Helpers/transformations.py:32 | a list without duplicates has as many distinct members as entries |
| Sequences.SubsequenceMembers | Helpers/transformations.py:30-31 | a filtered list holds only members of the list it came from |
| Sequences.SubsequenceTransitive | Helpers/transformations.py:30-31 | filtering a filtered list is a filter of the original |
| Sequences.SubsequenceNoDuplicates | Helpers/transformations.py:30-31 | filtering a list without duplicates leaves none |
| Sequences.SubsequenceDeterminedByMembers | Helpers/transformations.py:30-31 | two order-keeping filters of a duplicate-free list with the same members are the same list |
| Sequences.SetToList | Helpers/transformations.py:32 | `list(set(...))` lists each member of the set once, with as many entries as members |
| OneHotEncoding.Decimal | Helpers/transformations.py:68 | `str` of a position is a non-empty string of decimal digits without a leading zero |
| OneHotEncoding.ParseDecimalOfDecimal | Helpers/transformations.py:68 | reading the decimal rendering of a position back gives the position |
| OneHotEncoding.DecimalInjective | Helpers/transformations.py:68 | distinct positions render as distinct strings |
| OneHotEncoding.StrLabel | Helpers/transformations.py:68 | `astype(str)` makes every label a string and keeps string labels as they are |
| OneHotEncoding.Stringify | Helpers/transformations.py:68 | relabelling keeps the number and order of columns and only changes each label |
| OneHotEncoding.MissingLabels | Helpers/transformations.py:58-59 | the requested labels the frame lacks, in request order, and no others |
| OneHotEncoding.Labelled | Helpers/transformations.py:58-59 | the columns carrying one requested label, in frame order and no others; none when the label is absent, and exactly one when labels are unique and it is present |
| OneHotEncoding.LabelledCopies | Helpers/transformations.py:58-59 | the selection for one label keeps every copy of each column carrying it, as often as it occurs in the frame, and no other column |
| OneHotEncoding.Select | Helpers/transformations.py:58-59 | `df[columns]` holds exactly the frame's columns whose label was requested |
| OneHotEncoding.SelectInRequestOrder | Helpers/transformations.py:58-59 | with unique labels that are all present, `df[columns]` has one column per requested label, in request order |
| OneHotEncoding.Encoded | Helpers/transformations.py:57-60 | `fit_transform` when training, `transform` otherwise, applied to `df[columns]` |
| OneHotEncoding.EncoderSeesOnlySelection | Helpers/transformations.py:57-60 | the encoder is given only the requested columns: two frames that agree on them get the same block back |
| OneHotEncoding.DropColumns | Helpers/transformations.py:64 | `df.drop(columns, axis=1)` keeps, in order, exactly the columns whose label was not requested, each as many times as it occurs in the frame |
| OneHotEncoding.Positional | Helpers/transformations.py:57-60 | wrapping the encoder's array in a frame gives one column per encoder column, the i-th labelled by position i and carrying the i-th encoder column |
| OneHotEncoding.OneHotEncode | Helpers/transformations.py:57-69 | the call succeeds exactly when every requested label is present and the encoder returns one row per frame row; the result keeps the index and has as many columns as the kept columns and the encoder's columns together |
| OneHotEncoding.OneHotEncodeErrors | Helpers/transformations.py:57-62 | a `KeyError` is raised exactly when some requested label is absent, and names exactly those labels in request order (see "## Left out" for repeats); with every label present, the call fails only when the encoder's row count differs from the frame's |
| OneHotEncoding.OneHotEncodeIndexAndLabels | Helpers/transformations.py:62-68 | the result keeps the frame's row index and every column label is a string |
| OneHotEncoding.OneHotEncodeKeptColumns | Helpers/transformations.py:64-68 | the result starts with every column that was not requested, in the frame's order, relabelled, and with nothing else; that prefix is exactly the relabelled result of `df.drop`, repeated columns included |
| OneHotEncoding.OneHotEncodeEncodedColumns | Helpers/transformations.py:57-68 | the result ends with the encoder's columns in the encoder's order, labelled "0", "1", ... by position, and these labels are pairwise distinct |
| OneHotEncoding.StringifySubsequence | Helpers/transformations.py:64-68 | relabelling keeps a subsequence of columns a subsequence |
| OneHotEncoding.StringifiedPrefix | Helpers/transformations.py:66-68 | relabelling the concatenation leaves the relabelled kept columns in front |
| OneHotEncoding.StringifyMembers | Helpers/transformations.py:68 | the relabelled columns are exactly the relabellings of the original columns |
| OneHotEncoding.AppendedBlockLayout | Helpers/transformations.py:57-68 | the encoder's columns appended after the kept ones sit at the end, labelled by the decimal rendering of their position |
| OneHotEncoding.EncodedLabelsDistinct | Helpers/transformations.py:68 | columns labelled by the decimal rendering of their position carry distinct labels |
| OneHotEncoding.OneHotEncodeShaped | Helpers/transformations.py:57-66 | if the frame and the encoder's block have one value per row in every column, so has the result |
| OneHotEncoding.ColorEncodingExample | Helpers/transformations.py:57-69 | a frame with a numeric column `a` and a colour column, encoded on the colour, becomes `a` followed by columns "0" and "1" |

`Classification.Classify` and `OneHotEncoding.OneHotEncode` are the two
helpers themselves. Most of their properties are stated by the lemmas above.
`OneHotEncoding.OneHotEncodeValue` is only a proof step: it spells out the
frame a successful call returns.

## Left out

- `Helpers/evaluation.py` and `Helpers/feature_engineering.py` are not part of
  this model. They wrap library models, floating-point metrics and plotting.
- The one-hot encoder's internals are not modelled: which categories it
  learns, `handle_unknown`, sparse or dense output. It is an opaque pair of
  functions. The `training` flag only chooses which of the two is applied.
- The encoder's fitted state is not modelled. `fit_transform` changes the
  encoder object and `transform` raises on an unfitted one; the model treats
  both as plain functions of the selected columns.
- pandas dtype inference is not modelled: each column's tag is given, as
  `"object"` or other.
- Cell values are text, integers and a single missing marker. Floating-point
  values, and the fact that `set()` keeps several NaNs apart by identity, are
  not modelled.
- Classification.Classify: requires the training and testing frames to have
  unique column labels. A repeated training label makes `train_data[col]` at
  line 30 a frame, which has no `.dtype`, so the source raises
  `AttributeError` there; the model does not cover that error. A repeated
  testing label matters only when it is also a categorical training label.
  The requirement therefore also excludes testing frames with a repeated
  label that the source handles normally.
- Classification.ClassifyUnsafe: states only the members of the unsafe list
  and that it has no duplicates, not their order. `list(set(...))` promises
  no order, so `SetToList` picks one arbitrarily. Only the categorical and
  safe lists are proved to be fully determined.
- OneHotEncoding.OneHotEncodeEncodedColumns: shows that the encoder's labels
  are distinct from each other. It does not show that they differ from the
  kept columns' labels. They can clash, for example a kept column already
  named "0", and pandas then holds duplicate labels.
- The row alignment that `pd.concat` performs is not modelled. After line 62
  both parts carry the same index, so the model places the columns side by
  side.
- OneHotEncoding.OneHotEncodeErrors: the labels named by the `KeyError` are
  modelled as the missing requested labels in request order, each as often as
  it was requested. pandas words the message differently: it names each
  missing label once, and when no requested label is present it quotes the
  whole request. Only which labels are missing is modelled, not the message.
- A testing column absent from the training frame raises nothing: line 31
  looks up only the categorical training columns in the testing frame. The
  model does the same.
