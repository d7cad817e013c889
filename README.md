# scripps_demo preprocessing core, modelled in Dafny

The scripps_demo pipeline regrids two satellite products onto a common
latitude/longitude grid:

- CYGNSS level-2 ocean surface wind swaths;
- PACE OCI level-2 biogeochemistry granules distributed by NASA OB.DAAC.

This project models the parts of that pipeline that are self-contained logic:

- **File naming** (`utils.py`, and `file_to_time_id` in
  `preprocess_cygnss_wind.py`). Each input file name carries a time id.
  - An OB.DAAC name `<mission>.<YYYYMMDDTHHMMSS>.<level>...` yields its second dot field.
  - A CYGNSS name `cyg.ddmi.s<start>-e<end>.l2...` yields its end time, with `-` rewritten to `T`.
  - A regridded output `<id>.nc` yields its stem.

  Only the OB.DAAC id is turned into a date-time: `regrid_file` in
  `preprocess_oci_bgc.py` calls `utils.timestamp_to_datetime`, which applies
  `datetime.strptime(id, "%Y%m%dT%H%M%S")`. `utils.is_valid_iso_timestamp`
  runs the same conversion as a check. The CYGNSS script never parses its id.
  The conversion is modelled as CPython's `_strptime` performs it:
  - one regular-expression alternation per directive;
  - first-match backtracking;
  - a case-insensitive `T`;
  - the `datetime` range checks.
- **Pending work** (`remove_files_already_done` in both scripts). The input
  files are indexed by id in a dict. The last-listed file of an id wins, and
  the id keeps its first position. The ids that already have an output are
  deleted, and the remaining files are returned in dict order.
- **Binning CYGNSS samples onto the grid** (`process_remap_indexes`,
  `create_variable_arrays`, `map_to_variables`):
  - every sample's latitude and longitude is snapped to the nearest grid value (numpy `argmin`, the first index on ties);
  - one empty `|latitude| x |longitude|` array is made per variable;
  - each sample is merged into its cell. An empty cell (NaN, `None` here) takes the sample's value; an occupied cell becomes the mean of its old value and the sample's value.
- **Average neighbour spacing of an OCI swath** (`get_avg_distance`). This is
  the mean absolute difference between north-south and east-west neighbours of
  a 2-D coordinate array.

Modules:

- `Optional` holds the `Option` and `Result` datatypes; `Numeric` holds the absolute value.
- `PyStrings` holds `str.count`, `str.split`, `str.replace` and slicing.
- `PurePath` holds `PurePosixPath.name`.
- `Strptime` holds `datetime.strptime` for the one format the pipeline uses.
- `Utils` covers `utils.py`.
- `PendingWork` holds the shared deduplication algorithm. The id function is a parameter.
- `CygnssWind` covers the CYGNSS naming and its `remove_files_already_done`.
- `CygnssGrid` covers the CYGNSS gridding.
- `OciBgc` covers `preprocess_oci_bgc.py`.

State the scripts change in place is modelled imperatively:
- the data frame is the class `CygnssGrid.Frame`, whose `lat`/`lon` columns `ProcessRemapIndexes` overwrites;
- the variable arrays are `array2`s that `MapToVariables` writes cell by cell;
- the dict of `remove_files_already_done` is a key order plus a map that a loop deletes from.

Each method is proved against a specification function:
- `PendingWork.Pending`;
- `CygnssGrid.Snap`;
- `CygnssGrid.Binned`.

The properties are proved as lemmas about those functions.

Directory listings, file contents and the grid coordinates are parameters.
Floating-point coordinates and values are `real`.

## Model

| member | source | states |
|---|---|---|
| PyStrings.Occurrences | utils.py:35 | `str.count` of one character is never more than the string's length |
| PyStrings.OccurrencesZero | preprocess_cygnss_wind.py:101 | the count is zero exactly when the character does not occur |
| PyStrings.Split | utils.py:37 | `str.split` on one character: one more field than separators; no field holds the separator; fields only use characters of the input; joining the fields back gives the input |
| PyStrings.SplitJoin | utils.py:37 | round trip: splitting the join of separator-free fields gives the same fields back |
| PyStrings.Replace | preprocess_cygnss_wind.py:108 | `str.replace('-', 'T')`: same length; each position holds the replacement exactly where the input held the old character, the input character elsewhere |
| PyStrings.SliceFrom | preprocess_cygnss_wind.py:106 | `s[18:]`: the suffix from position 18, and the empty string (not an error) when the string is shorter |
| PurePath.Name | utils.py:28-33 | `Path(f).name` holds no `/`, is never `.`, and is empty or one of the `/`-separated parts of the path |
| PurePath.NameIgnoresDirectory | utils.py:31-33 | `<dir>/<name>` has name `name` whatever `dir` is |
| PurePath.NameIsLastComponent | utils.py:28-33 | the name is the last `/`-separated part that parsing keeps: every later part is empty or `.`, and an empty name means every part is |
| PurePath.NameIdempotent | utils.py:33 | taking the name of a name changes nothing |
| Strptime.Match | utils.py:18 | matching the format's regular expression from position i: a match has one capture per directive and ends between i and the end of the string |
| Strptime.FirstAlternative | utils.py:18 | the alternatives of one directive tried first to last, backtracking into the rest of the pattern: a match captures this directive and every later one, ending within the string |
| Strptime.MatchCaptures | utils.py:18 | each text a match captures is accepted, character by character, by one of its directive's alternatives |
| Strptime.FirstAlternativeCaptures | utils.py:18 | the capture of the chosen alternative and of every later directive is accepted by an alternative of its own directive |
| Strptime.Value | utils.py:18 | `int()` of a captured field: n decimal digits give a value below 10^n |
| Strptime.ParseLength | utils.py:18 | no string longer than 15 characters parses with this format |
| Strptime.MakeDateTime | utils.py:18 | the fields give a `datetime` exactly when they are in `datetime`'s ranges (year 1-9999, a day of that month in that year, hour < 24, minute and second < 60) |
| Strptime.Parse | utils.py:18 | every date-time `strptime` returns is a valid calendar date and time of day |
| Strptime.ParseFormat | utils.py:15-21 | round trip: the 15-character `YYYYMMDDTHHMMSS` rendering of any valid date-time parses back to that date-time |
| Strptime.ParseCanonical | utils.py:15-21 | on 8 digits, `T`, 6 digits: parsing succeeds exactly when the digit fields form a valid date and time, and then returns those fields |
| Strptime.SingleDigitFieldsAccepted | utils.py:16-18 | the format is more lenient than `YYYYMMDDTHHMMSS`: `202431T000000` parses as 1 March 2024 00:00:00 |
| Utils.FileToTimeId | utils.py:24-42 | the id never fails, never contains `.` or `/`, and is one of the dot fields of the final path component |
| Utils.TimeIdUsesOnlyName | utils.py:28-33 | only the final path component matters |
| Utils.TimeIdIgnoresDirectory | utils.py:28-33 | `<dir>/<name>` has the id of `name` |
| Utils.TimeIdWithoutDot | utils.py:39-40 | a name without a dot is its own id |
| Utils.TimeIdOneDot | utils.py:39-40 | `<stem>.<ext>` has id `stem` |
| Utils.TimeIdManyDots | utils.py:35-37 | `<mission>.<stamp>.<rest>` has id `stamp`, whatever `rest` holds |
| Utils.StemId | utils.py:39-40 | the bare output name `<id>.nc` has id `id` |
| Utils.OutputNameId | utils.py:24-42 | `<outDir>/<id>.nc` has id `id` for any id without dots or slashes |
| Utils.TimeIdRoundTrip | utils.py:24-42 | round trip: the id of `<id>.nc` and of `<outDir>/<id>.nc` is the id of the original file |
| Utils.ListTimeStamps | utils.py:45-49 | one id per listed file, in listing order |
| Utils.IsValidIsoTimestamp | utils.py:15-21 | `strptime` with the one format, as a check: a string it accepts is at most 15 characters long |
| Utils.IsValidIsoTimestampCanonical | utils.py:15-21 | on 8 digits, `T`, 6 digits the check is true exactly when the fields form a valid date and time |
| Utils.TimestampToDatetime | utils.py:52-54 | succeeds exactly when `is_valid_iso_timestamp` holds for the file's id, and then yields a valid date-time |
| Utils.ObdaacNameId | utils.py:28-37 | `<dir>/<mission>.<stamp>.<rest>` has id `stamp` |
| Utils.TimestampOfObdaacName | utils.py:52-54 | an OB.DAAC name carrying the rendering of a valid date-time converts back to that date-time |
| PendingWork.Ids | preprocess_cygnss_wind.py:142 | the id of every listed file, one per file, in listing order |
| PendingWork.FirstOccurrences | preprocess_oci_bgc.py:78 | the key order of the dict: no key twice, and exactly the ids that occur |
| PendingWork.FirstOccurrencesOrder | preprocess_oci_bgc.py:78 | the dict's keys are ordered by the first position at which each id occurs in the listing |
| PendingWork.Without | preprocess_cygnss_wind.py:144-146 | the keys left after deletion are exactly the keys not among the completed ids |
| PendingWork.WithoutOrdered | preprocess_cygnss_wind.py:144-146 | deleting keys keeps the surviving keys in their relative order |
| PendingWork.WithoutDistinct | preprocess_cygnss_wind.py:144-146 | deleting keys keeps the remaining keys distinct |
| PendingWork.Table | preprocess_cygnss_wind.py:141 | the dict's keys are exactly the input ids, and each key maps to an input file with that id |
| PendingWork.TableKeepsLast | preprocess_cygnss_wind.py:141 | of several inputs sharing an id, the dict keeps the last-listed one |
| PendingWork.Values | preprocess_cygnss_wind.py:148 | `list(d.values())`: one value per key, in key order |
| PendingWork.Pending | preprocess_cygnss_wind.py:140-148 | the result is no longer than the input listing, and every returned file is an input |
| PendingWork.PendingSkipsCompleted | preprocess_cygnss_wind.py:144-146 | no returned file has the id of any output file |
| PendingWork.PendingDistinctIds | preprocess_cygnss_wind.py:141 | at most one returned file per id |
| PendingWork.PendingCoversOpenIds | preprocess_cygnss_wind.py:140-148 | every input id without an output is represented in the result |
| PendingWork.PendingKeepsLast | preprocess_cygnss_wind.py:140-148 | the last-listed input of an id without an output is the file returned |
| PendingWork.PendingKeyOrder | preprocess_cygnss_wind.py:140-148 | the ids of the returned files follow the first position of each id in the input listing |
| PendingWork.PendingFirstOccurrenceOrder | preprocess_cygnss_wind.py:140-148 | the returned files come in the order their ids first occur in the input listing |
| PendingWork.DeleteCompleted | preprocess_cygnss_wind.py:144-146 | the deletion loop leaves exactly the key order filtered by the completed ids, with the surviving keys' files unchanged |
| PendingWork.RemoveFilesAlreadyDone | preprocess_cygnss_wind.py:140-148 | building the dict, deleting in a loop and listing the values returns exactly `Pending` |
| CygnssWind.FileToTimeId | preprocess_cygnss_wind.py:93-109 | the CYGNSS id never fails and never contains `.` or `/`; for a name with two or more dots it holds no `-` |
| CygnssWind.AgreesWithUtilsOnShortNames | preprocess_cygnss_wind.py:101-102 | with at most one dot the CYGNSS id equals the OB.DAAC id |
| CygnssWind.TimeIdUsesOnlyName | preprocess_cygnss_wind.py:95-100 | only the final path component matters |
| CygnssWind.TimeIdIgnoresDirectory | preprocess_cygnss_wind.py:95-100 | `<dir>/<name>` has the id of `name` |
| CygnssWind.TimeIdManyDots | preprocess_cygnss_wind.py:104-108 | `<a>.<b>.<field>.<rest>` has the id `field[18:]` with `-` replaced by `T`; a field of at most 18 characters gives the empty id |
| CygnssWind.EndTimeOfSwathField | preprocess_cygnss_wind.py:105-108 | the field `s<date>-<time>-e<date>-<time>` yields `<end date>T<end time>` |
| CygnssWind.OutputNameOneDot | preprocess_cygnss_wind.py:131-134 | the output name `<outDir>/<id>.nc` has exactly one dot in its final component |
| CygnssWind.TimeIdRoundTrip | preprocess_cygnss_wind.py:131-134 | round trip: the output `<outDir>/<id>.nc` written for a file has that file's id |
| CygnssWind.RemoveFilesAlreadyDone | preprocess_cygnss_wind.py:140-148 | equals `Pending` for the CYGNSS id; returns only inputs, none with the id of an output |
| CygnssWind.ProcessedFileNotPending | preprocess_cygnss_wind.py:131-148 | once a file's output is listed, that file is no longer pending |
| CygnssGrid.NearestIndex | preprocess_cygnss_wind.py:58-59 | `argmin` of the absolute difference: an index in range whose grid value is at minimal distance, the first such index |
| CygnssGrid.NearestOfNearest | preprocess_cygnss_wind.py:58-62 | the nearest index of the snapped value is the index originally found |
| CygnssGrid.NearestOfGridValue | preprocess_cygnss_wind.py:80-81 | a value on the grid is snapped to itself, at its own index when the grid has no repeats |
| CygnssGrid.Snap | preprocess_cygnss_wind.py:54-63 | one snapped value per row, each a grid value at minimal distance from the row's value |
| CygnssGrid.SnapIdempotent | preprocess_cygnss_wind.py:54-63 | snapping an already snapped column changes nothing |
| CygnssGrid.Frame.constructor | preprocess_cygnss_wind.py:42 | a data frame whose `lat`, `lon` and variable columns have one entry per row |
| CygnssGrid.ProcessRemapIndexes | preprocess_cygnss_wind.py:51-64 | overwrites the `lat`/`lon` columns with their snapped values; same row count; the other columns are unchanged |
| CygnssGrid.CreateVariableArrays | preprocess_cygnss_wind.py:67-73 | one new array per variable name and no other, each `|latitude| x |longitude|`, every cell empty, no two names sharing an array |
| CygnssGrid.VariableArraysTemplate | preprocess_cygnss_wind.py:153 | the start-up template: exactly the arrays `wind_speed` and `wind_speed_uncertainty`, two distinct `|latitude| x |longitude|` arrays with every cell empty |
| CygnssGrid.Merge | preprocess_cygnss_wind.py:84-89 | an empty cell takes the sample; an occupied cell becomes the value halfway between old and new |
| CygnssGrid.RunningAverageWeighsLastSample | preprocess_cygnss_wind.py:84-89 | three samples in one cell give weights 1/4, 1/4, 1/2: a running pairwise mean, not the mean of the samples |
| CygnssGrid.Binned | preprocess_cygnss_wind.py:78-89 | a cell any sample falls into is no longer empty |
| CygnssGrid.BinnedUntouched | preprocess_cygnss_wind.py:78-89 | a cell no sample falls into keeps its value; on fresh arrays it stays empty |
| CygnssGrid.BinnedWithinRange | preprocess_cygnss_wind.py:84-89 | a cell's value stays between the bounds of its old value and of the samples falling into it |
| CygnssGrid.HitsAfterSnap | preprocess_cygnss_wind.py:80-81 | a sample snapped beforehand falls into the same cell as the raw sample |
| CygnssGrid.BinnedSameHits | preprocess_cygnss_wind.py:78-89 | two coordinate columns that send every sample to the same cells bin to the same values |
| CygnssGrid.BinnedAfterSnap | preprocess_cygnss_wind.py:114-116 | binning after `process_remap_indexes` gives the same cells as binning the raw coordinates |
| CygnssGrid.MapToVariables | preprocess_cygnss_wind.py:76-91 | after the loop every cell of every array holds `Binned` of its old value: each row merged, in order, into its nearest cell, in every variable's array |
| CygnssGrid.MergeSample | preprocess_cygnss_wind.py:83-89 | one row merged into cell (i, j) of every array, every other cell unchanged |
| CygnssGrid.Accumulate | preprocess_cygnss_wind.py:85-89 | one cell merges the sample, every other cell of that array is unchanged |
| OciBgc.RemoveFilesAlreadyDone | preprocess_oci_bgc.py:77-85 | equals `Pending` for the OB.DAAC id; returns only inputs, none with an output's id, at most one per id, and one for every input id without an output |
| OciBgc.ProcessedFileNotPending | preprocess_oci_bgc.py:67-85 | once the `<id>.nc` that `regrid_file` writes for a file is listed, that file is no longer pending |
| OciBgc.RowSteps | preprocess_oci_bgc.py:35 | the east-west differences of one row: one fewer than the row, each the absolute step between neighbours |
| OciBgc.RowGaps | preprocess_oci_bgc.py:33 | the north-south differences between two rows: one per column, each the absolute gap |
| OciBgc.SouthDifferences | preprocess_oci_bgc.py:33 | `abs(diff(a, axis=0))` has `(r-1)*c` entries, all non-negative |
| OciBgc.EastDifferences | preprocess_oci_bgc.py:35 | `abs(diff(a, axis=1))` has `r*(c-1)` entries, all non-negative |
| OciBgc.SouthEntry | preprocess_oci_bgc.py:33 | entry `i*c + j` of `abs(diff(a, axis=0))` is the gap `Abs(a[i+1][j] - a[i][j])` between rows i and i+1 in column j |
| OciBgc.EastEntry | preprocess_oci_bgc.py:35 | entry `i*(c-1) + j` of `abs(diff(a, axis=1))` is the step `Abs(a[i][j+1] - a[i][j])` in row i |
| OciBgc.SumNonNegative | preprocess_oci_bgc.py:37 | `np.sum` of non-negative terms is non-negative |
| OciBgc.SumBetween | preprocess_oci_bgc.py:37 | a sum of n terms within [lo, hi] lies within [n*lo, n*hi] |
| OciBgc.GetAvgDistance | preprocess_oci_bgc.py:31-42 | there is no average (the division yields NaN) exactly when the array has no neighbours: no rows, no columns, or a single cell; otherwise it is non-negative |
| OciBgc.NoDistances | preprocess_oci_bgc.py:40 | the count of differences is zero exactly for an empty or 1x1 array |
| OciBgc.DifferenceCount | preprocess_oci_bgc.py:40 | an r x c array has exactly `(r-1)*c + r*(c-1)` differences |
| OciBgc.SouthWithin | preprocess_oci_bgc.py:33 | when every vertical neighbour gap is within [lo, hi], so is every south difference |
| OciBgc.EastWithin | preprocess_oci_bgc.py:35 | when every horizontal neighbour step is within [lo, hi], so is every east difference |
| OciBgc.AvgDistanceWithin | preprocess_oci_bgc.py:31-42 | when every neighbour difference lies within [lo, hi], so does the average |
| OciBgc.MeanWithin | preprocess_oci_bgc.py:42 | a mean of values within [lo, hi] lies within [lo, hi] |
| OciBgc.AvgOfConstant | preprocess_oci_bgc.py:31-42 | a constant array has average spacing 0 |

## Left out

- I/O is not part of this model: directory globbing, `mkdir`, opening and writing netCDF files, `print`, and `utils.find_groups`. The listings the scripts glob are parameters of `RemoveFilesAlreadyDone`.
- The `multiprocessing.Pool` fan-out is left out; the model deals with one file at a time.
- Several drivers are left out because they only plumb I/O and xarray calls: the per-file `main`, `regrid_file` and `process_swath`, and the averaging `main` of `preprocess_oci_bgc.py`.
- The grid itself (`create_matrix_shape`, `np.arange` in float32) is a parameter. Float32 rounding and `np.arange` length rounding are not modelled; coordinates and values are `real`.
- `prep_cygnss_dataframe` and `pd.to_datetime` are not part of this model. The data frame is given as a `Frame`.
- `remap_util.py`, `regression.py` and `animations.py` are not part of this model. They wrap xesmf, scipy and plotting.
- CygnssGrid.MapToVariables: samples are `real`, so a NaN sample value is not modelled. In the script, `np.mean` with a NaN would empty an occupied cell again.
- CygnssGrid.MapToVariables: NaN coordinates are not modelled.
- CygnssGrid.MapToVariables: requires the arrays of distinct variables to be distinct objects, which `create_variable_arrays` guarantees. With two names sharing one array, the script would merge a row into that array twice.
- CygnssGrid.MapToVariables: the shallow `variable_arrays_template.copy()` in `main` shares the arrays between successive files of one worker. The model covers the arrays `map_to_variables` is given, with their old contents as the starting value of each cell, and not that sharing.
- CygnssGrid.MergeSample: visits the variables in an unspecified order rather than dict order. Each variable's array is updated independently, so the order does not change the result.
- Strptime.Parse: `\d` is modelled as the ASCII digits. Python's `re` also matches other Unicode decimal digits there.
- Strptime.Parse: only the format `%Y%m%dT%H%M%S` is modelled, and only the `datetime` result; the locale machinery of `_strptime` is not modelled.
- CygnssGrid.NearestIndex: requires a non-empty grid, so numpy's `ValueError` from `argmin` on an empty array is not modelled. The grid is a non-empty constant at every call (preprocess_cygnss_wind.py:152).
- OciBgc.GetAvgDistance: coordinates are `real`, so NaN fill values in the coordinate array are not modelled. In the script one NaN makes the average NaN.
- PurePath.Name: models POSIX paths only. A Windows path (backslash separators, drive letters) is not modelled.
- The docstring of `is_valid_iso_timestamp` promises the shape `YYYYMMDDTHHMMSS`. The code accepts more: single-digit month, day and time fields, a space-padded day and a lowercase `t`. The model follows the code (`Strptime.SingleDigitFieldsAccepted`). The iff with the canonical shape is proved for 15-character inputs of that shape (`Strptime.ParseCanonical`).
