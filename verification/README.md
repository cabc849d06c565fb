# OncoSense analysis core, in Dafny

A model of the deterministic core of the OncoSense analysis pipeline
(biosignalen). The pipeline reads an Excel workbook of cell-line
measurements: sheet `L` holds one row per sample with six identifier
columns and one column per process, and sheet `G` holds the G values
of each protein per process. It filters and analyses these tables.
The model covers:

- **Schema validation** (`validation.py`), in module `Validation`:
  `is_valid_L` and `is_valid_G`, with each exception they raise and the
  order the checks run in.
- **Condition strings** (`UIFunctions.py`), in modules `Numerals`,
  `Parsing`, `SheetNames` and `Roles`:
  - `parse_time_string`: the first run of digits, in minutes, times 60 when
    the text mentions `hr`.
  - `parse_measurement_string`: the regular-expression groups
    `([\d.-]+)(\D*)`, `float()`, `str.strip()` and the unit table.
  - `get_sheet_name`.
  - The default control/inhibitor split offered before the compound dialog
    opens.
- **The selection half of `create_plots`**, in modules `PlotSelection` and
  `Sorting`:
  - the candidate compound pairs;
  - the keys that match a pair;
  - the stable sort by decoded fixed value (Python's `sorted` as a stable
    insertion sort);
  - the per-process collection of value heads;
  - the processes seen more than once.
- **Table filters and pipeline control** (`oncosensepy.py`):
  - in `Loading`, the missing-value and placeholder substitution of
    `get_LGE_data`;
  - in `Importance`, `important_L` and `filter_by_col`;
  - in `AnalyzeL`, the four-pass schedule of `analyze_L`, when the
    compound dialog opens, and which keys are kept;
  - in `AnalyzeG`, the sort-and-align step of `analyze_G`.

Tables are immutable values (`Frames.Table`: a header of labels and rows
of cells). Every raised exception becomes an `Err` of `Exceptions.Result`.
The functions of the helper library `helpfunctions.py` enter `AnalyzeL` as
function-valued fields of `AnalyzeL.Helpers`, since helpfunctions.py is not
part of this model. A selection dialog enters as its outcome,
`Roles.Dialog`: applied or closed.

## Model

| member | source | states |
|---|---|---|
| Validation.IsValidL | validation.py:13-29 | The result is Ok(true) iff the first six labels are barcode, cell_line_name, compound_name, 2D_3D, dosage and time in that order, and every dosage and every time cell is text. The first failing name check decides the error: its message exactly as written, or an IndexError when the header is too short. A dosage type error wins over a time type error. False is never returned. |
| Validation.CheckNames | validation.py:13-24 | The name checks run in index order. The result is None iff all six positions hold their expected names. Otherwise it is the error of the first position that fails. |
| Validation.NameError | validation.py:13-24 | A failed name check is an IndexError iff the header is too short to have that position. Otherwise it raises InvalidDataSetException with the message as written, which for the first four positions is the corrected one. |
| Validation.IsValidG | validation.py:55-58 | The result is Ok(true) iff column 0 is UID. An empty header is an IndexError, and any other first label raises InvalidDataSetException with the UID message. |
| Validation.ExtraColumnsUnconstrained | validation.py:13-28 | Two tables that agree on the first six labels and on their dosage and time cells are judged identically, whatever columns follow. |
| Validation.NameMessageReportsPosition | validation.py:14-24 | Every corrected name message reports, as its first number, the position whose check failed. |
| Validation.NameMessageAsWrittenRightBeforeDosage | validation.py:13-20 | The first four messages, as written, already report the right position. |
| Validation.DosageNameMessageMisnumbered | validation.py:21-22 | The message raised for a wrong label at position 4 (dosage), as written, reports position 3. |
| Validation.TimeNameMessageMisnumbered | validation.py:23-24 | The message raised for a wrong label at position 5 (time), as written, reports position 4. |
| Validation.IsValidLMisreportsDosage | validation.py:13-22 | A header that is right up to 2D_3D but wrong at dosage makes is_valid_L blame position 3, which passed its check. |
| SheetNames.GetSheetName | UIFunctions.py:16-34 | The name is the cell name, then one of the four suffixes, then the fixed column. |
| SheetNames.GetSheetNameIsReference | UIFunctions.py:26-34 | The four branches agree with a compositional reading: `_CT` when control_treatment, then `_AVG` when only_avg, then `_by_` and the fixed column. |
| SheetNames.DecodeGetSheetName | UIFunctions.py:26-34 | The flags are recovered from the sheet name, given the cell name and the fixed column. |
| SheetNames.DecodedIsSheetName | UIFunctions.py:26-34 | Conversely, every name that decodes is the sheet name of the flags it decodes to. |
| SheetNames.SheetNamesDistinct | UIFunctions.py:26-34 | For one cell name and fixed column, equal sheet names imply equal flags, so the four combinations give four distinct names. |
| Parsing.HasHr | UIFunctions.py:119 | The result is true iff "hr" occurs somewhere in the string. |
| Parsing.ParseTime | UIFunctions.py:111-121 | A string without a digit is an IndexError. Otherwise the value is the first maximal run of digits, read as a decimal number and multiplied by 60 iff "hr" occurs in the string. The value is never negative. |
| Numerals.FirstDigitRunSpec | UIFunctions.py:118 | The first digit run lies between a digit-free prefix and a non-digit or the end. It is empty exactly when the string has no digit. |
| Numerals.FirstDigitRunOfNumeral | UIFunctions.py:118 | For a numeral followed by text that does not start with a digit, the first digit run is that numeral. |
| Numerals.ShowRoundTrip | UIFunctions.py:118 | Reading the decimal numeral printed for n gives back n. |
| Parsing.TimeRoundTrip | UIFunctions.py:118-121 | Parsing the numeral of n followed by "hr" gives 60·n minutes, and followed by "min" gives n. |
| Parsing.DayInMinutes | UIFunctions.py:118-121 | "24hr" is 1440 minutes. |
| Parsing.HalfHourInMinutes | UIFunctions.py:118-121 | "30min" is 30 minutes. |
| Parsing.NumeralStart | UIFunctions.py:136 | The position of the first character in `[\d.-]`: everything before it lies outside the class. |
| Parsing.NumeralLength | UIFunctions.py:136 | The length of the longest prefix inside `[\d.-]`: the greedy `[\d.-]+`. |
| Parsing.UnitLength | UIFunctions.py:136 | The length of the longest digit-free prefix: the greedy `\D*`. |
| Parsing.GroupBoundsAreTokens | UIFunctions.py:136 | In a string with a character of `[\d.-]`, the computed positions delimit the first match of `([\d.-]+)(\D*)`: a digit-free prefix, a maximal numeral group and a maximal non-digit group. |
| Parsing.Strip | UIFunctions.py:138 | The result is a slice of the input with only white space (Python's isspace set) outside it. It neither starts nor ends with white space. |
| Parsing.StripUnpadded | UIFunctions.py:138 | Text that neither starts nor ends with white space is unchanged by strip. |
| Parsing.ToFloat | UIFunctions.py:137 | float() succeeds exactly on an optional minus followed by digits with at most one point and at least one digit. Anything else is a ValueError. |
| Parsing.FloatOfWhole | UIFunctions.py:137 | float() reads back a printed whole number. |
| Parsing.FloatOfNegated | UIFunctions.py:137 | float() reads back a printed negative whole number. |
| Parsing.FloatOfDecimal | UIFunctions.py:137 | float() reads back a printed decimal: the whole part plus the fraction of the digits after the point. |
| Parsing.ParseMeasurement | UIFunctions.py:124-140 | "-0-" is 0. A string with no character of `[\d.-]` is an IndexError (no match). Otherwise the value is float() of the first numeral group times the magnitude of the stripped unit group that follows it. |
| Parsing.GroupBoundsOfNumber | UIFunctions.py:136 | For digits followed by a digit-free unit that does not start in `[\d.-]`, the groups are exactly the digits and the unit. |
| Parsing.MeasurementOfDigits | UIFunctions.py:134-140 | Digits followed by such a unit parse to the number times the magnitude of the stripped unit. |
| Parsing.KnownUnit | UIFunctions.py:134-140 | A unit of the table, padded or not, scales the number by its magnitude (nM 1e-9, uM 1e-6, mM 1e-3, ug/ml 1). |
| Parsing.UnknownUnitIsZero | UIFunctions.py:134-140 | A unit outside the table gives 0, not an error. |
| Parsing.LowercaseUnitIsZero | UIFunctions.py:134-140 | Unit names are case sensitive: a number followed by "nm" parses to 0. |
| Roles.Distinct | UIFunctions.py:69 | The distinct compound names are exactly the names that occur. |
| Roles.DefaultRoles | UIFunctions.py:68-72 | The controls are the compound names in {CONTROL, DMSO, PBS} and the inhibitors are all the others. The two sets are disjoint and together cover every distinct name. |
| Roles.NoVocabularyNoControls | UIFunctions.py:68-72 | With no name from the control vocabulary, there is no default control and every name is an inhibitor. |
| Roles.Outcome | compoundNamesGUI.py:213-239 | A dialog returns the applied choice, or the defaults it was opened with when the user confirms closing it. |
| PlotSelection.CandidatePairs | UIFunctions.py:261 | The pairs considered are exactly the (first, second) compounds of the keys whose two compounds differ. |
| PlotSelection.Matching | UIFunctions.py:264 | The matching keys are exactly the entries whose compounds equal the pair, in dictionary order. |
| PlotSelection.MatchingAppend | UIFunctions.py:264 | Matching distributes over concatenation, so the matching keys keep their dictionary order. |
| PlotSelection.FixedValue | UIFunctions.py:266-269 | With fixed column `time`, the sort key is parse_time_string in minutes; otherwise it is parse_measurement_string. |
| PlotSelection.SortKey | UIFunctions.py:267-269 | On every key that decodes, the sort key is its decoded fixed value. |
| PlotSelection.FirstKeyError | UIFunctions.py:266-269 | `sorted` fails iff some key does not decode, and then it raises the error of the first such key in list order. |
| PlotSelection.SortMatching | UIFunctions.py:266-269 | The result is an error iff some key does not decode, and then it is the error of the first such key. Otherwise it is a permutation of the matching keys, ascending by decoded value, in which keys with equal values keep their dictionary order. |
| Sorting.SortBy | UIFunctions.py:267-269 | Python's sorted with a key: ascending, a permutation of the input, and stable (for every key value, the elements with that key keep their input order). |
| Sorting.Insert | UIFunctions.py:267-269 | Insertion adds exactly one occurrence of the element. |
| Sorting.InsertSorted | UIFunctions.py:267-269 | Insertion keeps a sequence sorted. |
| Sorting.InsertKeyFilter | UIFunctions.py:267-269 | The inserted element comes after every element with the same key. |
| Sorting.MapSortBy | UIFunctions.py:267-269 | Sorting commutes with a renaming that keeps every key. |
| PlotSelection.ValueHead | UIFunctions.py:277 | `tolist()[:2]` is the start of the process's column: its first two cells, or all of them when the frame has fewer rows. |
| PlotSelection.AddProcesses | UIFunctions.py:275-279 | After the inner loop, a process has an entry iff it had one before or the loop visited it. Entries of processes it does not visit are unchanged. |
| PlotSelection.Accumulate | UIFunctions.py:272-279 | The outer loop holds a list for exactly the processes of the sorted keys' frames. |
| PlotSelection.AddProcessesSpec | UIFunctions.py:275-279 | The inner loop appends one value head of the frame for each occurrence of the process among the visited columns, and nothing else. |
| PlotSelection.AccumulateSpec | UIFunctions.py:272-279 | Over the sorted keys, every process collects exactly its reference list: one value head per appearance, key by key. A process has an entry iff it appears at all. |
| PlotSelection.ProcessSum | UIFunctions.py:283-285 | process_sum holds exactly the processes with more than one collected pair, with their lists unchanged. |
| PlotSelection.ProcessSumOfAccumulate | UIFunctions.py:272-285 | A process is graphed iff it appears at least twice among the sorted keys' processes. |
| PlotSelection.PlotPair | UIFunctions.py:262-285 | A pair is skipped iff at most one key matches. It is an error iff more than one key matches and one of them does not decode, and the error is that of the first such key. A plotted pair draws the matching keys sorted stably by fixed value; every process's values are its reference list over those keys, and a process is summed iff it appears at least twice. |
| PlotSelection.AccumulateAll | UIFunctions.py:272-285 | For every process at once: the collected list is the reference list, and the process is summed iff it appears at least twice. |
| PlotSelection.CreatePlots | UIFunctions.py:261-285 | There is one outcome per candidate pair, none for any other pair, and each is what the pair's own iteration computes. |
| PlotSelection.PlotErrorFrom | UIFunctions.py:261-269 | Scanning the keys from a position on finds no error iff no pair of those keys has more than one matching key with one that does not decode; a found error is that pair's sort error. |
| PlotSelection.PlotError | UIFunctions.py:261-269 | create_plots raises iff some candidate pair has more than one matching key and one of them does not decode; the error raised is the sort error of such a pair. |
| PlotSelection.CreatePlotsFails | UIFunctions.py:261-269 | create_plots completes iff every pair's own iteration completes, and the error it raises is one pair's outcome. |
| Loading.Substitute | oncosensepy.py:19-22 | The result is never the number 0, and every cell other than 0 is unchanged. |
| Loading.FillNaTable | oncosensepy.py:18 | fillna(0) replaces each missing cell by 0 and leaves the shape and all other cells alone. |
| Loading.SubstituteColumn | oncosensepy.py:19-22 | One `apply` rewrites only the cells of its column. |
| Loading.SubstituteFrom | oncosensepy.py:19-22 | The placeholder passes succeed iff every placeholder column exists (KeyError otherwise). Each cell becomes what the passes make of it. |
| Loading.CleanL | oncosensepy.py:18-25 | The L sheet is cleaned iff cell_line_name and the four placeholder columns exist (KeyError otherwise). Each cell is filled, then given its column's placeholder. |
| Loading.CleanG | oncosensepy.py:27-30 | The G sheet is cleaned iff UID exists (KeyError otherwise). Each cell is filled and nothing else. |
| Loading.GetLGEData | oncosensepy.py:9-34 | The result exists iff both sheets clean and the limit header is not empty, and is then the cleaned L and G sheets and the first header cell of the limit sheet. An error in L comes first, then one in G, then an empty limit header (IndexError). |
| Loading.PlacedIsFixed | oncosensepy.py:18-22 | Placeholders are neither 0 nor missing, so cleaning a cleaned cell changes nothing. |
| Loading.CleanLIdempotent | oncosensepy.py:18-22 | Cleaning the L sheet twice is cleaning it once. |
| Loading.PlaceholderColumn | oncosensepy.py:19-22 | In each placeholder column, a 0 or missing cell becomes CONTROL, -0-, -0- or 0hr respectively, and every other cell is kept. |
| Loading.FirstPlaceholder | oncosensepy.py:19-22 | The column found for one pass receives that pass's placeholder. |
| Loading.OtherColumnsOnlyFilled | oncosensepy.py:18-25 | A cell outside the placeholder columns is only filled: a 0 or missing cell line name passes without an error. |
| Importance.CountAbove | oncosensepy.py:60-63 | The count fails with TypeError iff some cell is text. It is at most the number of cells, 0 iff no cell is above the limit in absolute value, and the number of cells iff all are. |
| Importance.CountAboveLimit | oncosensepy.py:59-63 | The counting loop computes the count, and fails at the first text cell. |
| Importance.CountAboveAntitone | oncosensepy.py:62 | Raising the error limit never raises the count. |
| Importance.KeptFrom | oncosensepy.py:59-65 | From a given column on: TypeError iff some column's count fails. Otherwise the kept positions are strictly increasing and hold exactly the columns with a count of at least the threshold. |
| Importance.KeptColumns | oncosensepy.py:55-65 | The analysis columns, those after time, are kept in table order iff at least `threshold` of their cells are above the limit. |
| Importance.ImportantL | oncosensepy.py:51-65 | Validation errors come first. Then a negative threshold is NegativeNumberException. Otherwise the result exists iff every count succeeds. It has the six identifier columns followed by the kept columns, in table order, with their labels and values unchanged and every row kept. |
| Importance.ProjectAfterPrefix | oncosensepy.py:54-65 | Selecting the identifier columns followed by the kept positions gives those columns, with their labels and cells, in that order. |
| Importance.ZeroThresholdKeepsAll | oncosensepy.py:59-65 | With threshold 0, every analysis column is kept. |
| Importance.HighThresholdKeepsNone | oncosensepy.py:59-65 | With a threshold above the row count, no analysis column is kept. |
| Importance.ImportantLAsWritten | oncosensepy.py:51-65 | The first selection, as written, takes every column up to the label 5. The result is TypeError when no column has that label. Otherwise it begins with that whole prefix. |
| Importance.AsWrittenRefusesTableWithoutLabelFive | oncosensepy.py:54 | A valid table without a column labelled 5 is refused as written and accepted by the corrected version. |
| Importance.AsWrittenKeepsInsignificantColumn | oncosensepy.py:54-65 | As written, an analysis column before the label 5 is kept even when its count is below the threshold, while the corrected version drops it. |
| Importance.FilterRows | oncosensepy.py:88 | A row is kept iff it is a row of the input whose cell in the column is listed. |
| Importance.FilterRowsAppend | oncosensepy.py:88 | Filtering distributes over concatenation, so the kept rows keep their original order. |
| Importance.FilterRowsIdempotent | oncosensepy.py:88 | Filtering twice by the same list is filtering once. |
| Importance.FilterRowsTwice | oncosensepy.py:88 | Filtering by one list and then another is filtering by their intersection. |
| Importance.FilterByCol | oncosensepy.py:87-96 | Validation errors come first, then a missing column is a KeyError. Otherwise the rows kept are exactly those whose cell is listed, in table order (the reference filter), the header is unchanged, and an empty list keeps no row. |
| AnalyzeL.Advance | oncosensepy.py:117-123 | At the top of a pass at most one flag changes: pass 1 clears only_avg, pass 2 sets control_treatment, pass 3 sets only_avg, and pass 0 changes nothing. |
| AnalyzeL.FlagsAt | oncosensepy.py:116-123 | only_avg holds exactly in passes 0 and 3 (and later), control_treatment exactly from pass 2 on. |
| AnalyzeL.Schedule | oncosensepy.py:116-123 | The passes run with (only_avg, control_treatment) = (T,F), (F,F), (F,T), (T,T). |
| AnalyzeL.EachCombinationOnce | oncosensepy.py:116-123 | Each flag combination is run by exactly one of the four passes. |
| AnalyzeL.PassSheetNamesDistinct | oncosensepy.py:117-133 | The four passes of a cell line write four different sheets. |
| AnalyzeL.RolesAt | oncosensepy.py:115-129 | Up to pass `iter`, at least one and at most iter + 1 compound dialogs have opened. |
| AnalyzeL.AskedIffEmpty | oncosensepy.py:128-129 | A dialog opens at a pass iff both role lists before it are empty. |
| AnalyzeL.RolesSettle | oncosensepy.py:128-129 | Once a pass has roles, no dialog opens again and every later pass uses the same roles. |
| AnalyzeL.ClosedFirstDialogKeepsDefaults | oncosensepy.py:128-129 | Closing the first dialog on a cell line that has compounds keeps the default split for all four passes, with one dialog in all. |
| AnalyzeL.ProducingProcesses | oncosensepy.py:138-146 | The processes with a reason row are exactly those of the list that produce one, in list order. |
| AnalyzeL.AnalyzeProcesses | oncosensepy.py:138-146 | The reason rows are, in process order, exactly one row per producing process (so they are empty iff no process produces one). averages[p] is set exactly for the processes that produce a row, to their two means. Every other entry, including that of a visited process without a row, is untouched. |
| AnalyzeL.KeysWhere | oncosensepy.py:136-165 | The reference filter: the keys whose producing status is the given one, in dictionary order. |
| AnalyzeL.AnalyzeKeys | oncosensepy.py:136-165 | Every key is either kept with its nonempty reason rows or removed. A key is kept iff some process of it produces a reason row. |
| AnalyzeL.AnalyzeKeysOrder | oncosensepy.py:136-165 | The kept keys are the dictionary minus the removed keys, in dictionary order, each with the reason rows of its producing processes in process order; the removed keys are the rest, in order. |
| AnalyzeL.AnalyzeKeysLastWriter | oncosensepy.py:136-146 | After a pass, averages[p] holds the two means of the last key (in dictionary order) that produced a reason row for p. |
| AnalyzeL.AnalyzeKeysKeepsAverage | oncosensepy.py:136-146 | A process no key produces a row for keeps the average it came in with, or stays absent. |
| AnalyzeL.RunPass | oncosensepy.py:117-172 | A pass analyses the pairs dictionary df_to_dict builds for its flags, with the role lists df_to_dict returns. It fails iff it is pass 0, some key is kept, and create_plots raises on the kept keys (export_data plots before writing the sheet), with create_plots' error. Otherwise it exports to its own sheet iff some key has a process with a reason row, and draws graphs only in pass 0 when exporting. |
| AnalyzeL.CellRows | oncosensepy.py:127 | The rows of one cell line are exactly the rows whose cell_line_name is that line, in table order (the reference filter). A KeyError is raised without that column. |
| AnalyzeL.CellDefaults | oncosensepy.py:127-129 | The default role split is that of the cell line's compound_name column. A KeyError is raised without that column. |
| AnalyzeL.AnalyzeCellLine | oncosensepy.py:114-172 | The cell line is analysed iff cell_line_name and compound_name exist (KeyError otherwise) and pass 0 does not fail in create_plots. It then gets four passes in schedule order, pass i running on the cell line's rows with the roles known at pass i, with the four sheet names, and no pass after the first draws graphs. |
| AnalyzeL.LineResults | oncosensepy.py:114-172 | One analysis per chosen cell line, each with its own dialog outcomes. |
| AnalyzeL.AnalyzeLines | oncosensepy.py:112-172 | The run over the chosen cell lines succeeds iff every line does, giving each line's passes in order; otherwise it stops with the error of the first failing line, every earlier line having completed. |
| Exceptions.Sequence | oncosensepy.py:114-172 | Steps run in order until one raises: the result is every value iff no step fails, else the first failure's error. |
| AnalyzeG.ItemsOf | oncosensepy.py:202-204 | `to_dict()` with the default index: item i is (i, the i-th cell). |
| AnalyzeG.ProcessValues | oncosensepy.py:204 | The values of a process column: a KeyError without the column and a TypeError for a non-number cell. Otherwise there is one number per row, equal to that row's cell. |
| AnalyzeG.SortedValueItems | oncosensepy.py:205 | The value items, sorted ascending by value, as a permutation of the items. |
| AnalyzeG.SortedNameItems | oncosensepy.py:208 | The name items, sorted ascending by the value stored for their index, as a permutation of the items. |
| AnalyzeG.LookupSorted | oncosensepy.py:208 | Looking up a row index in the sorted values dict still gives that row's value. |
| AnalyzeG.NamesFollowValues | oncosensepy.py:205-209 | The names sort puts the row indices in exactly the order of the values sort. |
| AnalyzeG.SortOrder | oncosensepy.py:205-206 | The order is a permutation of the row indices that lists the values in ascending order. |
| AnalyzeG.SortProcess | oncosensepy.py:205-209 | Position k of both output lists comes from the same row, the k-th of the sort order. The values are ascending and a permutation of the input values. |
| AnalyzeG.Uids | oncosensepy.py:202 | The UID column, or KeyError when G has none. |
| AnalyzeG.AnalyzeG | oncosensepy.py:199-223 | The result exists iff there are no processes, or UID exists and every process column is numeric. Without UID the result is a KeyError. Otherwise there is one result per process. |
| AnalyzeG.AnalyzeGAt | oncosensepy.py:199-223 | The k-th result is the k-th process's values sorted ascending, with the UIDs aligned to them. |

## Left out

- helpfunctions.py is not part of this model. `df_to_dict`, `get_analysis_columns`, `get_comparison_data`, `create_reason_dataframe`, `create_updated_dataframes`, the pair-table assembly (`create_pairs_dataframe_*`, `create_pairs_df`) and `find_edges` enter only as the opaque function fields of `AnalyzeL.Helpers`. Their statistics are floating point.
- Plotting, export and file I/O are not modelled: `create_bars`, `create_graphs`, the drawing half of `create_plots`, `plot_G_values`, `create_new_sheet`, `set_column_width_and_alignment`, `export_data`, `get_folder_name`, `is_valid_path`, the Excel reads of `get_LGE_data` and the CSV writes of `analyze_G`.
- The Qt dialogs (compoundNamesGUI.py, cellNamesGUI.py, `pop_up_cell_GUI`) are abstracted as `Roles.Dialog`: an applied choice or the defaults. The list of cell lines to analyse is taken as given; `AnalyzeL.AnalyzeLines` runs them in order.
- Floating point: numbers are reals. The unit magnitudes are exact, `float()` is exact, and rounding and NaN arithmetic are not modelled. A missing cell is a separate `Missing` value that compares false with the limit.
- `\d` and `int()` accept only the ASCII digits 0-9 here. Python also accepts other Unicode decimal digits.
- Validation.IsValidL: it raises the name messages exactly as validation.py words them, so a wrong dosage or time label is reported one position too low. The corrected messages, `Validation.NameMessage`, are stated separately and are not what the model raises.
- PlotSelection.CreatePlots: the order in which the Python set of pairs is visited is not modelled. Outcomes are given per pair, and `graphs` becomes `AnyGraphs`.
- Roles.Distinct: `unique()` is modelled as a set, so the order of the role lists is not modelled.
- Duplicate column labels are not modelled. `df[label]` reads the first column with the label, where pandas would return a frame.
- The missing-identifier checks at oncosensepy.py:24-25 and 29-30 build an exception object but never raise it. The model follows the code: no error.
- AnalyzeG.ProcessValues: a G column that is not all numbers is a TypeError, a simplification of how pandas compares mixed values while sorting.
- AnalyzeG.AnalyzeG: only the sorted UIDs and values per process are modelled. The MultiIndex frame, the edge lists and the empty-frame column assignment are not.
- AnalyzeL.RunPass: it states which keys are kept and removed, the averages, and when a pass exports and draws graphs. The contents of the exported tables (create_updated_dataframes, the column reindex and the pair-table assembly) come from helpfunctions.py and are not stated, so only_avg has no effect in the model beyond the sheet name.
- AnalyzeL.Helpers: the p-value and the error limit that analyze_L passes to the comparison helpers are constants of one run and are folded into the helper functions; get_comparison_data's `key` argument is the entry itself.
- PlotSelection.PlotPair: a key whose fixed value does not decode is an error for its pair only. The abort of the whole loop is `PlotSelection.PlotError`.
- PlotSelection.PlotError: when several pairs fail with different exceptions, Python raises that of the first failing pair in set order, which is not modelled; the model names the first failing pair by dictionary order of its first key.
- PlotSelection.Entry: a sequence of entries may repeat a key, which a Python dict cannot. No contract assumes distinct keys, so each holds for dictionaries as a special case.
- AnalyzeL.RunPass: the pass-0 plotting works on the kept keys; the frames create_plots sees are the helper-built pair tables, which are not modelled. Its failure depends only on the keys. Errors raised while drawing (create_bars, create_graphs) are not modelled.

## Findings

| source | as written | input that shows it | evidently intended | confidence | as-written member | corrected member |
|---|---|---|---|---|---|---|
| oncosensepy.py:54 | `l_df.loc[:, :5]` slices by label: it takes every column up to and including the one labelled 5, and fails when no column has label 5 (a TypeError in the model; which exception, and whether some pandas versions fall back to a positional slice with a warning, depends on the pandas version) | A valid L table whose analysis columns are labelled 1, 2, 5, 7 and threshold greater than the count of column 1: column 1 is kept anyway. A valid L table with text process labels: the slice raises | The six identifier columns, then exactly the analysis columns that reach the threshold | medium, not executed | Importance.ImportantLAsWritten, Importance.AsWrittenKeepsInsignificantColumn, Importance.AsWrittenRefusesTableWithoutLabelFive | Importance.ImportantL |
| validation.py:22-24 | The messages for positions 4 and 5 say "column 3 should be 'dosage'" and "column 4 should be 'time'" | A header whose fifth label is not dosage: the message names column 3, which is 2D_3D | Each message names the position that failed: column 4 for dosage and column 5 for time | high, not executed | Validation.NameMessageAsWritten, Validation.DosageNameMessageMisnumbered, Validation.TimeNameMessageMisnumbered, Validation.IsValidLMisreportsDosage | Validation.NameMessage, Validation.NameMessageReportsPosition |
