# Table 24900: reshaping the statistics API response

This project models `procesar_datos`. It turns the response of the statistics API for table 24900 into a DataFrame of eight columns. The same steps appear twice in the repository:

- as the function in `tabla24900optimizado.py` (lines 15-28);
- as straight-line script code in `24900.py` (lines 43-65).

The script's lines 43, 47-48, 54, 56, 58, 61, 63 and 65 are the function's lines 19-27 in the same order. So the rows below that cite the function also cover the script. The one difference is that the script has no `not data` guard. Lines 43-65, started on an empty list, would raise the KeyError for the missing `Nombre` column that `Pipeline.ReshapeFrame` returns in that case. The script as a whole fails earlier: with an empty list, `data[0]` at 24900.py:35 raises IndexError before line 43 is reached.

The response is a list of tables. Each table has a composite label `Nombre`, such as `"Base 2006. Anual. 1.2.3.4.Total."`, and a list `Data` of points (`Anyo`, `Valor`, `Secreto`). `procesar_datos` works in these steps:

1. It flattens the tables into one row per point, tagged with the table's label.
2. It removes every `Base 2006. Anual.` from the label and trims whitespace.
3. It makes the cleaned label the row index and copies it back into a column.
4. It splits the label at its first four dots into `indice, dato, tipo_dato, descripcion, quintil`.
5. It trims dots from the quintile and turns an empty quintile into a missing value.
6. It drops the label column, keeps the eight columns in order, and lower-cases `Anyo`, `Valor` and `Secreto`.

When `data` is missing or an empty list, the function returns `None`.

The project has five modules, one per file:

- `wrappers.dfy` (Wrappers): `Option` and `Result`.
- `text.dfy` (Text): the Python string operations the steps use, with their laws:
  - removing every occurrence of a pattern (`str.replace(p, '')`);
  - `str.strip`;
  - `str.split(sep, maxsplit)`.
- `dataframe.dfy` (Frames): the part of a pandas DataFrame the function touches.
  - `Frame` is the frame as a value. Its column operations are pure functions with contracts.
  - `DataFrame` is the mutable object the source changes in place. Its methods are proved against those functions.
- `transform.dfy` (Transform): what the result is, on values, row by row.
  - `Reshape` covers lines 19-28 and `Process` covers lines 15-28.
  - The module also holds the lemmas about flattening, cleaning, splitting and tidying.
- `pipeline.dfy` (Pipeline): the source's own steps, run one after another on a `DataFrame`.
  - `ReshapeFrame` and `ProcessData` are proved to return exactly the frame, or raise exactly the exception, that `Transform.Reshape` and `Transform.Process` describe.

Both exceptions the steps can raise are modelled as `Frames.Error`:

- `MissingColumn` (pandas' KeyError): when the response is an empty list, `json_normalize` makes no `Nombre` column. The optimized function never gets that far, because its `not data` guard returns `None` first. The script's lines 43-65 have no such guard, so on an empty list they would raise it.
- `ColumnCountMismatch` (pandas' ValueError): assigning the split to five keys fails unless some label of the batch splits into five fields. The expanded split is as wide as the longest split in the batch.

Three facts about the code are easy to misread:

- The quintile is stripped of dots at both ends (`strip('.')`). The comment at 24900.py:57 speaks only of dots at the end, but the code cuts leading dots too, and the model follows the code.
- A label with fewer than five fields does not fail on its own. Its missing fields are `None`. Only a batch in which no label reaches five fields raises, and it raises the ValueError of the assignment.
- The returned frame keeps the cleaned label as its row index. `set_index` put it there, and dropping the `Nombre` column does not remove it. `Transform.Table.index` carries it.

## Model

| member | source | states |
|---|---|---|
| Transform.Flatten | tabla24900optimizado.py:19 | flattening gives exactly one row per point of every table |
| Transform.FlattenAt | tabla24900optimizado.py:19 | point `j` of table `i` is row `points-before-i + j` of the flattened frame, tagged with table `i`'s `Nombre` (order is kept) |
| Transform.FlattenAppend | tabla24900optimizado.py:19 | flattening two lists of tables is flattening each and concatenating |
| Pipeline.Normalized | tabla24900optimizado.py:19 | the flattened frame has one row per point; it has a `Nombre` column exactly when there is a table; that column holds each row's table label; the point columns hold each row's point |
| Pipeline.PointsFrame | tabla24900optimizado.py:19 | for a nonempty batch of rows, the frame has the `Nombre` column and the three point columns, each holding the rows' values in order |
| Text.RemoveAll | tabla24900optimizado.py:20 | removing a pattern never lengthens the string |
| Text.RemoveAllDeletesEveryOccurrence | tabla24900optimizado.py:20 | the string splits into pieces: joined with the pattern they give it back; concatenated they give `RemoveAll`; and no piece contains the pattern |
| Text.PiecesJoin | tabla24900optimizado.py:20 | the pieces between occurrences, joined with the pattern, rebuild the original string |
| Text.PiecesConcat | tabla24900optimizado.py:20 | removing every occurrence is concatenating the pieces between them |
| Text.PiecesAvoidPattern | tabla24900optimizado.py:20 | no piece between occurrences contains the pattern |
| Text.RemoveAllWithoutOccurrence | tabla24900optimizado.py:20 | a string without the pattern is left unchanged |
| Text.LeadCount | tabla24900optimizado.py:20 | counts exactly the leading characters in the strip set |
| Text.TrailCount | tabla24900optimizado.py:20 | counts exactly the trailing characters in the strip set |
| Text.Strip | tabla24900optimizado.py:20 | the result is no longer than the input and neither starts nor ends with a stripped character |
| Text.StripBounds | tabla24900optimizado.py:20 | the result is a contiguous slice of the input, and everything cut off before and after it is in the strip set |
| Text.StripIdempotent | tabla24900optimizado.py:20 | stripping twice is stripping once |
| Text.StripEmptyIff | tabla24900optimizado.py:20 | the result is empty exactly when every character is in the strip set |
| Transform.CleanLabel | tabla24900optimizado.py:20 | the cleaned label neither starts nor ends with whitespace |
| Transform.CleanLabelDropsPrefix | tabla24900optimizado.py:20 | a label that is `Base 2006. Anual.` followed by a rest without that text is cleaned to its rest, trimmed |
| Transform.CleanLabelIdempotent | tabla24900optimizado.py:20 | once the prefix is gone, cleaning again changes nothing |
| Pipeline.CleanCells | tabla24900optimizado.py:20 | cleaning a column keeps its length; a cell is text exactly when it was text before; a cleaned text neither starts nor ends with whitespace |
| Pipeline.CleanedNombre | tabla24900optimizado.py:20 | cleaning the `Nombre` column cell by cell gives the cleaned labels |
| Frames.IndexedBy | tabla24900optimizado.py:21 | KeyError exactly when the column is missing; otherwise the column becomes the index, leaves the columns (the labels are the old ones with that one removed), and every other column is kept |
| Frames.DataFrame.SetIndex | tabla24900optimizado.py:21 | changes the object in place to `IndexedBy`, or raises and leaves it unchanged |
| Frames.DataFrame.Locate | tabla24900optimizado.py:22 | scanning the object's labels with a loop gives the first position of the label, or None when it is absent (the result is `Find`'s) |
| Frames.Find | tabla24900optimizado.py:22 | gives the first position of the label, and None exactly when the label is absent |
| Frames.Column | tabla24900optimizado.py:22 | a column is found exactly when its label is present, and it is as long as the index |
| Frames.WithColumn | tabla24900optimizado.py:22 | assigning a column overwrites it, or appends it when missing; it reads back as assigned and leaves every other column unchanged |
| Frames.DataFrame.Get | tabla24900optimizado.py:22 | reading a column gives its cells, or KeyError exactly when it is missing |
| Frames.DataFrame.SetColumn | tabla24900optimizado.py:22 | changes the object in place to `WithColumn` |
| Pipeline.NormalizedColumns | tabla24900optimizado.py:19 | a nonempty response flattens to the three point columns (when there are points), then `Nombre` last |
| Pipeline.LabelColumnsKept | tabla24900optimizado.py:20-22 | cleaning `Nombre` in place, making it the index and copying it back leaves the column labels exactly as they were |
| Pipeline.IndexByLabel | tabla24900optimizado.py:20-22 | after cleaning, `set_index` and copying back, the index and the `Nombre` column are the cleaned labels, the column labels are the same as before (`Nombre` is removed by `set_index` and appended again at the end), and the point columns are unchanged |
| Text.SplitN | tabla24900optimizado.py:23 | splitting with `maxsplit` n gives between 1 and n+1 fields |
| Text.IndexOf | tabla24900optimizado.py:23 | gives the position of the first occurrence of the separator |
| Transform.SplitLabel | tabla24900optimizado.py:23 | a cleaned label gives exactly five label cells, the first always present |
| Text.SplitNSpec | tabla24900optimizado.py:23 | the fields joined with the separator give the input back; no field but the last holds the separator; there is one more field than `min(separators, n)`; the last field holds no separator unless all n cuts were made |
| Text.SplitNJoins | tabla24900optimizado.py:23 | the split fields joined with the separator give the input back |
| Text.SplitNFieldsFree | tabla24900optimizado.py:23 | no field but the last contains the separator |
| Text.SplitNCount | tabla24900optimizado.py:23 | the field count is `min(separators, n) + 1`, and when fewer than n cuts were made the last field is separator-free |
| Text.SplitNJoin | tabla24900optimizado.py:23 | for fields that could come out of the split, splitting their join gives them back (the converse round trip) |
| Transform.SplitLabelSpec | tabla24900optimizado.py:23 | a label splits into 1 to 5 fields at its first four dots; they join back to the label; the first four hold no dot; the columns past the last field are None |
| Transform.SplitLabelOfParts | tabla24900optimizado.py:23 | joining 1 to 5 dot-free parts and splitting gives those parts back in the first columns and None after them |
| Transform.PresentOfPadded | tabla24900optimizado.py:23 | padding the fields with None up to the batch width loses nothing |
| Transform.Width | tabla24900optimizado.py:23 | the expanded width is the longest split in the batch, and 0 for no rows |
| Transform.SplitsWidthFive | tabla24900optimizado.py:23 | the batch splits five wide exactly when some cleaned label has at least four dots, and never wider |
| Pipeline.SplitCells | tabla24900optimizado.py:23 | the expanded split of a column: every output column is as long as the input column |
| Pipeline.SplitOfLabels | tabla24900optimizado.py:23 | the expanded split has one column per field of the widest label; cell `k` of row `i` is field `k` of that row's label, or a missing value |
| Frames.Assigned | tabla24900optimizado.py:23 | assigning several columns leaves every column outside the keys unchanged |
| Frames.AssignedReadsBack | tabla24900optimizado.py:23 | after assigning distinct keys, each key reads back its own column |
| Frames.DataFrame.SetColumns | tabla24900optimizado.py:23 | ValueError, and no change, when the column count differs from the key count; otherwise the object becomes `Assigned` |
| Transform.TidyQuintil | tabla24900optimizado.py:24 | None stays None; a kept quintile is nonempty and neither starts nor ends with a dot |
| Transform.TidyQuintilSpec | tabla24900optimizado.py:24 | the quintile becomes None exactly when it is all dots (the empty string included); otherwise it is the input with its leading and trailing dots cut |
| Transform.TidyQuintilIdempotent | tabla24900optimizado.py:24 | tidying twice is tidying once |
| Pipeline.TidyCells | tabla24900optimizado.py:24 | tidying a column keeps its length; a missing cell stays missing; a kept quintile is nonempty and neither starts nor ends with a dot |
| Pipeline.TidyCell | tabla24900optimizado.py:24 | tidying the column tidies each cell's optional quintile |
| Pipeline.SplitAssigned | tabla24900optimizado.py:23-24 | the frame after the split is assigned and the quintile tidied keeps its index and stays well formed |
| Pipeline.SplitAssignedColumns | tabla24900optimizado.py:23-24 | after the split is assigned and the quintile tidied, the first four label columns hold the split, `quintil` holds the tidied fifth, and every other column is unchanged |
| Pipeline.SplitNombre | tabla24900optimizado.py:23-24 | the split is `SplitCells` of the labels; ValueError, and no change, exactly when it is not five wide; otherwise the frame is the split assigned and tidied |
| Frames.RemoveAt | tabla24900optimizado.py:25 | removing position `j` shifts everything after it down by one |
| Frames.WithoutColumn | tabla24900optimizado.py:25 | removing a column keeps the index and every other column |
| Frames.Dropped | tabla24900optimizado.py:25 | KeyError exactly when the column is missing; otherwise the labels are the old ones with that column removed, and the index and every other column are kept |
| Frames.DataFrame.Drop | tabla24900optimizado.py:25 | changes the object in place to `Dropped`, or raises and leaves it unchanged |
| Pipeline.DropNombre | tabla24900optimizado.py:23-25 | after the split and the drop, the label columns hold the split (the quintile tidied), and every other column except `Nombre` is unchanged |
| Frames.Selected | tabla24900optimizado.py:26 | succeeds exactly when every key is present; the result has exactly those columns, in key order, with the same index and cells; otherwise KeyError names the first missing key |
| Frames.DataFrame.Select | tabla24900optimizado.py:26 | returns a fresh DataFrame holding `Selected`, or its KeyError |
| Pipeline.SelectionLayout | tabla24900optimizado.py:26 | the selection is the five label columns followed by the three point columns, and none of the point columns is `Nombre` or a label column |
| Frames.Renamed | tabla24900optimizado.py:27 | renaming keeps every cell and the index; each label found in the map becomes its image, and every other label stays |
| Frames.DataFrame.Rename | tabla24900optimizado.py:27 | changes the object in place to `Renamed` |
| Pipeline.LowercaseSelection | tabla24900optimizado.py:26-27 | renaming a frame whose labels are the selection gives exactly the labels of the eight-column schema `indice … secreto` |
| Pipeline.RenamedSelection | tabla24900optimizado.py:26-27 | renaming a frame that holds the eight selected columns gives the result table's frame |
| Pipeline.SelectRename | tabla24900optimizado.py:26-27 | when every selected column holds the result's column, selecting succeeds and renaming gives the result table's frame |
| Transform.Labels | tabla24900optimizado.py:20 | there is one cleaned label per flattened row |
| Transform.Records | tabla24900optimizado.py:23-27 | there is one result row per flattened row |
| Transform.ToRecord | tabla24900optimizado.py:23-27 | a row's year, value and secrecy flag are copied from its point, and `indice` is always present |
| Transform.RecordOfFourParts | tabla24900optimizado.py:23-27 | a label of four dot-free parts gives those parts and a missing quintile |
| Transform.RecordOfFiveParts | tabla24900optimizado.py:23-27 | a label of five parts gives the first four and the tidied fifth as quintile |
| Pipeline.RecordLabelCells | tabla24900optimizado.py:23-27 | a result row's label cells are its label's split fields, the quintile tidied |
| Pipeline.PointCell | tabla24900optimizado.py:19-27 | a result row's last three cells are its point's year, value and flag |
| Pipeline.LabelColumnsOfRecords | tabla24900optimizado.py:23-24 | the columns the split computes, the quintile tidied, are the label columns of the result rows |
| Pipeline.PointColumnsOfRecords | tabla24900optimizado.py:19-27 | the point columns of the flattened frame are the last three columns of the result rows |
| Pipeline.BeforeSelect | tabla24900optimizado.py:19-25 | after the drop, every selected column holds the matching column of the result rows |
| Transform.Reshape | tabla24900optimizado.py:19-28 | a produced table has one index label and one row per point |
| Transform.ReshapeOnWidth | tabla24900optimizado.py:23 | for a nonempty response, the transform raises exactly when the batch is not five wide, and the error is that ValueError |
| Transform.ReshapeFailsIff | tabla24900optimizado.py:19-28 | the transform raises exactly when there are no tables or no cleaned label has four dots; with tables, the error is the ValueError for fewer than five columns |
| Transform.ReshapeTable | tabla24900optimizado.py:19-28 | on success the index is the cleaned labels and row `i` is `ToRecord` of flattened row `i` |
| Transform.ReshapeRows | tabla24900optimizado.py:19-28 | the k-th index label and row come from the k-th point |
| Transform.ReshapeOrder | tabla24900optimizado.py:19-28 | point `j` of table `i` becomes row `points-before-i + j`, with table `i`'s cleaned label and that point's record |
| Transform.Process | tabla24900optimizado.py:15-28 | no frame exactly when `data` is missing or empty; a produced table has one row per point |
| Transform.WorkedExample | tabla24900optimizado.py:15-28 | one table `Base 2006. Anual.1.2.3.4.Total.` with one point gives the single row `1, 2, 3, 4, Total` plus the point, indexed by `1.2.3.4.Total.` |
| Transform.ProcessSingle | tabla24900optimizado.py:15-28 | a single table with a single point whose label splits five wide gives that one row |
| Pipeline.TableFrame | tabla24900optimizado.py:26-28 | the returned frame has exactly the columns `indice, dato, tipo_dato, descripcion, quintil, anyo, valor, secreto` |
| Pipeline.ReshapeFrame | tabla24900optimizado.py:19-28 | the mutable steps raise exactly the exception `Transform.Reshape` raises, or return a fresh frame equal to its table |
| Pipeline.ProcessData | tabla24900optimizado.py:15-28 | `None` exactly when `Transform.Process` gives no frame; otherwise its exception or its frame |
| Frames.DataFrame.constructor | 24900.py:43 | the frame object starts as the normalized frame |

## Left out

- The HTTP request (`obtener_datos_ine`) and its error handling: it is I/O. The model starts from the parsed response, or from `None` when the request failed.
- Printing (`mostrar_info` and the script's `print` calls) and writing the CSV file: they are output only.
- The script's use of `data` before it is defined: the script crashes with a NameError there. The model starts the script at line 43 with a response in hand.
- The script's `data[0]` at 24900.py:35 raises IndexError on an empty list, before line 43. The model does not include the script's lines before 43, so it does not capture that IndexError.
- The check that the quintile values sum to 100: it is a separate validation after the function.
- `Valor` is a floating-point number in the response. It is modelled as `Option<real>` and only copied, never computed with.
- pandas dtypes and NaN: a missing value is the single cell `Null`. Integer and boolean columns keep their values exactly.
- The shape of a table in the response: every table is modelled with a `Nombre` label and a `Data` list. `json_normalize` raises KeyError when a table lacks either key, and reads a null `Data` as an empty list. The model covers neither.
- Extra keys in a point: the model assumes every point carries exactly `Anyo`, `Valor` and `Secreto`. Missing keys would make columns of NaN.
- Frames.Selected: when several selected keys are missing, pandas' KeyError lists all of them. The model names the first missing key only.
- Duplicate column labels: `Find` takes the first column with a label. The function never creates a duplicate.
- The name of the index (`Nombre`) after `set_index`: the index is modelled by its cells only.
- `replace('', None)` on the quintile: some older pandas versions forward-fill a value replaced by `None`. The model takes the meaning the code states, an empty quintile becoming a missing value.
- `str.strip()` uses Python's whitespace set. The model lists those 29 code points explicitly.
