# CoStar property scraper: a verified model of its data path

`CoStar_Property_Data_Scraper.py` logs into CoStar and posts one GraphQL batch per
property. It stores each answer as a text file, then parses the files into one pandas
frame, converts the frame's column types and uploads it to SQL Server. This project
models the deterministic part of that pipeline in Dafny and proves properties of it.
The model covers:

- **The request batch** (`get_payload`), in `payload.dfy`. It is seven operations in a
  fixed order, each bound to `int(propId)`.
- **Response file names** (`response_file.dfy`). Each file is written as
  `<id>_<MM.DD.YYYY>.txt`, and the id is read back with
  `path.split('\\')[1].split('_')[0]`. On Windows, `glob` joins the folder
  `C:/Users/RBurns/Documents` and the file name with a backslash. That backslash is the
  only one in the path, so the split lands on the file name.
- **The per-file parse** (`read_call_response_into_df`, `set_roomtype_metric_values`,
  `screen_nulls`, `assemble_single_property_df`), in `unit_mix.dfy` and
  `response_parser.dfy`. It turns a decoded response into one row of the 43-column
  schema (`schema.dfy`). Each guarded lookup falls back to the null marker, and every
  other failed lookup raises the exception Python would raise.
- **The parse driver** (`parse_responses` and `reissue_call_and_read_response_into_df`),
  in `parse_driver.dfy`. It is a loop over the files with one retry. The driver is
  written as a method and proved equal to a recursive specification.
- **The type coercion** (`convert_df_types`), in `type_coercion.dfy`. It is three nested
  loops that write cells in place and thread one `temp_val` through every loop. The
  model keeps them as methods over a frame. Each method is proved equal to a
  specification function, and the function's consequences are proved as lemmas.
- **The amenity passes of the upload** (`post_to_db`), in `amenities.dfy`. The first
  pass applies the abbreviation dictionary in insertion order. The second cuts the text
  at the last `;` within 250 characters. Both passes are methods with loops.

Two support modules sit underneath:

- `python.dfy` writes out the Python builtins the code relies on: `split`, `join`,
  `int()`, `str()`, slicing with negative bounds, `rfind` and `replace`. It also
  defines the exceptions, as a `Result` type.
- `json.dfy` models decoded JSON and Python's subscript operator on it.

A pandas frame is a value, `Frame(columns, rows)`. A cell is either the null marker
(NaN or `None`, which `pd.isnull` treats alike) or a value. Both loops that rewrite a
frame in place work on a frame no other code holds: `convert_df_types` copies its
input first, and `post_to_db` owns `data_df`. Updating a local `Frame` variable is
therefore the same observable behaviour.

Facts of the code that the model keeps:

- The batch has **seven** operations. The parser reads positions 0, 1, 5 and 6 of the
  answer (lines 243-249, 768, 787, 796, 806).
- A parsed row has **43** business columns (lines 694-736).
- Only a **`ValueError`** starts a reissue (lines 878-882). `json.loads` raises it for
  an undecodable file. A decodable response with a missing part raises KeyError,
  IndexError or TypeError instead, and that ends the run without a reissue.
- An exception from the reissue ends the whole run: the loop has no handler around
  the reissue call (line 882, lines 514-557).
- A short currency, percentage or count cell receives the last `temp_val`: the
  previous cell's value, possibly from another column. With nothing before it, it
  raises UnboundLocalError (lines 431-475).

## Model

| member | source | states |
|---|---|---|
| Payload.BuildPayload | CoStar_Property_Data_Scraper.py:205-249 | exactly seven operations, named Amenities_Info, UnitMix_Detail, About_Info, Location_Info, getCompsContext, ContactsDetail, getPropertyInfo in that order; every one carries `propertyId`; only getPropertyInfo carries `currencyCode "USD"` and only UnitMix_Detail carries `showOnlyActual false` |
| Payload.PayloadFor | CoStar_Property_Data_Scraper.py:205 | the batch for an id given as text: ValueError exactly when `int()` rejects the text, otherwise the batch of the parsed integer |
| Payload.PayloadForStrOfInt | CoStar_Property_Data_Scraper.py:205 | an integer id written as text and passed back gives the batch of that integer |
| Payload.BuildPayloadInjective | CoStar_Property_Data_Scraper.py:205-249 | different ids give different batches |
| Payload.ParserSlotsMatchPayload | CoStar_Property_Data_Scraper.py:243-249 | the positions the parser reads (0, 1, 5, 6) hold the amenities, unit-mix, contacts and property-info operations, and 6 is the last position |
| ResponseFile.ZeroPad | CoStar_Property_Data_Scraper.py:940 | the padded text has the digits of `n` at its end, only zeros before them, and the requested width unless the digits are longer |
| ResponseFile.DateStamp | CoStar_Property_Data_Scraper.py:940 | the `%m.%d.%Y` stamp holds only digits and dots |
| ResponseFile.FileName | CoStar_Property_Data_Scraper.py:940 | the stored name ends in `.txt`, and for an id without `_` its first `_`-piece is the id |
| ResponseFile.GlobPath | CoStar_Property_Data_Scraper.py:876 | for a folder without a backslash, the path's backslash pieces are the folder followed by the name's pieces |
| ResponseFile.ExtractId | CoStar_Property_Data_Scraper.py:550 | IndexError exactly when the path has no backslash; otherwise the result holds neither separator |
| ResponseFile.ExtractIdRoundTrip | CoStar_Property_Data_Scraper.py:550 | for an id without `_` or `\` in a folder without `\`, extracting from `dir\<id>_<stamp>.txt` gives back the id |
| ResponseFile.StoredResponseRoundTrip | CoStar_Property_Data_Scraper.py:940-956 | for a file the dispatcher stored under integer id `n`, the id read back is `str(n)`, and the batch rebuilt from it is the batch of `n` |
| ResponseFile.FolderSeparatorFree | CoStar_Property_Data_Scraper.py:940 | the scraper's folder contains no backslash, so the round trip applies |
| ResponseFile.IdTextSeparatorFree | CoStar_Property_Data_Scraper.py:940 | `str(n)` contains neither separator |
| ResponseFile.StampSeparatorFree | CoStar_Property_Data_Scraper.py:940 | the date stamp contains no backslash |
| Python.Split | CoStar_Property_Data_Scraper.py:550 | at least one piece; no piece holds the separator; joining the pieces with the separator gives the input back |
| Python.Join | CoStar_Property_Data_Scraper.py:806 | joining no parts gives the empty text; otherwise the result is at least as long as the first part plus one separator per further part; `Split` is its inverse (`SplitJoin`) |
| Python.SplitJoin | CoStar_Property_Data_Scraper.py:550 | splitting undoes joining when no piece holds the separator |
| Python.IntOfString | CoStar_Property_Data_Scraper.py:205 | `int()` on text raises only ValueError, and only succeeds on non-empty text |
| Python.StrOfInt | CoStar_Property_Data_Scraper.py:940 | `str(n)` of an integer is non-empty and holds only digits and '-'; `int()` is its inverse (`IntOfStrOfInt`) |
| Python.IntOfStrOfInt | CoStar_Property_Data_Scraper.py:205 | `int(str(n)) == n` |
| Python.SliceTo | CoStar_Property_Data_Scraper.py:332 | `s[:stop]` is a prefix of `s`, of length `stop` for a stop in range and `len(s)+stop` for a negative one |
| Python.RFind | CoStar_Property_Data_Scraper.py:329 | -1 exactly when the character is absent; otherwise an index holding it with no later copy |
| Python.Replace | CoStar_Property_Data_Scraper.py:322 | a replacement no longer than the pattern never lengthens the text; with no occurrence, the text is unchanged |
| Python.ReplaceAt | CoStar_Property_Data_Scraper.py:322 | when `a` holds no occurrence of the pattern, not even one running into what follows, `(a + pat + b).replace(pat, rep)` is `a + rep` followed by the replacement applied to `b` |
| Python.ReplaceCharIsWithout | CoStar_Property_Data_Scraper.py:436 | replacing one character by nothing filters that character out |
| Python.ReplaceRemovesChar | CoStar_Property_Data_Scraper.py:436 | after `replace(',', '')` no ',' is left and every other character survives |
| Json.Index | CoStar_Property_Data_Scraper.py:768 | `j[i]` succeeds exactly on a list or string with `i` in range, and otherwise raises KeyError, IndexError or TypeError |
| Json.Key | CoStar_Property_Data_Scraper.py:768 | `j[k]` succeeds exactly on a dict holding `k`; otherwise KeyError for a dict and TypeError for any other value |
| Json.Get | CoStar_Property_Data_Scraper.py:768 | a subscript chain raises only KeyError, IndexError or TypeError; the empty chain gives the value itself |
| Json.GetAppend | CoStar_Property_Data_Scraper.py:768 | following a path in two parts is following it at once |
| Table.CellOf | CoStar_Property_Data_Scraper.py:694-737 | a JSON value stored in a cell is null exactly for JSON null, text exactly for a string (with that string), kept as it is otherwise, and never a converted number |
| Table.Append | CoStar_Property_Data_Scraper.py:831 | `pd.concat` puts the row last, keeps the earlier rows, and takes the union of the columns |
| Table.WriteCell | CoStar_Property_Data_Scraper.py:438 | `df.at[i, col] = v` changes that one cell and nothing else |
| Table.SetColumn | CoStar_Property_Data_Scraper.py:438 | writing the first cells of a column changes only those cells |
| UnitMix.SummaryOf | CoStar_Property_Data_Scraper.py:767-774 | every column of the relabelled table holds, in its `totals` row, its own heading |
| UnitMix.SummaryOfItems | CoStar_Property_Data_Scraper.py:767-774 | the table's rows are the field names of the object items; its columns are exactly the items headed by a string `totals`, each holding that item's fields |
| UnitMix.TableOf | CoStar_Property_Data_Scraper.py:768-774 | a list gives the summary of its items; building the table raises exactly for null, a boolean, a number or a non-empty dict, and then KeyError or TypeError |
| UnitMix.At | CoStar_Property_Data_Scraper.py:581 | `.at[metric, heading]` is KeyError unless both exist, null when the item lacks the metric, and the item's value otherwise |
| UnitMix.ScreenNulls | CoStar_Property_Data_Scraper.py:851-853 | '-' becomes null; any other value is returned unchanged; the result is never '-' |
| UnitMix.ScreenNullsIdempotent | CoStar_Property_Data_Scraper.py:851-853 | screening twice is screening once |
| UnitMix.RoomTypeMetrics | CoStar_Property_Data_Scraper.py:560-669 | an absent category gives five nulls; a present one succeeds exactly when all five rows exist, and each metric is the screened cell of its row; the only error is KeyError |
| UnitMix.BedroomMetricsOfSummary | CoStar_Property_Data_Scraper.py:819-823 | as called, a metric is null exactly when the item lacks it or holds null or '-', and is the item's value otherwise |
| ResponseParser.SummaryTable | CoStar_Property_Data_Scraper.py:768-774 | building the summary raises only KeyError, IndexError or TypeError |
| ResponseParser.LeasedPercent | CoStar_Property_Data_Scraper.py:776-779 | `100 - float(cell[:-1])`; null when the cell is missing or does not parse; TypeError exactly when the cell exists but is not text |
| ResponseParser.TotalUnits | CoStar_Property_Data_Scraper.py:781-784 | the `unitMixBeds`/`Totals` cell, or null when the row or column is missing |
| ResponseParser.ContactName | CoStar_Property_Data_Scraper.py:786-794 | the first company's name; KeyError and IndexError fall back to null; TypeError is raised exactly when the lookup raises it |
| ResponseParser.ZipOf | CoStar_Property_Data_Scraper.py:796-800 | null stays null; a 9-character zip becomes its first 5 characters; other lengths are kept; the result never has 9 characters; any other value raises TypeError |
| ResponseParser.ZipOfIdempotent | CoStar_Property_Data_Scraper.py:796-800 | normalising a normalised zip changes nothing |
| ResponseParser.ParkingOf | CoStar_Property_Data_Scraper.py:802-804 | the result is 0 exactly for the text 'None'; any other value is kept |
| ResponseParser.Plus | CoStar_Property_Data_Scraper.py:806-808 | `+` concatenates two lists or two strings, gives a number for two numbers, and raises TypeError on any other pair |
| ResponseParser.Texts | CoStar_Property_Data_Scraper.py:806 | `join` accepts a list exactly when every item is a string, and then takes them in order |
| ResponseParser.JoinParts | CoStar_Property_Data_Scraper.py:806 | `join` iterates a list's strings or a string's characters; anything else is TypeError |
| ResponseParser.AmenityText | CoStar_Property_Data_Scraper.py:806-810 | the amenity text is null or non-empty text; the only errors are KeyError, IndexError and TypeError |
| ResponseParser.AmenityTextOfLists | CoStar_Property_Data_Scraper.py:806-810 | for three lists of strings, the text joins unit, then generic, then room amenities with '; ', and is null exactly when there is no name or only one empty name |
| ResponseParser.JoinEmpty | CoStar_Property_Data_Scraper.py:809 | a join with a non-empty separator is empty only for no parts or one empty part |
| ResponseParser.ReadExtra | CoStar_Property_Data_Scraper.py:776-817 | the derived metrics raise only KeyError, IndexError or TypeError, and the amenity text is null or non-empty |
| ResponseParser.ReadPacks | CoStar_Property_Data_Scraper.py:819-828 | the five packs raise only KeyError, and no metric of any pack is '-' |
| ResponseParser.ReadMetrics | CoStar_Property_Data_Scraper.py:767-828 | everything before assembly raises only KeyError, IndexError or TypeError; amenities are null or non-empty; no pack holds '-' |
| ResponseParser.GetAll | CoStar_Property_Data_Scraper.py:695-735 | lookups in sequence succeed exactly when each succeeds, giving their values in order; otherwise they give the error of the first failing lookup |
| ResponseParser.ReadDetails | CoStar_Property_Data_Scraper.py:694-735 | fails exactly when the id extraction or a building lookup fails; the id is the one extracted from the path |
| ResponseParser.RowOf | CoStar_Property_Data_Scraper.py:694-737 | the row holds every schema column, each with its value |
| ResponseParser.Assemble | CoStar_Property_Data_Scraper.py:672-738 | assembly fails exactly when the details fail; otherwise the row is complete |
| ResponseParser.ReadResponse | CoStar_Property_Data_Scraper.py:741-832 | a file's parse raises ValueError exactly when the file does not decode; a parsed row holds every column |
| ResponseParser.RowOfColumns | CoStar_Property_Data_Scraper.py:694-736 | the row holds the id as text, the amenity text, and each category's pack in that category's columns |
| ResponseParser.AssembledRow | CoStar_Property_Data_Scraper.py:693-737 | an assembled row carries the id read from its path, the amenity text, and the packs in their columns |
| ResponseParser.ParsedRow | CoStar_Property_Data_Scraper.py:741-832 | a parsed row carries the id read from its path and a null or non-empty amenity text, and no bedroom metric is '-' |
| Schema.AllColumnsComplete | CoStar_Property_Data_Scraper.py:694-736 | every column of the model is one of the 18 scalar or 25 bedroom columns |
| Schema.ColumnNamesDistinct | CoStar_Property_Data_Scraper.py:694-736 | two columns have the same name exactly when they are the same column, so the 43 keys of the row's dictionary are distinct |
| Schema.BedroomNameShape | CoStar_Property_Data_Scraper.py:694-736 | a bedroom column's name ends in the metric's last letter and, except for the unit count, has the length of the category's word plus the metric's suffix |
| Schema.SameMetricNamesDistinct | CoStar_Property_Data_Scraper.py:694-736 | two categories never share a column name for the same metric |
| Schema.OtherMetricNamesDistinct | CoStar_Property_Data_Scraper.py:694-736 | columns of different metrics never share a name |
| ParseDriver.Reissue | CoStar_Property_Data_Scraper.py:514-557 | a path without a backslash raises IndexError; an id `int()` rejects raises ValueError; otherwise the file is re-read from the answer to the batch of the parsed id |
| ParseDriver.ParseFile | CoStar_Property_Data_Scraper.py:878-882 | a file that parses gives its row without a reissue; a ValueError survives only when the first parse raised it too |
| ParseDriver.Run | CoStar_Property_Data_Scraper.py:876-883 | no files give the empty frame; a successful run has one row per file |
| ParseDriver.ParseResponses | CoStar_Property_Data_Scraper.py:875-883 | the loop equals `Run`: files in order, each row appended, and the first uncaught exception returned |
| ParseDriver.RunPrefixFails | CoStar_Property_Data_Scraper.py:877-882 | once a prefix of the files fails, the whole run fails with the same exception |
| ParseDriver.RetryOnlyOnValueError | CoStar_Property_Data_Scraper.py:878-882 | a ValueError from the parse is followed by exactly one reissue, whose outcome is final; any other outcome is kept as it is |
| ParseDriver.ScraperRetry | CoStar_Property_Data_Scraper.py:763-764 | with the scraper's parse, a file that decodes is never reissued and one that does not is always reissued |
| ParseDriver.ReissueOfStoredPath | CoStar_Property_Data_Scraper.py:550-557 | a file stored under id `n` is reissued with the batch of `n` itself |
| ParseDriver.ReissueOfStoredFile | CoStar_Property_Data_Scraper.py:550-557 | such a file that does not decode is parsed from the answer to the batch of `n`; a second undecodable answer propagates as ValueError |
| ParseDriver.RunRows | CoStar_Property_Data_Scraper.py:877-883 | a successful run has one row per file, in file order, each being that file's parsed row |
| ParseDriver.RunFails | CoStar_Property_Data_Scraper.py:877-883 | a run fails exactly when some file fails, and then with the exception of the first failing file |
| ParseDriver.ScraperRow | CoStar_Property_Data_Scraper.py:878-882 | a row from the first try or from the reissue holds every column and the id read from its path, and no bedroom metric is '-' |
| ParseDriver.ScraperRows | CoStar_Property_Data_Scraper.py:875-883 | every row of a successful run holds every column and its file's id, and no bedroom metric is '-' |
| TypeCoercion.GroupColumns | CoStar_Property_Data_Scraper.py:421-465 | the converted columns never include `PercentLeased` or `Amenities` |
| TypeCoercion.Assigned | CoStar_Property_Data_Scraper.py:431-475 | the branch for one cell: null gives null; non-text raises TypeError; no branch runs exactly for text of at most 3 (currency), 1 (percentage) or 0 (count) characters; a count of '-' gives null; a currency cell succeeds exactly when `int()` accepts the text after '$' without its commas, and gives that integer; a percentage cell succeeds exactly when `float()` accepts the text before its last character, and gives that number; any other count succeeds exactly when `int()` accepts the text without its commas, and gives that integer |
| TypeCoercion.Written | CoStar_Property_Data_Scraper.py:438 | the value written is the branch's value, or the stale `temp_val` when no branch runs, or UnboundLocalError when nothing was assigned before |
| TypeCoercion.ConvertCells | CoStar_Property_Data_Scraper.py:431-438 | one value per cell, and all of them are converted values when `temp_val` starts unbound or converted |
| TypeCoercion.ColumnSpec | CoStar_Property_Data_Scraper.py:431-438 | converting one column keeps the frame's columns and row count |
| TypeCoercion.GroupSpec | CoStar_Property_Data_Scraper.py:421-465 | converting a group's columns keeps the frame's columns and row count |
| TypeCoercion.ConvertTypesSpec | CoStar_Property_Data_Scraper.py:403-477 | converting the frame keeps its columns and row count |
| TypeCoercion.ConvertColumn | CoStar_Property_Data_Scraper.py:431-438 | the loop over one column equals `ColumnSpec`: KeyError for a missing column, otherwise the cells written in order and the final `temp_val` |
| TypeCoercion.ConvertColumns | CoStar_Property_Data_Scraper.py:421-438 | the loop over a group's columns equals `GroupSpec`, with `temp_val` carried from column to column |
| TypeCoercion.ConvertTypes | CoStar_Property_Data_Scraper.py:403-477 | the three groups in order, with `temp_val` unbound at the start and carried between groups, equal `ConvertTypesSpec` |
| TypeCoercion.ConvertCellsPrefix | CoStar_Property_Data_Scraper.py:431-438 | a run that succeeds on a column succeeds on each prefix, with a prefix of its writes |
| TypeCoercion.WrittenValue | CoStar_Property_Data_Scraper.py:431-438 | each written value is the cell's branch applied with `temp_val` holding the previous write, or the incoming value for the first cell |
| TypeCoercion.StaleValue | CoStar_Property_Data_Scraper.py:431-438 | a cell no branch handles repeats the value written before it; a null cell becomes null; a handled cell gets its branch's value |
| TypeCoercion.FirstCellUnbound | CoStar_Property_Data_Scraper.py:431-438 | a first cell that no branch handles, with nothing written before it, raises UnboundLocalError |
| TypeCoercion.ColumnSpecEffect | CoStar_Property_Data_Scraper.py:431-438 | converting a column changes only that column, leaves it holding converted values, and keeps `temp_val` converted |
| TypeCoercion.GroupSpecEffect | CoStar_Property_Data_Scraper.py:421-438 | after a group, its columns hold only converted values and every other column is unchanged |
| TypeCoercion.GroupsDisjoint | CoStar_Property_Data_Scraper.py:421-465 | no column belongs to two groups |
| TypeCoercion.ConvertTypesEffect | CoStar_Property_Data_Scraper.py:403-477 | columns and row count are kept; converted columns hold only null, integers or reals; every other column is unchanged |
| TypeCoercion.MissingColumnRaises | CoStar_Property_Data_Scraper.py:421-431 | a frame without the first currency column raises KeyError |
| TypeCoercion.ShortFirstRentRaises | CoStar_Property_Data_Scraper.py:431-438 | a first-row first-currency cell of at most 3 characters raises UnboundLocalError |
| TypeCoercion.ReplaceGrouped | CoStar_Property_Data_Scraper.py:436 | `replace(',', '')` on a grouped number gives its digits |
| TypeCoercion.CurrencyRoundTrip | CoStar_Property_Data_Scraper.py:434-437 | '$' followed by a grouped amount of at least 100 converts to that amount |
| TypeCoercion.CountRoundTrip | CoStar_Property_Data_Scraper.py:469-474 | a grouped count converts to that count |
| TypeCoercion.PercentageRoundTrip | CoStar_Property_Data_Scraper.py:449-451 | a number followed by '%' converts to the parsed number, or raises ValueError when it does not parse |
| TypeCoercion.RentExample | CoStar_Property_Data_Scraper.py:434-437 | '$1,234' converts to 1234 |
| TypeCoercion.FirstCellAssigned | CoStar_Property_Data_Scraper.py:431-438 | a first cell whose branch assigns a value is written with that value |
| TypeCoercion.SecondCellStale | CoStar_Property_Data_Scraper.py:431-438 | a second cell that no branch handles is written with the first cell's value |
| TypeCoercion.DashCountExample | CoStar_Property_Data_Scraper.py:469-471 | the count column ['-'] converts to [null] |
| TypeCoercion.StaleRentExample | CoStar_Property_Data_Scraper.py:431-438 | the column ['$1,234', '$99'] converts to [1234, 1234]: the short rent repeats the rent above it |
| Amenities.ShrinkTable | CoStar_Property_Data_Scraper.py:296-313 | 18 abbreviations, each short form non-empty and shorter than the name it replaces |
| Amenities.Abbreviate | CoStar_Property_Data_Scraper.py:321-322 | the replacements applied in order never lengthen the text |
| Amenities.AbbreviateAppend | CoStar_Property_Data_Scraper.py:321-322 | applying a table made of two parts is applying the first part, then the second |
| Amenities.AbbreviateOnce | CoStar_Property_Data_Scraper.py:321-322 | when the k-th name occurs once in the text, no earlier name occurs in it, and no later name occurs once it is replaced, the result is the text with that name replaced by its short form |
| Amenities.AirConditioningExample | CoStar_Property_Data_Scraper.py:296-322 | with the scraper's dictionary, 'Air Conditioning' becomes 'A/C' |
| Amenities.AbbreviateText | CoStar_Property_Data_Scraper.py:321-322 | the inner loop over any shrinking dictionary, in `items()` order, equals `Abbreviate` with that table, and does not lengthen the text |
| Amenities.AbbreviateUntouched | CoStar_Property_Data_Scraper.py:321-322 | a text containing no name of the table comes out unchanged |
| Amenities.AbbreviateCell | CoStar_Property_Data_Scraper.py:317-322 | null stays null; text is abbreviated and not lengthened; any other value raises AttributeError |
| Amenities.Shorten | CoStar_Property_Data_Scraper.py:327-332 | the cut is always a prefix of the text |
| Amenities.ShortenKeepsShort | CoStar_Property_Data_Scraper.py:330-332 | a text of at most 250 characters is kept |
| Amenities.ShortenAtSeparator | CoStar_Property_Data_Scraper.py:328-332 | a longer text with a ';' in its first 250 characters becomes the prefix before the last such ';', shorter than 250 characters |
| Amenities.ShortenWithoutSeparator | CoStar_Property_Data_Scraper.py:328-332 | a longer text with no such ';' loses only its last character, because `rfind` gives -1, so it still exceeds 250 characters unless it had 251 |
| Amenities.ShortenWithinLimit | CoStar_Property_Data_Scraper.py:326-332 | the result fits 250 characters exactly when the text was short, had a ';' in its first 250 characters, or had 251 characters |
| Amenities.ShortenCell | CoStar_Property_Data_Scraper.py:327-332 | null passes through; text is cut |
| Amenities.AbbreviateCells | CoStar_Property_Data_Scraper.py:316-323 | the first pass succeeds exactly when every cell is null or text, fails otherwise with AttributeError, and gives each cell's abbreviation |
| Amenities.ShortenCells | CoStar_Property_Data_Scraper.py:326-332 | the second pass cuts each cell |
| Amenities.ShrinkSpec | CoStar_Property_Data_Scraper.py:315-332 | KeyError without the column; the only errors are KeyError and AttributeError; a success keeps the columns and the row count |
| Amenities.ShrinkAmenities | CoStar_Property_Data_Scraper.py:315-332 | the two loops equal `ShrinkSpec`: KeyError without the column, the first pass row by row, then the second pass over the result |
| Amenities.ShrinkEffect | CoStar_Property_Data_Scraper.py:315-332 | other columns and the row count are unchanged; each amenity cell ends as the cut of the abbreviation of its text, or null |
| Amenities.ShrinkErrors | CoStar_Property_Data_Scraper.py:316-323 | KeyError exactly when the column is missing; AttributeError exactly when some cell is neither null nor text; no other error |

## Left out

- Browser automation, login and cookie harvesting (lines 71-187): UI and network I/O.
- HTTP dispatch through `FuturesSession`, the response hooks and `as_completed`
  (lines 480-511, 537-552, 889-961): concurrency and network. The server's answer to a
  batch is the parameter `fetch` of the parse driver. The model treats it as a fixed
  function of the batch, although two calls to the real server may answer differently.
- File reads and writes, `glob` and its ordering, and `os.remove`: files are given as
  values (`StoredFile`). The driver takes the file list in the order `glob` returned it.
  The returned file list, the CSV copy and the timing prints of `parse_responses` are
  not modelled.
- `json.loads` and `json.dumps` internals. A stored file is either a decoded document
  or undecodable, and a batch is a list of records, not its serialised text. The
  GraphQL query texts are opaque constants.
- Float parsing and float arithmetic. `float()` is the parameter `parseFloat`, and
  `None` stands for ValueError. The subtraction `100 - x` uses real numbers.
- `int()` accepts surrounding whitespace and digit-group underscores. The model's
  `int()` accepts only an optional sign followed by decimal digits.
- pandas mechanics beyond the model's frame. The row frame `pd.DataFrame({...},
  index=[0])` is taken to hold one row even where a value is a list. `pd.isnull` on a
  list or dict cell is not modelled. A JSON value that is neither string nor null, in a
  place where the code applies a string operation, is modelled as TypeError (or
  AttributeError for `.replace`). The row label `df.at[index, …]` is taken to equal
  the position, because `ignore_index=True` concatenation leaves a RangeIndex.
- UnitMix.SummaryOf: repeated `totals` labels are taken to be absent. If they occur,
  the later item's column is the one kept, whereas pandas would keep both columns and
  return a Series from `.at`.
- SQL Server access: the engine, the `MostRecentFlag` update and `to_sql` with its type
  map (lines 277-293, 334-399). The two extra columns it adds (`CollectedDateStamp`,
  `MostRecentFlag`) are not part of the model's frame.
- `load_properties` (CSV reading and NaN or float id handling, lines 142-165). The
  dispatcher's ids are modelled as integers.
- Dependency auto-install, progress bars, printing and the prompts in `main`.
