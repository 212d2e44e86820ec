# raw-to-daily-splitter, modelled in Dafny

The splitter reads one table of dated transactions and writes one table per
calendar day. The model covers its four steps:

1. `read_raw_csv` loads the table. It coerces the `trans_date_trans_time`
   column to timestamps, where a value that does not parse becomes NaT. It
   warns with the number of bad dates, drops a stray `"Unnamed: 0"` index
   column, and warns when the result is empty.
2. `groupby` on the calendar date of that column.
3. `save_grouped_data_to_csvs` creates the output directory and writes each
   group to `<output_dir>/YYYY-MM-DD.csv`, logging every write.
4. `split_by_day` chains the three steps and returns the number of groups.

The project has five modules:

- `Wrappers` holds `Option` and `Result`.
- `Dates` holds calendar dates within the pandas timestamp range and
  `strftime("%Y-%m-%d")` with its inverse. It also gives the ascending order
  in which `groupby` lists its keys.
- `Frames` models a table (a header plus rows of cells), column lookup,
  column replacement and `drop`. The class `Frame` is the DataFrame object
  that `read_raw_csv` updates in place.
- `Storage` models `os.path.join` and `read_csv`. `read_csv` is the function
  `Open`, a lookup in the stored files. `Storage` also has a class `Disk`
  holding a set of directories and a map from path to stored table. `Disk`
  provides `os.makedirs(exist_ok=True)` and `to_csv` as methods.
- `Splitter` models the load specification and the `ReadRawCsv` method, then
  the grouping, then the write loop `SaveGroupedDataToCsvs`, against the
  files it must produce. `SplitByDay` ties them together, and a final
  section restates the repository's test.

Log lines become values of `Event`: `InvalidDates(count)`,
`DroppedIndexColumn`, `EmptyInput(path)` and `Saved(rows, path)`.

Where the code and its written description differ, the model follows the
code:

- The date column is the constant `trans_date_trans_time`. It is not a
  parameter.
- The count returned is `len(grouped)`, the number of groups. The lemma
  `Splitter.SplitCount` shows that this also equals the number of files
  written.
- The empty-input warning says processing is skipped, but the code goes on.
  The output directory is still created and zero files are written.
- A missing date column makes pandas raise a lookup error. The model returns
  `MissingColumn`, with the same trigger.

## Model

| member | source | states |
|---|---|---|
| Frames.Frame.constructor | src/splitter/splitter.py:37 | the new DataFrame holds exactly the table that was read |
| Frames.Find | src/splitter/splitter.py:38 | the position of the first column with that name, or the header width exactly when no column has that name |
| Frames.WithColumn | src/splitter/splitter.py:38 | the header and the row count are kept; every cell of column `k` is replaced by the new value and every other cell stays |
| Frames.WithColumnCell | src/splitter/splitter.py:38 | looked up by name, only the cells under the replaced column's name change |
| Frames.Frame.SetColumn | src/splitter/splitter.py:38 | `df[col] = ...` updates the object in place to the table with that column replaced |
| Storage.Open | src/splitter/splitter.py:37 | definition of `pd.read_csv(path)` on the stored tables: the table at the path, or none without a file (characterised by `Splitter.LoadOutcome`) |
| Frames.ColumnCells | src/splitter/splitter.py:38-40 | definition of reading `df["trans_date_trans_time"]` by position: the column's cells, top to bottom (used by `Splitter.Coerced` and `Splitter.LoadWarnings`) |
| Splitter.Coerce | src/splitter/splitter.py:38 | definition of `to_datetime(errors="coerce")` on one cell: a missing cell is NaT, a timestamp stays, anything else goes to the `parse` parameter, and nothing fails |
| Splitter.ToDatetime | src/splitter/splitter.py:38 | definition of `to_datetime(errors="coerce")` over the column, cell by cell through `Coerce` (characterised by `Splitter.LoadedCell` and `Splitter.InvalidDateWarning`) |
| Splitter.Coerced | src/splitter/splitter.py:38 | definition: the table read, with the date column overwritten by its coercion |
| Splitter.IsNull | src/splitter/splitter.py:40-41 | definition of `isnull()`: a missing cell or NaT |
| Splitter.AnyNull | src/splitter/splitter.py:40 | definition of `.isnull().any()`: some cell of the column is null (related to the count by `Splitter.CountNullIsSize`) |
| Splitter.CountNull | src/splitter/splitter.py:41-42 | definition of `len(bad_rows)`: the null cells counted row by row (equal to the number of null positions by `Splitter.CountNullIsSize`) |
| Frames.IsEmpty | src/splitter/splitter.py:48 | definition of `df.empty`: no rows or no columns |
| Splitter.Loaded | src/splitter/splitter.py:38-46 | definition of the returned frame: the coerced table, without `"Unnamed: 0"` when that column is present (its properties are `Splitter.LoadKeepsRows`, `Splitter.LoadedColumns` and `Splitter.LoadedCell`) |
| Splitter.LoadWarnings | src/splitter/splitter.py:40-49 | definition of the log lines in order: the bad-date count when a date is NaT, the drop note when the index column is present, and the empty warning when the result is empty (characterised by `Splitter.InvalidDateWarning` and `Splitter.LoadNotes`) |
| Splitter.Load | src/splitter/splitter.py:27-51 | definition of `read_raw_csv(path)` on a filesystem: NotFound without a file, MissingColumn without the date column, and otherwise the loaded table (characterised by `Splitter.LoadOutcome`) |
| Splitter.LoadEvents | src/splitter/splitter.py:40-49 | definition: the log lines of a successful load, and none for a failed one |
| Splitter.LoadOutcome | src/splitter/splitter.py:37-38 | loading fails with NotFound exactly when there is no file, and with MissingColumn exactly when the header lacks the date column; it succeeds otherwise; a failure logs nothing |
| Splitter.LoadKeepsRows | src/splitter/splitter.py:37-51 | the loaded table has as many rows as the file, including rows whose date is NaT, and it still has the date column |
| Splitter.LoadedCell | src/splitter/splitter.py:38-46 | cell by cell: the date column holds the coerced date; `"Unnamed: 0"` is gone; every other cell is the one read |
| Splitter.CountNullIsSize | src/splitter/splitter.py:40-42 | the counted nulls are exactly the null positions, and `.any()` holds exactly when that count is positive |
| Splitter.InvalidDateWarning | src/splitter/splitter.py:40-42 | the bad-date warning is logged exactly when some date failed to parse, and it carries the number of such rows |
| Frames.WithoutAbsent | src/splitter/splitter.py:44-46 | removing an absent name leaves the header unchanged |
| Frames.WithoutExcludes | src/splitter/splitter.py:44-46 | after removal the name is absent and every other name is kept |
| Frames.RemoveAtIsWithout | src/splitter/splitter.py:46 | deleting the position of a name from a repeat-free header equals filtering that name out, order kept |
| Frames.DropColumn | src/splitter/splitter.py:46 | `drop` gives a well-formed table with the same number of rows |
| Frames.DropColumnColumns | src/splitter/splitter.py:46 | the header after `drop` is the old one without the name, other names keep their order, and the name is absent |
| Frames.DropColumnPosition | src/splitter/splitter.py:46 | a kept column moves one place left when it stood after the dropped one, and otherwise stays |
| Frames.DropColumnShift | src/splitter/splitter.py:46 | each kept cell of a row reappears at its column's new position |
| Frames.DropColumnCell | src/splitter/splitter.py:46 | looked up by name, `drop` removes exactly the dropped column's cells and changes no other cell |
| Frames.Frame.Drop | src/splitter/splitter.py:46 | `df.drop(...)` builds a new frame whose value is the dropped table |
| Splitter.LoadedColumns | src/splitter/splitter.py:44-46 | `"Unnamed: 0"` is absent afterwards; the other columns keep their relative order; a header without it is unchanged |
| Splitter.LoadNotes | src/splitter/splitter.py:44-49 | the drop note is logged exactly when the index column was present, and the empty warning exactly when there are no rows |
| Splitter.ReadRawCsv | src/splitter/splitter.py:27-51 | the method returns the loaded table or the load error, and exactly the specified log lines in order |
| Splitter.StampDay | src/splitter/splitter.py:22 | definition of `.dt.date` on a timestamp-or-NaT: the calendar date, or no key for NaT |
| Splitter.DayKey | src/splitter/splitter.py:22 | definition of `.dt.date` on one cell of the coerced column, through `StampDay` |
| Splitter.DayKeys | src/splitter/splitter.py:22 | definition of `.dt.date` over the rows: one key per row, in row order, through `DayKey` (characterised by `Splitter.LoadedDayKey` and `Splitter.LoadedDays`) |
| Splitter.GroupIndices | src/splitter/splitter.py:22 | definition of the grouping as one pass: each row with a key appends its position to that day's list, and NaT rows are skipped (its properties are the `GroupIndices…` lemmas below) |
| Splitter.Select | src/splitter/splitter.py:22 | definition of a group's sub-frame rows: the rows at the listed positions, in that order (characterised by `Splitter.GroupIndicesOnDay` and `Splitter.GroupByDateContents`) |
| Splitter.GroupIndicesKeyed | src/splitter/splitter.py:22 | the one-pass grouping has a group for exactly the valid days |
| Splitter.GroupIndicesSound | src/splitter/splitter.py:22 | every row listed under a day has that day |
| Splitter.GroupIndicesOrdered | src/splitter/splitter.py:22 | every group is non-empty and lists its rows in strictly increasing input order |
| Splitter.GroupIndicesComplete | src/splitter/splitter.py:22 | every row with a valid day is listed under that day |
| Splitter.GroupIndicesPartition | src/splitter/splitter.py:22 | the groups partition the valid-date rows (the four properties above together) |
| Splitter.RowInOneGroup | src/splitter/splitter.py:22 | a NaT row is in no group; a valid row is in the group of its own day and in no other |
| Splitter.InvalidRowsDoNotCount | src/splitter/splitter.py:22 | removing a NaT key from the coerced keys changes neither the set nor the number of groups |
| Splitter.GroupIndicesOnDay | src/splitter/splitter.py:22 | the rows collected for a day equal the day's rows filtered from the input, in input order; a day with no rows gets no group |
| Splitter.GroupByDate | src/splitter/splitter.py:22 | the groups exist for exactly the valid days; each group is well formed, has the loaded header and is non-empty |
| Splitter.GroupByDateContents | src/splitter/splitter.py:22 | each group's table is the loaded header over exactly its day's rows, in input order |
| Splitter.LoadedDayKey | src/splitter/splitter.py:22 | after loading, row `i` is keyed by the calendar date of its parsed timestamp, and has no key when the date did not parse |
| Splitter.LoadedDays | src/splitter/splitter.py:22 | the days that get a group are exactly the calendar dates of the rows whose date parsed |
| Dates.EarliestExists | src/splitter/splitter.py:22 | every non-empty set of dates has a strictly earliest member |
| Dates.ChronologicalPairwise | src/splitter/splitter.py:22 | a sequence ordered on its neighbours is ordered on every pair |
| Dates.Ascending | src/splitter/splitter.py:22 | `groupby` lists its keys in a chronological order containing exactly its keys, each once |
| Dates.PaddedRoundTrip | src/splitter/splitter.py:67 | a number below `10^width`, zero-padded to `width` digits, reads back as itself |
| Dates.FormatDate | src/splitter/splitter.py:67 | `strftime("%Y-%m-%d")` is ten characters: digits with dashes at positions 4 and 7 |
| Dates.FormatDateRoundTrip | src/splitter/splitter.py:67 | reading back a formatted date gives the date |
| Dates.FormatDateInjective | src/splitter/splitter.py:67 | two dates format to the same text exactly when they are equal |
| Storage.Join | src/splitter/splitter.py:68 | definition of `os.path.join(dir, name)` for two parts: an absolute name replaces the directory; otherwise a `/` goes between them unless the directory is empty or already ends in one (its property is `Storage.JoinEndsWith`) |
| Splitter.OutputPath | src/splitter/splitter.py:67-68 | definition of a day's file: `os.path.join(output_dir, f"{date_str}.csv")` with `date_str` from `strftime("%Y-%m-%d")` (characterised by `Splitter.OutputPathNamesDay` and `Splitter.OutputPathInjective`) |
| Storage.JoinEndsWith | src/splitter/splitter.py:68 | `os.path.join` with a relative name ends in that name |
| Splitter.InDirectory | src/splitter/splitter.py:67-68 | under a non-empty directory not ending in `/`, a day's file is the directory, a `/`, the date and `.csv` |
| Splitter.OutputPathNamesDay | src/splitter/splitter.py:67-68 | every output path ends in `.csv` after a date, and that date reads back as the group's day |
| Splitter.OutputPathInjective | src/splitter/splitter.py:67-68 | two days share an output path exactly when they are the same day |
| Splitter.Outputs | src/splitter/splitter.py:66-69 | definition of the files the groups become: each day's table at that day's output path (characterised by `Splitter.OutputsLookup` and `Splitter.OutputsCount`) |
| Splitter.Writes | src/splitter/splitter.py:66-69 | definition of the filesystem after the loop's writes for a list of days, one `to_csv` after another (closed form in `Splitter.WritesAreOutputs`) |
| Splitter.SavedEvents | src/splitter/splitter.py:66-70 | definition of the loop's log lines for a list of days: one `Saved` line with row count and path per day, in that order |
| Splitter.OutputsLookup | src/splitter/splitter.py:66-69 | each group's file holds its table, and every written file belongs to some group |
| Splitter.OutputsCount | src/splitter/splitter.py:66-69 | there are as many files as groups |
| Splitter.RenamedCount | src/splitter/splitter.py:66-68 | under an injective naming, the file names are the images of the days, and there are as many as days |
| Splitter.OutputsAdd | src/splitter/splitter.py:66-69 | writing one more day's group adds exactly that file to the files of the days before |
| Splitter.WritesAreOutputs | src/splitter/splitter.py:66-69 | writing the groups of a list of days one after another gives the old files overlaid with those days' files |
| Splitter.WritesAll | src/splitter/splitter.py:66-69 | writing every group once, in any order, gives the old files overlaid with all group files |
| Splitter.SaveStep | src/splitter/splitter.py:66-70 | loop helper: one more iteration adds one write and one log line after those of the earlier days |
| Storage.Disk.MakeDirs | src/splitter/splitter.py:65 | when `os.makedirs` succeeds, the directory exists afterwards, no file changed and every stored table stays well formed; for an existing directory nothing changes (its failures are listed under "Left out") |
| Storage.Disk.WriteCsv | src/splitter/splitter.py:69 | when `to_csv` succeeds, it places the table at the joined path and changes nothing else (its failures are listed under "Left out") |
| Splitter.SaveGroup | src/splitter/splitter.py:67-70 | given that its `to_csv` succeeds, one iteration stores the group under its day's file and logs its row count and path |
| Splitter.SaveGroupedDataToCsvs | src/splitter/splitter.py:54-70 | given that `os.makedirs` and every `to_csv` succeed: the output directory is added; the files become the old files overlaid with one file per group; one log line per group, earliest day first |
| Splitter.OtherFilesUntouched | src/splitter/splitter.py:69 | a file whose name is no group's day keeps its content |
| Splitter.SplitByDay | src/splitter/splitter.py:10-24 | on a load failure it returns the error and changes nothing; otherwise, given that `os.makedirs` and every `to_csv` succeed, it returns the number of groups, creates the directory, writes exactly the group files, and logs the load lines then one line per file |
| Splitter.RowLandsInItsFile | src/splitter/splitter.py:22-23 | end to end: a row is in a day's group exactly when its date parsed to that day, and that day's file holds the row |
| Splitter.SplitCount | src/splitter/splitter.py:22-24 | the result equals the number of distinct calendar dates among rows whose date parsed, and also the number of files written |
| Splitter.NothingToWrite | src/splitter/splitter.py:48-49 | an empty table, or one whose dates all failed, gives no groups and no files |
| Splitter.TestRawDates | tests/test_splitter.py:7-15 | the test's table can be loaded, and its four date cells are the four strings |
| Splitter.TestKeys | tests/test_splitter.py:7-15 | with those strings read as their days, the loaded rows are keyed 10, 10, 11 and 12 April 2025 |
| Splitter.ValidDatesOfFour | tests/test_splitter.py:7-16 | scenario step of `Splitter.TestSplitByDayCreatesExpectedFiles`: the valid days of keys shaped like the test's, `[a, a, b, c]`, are exactly the set `{a, b, c}` |
| Splitter.ThreeDays | tests/test_splitter.py:28 | scenario step of `Splitter.TestSplitByDayCreatesExpectedFiles`: three pairwise different days make a set of three, the count the test expects |
| Splitter.TestDayNames | tests/test_splitter.py:16 | the three days format as `2025-04-10`, `2025-04-11` and `2025-04-12` |
| Splitter.TestFileNames | tests/test_splitter.py:16 | the three days' files are the expected names under the output directory |
| Splitter.TestOutputs | tests/test_splitter.py:26-31 | groups for the three days produce exactly the three expected files |
| Splitter.TestSplitByDayCreatesExpectedFiles | tests/test_splitter.py:6-31 | four rows over three days give the count 3 and exactly the files `2025-04-10.csv`, `2025-04-11.csv` and `2025-04-12.csv` |

## Left out

- CSV parsing and serialisation (`pd.read_csv` text handling, `to_csv` formatting, quoting and floats) are library behaviour. A file is modelled as the table it holds, not as its text.
- Splitter.ReadRawCsv: date-string parsing by `pd.to_datetime` is the `parse` parameter. Its only fixed behaviour is that a missing cell becomes NaT, an existing timestamp stays, and nothing raises. pandas infers one format for a whole column from its first non-null value and applies it to every row. So whether one cell parses can depend on the other rows. The parameter captures this, because it is one function for the whole column in a run. The model does not derive it from the column's contents.
- Dates.Date: timestamps are limited to years 1677 to 2262, the years within the pandas range, so `%Y` always has four digits. The model admits whole years, so the first months of 1677 and the last months of 2262 are allowed although pandas bounds them more tightly. Dates enter only through `parse`. Time of day is kept but never used.
- Splitter.LoadOutcome: `read_csv` failures other than a missing file are not modelled. These include a file with no header (`EmptyDataError`), malformed CSV and permission errors.
- Storage.Disk.MakeDirs: it always succeeds. `os.makedirs(output_dir, exist_ok=True)` raises `FileNotFoundError` for an empty `output_dir` and `FileExistsError` when a regular file sits at that path. In both cases `read_raw_csv` has already logged its lines, and nothing is written. `Splitter.SaveGroupedDataToCsvs` and `Splitter.SplitByDay` inherit this, and their contracts describe only the successful run. Directories and files are kept apart (`dirs` and `files`), so one path can be both. Parent directories are not created either: a directory is a name in a set, and `to_csv` needs only that its directory exists.
- Storage.Disk.WriteCsv: it always succeeds. `group.to_csv(output_path, index=False)` raises `IsADirectoryError` when a directory sits at the output path and `PermissionError` for an existing file that cannot be written. A failure stops the loop: the files of the earlier days stay written, there is no rollback, and `split_by_day` raises instead of returning a count. The model has no permissions, and its `dirs` may hold the output path itself.
- Splitter.SaveGroup: inherits this from `Storage.Disk.WriteCsv`. Its contract describes only an iteration whose `to_csv` succeeds. `Splitter.SaveGroupedDataToCsvs` and `Splitter.SplitByDay` inherit it in turn, and their contracts describe only the run in which every write succeeds.
- Storage.Join: only the `os.path.join` rules for two parts (absolute second part, trailing separator) are modelled. Path normalisation is left out.
- Logging: message text, emoji and log levels are left out. Each log line becomes one `Event` value.
- Frames.Frame: pandas copy-on-write and dtype inference are left out. Cells are `Null`, text, integer or an optional timestamp.
- Timezone-aware timestamps are left out, and so are non-string values `to_datetime` would read as epoch numbers. Both belong to the `parse` parameter.
- `src/splitter/main.py` is not part of this model. It is argument parsing and the entry point, passing two strings to `split_by_day`.
