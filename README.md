# Northwind CSV export, modelled in Dafny

`convert.py` exports every table of the Northwind SQLite database to a CSV
file. For each table, `convertTable`:

- runs `SELECT *` on the table;
- builds the header from the column names;
- looks the table up in the `BLOBS` registry (table name to picture column)
  and finds that column's index with `header.index`;
- in the default mode, deletes the blob column from the header and from
  every row; with `keepBlobs`, replaces the blob with its base64 text;
- turns every remaining field into a string, with SQL NULL becoming
  `NULL_CONVERT`;
- writes the header and the rows with `csv.writer`;
- reads the file back with `csv.reader` and asserts that it matches.

The `__main__` driver exports every catalog table whose name does not start
with `sqlite_` to `<name lower-cased>.csv`, and then exports every registered
table again, blobs kept, to `<name lower-cased>_base64.csv`.

The model has five modules:

- `Wrappers` (`wrappers.dfy`): `Option` and `Result`.
- `Values` (`values.dfy`): the query values (`Null | Int | Text | Blob`), the
  library conversions the exporter calls but does not implement, gathered in
  a `Library` of function values, Python's `str`, and the errors that abort an
  export, each annotated with the exception it stands for.
- `Rows` (`rows.dfy`): `filterRows`. These are pure functions over sequences,
  following the source's nested comprehensions.
- `Convert` (`convert_table.dfy`): the registry and the `NULL_CONVERT`
  constant, `header.index`, the header step, the CSV writer as a class whose
  record log is appended to, and the read-back check as a method with a loop.
  `ConvertTable` is the imperative `convertTable`. It is proved equal to the
  function `TableExport`, and the lemmas are stated about `TableExport`.
- `Driver` (`driver.dfy`): the two driver loops as methods. They are proved
  equal to running the job list `Plan` with `RunJobs`, and the lemmas say what
  `Plan` contains and how a run stops.

The database is a map from table name to query result (column names and rows).
The catalog is the sequence of table names, in the catalog's order. CSV
writing and parsing is a parameter `reread`: what `csv.reader` returns for a
file that `csv.writer` wrote from given records. A run's outcome is a
`Report`: the files written, in order, and the error that stopped the run.
A file whose read-back check failed is therefore still listed, as it stays
on disk.

Three behaviours of `convertTable` worth knowing:

- The read-back check passes when the file yields fewer rows than were
  written (it only checks the rows it reads). See `Convert.ReadBackPassesIff`.
- Only file names are lower-cased. The header keeps the column names as the
  database spells them (`CategoryID`). See
  `Convert.CategoriesDropExample`.
- With `keepBlobs`, a NULL (or non-bytes) blob is not replaced by the NULL
  placeholder. It is passed to `b64encode`, and the export fails with TypeError.

## Model

| member | source | states |
|---|---|---|
| `Values.Str` | convert.py:101 | no contract of its own: `str(attr)` is the string itself for text, `'None'` for None, and the `Library` conversion for integers and bytes; `Rows.Stringify` and `Rows.NullSubstitution` state its use |
| `Rows.Cell` | convert.py:101 | no contract of its own: the placeholder for NULL, `str` otherwise; `Rows.Stringify` states it field by field |
| `Rows.DropIndex` | convert.py:98 | dropping index `k` shortens a row by one exactly when the row has a field `k` |
| `Rows.DropIndexSplices` | convert.py:98 | the drop comprehension equals `row[..k] + row[k+1..]` (the slice `del` removes), and is the identity when the row has no field `k` |
| `Rows.EncodeIndex` | convert.py:95 | keep mode on one row succeeds iff the field at `k` (if any) is a blob; its text is then the base64 of the bytes, every other field is unchanged, the length is kept; otherwise TypeError |
| `Rows.DropRows` | convert.py:97-99 | one output row per input row, each the input row with index `k` dropped |
| `Rows.EncodeRows` | convert.py:94-96 | keep mode over all rows succeeds iff it succeeds on every row, and then row `i` is the encoding of input row `i`; otherwise TypeError |
| `Rows.Stringify` | convert.py:101-103 | one string per field, in order; NULL is replaced by the placeholder, and every other field is its `str` |
| `Rows.StringifyRows` | convert.py:101-103 | one output row per input row, each the NULL step of that row |
| `Rows.FilterRows` | convert.py:92-105 | no contract of its own; `Rows.NullSubstitution`, `Rows.DropMode`, `Rows.KeepMode` and `Rows.FieldCounts` state it |
| `Rows.NullSubstitution` | convert.py:92-105 | an unregistered table only goes through the NULL step: same number of rows, each row with its number of fields; NULL is replaced by the placeholder and every other field is its `str` |
| `Rows.DropMode` | convert.py:97-103 | drop mode never fails; each output row whose raw row has a field `k` is one field shorter and is the NULL step of the raw row without field `k`, the other fields in their order; a row without field `k` only goes through the NULL step |
| `Rows.KeepMode` | convert.py:94-103 | keep mode fails with TypeError iff some row's field `k` is not a blob (a NULL blob included); otherwise rows keep their length, the kept blob at `k` is its base64 text, NULL elsewhere is replaced by the placeholder, and every other field is its `str` |
| `Rows.FieldCounts` | convert.py:83-103 | if every raw row has `n` fields, every output row has `n` fields, or `n - 1` when the blob column is dropped |
| `Convert.Lookup` | convert.py:86-87 | `None` iff the table is not in the registry; otherwise the result is the table's registered column |
| `Convert.IndexOf` | convert.py:87 | `header.index`: `None` (ValueError) iff the name is absent; otherwise a position holding the name with no earlier occurrence |
| `Convert.BlobIndex` | convert.py:85-87 | no blob index for unregistered tables; ValueError naming the column iff the registered column is missing; otherwise the first position of that column |
| `Convert.OutputHeader` | convert.py:89-90 | no contract of its own; `Convert.HeaderShape` states the header `convertTable` writes |
| `Convert.ReadBack` | convert.py:121-131 | no contract of its own; `Convert.ReadBackPassesIff`, `Convert.ReadBackOfPrefixPasses` and `Convert.ReadBackOfExtraRowFails` state it, and `Convert.CheckReadBack` is proved equal to it |
| `Convert.FirstBadRow` | convert.py:125-126 | every row before the result matches the table's row at that index, and the row at the result (if any) does not |
| `Convert.ReadBackPassesIff` | convert.py:121-131 | the read-back check passes iff the file yields the header followed by the first rows of the table, no more rows than were written |
| `Convert.ReadBackOfPrefixPasses` | convert.py:125-131 | a read-back with all rows, or only the first `k`, passes |
| `Convert.ReadBackOfExtraRowFails` | convert.py:125-126 | once every table row was read back intact, a further row fails with IndexError at row `len(table)` |
| `Convert.CsvWriter.constructor` | convert.py:114-115 | a newly opened CSV file holds no records |
| `Convert.CsvWriter.WriteRow` | convert.py:116-118 | `writerow` appends exactly one record |
| `Convert.WriteCsv` | convert.py:114-118 | the file holds the header followed by every row of the table, in order |
| `Convert.CheckReadBack` | convert.py:121-131 | the read-back loop reports the outcome `ReadBack` defines: StopIteration on an empty file, header mismatch, the first mismatching row, or IndexError on an extra row |
| `Convert.TableExport` | convert.py:79-131 | at most one file, at the job's path; a successful export wrote it; nothing is written iff the error is a missing table, a missing blob column or a non-bytes blob |
| `Convert.ConvertTable` | convert.py:79-131 | the imperative `convertTable` (the header slice, the write loop, the read-back loop) has the outcome `TableExport` specifies |
| `Convert.HeaderShape` | convert.py:83-90 | the header written is the column list, except for a registered table in drop mode: then it is that list without exactly the first occurrence of the blob column |
| `Convert.MissingBlobColumn` | convert.py:85-90 | a registered column missing from the header raises ValueError, and no file is written |
| `Convert.RecordsAreRectangular` | convert.py:83-118 | when every raw row has one field per column, the file has one record per row plus the header, all of the same length, in both modes |
| `Convert.FaithfulCsvPasses` | convert.py:110-131 | when the CSV library reads back what it wrote, every export that writes its file passes the read-back check |
| `Convert.CategoriesDropExample` | convert.py:83-131 | Categories with one row `(1, 'Beverages', picture)` exports `CategoryID,CategoryName` and `str(1),Beverages` by default (`str` of an integer is a `Library` conversion) |
| `Convert.CategoriesKeepExample` | convert.py:83-131 | with blobs kept, the same row exports the picture column in its place as the base64 text of the picture |
| `Driver.StartsWith` | convert.py:140 | no contract of its own; `Driver.DropJobsCoverCatalog` and `Driver.PlanSkipsInternalTables` state the skip it decides |
| `Driver.CsvPath` | convert.py:144 | no contract of its own: `lower(name) + ".csv"`; `Driver.Lower` and `Driver.DropJobsCoverCatalog` state it |
| `Driver.Base64Path` | convert.py:150 | no contract of its own: `lower(name) + "_base64.csv"`; `Driver.Lower` and `Driver.KeepJobsFollowRegistry` state it |
| `Driver.DropJobs` | convert.py:139-146 | no contract of its own; `Driver.DropJobsCoverCatalog` states which jobs the first loop makes |
| `Driver.KeepJobs` | convert.py:148-152 | no contract of its own; `Driver.KeepJobsFollowRegistry` states the jobs of the second loop |
| `Driver.Plan` | convert.py:139-152 | no contract of its own: the first loop's jobs, then the second's; `Driver.PlanSkipsInternalTables` and `Driver.ExportWritesInPlanOrder` state it |
| `Driver.RunJobs` | convert.py:139-152 | no contract of its own: an uncaught exception stops the run; `Driver.RunStopsAtError`, `Driver.RunJobsAppend` and `Driver.RunWritesInOrder` state it |
| `Driver.Lower` | convert.py:144 | `lower()`: same length, each character lower-cased |
| `Driver.RunStopsAtError` | convert.py:139-152 | after a failed job no later job runs: the run's outcome is fixed |
| `Driver.DropRunStops` | convert.py:139-146 | a failure while exporting the first `k` catalog tables is the outcome of the whole first loop |
| `Driver.KeepRunStops` | convert.py:148-152 | a failure while exporting the first `k` registered tables is the outcome of the whole second loop |
| `Driver.RunJobsAppend` | convert.py:139-152 | running the first loop's jobs, then the second's, is one run of both lists when the first loop does not fail |
| `Driver.RunWritesInOrder` | convert.py:139-152 | a run writes at most one file per job, to that job's path and in job order; one per job when no job fails |
| `Driver.ExportWritesInPlanOrder` | convert.py:139-152 | the actual export writes at most one file per planned job, to that job's path and in plan order, and one per job when no export fails |
| `Driver.DropJobsCoverCatalog` | convert.py:139-146 | every catalog table not starting with `sqlite_` gets a drop-mode export to `lower(name) + ".csv"`, and the first loop produces no other job |
| `Driver.DropJobsInOrder` | convert.py:139-146 | the first loop makes at most one job per catalog table, in catalog order: the job of each non-internal table comes right after the jobs of the tables before it |
| `Driver.KeepJobsFollowRegistry` | convert.py:148-152 | the second loop produces one keep-mode export per registry entry, in registry order, to `lower(name) + "_base64.csv"` |
| `Driver.PlanSkipsInternalTables` | convert.py:139-152 | an internal `sqlite_` table is never exported in drop mode; every keep-mode export is of a registered table |
| `Driver.RunNext` | convert.py:146 | one `convertTable` call extends the run by that job |
| `Driver.ExportUserTables` | convert.py:139-146 | the first driver loop runs exactly the drop-mode jobs of the catalog, stopping at the first error |
| `Driver.ExportBase64Tables` | convert.py:148-152 | the second driver loop runs exactly the keep-mode jobs of the registry, stopping at the first error |
| `Driver.ExportDatabase` | convert.py:136-152 | the whole export runs the plan (first loop, then second loop) and stops at the first error |

## Left out

- `download` and `downloadNorthwind` (convert.py:26-77): HTTP streaming, directory creation and permission checks, and deleting a partial file are network and filesystem effects.
- Progress reporting and every `print`: console output only, with floating-point arithmetic.
- The `sqlite3` connection, cursor and query execution: a foreign engine. A query result is given as column names and rows, and the catalog as a sequence of names. SQLite resolves table names case-insensitively; the model looks them up exactly.
- SQLite REAL values (Python floats) are not among the modelled values: floating point.
- CSV quoting, escaping and parsing by `csv.writer` and `csv.reader`: a library this model does not include. The parameter `reread` stands for writing and re-parsing. A file is the sequence of records handed to `writerow`.
- Errors of file I/O and of the CSV library (convert.py:114-123): `open` or a write failing, and `csv.Error` from the reader, are not modelled. `WriteCsv` always succeeds and `reread` is a total function, because these failures come from the operating system and the library, not from `convertTable`.
- `b64encode`, `bytes.decode` and `str` of integers and bytes: library conversions. They are fields of `Values.Library`, not specified. `str` of a string is modelled, as the string itself.
- `Driver.Lower`: maps only ASCII `A`-`Z`, because Python's full Unicode case mapping is library data.
- `Convert.Lookup`: states that the result is a registered pair for the table, not that it is the first, because a Python dict has one entry per key.
- Running Python with `-O` strips the `assert` statements of the read-back check. The model always runs the check.
