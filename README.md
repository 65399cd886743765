# MODIS/VIIRS hotspot extract-transform, modelled in Dafny

The Airflow job `dags/Airflow_MODIS_ETL-TEST.py` runs once a day, in three
steps. It downloads two fire-hotspot spreadsheets from the GISTDA fire
portal, one per sensor (MODIS and VIIRS). It cleans the spreadsheets and writes
them to local disk as workbooks, then writes the MODIS table again as a CSV. It
uploads that CSV to a Cloud Storage bucket and points a BigQuery load job at it.

This project models the extract-transform step and the names that connect the
three steps:

- `download_excel` and the abort when a download fails;
- reading the `ALL` sheet;
- dropping all-empty rows (`dropna(how='all')`);
- the eight footnote filters on the `HotSpotID` column
  (`str.contains(phrase, na=False)`);
- the header translation table and the rename;
- the `Sensor` column (`df['Sensor'] = ...`);
- the download URLs, with their pinned date;
- the local paths, the object key and the `gs://` URI.

Modules:

- `Frames` — the data model. A table (`Frame`) is a header list plus rows of
  cells, and a cell is `Empty` (a missing value) or `Text`. A `Sheet` is a table
  as the spreadsheet reader returns it: rectangular, with distinct headers.
- `Text` — substring search, the decimal rendering of the year, and template
  cancellation.
- `Cleaning` — the row filters. `Filter` keeps the rows a `RowTest` does not
  drop. `DropFootnoteRows` runs the footnote statements one after another.
- `Columns` — the translation table, the rename and the `Sensor` column.
- `Naming` — URLs, paths, bucket, object key and URI.
- `Pipeline` — the downloads, the per-sensor cleaning and the whole run:
  - `TransformRun` is the reference function;
  - `ExtractTransform` is the method that follows the statements;
  - `Upload` is the staging upload, as a map update.

The clock reads become parameters: `year`, `runDate` (the date
`extract_transform` computes when it runs) and `loadDate` (the date the module
computes when the DAG file is loaded). The HTTP GET becomes a parameter `fetch`
from URL to response. The local disk is a map from path to file, and the object
store is a map from key to object.

The job's tables are passed in a value `Settings`, and `Job` holds the ones the
job uses. The lemmas about the cleaning hold for any tables, and the method runs
with `Job`.

Two consequences of the code as written:

- The two workbooks are written separately, and only the MODIS workbook is
  converted to CSV. So only MODIS rows are staged (`StagedRowsAreModis`); the
  VIIRS rows never reach the bucket.
- Both URLs are pinned to `20240603` (lines 45–46), whatever the run date. So
  the run date changes only the names of the local files
  (`RunDateOnlyNamesFiles`).

The footnote filter uses the `.str` methods of the HotSpotID column. pandas
fixes a column's dtype when it reads the sheet, and a column whose every value
is missing reads as floats, which have no `.str` methods. The model carries that
dtype as a flag computed from the sheet as read (`HotSpotIdReadsAsText`). The
first filter statement fails when the flag is false. Each later statement takes
`.str` again, and pandas then checks the values left in the column. For a column
of missing and text cells, the only cells the model has, that check never fails
after the first statement has passed.

## Model

| member | source | states |
|---|---|---|
| Frames.IndexOf | dags/Airflow_MODIS_ETL-TEST.py:62 | The column lookup `df['HotSpotID']` finds a column exactly when the header has that name. It returns a position holding the name, with no earlier occurrence. |
| Text.Contains | dags/Airflow_MODIS_ETL-TEST.py:62 | The substring test holds exactly when the phrase occurs at some position of the cell text. |
| Text.ContainsTransitive | dags/Airflow_MODIS_ETL-TEST.py:66-69 | A text that contains a phrase also contains every part of that phrase. |
| Text.Decimal | dags/Airflow_MODIS_ETL-TEST.py:43 | `str(current_year)`: at least one character, all digits, and no leading zero unless the number is 0. |
| Text.DecimalRoundTrip | dags/Airflow_MODIS_ETL-TEST.py:42-44 | The year's decimal rendering reads back as the year. |
| Text.DecimalInjective | dags/Airflow_MODIS_ETL-TEST.py:42-44 | Two years render alike exactly when they are equal. |
| Text.TemplateInjective | dags/Airflow_MODIS_ETL-TEST.py:43-46 | Two names built from the same template are equal exactly when their holes are equal. |
| Cleaning.Drops | dags/Airflow_MODIS_ETL-TEST.py:57-78 | Which rows a filter removes. `how='all'` drops a row whose every cell is missing. A footnote test drops a row whose HotSpotID cell holds text mentioning a phrase; a missing cell never matches (`na=False`). A definition, no contract: FilterMembers states its role. |
| Cleaning.Filter | dags/Airflow_MODIS_ETL-TEST.py:57-78 | `df[~mask]`: the rows the test keeps, in order. Its own contract says only that it never grows; FilterMembers and FilterExact state what it keeps. |
| Cleaning.FilterMembers | dags/Airflow_MODIS_ETL-TEST.py:57-78 | A row survives a filter exactly when it was in the input and the test does not drop it. |
| Cleaning.FilterExact | dags/Airflow_MODIS_ETL-TEST.py:57-78 | The surviving rows are a subsequence of the input, so order and cells are kept. There are exactly as many fewer rows as rows the test drops. |
| Cleaning.FilterAppend | dags/Airflow_MODIS_ETL-TEST.py:62-78 | Filtering a concatenation filters each part, in order. |
| Cleaning.FilterNoneDropped | dags/Airflow_MODIS_ETL-TEST.py:62-78 | A filter that drops no row returns the rows unchanged. |
| Cleaning.FilterIdempotent | dags/Airflow_MODIS_ETL-TEST.py:62-78 | Running a filter a second time changes nothing. |
| Cleaning.FilterSameTest | dags/Airflow_MODIS_ETL-TEST.py:62-78 | Two tests that drop the same rows give the same result. |
| Cleaning.MissingHotSpotKept | dags/Airflow_MODIS_ETL-TEST.py:62-78 | A row whose HotSpotID cell is missing (`na=False`) is never dropped. |
| Cleaning.MentionsAnyAppend | dags/Airflow_MODIS_ETL-TEST.py:62-69 | A text mentions a phrase of `ps + qs` exactly when it mentions one of `ps` or one of `qs`. |
| Cleaning.FilterSequential | dags/Airflow_MODIS_ETL-TEST.py:62-69 | Filtering by `ps` and then by `qs` equals one filter by the phrases of `ps + qs`. |
| Cleaning.LongPhrasesContainShort | dags/Airflow_MODIS_ETL-TEST.py:66-69 | The phrase of line 68 contains that of line 67, and the phrase of line 69 contains that of line 66. |
| Cleaning.EssentialPhrasesSuffice | dags/Airflow_MODIS_ETL-TEST.py:62-69 | A text mentions one of the eight phrases exactly when it mentions one of the five essential ones. So the repeat on line 63 and the longer phrases on lines 68–69 are redundant. |
| Cleaning.EmptyRowsAreNotFootnotes | dags/Airflow_MODIS_ETL-TEST.py:57-78 | No all-empty row is a footnote row, so the footnote filter drops the same number of rows before or after `dropna`. |
| Cleaning.DropEmptyRows | dags/Airflow_MODIS_ETL-TEST.py:57-59 | `dropna(how='all')` keeps the header and a rectangular table stays rectangular. FilterMembers gives which rows are kept. |
| Cleaning.ReadsAsText | dags/Airflow_MODIS_ETL-TEST.py:56-58 | The dtype pandas infers when it reads a column: text unless the sheet has rows and none of them holds text there. A definition, no contract. |
| Cleaning.HotSpotIdReadsAsText | dags/Airflow_MODIS_ETL-TEST.py:62-71 | The HotSpotID column, when present, has a string dtype in the sheet as read. A definition, no contract. |
| Cleaning.DropFootnotes | dags/Airflow_MODIS_ETL-TEST.py:62-78 | The filter fails exactly when there is no HotSpotID column (KeyError) or the column lacks a string dtype (AttributeError), with the matching error. Otherwise it keeps the header and the table stays rectangular. |
| Cleaning.DropFootnote | dags/Airflow_MODIS_ETL-TEST.py:62 | One filter statement: the filter for a single phrase. A definition, no contract. |
| Cleaning.DropEmptyRowsKeepsText | dags/Airflow_MODIS_ETL-TEST.py:57-62 | A text HotSpotID cell survives `dropna`, since all-empty rows hold no text. So checking the dtype before or after `dropna` agrees while a row is left. |
| Cleaning.FootnoteFilterRedundancy | dags/Airflow_MODIS_ETL-TEST.py:62-78 | On any table, the eight phrases drop what the five essential ones drop, and applying the filter twice equals applying it once. |
| Cleaning.DropFootnoteRows | dags/Airflow_MODIS_ETL-TEST.py:62-69 | The chain of single-phrase statements, one after another, equals the single "mentions any phrase" filter, including both errors. |
| Columns.Translate | dags/Airflow_MODIS_ETL-TEST.py:104 | One header under the rename: its target when it is a key, itself otherwise. A definition, no contract: Rename states it for the whole header. |
| Columns.Rename | dags/Airflow_MODIS_ETL-TEST.py:104 | The rename keeps the column count and order. A header found in the table becomes its target, and every other header is kept. |
| Columns.RenameColumns | dags/Airflow_MODIS_ETL-TEST.py:104 | The rename changes only the header. Rows are untouched and the table stays rectangular. |
| Columns.RenameIdempotent | dags/Airflow_MODIS_ETL-TEST.py:104 | With a table whose targets are never keys, renaming twice equals renaming once. |
| Columns.RenameKeepsDistinct | dags/Airflow_MODIS_ETL-TEST.py:104 | An injective table keeps distinct headers distinct, unless some header already carries a target name. |
| Columns.RenameInverse | dags/Airflow_MODIS_ETL-TEST.py:104 | Renaming with an inverse table undoes the rename of headers that are not already target names. |
| Columns.TranslationRoundTrip | dags/Airflow_MODIS_ETL-TEST.py:82-101 | Every translation in the table is undone by the reverse table. |
| Columns.TranslatedInjective | dags/Airflow_MODIS_ETL-TEST.py:82-101 | No two Thai headers translate to the same name. |
| Columns.TranslatedTargetsNotKeys | dags/Airflow_MODIS_ETL-TEST.py:82-101 | No target name is itself translated again. |
| Columns.TranslatedTargetsValid | dags/Airflow_MODIS_ETL-TEST.py:81-101 | Every target is a name the warehouse accepts: no "(", ")" or ".", and no leading digit. |
| Columns.TranslatedColumnsWellFormed | dags/Airflow_MODIS_ETL-TEST.py:81-101 | The three facts above together. |
| Columns.TranslationIdempotent | dags/Airflow_MODIS_ETL-TEST.py:104-108 | Applying the job's rename twice equals applying it once. |
| Columns.SetColumn | dags/Airflow_MODIS_ETL-TEST.py:105 | Column assignment overwrites every column of that name with the constant, or appends one when there is none. Every other cell and the row count are kept. |
| Columns.Tag | dags/Airflow_MODIS_ETL-TEST.py:105-109 | After tagging, the table has a Sensor column, and every row holds the given sensor in every Sensor column. |
| Naming.BaseUrl | dags/Airflow_MODIS_ETL-TEST.py:42-43 | The year's folder on the portal. A definition, no contract. |
| Naming.ModisUrl | dags/Airflow_MODIS_ETL-TEST.py:43-45 | The MODIS report URL for a year and date. A definition, no contract: YearDeterminesUrl and OverrideReplacesRunDate are its properties. |
| Naming.ViirsUrl | dags/Airflow_MODIS_ETL-TEST.py:44-46 | The VIIRS report URL for a year and date. A definition, no contract: OverrideReplacesRunDate and SensorUrlsDiffer are its properties. |
| Naming.Join | dags/Airflow_MODIS_ETL-TEST.py:116-121 | `os.path.join` of two POSIX paths: an absolute second part wins, otherwise one "/" separates them. A definition, no contract. |
| Naming.ModisXlsxPath | dags/Airflow_MODIS_ETL-TEST.py:116 | The MODIS workbook path. A definition, no contract: ReadBackIsModisWorkbook and LocalFilesDistinct are its properties. |
| Naming.ViirsXlsxPath | dags/Airflow_MODIS_ETL-TEST.py:121 | The VIIRS workbook path. A definition, no contract: LocalFilesDistinct is its property. |
| Naming.ReadBackPath | dags/Airflow_MODIS_ETL-TEST.py:125 | The path read back, spelled out in full. A definition, no contract: ReadBackIsModisWorkbook is its property. |
| Naming.CsvPath | dags/Airflow_MODIS_ETL-TEST.py:126 | The CSV path. A definition, no contract: UploadSourceIsCsv and StagedNameDeterminesDate are its properties. |
| Naming.SourceFileName | dags/Airflow_MODIS_ETL-TEST.py:15 | The file the staging step uploads, from the load-time date. A definition, no contract: UploadSourceIsCsv is its property. |
| Naming.DestinationBlobName | dags/Airflow_MODIS_ETL-TEST.py:16 | The object key it uploads to. A definition, no contract: StagedNameDeterminesDate is its property. |
| Naming.GcsFilePath | dags/Airflow_MODIS_ETL-TEST.py:22 | The URI the load step reads. A definition, no contract: LoadReadsStagedObject is its property. |
| Naming.OverrideReplacesRunDate | dags/Airflow_MODIS_ETL-TEST.py:42-46 | The requested URLs equal the date-derived ones only when the run date is 20240603. |
| Naming.SensorUrlsDiffer | dags/Airflow_MODIS_ETL-TEST.py:43-46 | The MODIS and VIIRS downloads never request the same URL. |
| Naming.YearDeterminesUrl | dags/Airflow_MODIS_ETL-TEST.py:42-45 | Two years give the same MODIS URL exactly when they are the same year. |
| Naming.ReadBackIsModisWorkbook | dags/Airflow_MODIS_ETL-TEST.py:116-125 | The path read back on line 125 is the MODIS workbook written on line 117. |
| Naming.LocalFilesDistinct | dags/Airflow_MODIS_ETL-TEST.py:116-126 | The two workbooks and the CSV of one run have three distinct paths. |
| Naming.UploadSourceIsCsv | dags/Airflow_MODIS_ETL-TEST.py:15-126 | The staging step uploads this run's CSV exactly when the load-time date equals the run date. |
| Naming.LoadReadsStagedObject | dags/Airflow_MODIS_ETL-TEST.py:14-22 | The load step's URI names the bucket and key the staging step writes to. |
| Naming.StagedNameDeterminesDate | dags/Airflow_MODIS_ETL-TEST.py:15-16 | Different dates give different object keys and different CSV paths. |
| Pipeline.DownloadExcel | dags/Airflow_MODIS_ETL-TEST.py:25-31 | The result is the body exactly when the status is 200, and nothing otherwise. |
| Pipeline.ReadSheet | dags/Airflow_MODIS_ETL-TEST.py:56-58 | Reading a sheet succeeds exactly when the body is a workbook with that sheet. An unparsable body and a missing sheet give their errors. |
| Pipeline.ReadXlsx | dags/Airflow_MODIS_ETL-TEST.py:125 | Reading a local workbook returns the table written there, and an error when there is none. |
| Pipeline.Clean | dags/Airflow_MODIS_ETL-TEST.py:56-109 | One sensor's cleaning fails exactly when the sheet has no HotSpotID column or that column was not read as text, with the matching error. Otherwise it yields a rectangular table tagged with that sensor. |
| Pipeline.CleanRowCount | dags/Airflow_MODIS_ETL-TEST.py:57-78 | The cleaned table has exactly the input's rows minus the all-empty and the footnote rows, so it never grows. |
| Pipeline.CleanShape | dags/Airflow_MODIS_ETL-TEST.py:57-109 | Without an earlier Sensor column, the header is the translated header plus Sensor. Each kept row appears in order with its cells and the sensor after them. A row is kept exactly when it is non-empty and not a footnote. |
| Pipeline.WriteOutputs | dags/Airflow_MODIS_ETL-TEST.py:116-126 | A completed run's writes leave each workbook and the CSV at its own path, and every other file unchanged. |
| Pipeline.TransformRun | dags/Airflow_MODIS_ETL-TEST.py:37-126 | The reference for one run: abort on a failed download, crash on the first failing read or cleaning (MODIS before VIIRS), otherwise complete with the three writes. A definition, no contract: the Pipeline lemmas state its properties, and ExtractTransform is proved equal to it. |
| Pipeline.ExtractTransform | dags/Airflow_MODIS_ETL-TEST.py:37-126 | The statement-by-statement step, with its eight filter statements per sensor and the read-back, has exactly the outcome and files of TransformRun. |
| Pipeline.AbortsOnFailedDownload | dags/Airflow_MODIS_ETL-TEST.py:49-54 | The run aborts exactly when a download does not return 200, and then it writes nothing. |
| Pipeline.NothingWrittenUnlessCompleted | dags/Airflow_MODIS_ETL-TEST.py:52-109 | A run that aborts, or crashes on a read or in the cleaning (all before the first write), leaves the local files as they were. |
| Pipeline.CompletedRunWrites | dags/Airflow_MODIS_ETL-TEST.py:105-126 | A completed run writes both workbooks, each tagged with its own sensor, and a CSV equal to the MODIS table. It touches no other file. |
| Pipeline.RunDateOnlyNamesFiles | dags/Airflow_MODIS_ETL-TEST.py:40-46 | The run date changes neither the outcome nor the CSV content, only the file names. |
| Pipeline.CompletedTablesRectangular | dags/Airflow_MODIS_ETL-TEST.py:125-126 | The CSV of a completed run is a rectangular table. |
| Pipeline.Upload | dags/Airflow_MODIS_ETL-TEST.py:128-141 | The upload stores the local file under the key and leaves every other object as it was. A missing local file is an error. |
| Pipeline.StagedRowsAreModis | dags/Airflow_MODIS_ETL-TEST.py:191-201 | When the load-time date is the run date, the staging step finds the CSV and stores it where the load step reads. Every staged row carries MODIS and none carries VIIRS. |

## Left out

- HTTP: `requests.get` is the parameter `fetch`, so connection errors raised by `requests` are not modelled; only the status code and the body are.
- Spreadsheet parsing: a body is either a workbook of named sheets or unparsable. Cell types other than text are not modelled. The consequences for the HotSpotID column are therefore not represented. If every value is a number, pandas reads the column as numeric and line 62 raises. If numbers and text are mixed, the column reads as text and the numbers never match (`na=False` keeps those rows). But once a statement drops the last text row while numbers remain, the next statement raises AttributeError, because `.str` checks the values left in the column. For example, HotSpotID values `1001`, `1002` and a note row pass line 62, which drops the note, and then line 63 raises.
- Pipeline.WriteOutputs: the writes on lines 117 and 122 and the read-back on line 125 cannot fail in the model. In the source a full disk, a permission error or a value the writer rejects can raise after the MODIS workbook is on disk, leaving it behind from a failed run.
- Pipeline.NothingWrittenUnlessCompleted: holds only for the failures the model represents (downloads, reads and cleaning), all before line 113. A failure during the writes, which the model does not represent, can leave the MODIS workbook behind.
- Writing and reading back local files: `to_excel` followed by `read_excel` is taken as an identity on the table, and `to_csv` stores the table. Serialisation formats, the index and dtype changes are not modelled.
- `os.makedirs` (line 113) and all `print` output: no effect on the data.
- `exit()` (line 54) is the `Aborted` outcome; how Airflow reports it is not modelled.
- `load_csv_to_bigquery` (lines 143–169): only the URI it is given is modelled (`LoadReadsStagedObject`); the load job, the append and error logging are external services.
- The Cloud Storage and BigQuery clients, project and dataset names (lines 18–20, 23): external services.
- The DAG wiring, schedule, retries and start date (lines 171–205): only the data passed between tasks (`op_args`) is modelled.
- Clock reads and the "yesterday" arithmetic (lines 11–13, 38–40): the year and dates are parameters, any string.
- Rename collisions: a translation onto a name that is already a header is represented as is (duplicate names in the header list); `RenameKeepsDistinct` says when that cannot happen.
- Text.Contains: `str.contains` treats its pattern as a regular expression; the model uses plain substring search, which agrees because none of the eight phrases holds a metacharacter.
- Cleaning.DropFootnoteRows: for an empty phrase list and a table without HotSpotID it reports the missing column, although no statement would run; the job's list is never empty.
- Columns.RenameIdempotent, Columns.TranslationIdempotent: stated for tables whose targets are not keys, which the job's table satisfies (`TranslatedTargetsNotKeys`).
