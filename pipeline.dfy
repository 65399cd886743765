/**
 * The extract-transform step of the daily hotspot job, and where its output
 * goes next: the two downloads and the abort on a failed one, reading the
 * "ALL" sheet, the per-sensor cleaning, the three local files it writes, and
 * the upload of the CSV to the object store.
 */
module Pipeline {
  import opened Frames
  import opened Text
  import opened Cleaning
  import opened Columns
  import opened Naming

  /** A downloaded body as the spreadsheet reader sees it: a workbook of named
      sheets, or something it cannot parse. */
  datatype Document = Workbook(sheets: map<string, Sheet>) | Unreadable

  /** The part of an HTTP response the job looks at. */
  datatype Response = Response(status: int, content: Document)

  /** `download_excel`: the body of a 200 response, nothing otherwise. */
  function DownloadExcel(response: Response): (body: Option<Document>)
    ensures body.Some? <==> response.status == 200
    ensures body.Some? ==> body.value == response.content
  {
    if response.status == 200 then Some(response.content) else None
  }

  const DataSheet := "ALL"

  /** `pd.read_excel(body, sheet_name=name)`. */
  function ReadSheet(doc: Document, name: string): (r: Result<Sheet>)
    ensures r.Ok? <==> doc.Workbook? && name in doc.sheets
    ensures r.Ok? ==> r.value == doc.sheets[name]
    ensures doc.Unreadable? ==> r == Err(NotAWorkbook)
    ensures doc.Workbook? && name !in doc.sheets ==> r == Err(MissingSheet(name))
  {
    match doc
    case Unreadable => Err(NotAWorkbook)
    case Workbook(sheets) => if name in sheets then Ok(sheets[name]) else Err(MissingSheet(name))
  }

  /** A local file: a workbook written with `to_excel` or a CSV written with `to_csv`. */
  datatype Artifact = Xlsx(table: Frame) | Csv(table: Frame)

  type FileSystem = map<string, Artifact>

  /** `pd.read_excel(path)` on a local file; a workbook reads back as the table written. */
  function ReadXlsx(fs: FileSystem, path: string): (r: Result<Frame>)
    ensures r.Ok? <==> path in fs && fs[path].Xlsx?
    ensures r.Ok? ==> r.value == fs[path].table
    ensures r.Err? ==> r.error == MissingFile(path)
  {
    if path in fs && fs[path].Xlsx? then Ok(fs[path].table) else Err(MissingFile(path))
  }

  /** The two fixed tables of the cleaning: the footnote phrases and the
      header translation. The lemmas below hold for any such tables; the job
      runs with `Job`. */
  datatype Settings = Settings(footnotes: seq<string>, columns: map<string, string>)

  const Job := Settings(FootnotePhrases, TranslatedColumns)

  /** What one sensor's table goes through, with the footnote statements taken
      as a single "mentions any phrase" filter: drop empty rows, drop footnote
      rows, translate the headers, add the Sensor column. The HotSpotID
      column's dtype is that of the sheet as read. */
  function Clean(settings: Settings, sheet: Frame, sensor: string): (r: Result<Frame>)
    requires sheet.Rectangular()
    ensures r.Err? <==> HotSpotId !in sheet.header || !HotSpotIdReadsAsText(sheet)
    ensures HotSpotId !in sheet.header ==> r == Err(MissingColumn(HotSpotId))
    ensures HotSpotId in sheet.header && !HotSpotIdReadsAsText(sheet) ==> r == Err(NotText(HotSpotId))
    ensures r.Ok? ==> r.value.Rectangular() && TaggedWith(r.value, sensor)
  {
    match DropFootnotes(DropEmptyRows(sheet), settings.footnotes, HotSpotIdReadsAsText(sheet))
    case Err(e) => Err(e)
    case Ok(g) => Ok(Tag(RenameColumns(g, settings.columns), sensor))
  }

  /** The rows Clean keeps, before the Sensor cell is added. */
  function KeptRows(settings: Settings, sheet: Frame): seq<Row>
    requires HotSpotId in sheet.header
  {
    Filter(Filter(sheet.rows, AllEmpty), FootnoteAt(IndexOf(sheet.header, HotSpotId).value, settings.footnotes))
  }

  /** What the row count becomes: the all-empty rows and the footnote rows are
      gone (no row is both), so the table never grows. */
  lemma CleanRowCount(settings: Settings, sheet: Frame, sensor: string)
    requires sheet.Rectangular() && HotSpotId in sheet.header && HotSpotIdReadsAsText(sheet)
    ensures Clean(settings, sheet, sensor).Ok?
    ensures var c := IndexOf(sheet.header, HotSpotId).value;
      |Clean(settings, sheet, sensor).value.rows|
        == |sheet.rows| - CountDropped(sheet.rows, AllEmpty) - CountDropped(sheet.rows, FootnoteAt(c, settings.footnotes))
    ensures |Clean(settings, sheet, sensor).value.rows| <= |sheet.rows|
  {
    var c := IndexOf(sheet.header, HotSpotId).value;
    var kept := Filter(sheet.rows, AllEmpty);
    FilterExact(sheet.rows, AllEmpty);
    FilterExact(kept, FootnoteAt(c, settings.footnotes));
    EmptyRowsAreNotFootnotes(sheet.rows, c, settings.footnotes);
  }

  /** The shape of a cleaned table that had no Sensor column: headers
      translated one by one, Sensor appended, and each kept row, in order,
      with its cells unchanged and the sensor name after them. A row is kept
      exactly when it has a non-empty cell and is not a footnote row. */
  lemma CleanShape(settings: Settings, sheet: Frame, sensor: string)
    requires sheet.Rectangular() && HotSpotId in sheet.header && HotSpotIdReadsAsText(sheet)
    requires SensorColumn !in Rename(sheet.header, settings.columns)
    ensures Clean(settings, sheet, sensor).Ok?
    ensures Clean(settings, sheet, sensor).value.header == Rename(sheet.header, settings.columns) + [SensorColumn]
    ensures |Clean(settings, sheet, sensor).value.rows| == |KeptRows(settings, sheet)|
    ensures forall i :: 0 <= i < |KeptRows(settings, sheet)| ==>
      Clean(settings, sheet, sensor).value.rows[i] == KeptRows(settings, sheet)[i] + [Text(sensor)]
    ensures forall row :: row in KeptRows(settings, sheet) <==>
      row in sheet.rows && !Drops(AllEmpty, row) && !Drops(FootnoteAt(IndexOf(sheet.header, HotSpotId).value, settings.footnotes), row)
  {
    var c := IndexOf(sheet.header, HotSpotId).value;
    var kept := Filter(sheet.rows, AllEmpty);
    var kr := KeptRows(settings, sheet);
    forall row ensures row in kr <==>
      row in sheet.rows && !Drops(AllEmpty, row) && !Drops(FootnoteAt(c, settings.footnotes), row)
    {
      FilterMembers(kept, FootnoteAt(c, settings.footnotes), row);
      FilterMembers(sheet.rows, AllEmpty, row);
    }
    var g := DropFootnotes(DropEmptyRows(sheet), settings.footnotes, true).value;
    assert g.rows == kr;
    var renamed := RenameColumns(g, settings.columns);
    var r := Tag(renamed, sensor);
    assert r.header == renamed.header + [SensorColumn];
    forall i | 0 <= i < |kr|
      ensures r.rows[i] == kr[i] + [Text(sensor)]
    {
      assert renamed.rows[i] in renamed.rows;
      var j := |renamed.header|;
      forall k | 0 <= k < j ensures r.rows[i][k] == renamed.rows[i][k] {
        assert r.header[k] == renamed.header[k];
      }
    }
  }

  /** How one run of extract_transform ends. */
  datatype Outcome =
    | Aborted            // a download failed and the job called exit()
    | Crashed(error: Error) // an exception ended it
    | Completed

  /** What one run does, given the year, the run date, the HTTP GET and the
      local files before it: which outcome, and which files afterwards. */
  function TransformRun(settings: Settings, year: nat, runDate: string, fetch: string -> Response, fs: FileSystem): (Outcome, FileSystem) {
    var modisData := DownloadExcel(fetch(ModisUrl(year, OverrideDate)));
    var viirsData := DownloadExcel(fetch(ViirsUrl(year, OverrideDate)));
    if modisData.None? || viirsData.None? then (Aborted, fs)
    else
      match (ReadSheet(modisData.value, DataSheet), ReadSheet(viirsData.value, DataSheet))
      case (Err(e), _) => (Crashed(e), fs)
      case (_, Err(e)) => (Crashed(e), fs)
      case (Ok(m), Ok(v)) =>
        match (Clean(settings, m, Modis), Clean(settings, v, Viirs))
        case (Err(e), _) => (Crashed(e), fs)
        case (_, Err(e)) => (Crashed(e), fs)
        case (Ok(mt), Ok(vt)) =>
          (Completed, WriteOutputs(fs, runDate, mt, vt))
  }

  /** The three writes of a completed run: the two workbooks and the CSV of
      the MODIS table. No write clobbers another, and no other file changes. */
  function WriteOutputs(fs: FileSystem, runDate: string, modis: Frame, viirs: Frame): (files: FileSystem)
    ensures ModisXlsxPath(runDate) in files && files[ModisXlsxPath(runDate)] == Xlsx(modis)
    ensures ViirsXlsxPath(runDate) in files && files[ViirsXlsxPath(runDate)] == Xlsx(viirs)
    ensures CsvPath(runDate) in files && files[CsvPath(runDate)] == Csv(modis)
    ensures forall p :: p != ModisXlsxPath(runDate) && p != ViirsXlsxPath(runDate) && p != CsvPath(runDate) ==>
      (p in files <==> p in fs) && (p in fs ==> files[p] == fs[p])
  {
    LocalFilesDistinct(runDate);
    fs[ModisXlsxPath(runDate) := Xlsx(modis)][ViirsXlsxPath(runDate) := Xlsx(viirs)][CsvPath(runDate) := Csv(modis)]
  }

  /** extract_transform, statement by statement: the date-derived URLs are
      built and then replaced by the pinned ones, each table is rebound
      through the cleaning steps, both workbooks are written, and the MODIS
      workbook is read back and written again as the CSV. */
  method ExtractTransform(year: nat, runDate: string, fetch: string -> Response, fs: FileSystem)
    returns (outcome: Outcome, files: FileSystem)
    ensures (outcome, files) == TransformRun(Job, year, runDate, fetch, fs)
  {
    var modisUrl := ModisUrl(year, runDate);
    var viirsUrl := ViirsUrl(year, runDate);
    modisUrl := ModisUrl(year, OverrideDate);
    viirsUrl := ViirsUrl(year, OverrideDate);

    var modisData := DownloadExcel(fetch(modisUrl));
    var viirsData := DownloadExcel(fetch(viirsUrl));
    if modisData.None? || viirsData.None? {
      return Aborted, fs;
    }

    var modisSheet := ReadSheet(modisData.value, DataSheet);
    if modisSheet.Err? {
      return Crashed(modisSheet.error), fs;
    }
    var modisText := HotSpotIdReadsAsText(modisSheet.value);
    var modis: Frame := DropEmptyRows(modisSheet.value);
    var viirsSheet := ReadSheet(viirsData.value, DataSheet);
    if viirsSheet.Err? {
      return Crashed(viirsSheet.error), fs;
    }
    var viirsText := HotSpotIdReadsAsText(viirsSheet.value);
    var viirs: Frame := DropEmptyRows(viirsSheet.value);

    var filtered := DropFootnoteRows(modis, FootnotePhrases, modisText);
    if filtered.Err? {
      return Crashed(filtered.error), fs;
    }
    modis := filtered.value;
    filtered := DropFootnoteRows(viirs, FootnotePhrases, viirsText);
    if filtered.Err? {
      return Crashed(filtered.error), fs;
    }
    viirs := filtered.value;

    modis := RenameColumns(modis, TranslatedColumns);
    modis := Tag(modis, Modis);
    viirs := RenameColumns(viirs, TranslatedColumns);
    viirs := Tag(viirs, Viirs);

    files := fs[ModisXlsxPath(runDate) := Xlsx(modis)];
    files := files[ViirsXlsxPath(runDate) := Xlsx(viirs)];
    ReadBackIsModisWorkbook(runDate);
    LocalFilesDistinct(runDate);
    // the workbook just written is there, so reading it back cannot fail
    var readBack := ReadXlsx(files, ReadBackPath(runDate));
    files := files[CsvPath(runDate) := Csv(readBack.value)];
    outcome := Completed;
  }

  /** The run aborts exactly when one of the two downloads did not return 200,
      and then writes nothing. */
  lemma AbortsOnFailedDownload(settings: Settings, year: nat, runDate: string, fetch: string -> Response, fs: FileSystem)
    ensures TransformRun(settings, year, runDate, fetch, fs).0.Aborted? <==>
      fetch(ModisUrl(year, OverrideDate)).status != 200 || fetch(ViirsUrl(year, OverrideDate)).status != 200
    ensures TransformRun(settings, year, runDate, fetch, fs).0.Aborted? ==> TransformRun(settings, year, runDate, fetch, fs).1 == fs
  {
  }

  /** A run that does not complete leaves the local files as they were. */
  lemma NothingWrittenUnlessCompleted(settings: Settings, year: nat, runDate: string, fetch: string -> Response, fs: FileSystem)
    ensures !TransformRun(settings, year, runDate, fetch, fs).0.Completed? ==> TransformRun(settings, year, runDate, fetch, fs).1 == fs
  {
  }

  /** A completed run writes three files and touches no other: the two
      workbooks, each tagged with its own sensor, and the CSV, which holds
      the MODIS table exactly. */
  lemma CompletedRunWrites(settings: Settings, year: nat, runDate: string, fetch: string -> Response, fs: FileSystem)
    requires TransformRun(settings, year, runDate, fetch, fs).0.Completed?
    ensures var files := TransformRun(settings, year, runDate, fetch, fs).1;
      && ModisXlsxPath(runDate) in files && files[ModisXlsxPath(runDate)].Xlsx?
      && ViirsXlsxPath(runDate) in files && files[ViirsXlsxPath(runDate)].Xlsx?
      && CsvPath(runDate) in files && files[CsvPath(runDate)].Csv?
      && TaggedWith(files[ModisXlsxPath(runDate)].table, Modis)
      && TaggedWith(files[ViirsXlsxPath(runDate)].table, Viirs)
      && files[CsvPath(runDate)].table == files[ModisXlsxPath(runDate)].table
    ensures var files := TransformRun(settings, year, runDate, fetch, fs).1;
      forall p :: p != ModisXlsxPath(runDate) && p != ViirsXlsxPath(runDate) && p != CsvPath(runDate) ==>
        (p in files <==> p in fs) && (p in fs ==> files[p] == fs[p])
  {
  }

  /** Because the URLs are pinned, the run date changes only the names of the
      files, never the outcome or what they hold. */
  lemma RunDateOnlyNamesFiles(settings: Settings, year: nat, d1: string, d2: string, fetch: string -> Response, fs: FileSystem)
    ensures TransformRun(settings, year, d1, fetch, fs).0 == TransformRun(settings, year, d2, fetch, fs).0
    ensures TransformRun(settings, year, d1, fetch, fs).0.Completed? ==>
      TransformRun(settings, year, d1, fetch, fs).1[CsvPath(d1)] == TransformRun(settings, year, d2, fetch, fs).1[CsvPath(d2)]
  {
  }

  /** An object in the store: bucket and key. */
  datatype ObjectKey = ObjectKey(bucket: string, name: string)

  type ObjectStore = map<ObjectKey, Artifact>

  /** upload_file_to_gcs: the local file's content is stored under the key,
      replacing what was there; a missing local file is an error. */
  function Upload(fs: FileSystem, store: ObjectStore, bucket: string, source: string, destination: string): (r: Result<ObjectStore>)
    ensures r.Ok? <==> source in fs
    ensures r.Err? ==> r.error == MissingFile(source)
    ensures r.Ok? ==> ObjectKey(bucket, destination) in r.value && r.value[ObjectKey(bucket, destination)] == fs[source]
    ensures r.Ok? ==> forall k :: k != ObjectKey(bucket, destination) ==> (k in r.value <==> k in store) && (k in store ==> r.value[k] == store[k])
  {
    if source in fs then Ok(store[ObjectKey(bucket, destination) := fs[source]]) else Err(MissingFile(source))
  }

  /** End to end: when the date fixed at load time is the run date, the
      staging step finds this run's CSV, stores it under the key the load step
      reads, and every staged row carries the MODIS label, none the VIIRS one. */
  lemma StagedRowsAreModis(settings: Settings, year: nat, runDate: string, loadDate: string, fetch: string -> Response, fs: FileSystem, store: ObjectStore)
    requires TransformRun(settings, year, runDate, fetch, fs).0.Completed?
    requires loadDate == runDate
    ensures var staged := Upload(TransformRun(settings, year, runDate, fetch, fs).1, store, BucketName, SourceFileName(loadDate), DestinationBlobName(loadDate));
      && staged.Ok?
      && GcsFilePath(loadDate) == GcsUri(BucketName, DestinationBlobName(loadDate))
      && var blob := staged.value[ObjectKey(BucketName, DestinationBlobName(loadDate))];
      && blob.Csv?
      && TaggedWith(blob.table, Modis)
      && forall i, j :: 0 <= i < |blob.table.rows| && 0 <= j < |blob.table.header| && blob.table.header[j] == SensorColumn
           ==> blob.table.rows[i][j] != Text(Viirs)
  {
    CompletedRunWrites(settings, year, runDate, fetch, fs);
    UploadSourceIsCsv(runDate, loadDate);
    LoadReadsStagedObject(loadDate);
    var files := TransformRun(settings, year, runDate, fetch, fs).1;
    var t := files[CsvPath(runDate)].table;
    assert t.Rectangular() by {
      CompletedTablesRectangular(settings, year, runDate, fetch, fs);
    }
  }

  lemma CompletedTablesRectangular(settings: Settings, year: nat, runDate: string, fetch: string -> Response, fs: FileSystem)
    requires TransformRun(settings, year, runDate, fetch, fs).0.Completed?
    ensures CsvPath(runDate) in TransformRun(settings, year, runDate, fetch, fs).1
    ensures TransformRun(settings, year, runDate, fetch, fs).1[CsvPath(runDate)].table.Rectangular()
  {
  }
}
