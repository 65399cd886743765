/**
 * Every name the job builds: the two download URLs, the local files it
 * writes, and the object-store key and URI of the staged CSV. All are
 * templates over a year and a YYYYMMDD date string.
 */
module Naming {
  import opened Text

  /** The date the download URLs are pinned to, whatever the run date. */
  const OverrideDate := "20240603"

  function BaseUrl(year: nat): string {
    "https://fire.gistda.or.th/fire/y" + Decimal(year) + "/80_Report/Excel/"
  }

  function ModisUrl(year: nat, date: string): string {
    BaseUrl(year) + "N_Mod_Day/N_Mod_" + date + ".xlsx"
  }

  function ViirsUrl(year: nat, date: string): string {
    BaseUrl(year) + "N_Vi1_Day/N_Vi1_" + date + ".xlsx"
  }

  /** The URL the job actually requests is the date-derived one only on the
      override date; on every other run date the download ignores the date. */
  lemma OverrideReplacesRunDate(year: nat, runDate: string)
    ensures ModisUrl(year, runDate) == ModisUrl(year, OverrideDate) <==> runDate == OverrideDate
    ensures ViirsUrl(year, runDate) == ViirsUrl(year, OverrideDate) <==> runDate == OverrideDate
  {
    TemplateInjective(BaseUrl(year) + "N_Mod_Day/N_Mod_", ".xlsx", runDate, OverrideDate);
    TemplateInjective(BaseUrl(year) + "N_Vi1_Day/N_Vi1_", ".xlsx", runDate, OverrideDate);
  }

  /** The two downloads never request the same document. */
  lemma SensorUrlsDiffer(year: nat, d1: string, d2: string)
    ensures ModisUrl(year, d1) != ViirsUrl(year, d2)
  {
    var b := BaseUrl(year);
    assert ModisUrl(year, d1)[|b| + 2] == 'M';
    assert ViirsUrl(year, d2)[|b| + 2] == 'V';
  }

  /** The year is part of the URL: different years request different documents. */
  lemma YearDeterminesUrl(y1: nat, y2: nat, date: string)
    ensures ModisUrl(y1, date) == ModisUrl(y2, date) <==> y1 == y2
  {
    var pre, post := "https://fire.gistda.or.th/fire/y", "/80_Report/Excel/N_Mod_Day/N_Mod_" + date + ".xlsx";
    var mid := "/80_Report/Excel/";
    if Decimal(y1) != Decimal(y2) {
      UrlSplit(pre, Decimal(y1), mid, "N_Mod_Day/N_Mod_", date, ".xlsx");
      UrlSplit(pre, Decimal(y2), mid, "N_Mod_Day/N_Mod_", date, ".xlsx");
      TemplateInjective(pre, mid + ("N_Mod_Day/N_Mod_" + date + ".xlsx"), Decimal(y1), Decimal(y2));
    }
    DecimalInjective(y1, y2);
  }

  lemma UrlSplit(a: string, b: string, c: string, d: string, e: string, f: string)
    ensures a + b + c + d + e + f == a + b + (c + (d + e + f))
  {
  }

  /** `os.path.join(a, b)` for POSIX paths. */
  function Join(a: string, b: string): string {
    if |b| > 0 && b[0] == '/' then b
    else if a == [] || a[|a| - 1] == '/' then a + b
    else a + "/" + b
  }

  const Folder := "/opt/airflow/dags/GISTDA_Hotspot"

  function ModisXlsxPath(date: string): string {
    Join(Folder, "MODIS_" + date + ".xlsx")
  }

  function ViirsXlsxPath(date: string): string {
    Join(Folder, "VIIRS_" + date + ".xlsx")
  }

  /** The workbook the job reads back before writing the CSV, spelled out in full. */
  function ReadBackPath(date: string): string {
    "/opt/airflow/dags/GISTDA_Hotspot/MODIS_" + date + ".xlsx"
  }

  /** The CSV the transform step writes. */
  function CsvPath(date: string): string {
    "/opt/airflow/dags/GISTDA_Hotspot/MODIS_" + date + ".csv"
  }

  // The staging step's arguments, computed once when the DAG file is loaded.
  const BucketName := "envilink_raw"
  const GcsBucket := "envilink_raw"

  /** `source_file_name`: the local file the staging step uploads. */
  function SourceFileName(date: string): string {
    "/opt/airflow/dags/GISTDA_Hotspot/MODIS_" + date + ".csv"
  }

  /** `destination_blob_name`: the object key it uploads to. */
  function DestinationBlobName(date: string): string {
    "gistda/modis_gistda_hotspot/MODIS_" + date + ".csv"
  }

  /** `GCS_FILE_PATH`: the URI the load step reads. */
  function GcsFilePath(date: string): string {
    "gs://" + GcsBucket + "/gistda/modis_gistda_hotspot/MODIS_" + date + ".csv"
  }

  /** The URI of an object in the store. */
  function GcsUri(bucket: string, name: string): string {
    "gs://" + bucket + "/" + name
  }

  /** The workbook read back is the MODIS workbook just written. */
  lemma ReadBackIsModisWorkbook(date: string)
    ensures ReadBackPath(date) == ModisXlsxPath(date)
  {
    assert ("MODIS_" + date + ".xlsx")[0] == 'M';
  }

  /** The three local files of one run are distinct, so no write overwrites another. */
  lemma LocalFilesDistinct(date: string)
    ensures ModisXlsxPath(date) != ViirsXlsxPath(date)
    ensures ModisXlsxPath(date) != CsvPath(date)
    ensures ViirsXlsxPath(date) != CsvPath(date)
  {
    var m, v := "MODIS_" + date + ".xlsx", "VIIRS_" + date + ".xlsx";
    assert m[0] == 'M' && v[0] == 'V';
    assert ModisXlsxPath(date) == Folder + "/" + m;
    assert ViirsXlsxPath(date) == Folder + "/" + v;
    assert ModisXlsxPath(date)[|Folder| + 1] == 'M';
    assert ViirsXlsxPath(date)[|Folder| + 1] == 'V';
    assert |ModisXlsxPath(date)| == |CsvPath(date)| + 1;
  }

  /** The file the staging step uploads is this run's CSV exactly when the
      date fixed at load time is the date the transform ran with. */
  lemma UploadSourceIsCsv(runDate: string, loadDate: string)
    ensures SourceFileName(loadDate) == CsvPath(runDate) <==> loadDate == runDate
  {
    TemplateInjective("/opt/airflow/dags/GISTDA_Hotspot/MODIS_", ".csv", loadDate, runDate);
  }

  /** The load step reads the object the staging step wrote. */
  lemma LoadReadsStagedObject(date: string)
    ensures GcsFilePath(date) == GcsUri(BucketName, DestinationBlobName(date))
  {
  }

  /** Different dates stage different objects; the same date overwrites. */
  lemma StagedNameDeterminesDate(d1: string, d2: string)
    ensures DestinationBlobName(d1) == DestinationBlobName(d2) <==> d1 == d2
    ensures CsvPath(d1) == CsvPath(d2) <==> d1 == d2
  {
    TemplateInjective("gistda/modis_gistda_hotspot/MODIS_", ".csv", d1, d2);
    TemplateInjective("/opt/airflow/dags/GISTDA_Hotspot/MODIS_", ".csv", d1, d2);
  }
}
