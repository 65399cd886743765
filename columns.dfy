/**
 * Column handling in extract_transform: the static table that translates
 * the Thai headers into names the warehouse accepts, and the constant
 * Sensor column that labels each table with the instrument it came from.
 */
module Columns {
  import opened Frames

  /** The header translation table. Warehouse column names may not hold
      "(", ")" or ".", so "(km)" and the reader's ".1" suffix become "_km", "_1". */
  const TranslatedColumns: map<string, string> := map[
    "วันที่" := "Date",
    "จังหวัด" := "Province",
    "อำเภอ" := "District",
    "ตำบล" := "Subdistrict",
    "ประเทศ" := "Country",
    "รหัสรับผิดชอบ" := "Responsibility_Code",
    "พื้นที่รับผิดชอบ" := "Responsible_Area",
    "รหัสการใช้ที่ดิน" := "Land_Use_Code",
    "การใช้ที่ดิน" := "Land_Use",
    "จุดใกล้หมู่บ้าน" := "Near_Village_Point",
    "ห่างหมู่บ้าน(กม)" := "Distance_from_Village_km",
    "องศาจากหมู่บ้าน" := "Degree_from_Village",
    "ทิศจากหมู่บ้าน" := "Direction_from_Village",
    "ตำบล.1" := "Subdistrict_1",
    "อำเภอ.1" := "District_1",
    "จังหวัด.1" := "Province_1",
    "วัน" := "Day",
    "เวลา" := "Time"
  ]

  /** The table read backwards: each warehouse name to the Thai header it
      replaces. */
  const UntranslatedColumns: map<string, string> := map[
    "Date" := "วันที่",
    "Province" := "จังหวัด",
    "District" := "อำเภอ",
    "Subdistrict" := "ตำบล",
    "Country" := "ประเทศ",
    "Responsibility_Code" := "รหัสรับผิดชอบ",
    "Responsible_Area" := "พื้นที่รับผิดชอบ",
    "Land_Use_Code" := "รหัสการใช้ที่ดิน",
    "Land_Use" := "การใช้ที่ดิน",
    "Near_Village_Point" := "จุดใกล้หมู่บ้าน",
    "Distance_from_Village_km" := "ห่างหมู่บ้าน(กม)",
    "Degree_from_Village" := "องศาจากหมู่บ้าน",
    "Direction_from_Village" := "ทิศจากหมู่บ้าน",
    "Subdistrict_1" := "ตำบล.1",
    "District_1" := "อำเภอ.1",
    "Province_1" := "จังหวัด.1",
    "Day" := "วัน",
    "Time" := "เวลา"
  ]

  const SensorColumn := "Sensor"
  const Modis := "MODIS"
  const Viirs := "VIIRS"

  function Translate(table: map<string, string>, h: string): string {
    if h in table then table[h] else h
  }

  /** `df.rename(columns=table)` on the header list: a key of the table becomes
      its value, every other header is kept; the column count and order stay. */
  function Rename(header: seq<string>, table: map<string, string>): (r: seq<string>)
    ensures |r| == |header|
    ensures forall i :: 0 <= i < |header| && header[i] in table ==> r[i] == table[header[i]]
    ensures forall i :: 0 <= i < |header| && header[i] !in table ==> r[i] == header[i]
  {
    if header == [] then [] else [Translate(table, header[0])] + Rename(header[1..], table)
  }

  /** The rename on a whole table: only the header changes. */
  function RenameColumns(f: Frame, table: map<string, string>): (r: Frame)
    ensures r.rows == f.rows && |r.header| == |f.header|
    ensures f.Rectangular() ==> r.Rectangular()
  {
    Frame(Rename(f.header, table), f.rows)
  }

  /** A table whose targets are never keys renames nothing twice. */
  lemma RenameIdempotent(header: seq<string>, table: map<string, string>)
    requires forall k :: k in table ==> table[k] !in table
    ensures Rename(Rename(header, table), table) == Rename(header, table)
  {
  }

  predicate Injective(table: map<string, string>) {
    forall a, b :: a in table && b in table && a != b ==> table[a] != table[b]
  }

  /** An injective table keeps distinct headers distinct, provided no header
      already carries one of the target names. */
  lemma RenameKeepsDistinct(header: seq<string>, table: map<string, string>)
    requires Injective(table)
    requires Distinct(header)
    requires forall i :: 0 <= i < |header| ==> header[i] !in table.Values
    ensures Distinct(Rename(header, table))
  {
    var r := Rename(header, table);
    forall i, j | 0 <= i < j < |r|
      ensures r[i] != r[j]
    {
      var a, b := header[i], header[j];
      if a in table && b !in table {
        assert r[i] in table.Values;
      } else if a !in table && b in table {
        assert r[j] in table.Values;
      }
    }
  }

  /** A name the warehouse accepts: ASCII letters, digits and underscores,
      not starting with a digit. */
  predicate IsWarehouseName(s: string) {
    && |s| > 0
    && !('0' <= s[0] <= '9')
    && forall k :: 0 <= k < |s| ==> ('a' <= s[k] <= 'z' || 'A' <= s[k] <= 'Z' || '0' <= s[k] <= '9' || s[k] == '_')
  }

  /** Facts about the table itself: every translation can be undone, so it is
      injective; no target is a key; every target is a valid warehouse column name. */
  lemma TranslationRoundTrip()
    ensures forall h :: h in TranslatedColumns ==>
      TranslatedColumns[h] in UntranslatedColumns && UntranslatedColumns[TranslatedColumns[h]] == h
  {
  }

  lemma TranslatedInjective()
    ensures Injective(TranslatedColumns)
  {
    TranslationRoundTrip();
  }

  lemma TranslatedTargetsNotKeys()
    ensures forall k :: k in TranslatedColumns ==> TranslatedColumns[k] !in TranslatedColumns
  {
  }
  lemma TargetNamesValid1()
    ensures IsWarehouseName("Date")
    ensures IsWarehouseName("Province")
    ensures IsWarehouseName("District")
  {
  }

  lemma TargetNamesValid2()
    ensures IsWarehouseName("Subdistrict")
    ensures IsWarehouseName("Country")
    ensures IsWarehouseName("Responsibility_Code")
  {
  }

  lemma TargetNamesValid3()
    ensures IsWarehouseName("Responsible_Area")
    ensures IsWarehouseName("Land_Use_Code")
    ensures IsWarehouseName("Land_Use")
  {
  }

  lemma TargetNamesValid4()
    ensures IsWarehouseName("Near_Village_Point")
    ensures IsWarehouseName("Distance_from_Village_km")
    ensures IsWarehouseName("Degree_from_Village")
  {
  }

  lemma TargetNamesValid5()
    ensures IsWarehouseName("Direction_from_Village")
    ensures IsWarehouseName("Subdistrict_1")
    ensures IsWarehouseName("District_1")
  {
  }

  lemma TargetNamesValid6()
    ensures IsWarehouseName("Province_1")
    ensures IsWarehouseName("Day")
    ensures IsWarehouseName("Time")
  {
  }

  lemma TranslatedTargetsValid()
    ensures forall k :: k in TranslatedColumns ==> IsWarehouseName(TranslatedColumns[k])
  {
    TargetNamesValid1(); TargetNamesValid2(); TargetNamesValid3();
    TargetNamesValid4(); TargetNamesValid5(); TargetNamesValid6();
  }
  lemma TranslatedColumnsWellFormed()
    ensures Injective(TranslatedColumns)
    ensures forall k :: k in TranslatedColumns ==> TranslatedColumns[k] !in TranslatedColumns
    ensures forall k :: k in TranslatedColumns ==> IsWarehouseName(TranslatedColumns[k])
  {
    TranslatedInjective();
    TranslatedTargetsNotKeys();
    TranslatedTargetsValid();
  }

  /** Renaming with the table is idempotent. */
  lemma TranslationIdempotent(header: seq<string>)
    ensures Rename(Rename(header, TranslatedColumns), TranslatedColumns) == Rename(header, TranslatedColumns)
  {
    TranslatedColumnsWellFormed();
    RenameIdempotent(header, TranslatedColumns);
  }

  /** A rename is undone by renaming with an inverse table, provided no
      header is already one of the inverse's keys. */
  lemma RenameInverse(header: seq<string>, table: map<string, string>, back: map<string, string>)
    requires forall h :: h in table ==> table[h] in back && back[table[h]] == h
    requires forall i :: 0 <= i < |header| ==> header[i] !in back
    ensures Rename(Rename(header, table), back) == header
  {
    var r := Rename(Rename(header, table), back);
    forall i | 0 <= i < |header|
      ensures r[i] == header[i]
    {
    }
  }

  /** `df[name] = value`: every column called `name` is overwritten with the
      constant; when there is none, a column is appended at the end. */
  function SetColumn(f: Frame, name: string, value: string): (r: Frame)
    requires f.Rectangular()
    ensures r.Rectangular()
    ensures |r.rows| == |f.rows|
    ensures name in r.header
    ensures name in f.header ==> r.header == f.header
    ensures name !in f.header ==> r.header == f.header + [name]
    ensures forall i, j :: 0 <= i < |r.rows| && 0 <= j < |r.header| && r.header[j] == name ==> r.rows[i][j] == Text(value)
    ensures forall i, j :: 0 <= i < |f.rows| && 0 <= j < |f.header| && f.header[j] != name ==> r.rows[i][j] == f.rows[i][j]
  {
    var rows := f.rows;
    if name in f.header then
      var r := Frame(f.header, seq(|rows|, i requires 0 <= i < |rows| => Overwrite(rows[i], f.header, name, value)));
      assert forall row :: row in r.rows ==> |row| == |r.header|;
      r
    else
      Frame(f.header + [name], seq(|rows|, i requires 0 <= i < |rows| => rows[i] + [Text(value)]))
  }

  function Overwrite(row: Row, header: seq<string>, name: string, value: string): (r: Row)
    requires |row| == |header|
    ensures |r| == |row|
  {
    seq(|row|, j requires 0 <= j < |row| => if header[j] == name then Text(value) else row[j])
  }

  /** Every row of `f` holds `sensor` in every Sensor column, and there is one. */
  predicate TaggedWith(f: Frame, sensor: string) {
    && SensorColumn in f.header
    && forall i, j :: 0 <= i < |f.rows| && 0 <= j < |f.header| && j < |f.rows[i]| && f.header[j] == SensorColumn ==> f.rows[i][j] == Text(sensor)
  }

  /** `df['Sensor'] = sensor`. */
  function Tag(f: Frame, sensor: string): (r: Frame)
    requires f.Rectangular()
    ensures r.Rectangular() && TaggedWith(r, sensor)
    ensures |r.rows| == |f.rows|
  {
    SetColumn(f, SensorColumn, sensor)
  }
}
