/**
 * Row cleaning in extract_transform: dropping rows whose every cell is
 * empty (`dropna(how='all')`) and dropping footnote rows, those whose
 * HotSpotID cell contains one of a fixed list of Thai report phrases
 * (`str.contains(phrase, na=False)`, one statement per phrase).
 */
module Cleaning {
  import opened Frames
  import opened Text

  /** The column the footnote filter inspects. */
  const HotSpotId := "HotSpotID"

  // The footnote phrases, named after what they begin: "Remark", "Data
  // source", "Hotspot data", "This data report was prepared", "This report is
  // a preliminary summary" and the two longer forms of the last two.
  const Remark := "หมายเหตุ"
  const DataSource := "ที่มาของข้อมูล"
  const HotspotData := "ข้อมูลจุดความร้อน"
  const PreparedFor := "รายงานข้อมูลนี้จัดทำขึ้น"
  const Preliminary := "รายงานนี้เป็นรายงานสรุปเบื้องต้น"
  const PreliminaryFull := Preliminary + " ยังไม่สามารถอ้างอิงเป็นรายงานสุดท้ายได้"
  const PreparedForFull := PreparedFor + "เพื่อ การวางแผน และการเข้าระงับเหตุในพื้นที่"

  /** One entry per filter statement, in the order the job applies them
      (the "Remark" statement is written twice). */
  const FootnotePhrases: seq<string> :=
    [Remark, Remark, DataSource, HotspotData, PreparedFor, Preliminary, PreliminaryFull, PreparedForFull]

  /** The phrases that decide the filter: no entry here contains another. */
  const EssentialPhrases: seq<string> := [Remark, DataSource, HotspotData, PreparedFor, Preliminary]

  predicate MentionsAny(s: string, phrases: seq<string>) {
    exists k :: 0 <= k < |phrases| && Contains(s, phrases[k])
  }

  /** Which rows a filter drops. */
  datatype RowTest =
    | AllEmpty                                  // every cell is a missing value
    | FootnoteAt(col: nat, phrases: seq<string>) // the cell at `col` holds text mentioning a phrase

  predicate Drops(t: RowTest, row: Row) {
    match t
    case AllEmpty => forall j :: 0 <= j < |row| ==> row[j].Empty?
    case FootnoteAt(col, phrases) =>
      // a missing value never matches (`na=False`)
      col < |row| && row[col].Text? && MentionsAny(row[col].text, phrases)
  }

  /** The rows `t` keeps, in their original order. */
  function Filter(rows: seq<Row>, t: RowTest): (r: seq<Row>)
    ensures |r| <= |rows|
  {
    if rows == [] then []
    else (if Drops(t, rows[0]) then [] else [rows[0]]) + Filter(rows[1..], t)
  }

  /** How many rows `t` drops. */
  function CountDropped(rows: seq<Row>, t: RowTest): nat {
    if rows == [] then 0
    else (if Drops(t, rows[0]) then 1 else 0) + CountDropped(rows[1..], t)
  }

  /** A row survives exactly when it was in the input and the test keeps it. */
  lemma {:induction false} FilterMembers(rows: seq<Row>, t: RowTest, row: Row)
    ensures row in Filter(rows, t) <==> row in rows && !Drops(t, row)
  {
    if rows != [] {
      FilterMembers(rows[1..], t, row);
      assert rows == [rows[0]] + rows[1..];
    }
  }

  /** Filter removes exactly the dropped rows: what is left is a subsequence
      of the input that is shorter by the number of dropped rows. */
  lemma {:induction false} FilterExact(rows: seq<Row>, t: RowTest)
    ensures |Filter(rows, t)| + CountDropped(rows, t) == |rows|
    ensures IsSubsequence(Filter(rows, t), rows)
  {
    if rows != [] {
      FilterExact(rows[1..], t);
      var tail := Filter(rows[1..], t);
      var r := Filter(rows, t);
      if !Drops(t, rows[0]) {
        assert r == [rows[0]] + tail;
        assert r != [] && r[0] == rows[0] && r[1..] == tail;
      } else {
        assert r == tail;
      }
    }
  }

  lemma FilterSubset(rows: seq<Row>, t: RowTest)
    ensures forall i :: 0 <= i < |Filter(rows, t)| ==> Filter(rows, t)[i] in rows
  {
    var r := Filter(rows, t);
    forall i | 0 <= i < |r| {
      FilterMembers(rows, t, r[i]);
    }
  }

  /** Filtering a concatenation filters each part: the relative order of the
      surviving rows is kept. */
  lemma {:induction false} FilterAppend(a: seq<Row>, b: seq<Row>, t: RowTest)
    ensures Filter(a + b, t) == Filter(a, t) + Filter(b, t)
  {
    if a == [] {
      assert a + b == b;
    } else {
      assert (a + b)[0] == a[0];
      assert (a + b)[1..] == a[1..] + b;
      FilterAppend(a[1..], b, t);
    }
  }

  /** A filter that drops nothing changes nothing. */
  lemma {:induction false} FilterNoneDropped(rows: seq<Row>, t: RowTest)
    requires forall k :: 0 <= k < |rows| ==> !Drops(t, rows[k])
    ensures Filter(rows, t) == rows
  {
    if rows != [] {
      FilterNoneDropped(rows[1..], t);
    }
  }

  /** Applying a filter a second time changes nothing. */
  lemma FilterIdempotent(rows: seq<Row>, t: RowTest)
    ensures Filter(Filter(rows, t), t) == Filter(rows, t)
  {
    var once := Filter(rows, t);
    forall k | 0 <= k < |once|
      ensures !Drops(t, once[k])
    {
      FilterMembers(rows, t, once[k]);
    }
    FilterNoneDropped(once, t);
  }

  /** A row whose HotSpotID cell is a missing value, or that has no such cell,
      is never taken for a footnote (`na=False`): it survives the filter. */
  lemma MissingHotSpotKept(rows: seq<Row>, col: nat, phrases: seq<string>, row: Row)
    requires row in rows
    requires col >= |row| || row[col].Empty?
    ensures row in Filter(rows, FootnoteAt(col, phrases))
  {
    FilterMembers(rows, FootnoteAt(col, phrases), row);
  }

  /** Two tests that drop the same rows filter alike. */
  lemma {:induction false} FilterSameTest(rows: seq<Row>, t1: RowTest, t2: RowTest)
    requires forall row :: Drops(t1, row) == Drops(t2, row)
    ensures Filter(rows, t1) == Filter(rows, t2)
  {
    if rows != [] {
      FilterSameTest(rows[1..], t1, t2);
    }
  }

  lemma MentionsAnyAppend(s: string, ps: seq<string>, qs: seq<string>)
    ensures MentionsAny(s, ps + qs) <==> MentionsAny(s, ps) || MentionsAny(s, qs)
  {
    if MentionsAny(s, ps + qs) {
      var k :| 0 <= k < |ps + qs| && Contains(s, (ps + qs)[k]);
      if k >= |ps| {
        assert (ps + qs)[k] == qs[k - |ps|];
      }
    }
    if MentionsAny(s, ps) {
      var k :| 0 <= k < |ps| && Contains(s, ps[k]);
      assert (ps + qs)[k] == ps[k];
    }
    if MentionsAny(s, qs) {
      var k :| 0 <= k < |qs| && Contains(s, qs[k]);
      assert (ps + qs)[|ps| + k] == qs[k];
    }
  }

  /** Filtering by `ps` and then by `qs` is filtering once by `ps + qs`. */
  lemma {:induction false} FilterSequential(rows: seq<Row>, col: nat, ps: seq<string>, qs: seq<string>)
    ensures Filter(Filter(rows, FootnoteAt(col, ps)), FootnoteAt(col, qs)) == Filter(rows, FootnoteAt(col, ps + qs))
  {
    if rows != [] {
      FilterSequential(rows[1..], col, ps, qs);
      var row := rows[0];
      if col < |row| && row[col].Text? {
        MentionsAnyAppend(row[col].text, ps, qs);
      }
      var p, q, both := FootnoteAt(col, ps), FootnoteAt(col, qs), FootnoteAt(col, ps + qs);
      var rest := Filter(rows[1..], p);
      if !Drops(p, row) {
        var first := Filter(rows, p);
        assert first == [row] + rest;
        assert first[0] == row && first[1..] == rest;
        assert Drops(both, row) == Drops(q, row);
        assert Filter(first, q) == (if Drops(q, row) then [] else [row]) + Filter(rest, q);
      } else {
        assert Filter(rows, p) == rest;
        assert Drops(both, row);
      }
    }
  }

  /** The two long phrases begin with shorter ones that are also filtered. */
  lemma LongPhrasesContainShort()
    ensures Contains(PreliminaryFull, Preliminary)
    ensures Contains(PreparedForFull, PreparedFor)
  {
    assert Preliminary <= PreliminaryFull;
    assert PreparedFor <= PreparedForFull;
  }

  /** The redundant entries change nothing: a text mentions one of the eight
      phrases exactly when it mentions one of the five essential ones. Entry 2
      repeats entry 1; entry 7 begins with entry 6 and entry 8 with entry 5. */
  lemma EssentialPhrasesSuffice(s: string)
    ensures MentionsAny(s, FootnotePhrases) <==> MentionsAny(s, EssentialPhrases)
  {
    var all, essential := FootnotePhrases, EssentialPhrases;
    assert all == [essential[0]] + essential + [PreliminaryFull, PreparedForFull];
    if MentionsAny(s, all) {
      var k :| 0 <= k < |all| && Contains(s, all[k]);
      if k == 6 {
        LongPhrasesContainShort();
        ContainsTransitive(s, PreliminaryFull, Preliminary);
        assert Contains(s, essential[4]);
      } else if k == 7 {
        LongPhrasesContainShort();
        ContainsTransitive(s, PreparedForFull, PreparedFor);
        assert Contains(s, essential[3]);
      } else {
        assert Contains(s, essential[if k == 0 then 0 else k - 1]);
      }
    }
    if MentionsAny(s, essential) {
      var k :| 0 <= k < |essential| && Contains(s, essential[k]);
      assert Contains(s, all[k + 1]);
    }
  }

  /** An all-empty row is never a footnote row, so the two filters drop
      disjoint sets of rows and the second counts the same before or after the first. */
  lemma {:induction false} EmptyRowsAreNotFootnotes(rows: seq<Row>, col: nat, phrases: seq<string>)
    ensures CountDropped(Filter(rows, AllEmpty), FootnoteAt(col, phrases)) == CountDropped(rows, FootnoteAt(col, phrases))
  {
    if rows != [] {
      EmptyRowsAreNotFootnotes(rows[1..], col, phrases);
      var row := rows[0];
      if Drops(AllEmpty, row) {
        assert col < |row| ==> row[col].Empty?;
        assert !Drops(FootnoteAt(col, phrases), row);
        assert Filter(rows, AllEmpty) == Filter(rows[1..], AllEmpty);
      } else {
        var kept := Filter(rows, AllEmpty);
        assert kept == [row] + Filter(rows[1..], AllEmpty);
        assert kept[1..] == Filter(rows[1..], AllEmpty);
      }
    }
  }

  /** `dropna(how='all')`. */
  function DropEmptyRows(f: Frame): (r: Frame)
    ensures r.header == f.header
    ensures f.Rectangular() ==> r.Rectangular()
  {
    FilterSubset(f.rows, AllEmpty);
    Frame(f.header, Filter(f.rows, AllEmpty))
  }

  /** Whether the reader gives column `col` a string dtype. pandas infers a
      column's dtype when it reads the sheet: a column whose every value is
      missing reads as floats, one with a text value reads as strings, and a
      sheet without rows reads its columns as strings. Selecting rows keeps
      the dtype. */
  predicate ReadsAsText(f: Frame, col: nat) {
    |f.rows| == 0 || exists i :: 0 <= i < |f.rows| && col < |f.rows[i]| && f.rows[i][col].Text?
  }

  /** The HotSpotID column, if there is one, has a string dtype in the sheet as read. */
  predicate HotSpotIdReadsAsText(sheet: Frame) {
    match IndexOf(sheet.header, HotSpotId)
    case None => true
    case Some(c) => ReadsAsText(sheet, c)
  }

  /** `df[~df['HotSpotID'].str.contains(p, na=False)]` for every `p` in
      `phrases` at once. `textual` is the dtype of the HotSpotID column, fixed
      when the sheet was read. A missing column is a KeyError; a column
      without a string dtype has no `.str` methods (an AttributeError). */
  function DropFootnotes(f: Frame, phrases: seq<string>, textual: bool): (r: Result<Frame>)
    ensures r.Err? <==> HotSpotId !in f.header || !textual
    ensures HotSpotId !in f.header ==> r == Err(MissingColumn(HotSpotId))
    ensures HotSpotId in f.header && !textual ==> r == Err(NotText(HotSpotId))
    ensures r.Ok? ==> r.value.header == f.header
    ensures r.Ok? && f.Rectangular() ==> r.value.Rectangular()
  {
    match IndexOf(f.header, HotSpotId)
    case None => Err(MissingColumn(HotSpotId))
    case Some(c) =>
      if !textual then Err(NotText(HotSpotId))
      else
        FilterSubset(f.rows, FootnoteAt(c, phrases));
        Ok(Frame(f.header, Filter(f.rows, FootnoteAt(c, phrases))))
  }

  /** On a table: the eight statements drop what the five essential phrases
      drop, and running the filter again drops nothing more. */
  lemma FootnoteFilterRedundancy(f: Frame, textual: bool)
    ensures DropFootnotes(f, FootnotePhrases, textual) == DropFootnotes(f, EssentialPhrases, textual)
    ensures DropFootnotes(f, FootnotePhrases, textual).Ok? ==>
      DropFootnotes(DropFootnotes(f, FootnotePhrases, textual).value, FootnotePhrases, textual)
        == DropFootnotes(f, FootnotePhrases, textual)
  {
    if HotSpotId in f.header && textual {
      var c := IndexOf(f.header, HotSpotId).value;
      forall row: Row ensures Drops(FootnoteAt(c, FootnotePhrases), row) == Drops(FootnoteAt(c, EssentialPhrases), row) {
        if c < |row| && row[c].Text? {
          EssentialPhrasesSuffice(row[c].text);
        }
      }
      FilterSameTest(f.rows, FootnoteAt(c, FootnotePhrases), FootnoteAt(c, EssentialPhrases));
      FilterIdempotent(f.rows, FootnoteAt(c, FootnotePhrases));
    }
  }

  /** One filter statement, for the single phrase `phrase`. */
  function DropFootnote(f: Frame, phrase: string, textual: bool): (r: Result<Frame>) {
    DropFootnotes(f, [phrase], textual)
  }

  /** The chain of filter statements: one per entry of `phrases`, applied one
      after another, each re-selecting the HotSpotID column, whose dtype the
      selections keep. It drops what the single "mentions any phrase" filter
      drops, and fails as that filter does. The job runs it with FootnotePhrases. */
  method DropFootnoteRows(f: Frame, phrases: seq<string>, textual: bool) returns (r: Result<Frame>)
    ensures r == DropFootnotes(f, phrases, textual)
  {
    var t := f;
    if HotSpotId in f.header {
      FilterNoneDropped(f.rows, FootnoteAt(IndexOf(f.header, HotSpotId).value, phrases[..0]));
    }
    for i := 0 to |phrases|
      invariant t.header == f.header
      invariant HotSpotId in f.header ==> t.rows == Filter(f.rows, FootnoteAt(IndexOf(f.header, HotSpotId).value, phrases[..i]))
    {
      var step := DropFootnote(t, phrases[i], textual);
      if step.Err? {
        return step;
      }
      var c := IndexOf(f.header, HotSpotId).value;
      FilterSequential(f.rows, c, phrases[..i], [phrases[i]]);
      assert phrases[..i] + [phrases[i]] == phrases[..i + 1];
      t := step.value;
    }
    if HotSpotId !in f.header {
      return Err(MissingColumn(HotSpotId));
    }
    if !textual {
      return Err(NotText(HotSpotId));
    }
    assert phrases[..|phrases|] == phrases;
    return Ok(t);
  }

  /** All-empty rows carry no text, so dropping them keeps a text value of
      any column: a table whose HotSpotID column was read as text still has
      a text HotSpotID cell afterwards, unless it has no rows left. */
  lemma {:induction false} DropEmptyRowsKeepsText(rows: seq<Row>, col: nat)
    requires exists i :: 0 <= i < |rows| && col < |rows[i]| && rows[i][col].Text?
    ensures exists i :: 0 <= i < |Filter(rows, AllEmpty)| && col < |Filter(rows, AllEmpty)[i]| && Filter(rows, AllEmpty)[i][col].Text?
  {
    var i :| 0 <= i < |rows| && col < |rows[i]| && rows[i][col].Text?;
    assert !Drops(AllEmpty, rows[i]);
    FilterMembers(rows, AllEmpty, rows[i]);
    var kept := Filter(rows, AllEmpty);
    var k :| 0 <= k < |kept| && kept[k] == rows[i];
    assert col < |kept[k]| && kept[k][col].Text?;
  }
}
