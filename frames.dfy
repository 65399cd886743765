/**
 * The data model of one hotspot report: a header list plus rows of cells, as
 * the spreadsheet reader hands them to the transform step. A cell is either
 * empty (a missing value) or holds text.
 */
module Frames {

  datatype Option<T> = None | Some(value: T)

  /** Why a step of the transform fails (each is an uncaught exception in the job). */
  datatype Error =
    | NotAWorkbook                // the downloaded body cannot be parsed
    | MissingSheet(sheet: string) // the workbook has no sheet of that name
    | MissingColumn(name: string) // the table has no column of that name
    | NotText(name: string)       // the column holds no strings, so it has no `.str` methods
    | MissingFile(path: string)   // a local file that is read back does not exist

  datatype Result<T> = Ok(value: T) | Err(error: Error)

  datatype Cell = Empty | Text(text: string)

  type Row = seq<Cell>

  datatype Frame = Frame(header: seq<string>, rows: seq<Row>) {

    /** Every row has exactly one cell per column. */
    predicate Rectangular() {
      forall i :: 0 <= i < |rows| ==> |rows[i]| == |header|
    }
  }

  predicate Distinct(names: seq<string>) {
    forall i, j :: 0 <= i < j < |names| ==> names[i] != names[j]
  }

  /** A table as the spreadsheet reader returns it: rectangular, and with
      distinct headers (a repeated header comes back suffixed ".1", ".2", ...). */
  type Sheet = f: Frame | f.Rectangular() && Distinct(f.header) witness Frame([], [])

  /** The position of the first column called `name`, if any. */
  function IndexOf(header: seq<string>, name: string): (r: Option<nat>)
    ensures r.None? <==> name !in header
    ensures r.Some? ==> r.value < |header| && header[r.value] == name
    ensures r.Some? ==> forall j :: 0 <= j < r.value ==> header[j] != name
  {
    if header == [] then None
    else if header[0] == name then Some(0)
    else match IndexOf(header[1..], name)
      case None => None
      case Some(i) => Some(i + 1)
  }

  /** `a` is `b` with some elements left out, the rest in their original order. */
  predicate IsSubsequence<T(==)>(a: seq<T>, b: seq<T>)
    decreases |b|
  {
    if b == [] then a == []
    else IsSubsequence(a, b[1..]) || (a != [] && a[0] == b[0] && IsSubsequence(a[1..], b[1..]))
  }
}
