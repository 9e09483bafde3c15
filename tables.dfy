/** The abstract table the service works on: an ordered list of column names
    and a list of rows, each row mapping a column name to an optional cell.
    A cell that pandas reads as NaN, or that is absent, is `None`. */
module Tables {

  datatype Option<+T> = None | Some(value: T)

  /** A cell value. Numbers are exact reals: floating point is not modelled. */
  datatype Value = Text(text: string) | Number(amount: real)

  type Row = map<string, Option<Value>>

  datatype Table = Table(columns: seq<string>, rows: seq<Row>)

  /** What `pd.DataFrame([])` builds: no columns and no rows. */
  const EmptyFrame: Table := Table([], [])

  /** The cell of row `r` under column `c`; an absent key reads as a missing cell. */
  function Cell(r: Row, c: string): Option<Value>
  {
    if c in r then r[c] else None
  }

  /** The two ways a file is read or written: delimited text or a spreadsheet. */
  datatype FileFormat = Csv | Spreadsheet

  /** The exceptions the request handler tells apart: a `ValueError` and anything else. */
  datatype Exception = ValueError(message: string) | OtherError(message: string)

  /** A computation that either returns a value or raises. */
  datatype Outcome<+T> = Done(value: T) | Raised(exc: Exception)
}
