/** The one concrete derivation stage: the "Raise Cash" requests
    (app.py, `process_raise_cash`). */
module RaiseCashStage {
  import opened Tables
  import opened Seqs
  import opened Schema

  const OutAccount := "Account Number"
  const OutSetAside := "Set Aside Amount"
  const OutDescription := "Description"
  const OutStartDate := "Start Date"

  /** The columns of the output frame, in the order its records' keys are written. */
  const CashColumns: seq<string> := [OutAccount, OutSetAside, OutDescription, OutStartDate]

  const RaiseCashLabel := "Raise Cash"

  /** `pd.notna(gross)`: the gross amount requested is present. */
  predicate HasGross(r: Row)
  {
    Cell(r, GrossAmountCol).Some?
  }

  /** The output record built from one request row; `today` is the date string
      computed once for the whole frame. */
  function CashRecord(today: string, r: Row): Row
  {
    map[OutAccount := Cell(r, AccountNumberCol),
        OutSetAside := Cell(r, GrossAmountCol),
        OutDescription := Some(Text(RaiseCashLabel)),
        OutStartDate := Some(Text(today))]
  }

  function RecordFor(today: string): Row -> Row
  {
    r => CashRecord(today, r)
  }

  /** `pd.DataFrame(records)` for records that share one key list: an empty list
      of records gives a frame without columns. */
  function FrameOf(columns: seq<string>, records: seq<Row>): Table
  {
    if records == [] then EmptyFrame else Table(columns, records)
  }

  /** What `process_raise_cash` returns. Reading a column the frame lacks raises a
      `KeyError`, which happens only once there is a row to read. */
  function RaiseCash(df: Table, today: string): Outcome<Table>
  {
    if |df.rows| > 0 && AccountNumberCol !in df.columns then Raised(OtherError(AccountNumberCol))
    else if |df.rows| > 0 && GrossAmountCol !in df.columns then Raised(OtherError(GrossAmountCol))
    else Done(FrameOf(CashColumns, FilterMap(df.rows, HasGross, RecordFor(today))))
  }

  /** The row loop of `process_raise_cash`. */
  method ProcessRaiseCash(df: Table, today: string) returns (out: Outcome<Table>)
    ensures out == RaiseCash(df, today)
  {
    var rows: seq<Row> := [];
    var i := 0;
    while i < |df.rows|
      invariant 0 <= i <= |df.rows|
      invariant i > 0 ==> AccountNumberCol in df.columns && GrossAmountCol in df.columns
      invariant rows == FilterMap(df.rows[..i], HasGross, RecordFor(today))
    {
      if AccountNumberCol !in df.columns {
        return Raised(OtherError(AccountNumberCol));
      }
      if GrossAmountCol !in df.columns {
        return Raised(OtherError(GrossAmountCol));
      }
      var r := df.rows[i];
      var gross := Cell(r, GrossAmountCol);
      FilterMapSnoc(df.rows[..i], r, HasGross, RecordFor(today));
      assert df.rows[..i + 1] == df.rows[..i] + [r];
      if gross.Some? {
        rows := rows + [CashRecord(today, r)];
      }
      i := i + 1;
    }
    assert df.rows[..i] == df.rows;
    out := Done(FrameOf(CashColumns, rows));
  }

  /** The stage raises only when there are rows and a request column is absent, and
      then never a `ValueError`. */
  lemma RaiseCashFails(df: Table, today: string)
    ensures RaiseCash(df, today).Raised? <==>
              |df.rows| > 0 && (AccountNumberCol !in df.columns || GrossAmountCol !in df.columns)
    ensures RaiseCash(df, today).Raised? ==> RaiseCash(df, today).exc.OtherError?
  {
  }

  /** The output rows correspond, in order, to the input rows whose gross amount is
      present (`idx` gives their positions), skipping the others; each copies the
      account number and the gross amount, and carries the label and today's date. */
  lemma RaiseCashRecords(df: Table, today: string) returns (idx: seq<nat>)
    requires RaiseCash(df, today).Done?
    ensures var out := RaiseCash(df, today).value.rows;
      && |out| == |idx| <= |df.rows|
      && (forall k :: 0 <= k < |idx| ==>
            && idx[k] < |df.rows|
            && HasGross(df.rows[idx[k]])
            && out[k].Keys == {OutAccount, OutSetAside, OutDescription, OutStartDate}
            && out[k][OutAccount] == Cell(df.rows[idx[k]], AccountNumberCol)
            && out[k][OutSetAside] == Cell(df.rows[idx[k]], GrossAmountCol)
            && out[k][OutSetAside].Some?
            && out[k][OutDescription] == Some(Text(RaiseCashLabel))
            && out[k][OutStartDate] == Some(Text(today)))
      && (forall k, l :: 0 <= k < l < |idx| ==> idx[k] < idx[l])
      && (forall i :: 0 <= i < |df.rows| && HasGross(df.rows[i]) ==> exists k :: 0 <= k < |idx| && idx[k] == i)
  {
    idx := FilterMapSelects(df.rows, HasGross, RecordFor(today));
    var kept := FilterMap(df.rows, HasGross, RecordFor(today));
    assert RaiseCash(df, today).value.rows == kept;
    assert Sound(df.rows, HasGross, RecordFor(today), kept, idx);
    assert Complete(df.rows, HasGross, idx);
    forall i | 0 <= i < |df.rows| && HasGross(df.rows[i])
      ensures exists k :: 0 <= k < |idx| && idx[k] == i
    {
    }
  }

  /** The output frame has the four record columns when some row was kept, and no
      columns at all otherwise. */
  lemma RaiseCashColumns(df: Table, today: string)
    requires RaiseCash(df, today).Done?
    ensures RaiseCash(df, today).value.columns == CashColumns <==>
              exists i :: 0 <= i < |df.rows| && HasGross(df.rows[i])
    ensures RaiseCash(df, today).value.columns != CashColumns ==> RaiseCash(df, today).value == EmptyFrame
  {
    var idx := RaiseCashRecords(df, today);
    var out := RaiseCash(df, today).value;
    if exists i :: 0 <= i < |df.rows| && HasGross(df.rows[i]) {
      var i :| 0 <= i < |df.rows| && HasGross(df.rows[i]);
      assert exists k :: 0 <= k < |idx| && idx[k] == i;
    }
    if out.rows != [] {
      assert HasGross(df.rows[idx[0]]);
    }
  }
}
