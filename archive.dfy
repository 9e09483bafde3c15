/** The in-memory archive the results are written into (app.py, the `bio`
    buffer and the `zipfile.ZipFile` on it). An entry keeps the table and the
    format it is serialised in instead of the bytes. */
module Archive {
  import opened Tables

  datatype Entry = Entry(name: string, format: FileFormat, table: Table)

  class ZipWriter {
    /** The entries written so far, in order. */
    var entries: seq<Entry>

    constructor ()
      ensures entries == []
    {
      entries := [];
    }

    /** `z.writestr(name, buf.getvalue())` after `to_csv` or `to_excel` into `buf`. */
    method WriteStr(name: string, format: FileFormat, table: Table)
      modifies this
      ensures entries == old(entries) + [Entry(name, format, table)]
    {
      entries := entries + [Entry(name, format, table)];
    }
  }
}
