# Cash-operations upload service: verified model

The service (`app.py`) is a single HTTP endpoint. A client posts seven spreadsheet or
CSV files, one per *zone* (LPL Alerts, Schwab Alerts, Eclipse Accounts, Eclipse
Contributions, Orion Query 30842, Practifi PSC Requests, Practifi Cash Requests).
Processing runs in three steps:

1. The service checks each zone's upload in the order the schema registry declares them.
   - The file type comes from the name's suffix, with case ignored.
   - Every column the zone requires must be present.
2. It runs six derivation stages in a fixed order. One of them, "Raise Cash", is
   concrete; the other five are stubs. Their six outputs go into a zip archive.
3. It turns any exception into an error response. A `ValueError` becomes a 400 that
   carries its message. Anything else becomes a 500 with a generic message.

This project models that core in Dafny over an abstract table: an ordered list of
column names plus rows that map column names to optional cells.

The modules, one file each:
- `Tables` (`tables.dfy`): cells, rows, tables, file formats, exceptions, and the
  `Outcome` of a computation that may raise.
- `Seqs` (`seqs.dfy`): a generic order-preserving filter-then-map. It is characterised
  by the positions of the kept elements: in order, each one kept, none missed.
- `Schema` (`schema.dfy`): the registry `EXPECTED` as an ordered list of zones and
  their required columns.
- `Validate` (`validate.dfy`): `read_and_validate`. It covers the suffix dispatch, the
  missing-column comprehension and the error messages.
- `RaiseCashStage` (`raise_cash.dfy`): `process_raise_cash`, written as a
  specification function plus the row loop as a method.
- `Archive` (`archive.dfy`): the in-memory zip archive, as a class whose entry list
  each write extends.
- `Process` (`process.dfy`): `process_all`. It covers the validation loop as a method
  proved against a scan over the zones' verdicts, the stage wiring, the archive
  writes, and the mapping of exceptions to responses.
- `Properties` (`properties.dfy`): the end-to-end promises about the response.

Parameters stand in for what is outside the core:
- The table readers (`pd.read_csv`, `pd.read_excel`) are a `Loader` function. It may
  return a table or raise.
- The five stub stages are a `Stages` record of functions. `SourceStages` is the
  shipped stubs, each returning the empty frame.
- The date string that `process_raise_cash` takes from the clock is a `today`
  parameter.

## Behaviour of the code worth knowing

- The six stages run in the fixed order of `app.py:93-123`. No dependency graph orders them.
- Each zone's upload is looked up and then validated before the next zone is looked at
  (`app.py:83-87`). So the first zone in registry order that is absent *or* invalid
  decides the error, and no later zone is read.
- Duplicate column names in an upload are not rejected.
- The master-accounts stage receives only the dictionary of input tables (`app.py:121`).
- A reader failure is classified by its exception class. A pandas parse error is a
  `ValueError` and gives a 400; any other reader exception gives a 500.
- An upload with an empty file name counts as missing, because `FileStorage` is false
  then (`app.py:85`).
- `pd.DataFrame([])` has no columns. So a Raise Cash result with no kept rows is the
  frame with neither columns nor rows.

## Model

| member | source | states |
|---|---|---|
| Schema.ExpectedDistinct | app.py:10-20 | no zone is declared twice in the registry, so it is a dictionary |
| Schema.ZonePositions | app.py:10-20 | the registry holds exactly the seven zones the stages read, at their declared positions; the cash-requests zone requires the account-number and gross-amount columns |
| Validate.Lower | app.py:24 | lower-casing keeps the name's length and lowers each character in place |
| Validate.DetectFormatSpec | app.py:24-30 | a name is read as CSV exactly when it ends in `.csv` ignoring case; as a spreadsheet exactly when it ends in `.xls` or `.xlsx`; and refused exactly when it ends in none of them |
| Validate.DetectFormatOfSuffix | app.py:25-28 | any name built by appending `.csv`, `.xls` or `.xlsx` is read in that suffix's format |
| Validate.MissingInOrder | app.py:31 | the missing list is the required columns absent from the table: each at its position in the required list, in order, and none left out |
| Validate.MissingMember | app.py:31 | a column is listed as missing exactly when it is required and absent |
| Validate.MissingEmpty | app.py:31-32 | nothing is missing exactly when every required column is among the table's columns |
| Validate.ReprItemsMention | app.py:33 | every item of a rendered list appears, quoted, at some offset of the rendering |
| Validate.MissingMessageNames | app.py:33 | the missing-columns message starts with its prefix, then the file name as sent, and quotes every missing column |
| Validate.ReadAndValidateSpec | app.py:22-34 | an unknown suffix raises the unsupported-type error before any read; a reader exception passes through; validation succeeds exactly when the suffix is known, the read succeeds and every required column is present (extra columns allowed); it then returns the table read unchanged; otherwise the error names the file and the missing list |
| Seqs.FilterMapSnoc | app.py:41-51 | appending an element extends the filtered-and-mapped list by its image exactly when it is kept |
| Seqs.FilterMapSelects | app.py:31 | the filtered-and-mapped list is the images of the kept elements, at increasing positions, with every kept element present |
| Seqs.FilterMapMember | app.py:31 | a value is in the filtered-and-mapped list exactly when it is the image of some kept element |
| RaiseCashStage.ProcessRaiseCash | app.py:37-52 | the row loop returns the Raise Cash specification's result, the `KeyError` for an absent request column included |
| RaiseCashStage.RaiseCashFails | app.py:42-44 | the stage raises exactly when there are rows and a request column is absent, and never with a `ValueError` |
| RaiseCashStage.RaiseCashRecords | app.py:40-51 | the output records correspond, in order, to the input rows with a gross amount, none skipped; there are at most as many records as rows; each record has exactly the four fields, copies the account number and gross amount, has description "Raise Cash" and start date `today` |
| RaiseCashStage.RaiseCashColumns | app.py:52 | the output has the four record columns exactly when some row was kept, and is otherwise the empty frame |
| Archive.ZipWriter.constructor | app.py:90-91 | a new archive has no entries |
| Archive.ZipWriter.WriteStr | app.py:94-95 | writing an entry appends it, with its name, format and table, after those already written |
| Process.ScanCompletes | app.py:83-87 | the validation loop runs to completion exactly when every remaining zone's verdict accepts it |
| Process.ScanTables | app.py:82-87 | a completed loop's dictionary has the zones seen so far plus the remaining ones as keys, each remaining zone bound to its accepted table, earlier entries kept |
| Process.LoadAllValid | app.py:82-87 | the loop completes exactly when every zone is present and validates; `dfs` then has exactly the registry's keys, each bound to the table that passed validation for that zone's columns |
| Process.ScanRefusal | app.py:83-87 | when every zone before the `k`-th is accepted and the `k`-th is refused, the loop ends with the `k`-th zone's error |
| Process.FirstRefusalDecides | app.py:83-87 | the first zone, in registry order, that is absent or fails validation decides the error response |
| Process.FindRefusal | app.py:83-87 | if some verdict from position `i` on is a refusal, there is a first one, with every verdict before it accepted |
| Process.FirstRefusal | app.py:83-87 | a refused zone has a first refused zone at or before it |
| Process.RejectionHasFirstRefusal | app.py:83-87 | a rejected request was rejected by a zone that is refused after all earlier zones were accepted, and with that zone's response |
| Process.ProcessAll | app.py:79-136 | the handler with its early-returning validation loop answers every request with the response the model defines: the first refusal, the stage exception mapped to 400 or 500, or the archive |
| Process.WriteArchive | app.py:89-123 | writing the six stage outputs one after another into the archive gives the stage run's outcome: the six entries in order, or the first stage exception |
| Properties.BundleWiring | app.py:91-123 | a successful run yields exactly six entries with the layout's names and formats, in order, each the output of its stage on the zones the code passes; Rebalances and Contributions receive the Notifications output |
| Properties.NotificationsFailureStopsDependents | app.py:104-121 | when Notifications raises, the run raises its exception whatever the later stages would do |
| Properties.LayoutNamesMatchFormats | app.py:95-123 | each archive entry's name, read by the upload suffix rules, has the format it was written in |
| Properties.LayoutNamesDistinct | app.py:95-123 | no archive entry name is used twice |
| Properties.ResponseStatus | app.py:80-136 | every error response is a 400 or a 500, and a 500 carries only "Internal server error" |
| Properties.StagesDecideResponse | app.py:125-136 | the archive is returned, named `results.zip`, only when every zone validated and the stages all succeeded; a stage `ValueError` gives a 400 with its message, any other stage exception a 500 with the generic message |
| Properties.ShippedStagesSucceed | app.py:54-76 | with the stubs as shipped, a request whose every zone validates gets the archive: the Raise Cash frame, then five empty frames |
| Properties.LaterZonesIgnored | app.py:83-87 | once a zone is refused, the response depends neither on later zones' uploads, nor on what the reader does with their files, nor on the stages, nor on the date |
| Properties.MissingUploadNamesZone | app.py:84-86 | removing one zone's upload from an otherwise valid request gives a 400 naming exactly that zone |
| Properties.UnsupportedFileRejected | app.py:29-30 | an unsupported file in the first zone that fails gives a 400 with the unsupported-type message |
| Properties.MissingColumnsRejected | app.py:31-33 | a table lacking required columns in the first zone that fails gives a 400 naming the file and listing the missing columns in order |

## Left out

- Flask request and response handling (`request.files`, `jsonify`, `send_file`, the route, `app.run`): HTTP plumbing. A request is a map from zone to upload, and a response is a value.
- `request.files.get` when a field carries several files: the model has one upload per zone.
- Parsing by `pd.read_csv` and `pd.read_excel`: a foreign library. It is the `Loader` parameter, which may return a table or raise.
- Serialisation by `to_excel` and `to_csv`, and the zip container bytes: a foreign library. An archive entry keeps the table and its format. An exception raised while serialising is not modelled.
- `datetime.today()` and `strftime`: a clock. The date string is the `today` parameter.
- Floating point: cells are exact reals, and a NaN or absent cell is `None`. So `pd.notna` is `Some?`.
- The stub bodies of the other five stages: the `Stages` parameter. `SourceStages` returns the empty frame each time, as they do.
- The `print` in the 500 handler: logging only.
- Validate.Lower: lowers ASCII letters only. Python's `str.lower` also lowers other Unicode letters. This cannot change which of the three ASCII suffixes a name ends in, except through non-ASCII letters that lower to ASCII ones.
- Validate.Quote: renders a column name in single quotes without escaping. Python's `repr` switches quotes or escapes names that contain quotes or backslashes.
- RaiseCashStage.RaiseCash: the `KeyError` message is modelled as the missing column's name only, without Python's formatting.
