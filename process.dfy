/** The request handler (app.py, `process_all`): validate every zone's upload in
    registry order, run the six derivation stages, collect their outputs in an
    archive, and turn any exception into an error response. */
module Process {
  import opened Tables
  import opened Schema
  import opened Validate
  import opened RaiseCashStage
  import opened Archive

  /** The uploaded files of one request, by form field name. */
  type Request = map<string, Upload>

  /** `f = request.files.get(zone)` followed by `if not f`: an upload counts only
      when it is there and has a file name (an upload without one is false). */
  predicate Present(req: Request, zone: string)
  {
    zone in req && req[zone].filename != ""
  }

  const BadRequest := 400
  const ServerError := 500
  const InternalMessage := "Internal server error"
  const DownloadName := "results.zip"

  datatype Response = Zip(downloadName: string, entries: seq<Entry>) | Error(status: int, message: string)

  function MissingUploadMessage(zone: string): string
  {
    "Missing upload for '" + zone + "'"
  }

  /** The two `except` clauses: a `ValueError` is the client's fault and its message
      is passed on; anything else is a server error with a generic message. */
  function ErrorResponse(e: Exception): Response
  {
    match e
    case ValueError(m) => Error(BadRequest, m)
    case OtherError(_) => Error(ServerError, InternalMessage)
  }

  // ----- step 1: read and validate each upload -----

  datatype Verdict = Accepted(table: Table) | Refused(response: Response)

  /** One turn of the validation loop, for the `k`-th zone of the registry. */
  function Examine(reg: Registry, k: nat, req: Request, load: Loader): Verdict
    requires k < |reg|
  {
    var zone := reg[k].0;
    if !Present(req, zone) then Refused(Error(BadRequest, MissingUploadMessage(zone)))
    else match ReadAndValidate(req[zone], reg[k].1, load)
      case Raised(e) => Refused(ErrorResponse(e))
      case Done(t) => Accepted(t)
  }

  /** The verdict on every zone of the registry, in registry order. */
  function Verdicts(reg: Registry, req: Request, load: Loader): seq<Verdict>
  {
    seq(|reg|, k requires 0 <= k < |reg| => Examine(reg, k, req, load))
  }

  datatype Validated = AllValid(tables: map<string, Table>) | Rejected(response: Response)

  /** The loop from the `i`-th zone on, given the verdicts `vs` on the zones and the
      dictionary `acc` filled so far. */
  function Scan(reg: Registry, vs: seq<Verdict>, i: nat, acc: map<string, Table>): Validated
    requires |vs| == |reg|
    decreases |reg| - i
  {
    if i >= |reg| then AllValid(acc)
    else match vs[i]
      case Refused(r) => Rejected(r)
      case Accepted(t) => Scan(reg, vs, i + 1, acc[reg[i].0 := t])
  }

  /** The whole validation loop, from the first zone and an empty dictionary. */
  function LoadAll(reg: Registry, req: Request, load: Loader): Validated
  {
    Scan(reg, Verdicts(reg, req, load), 0, map[])
  }

  /** The zones the loop has yet to examine from the `i`-th on. */
  ghost function ZonesFrom(reg: Registry, i: nat): set<string>
  {
    set j | i <= j < |reg| :: reg[j].0
  }

  lemma {:induction false} ScanCompletes(reg: Registry, vs: seq<Verdict>, i: nat, acc: map<string, Table>)
    requires |vs| == |reg| && i <= |reg|
    ensures Scan(reg, vs, i, acc).AllValid? <==> forall j :: i <= j < |reg| ==> vs[j].Accepted?
    decreases |reg| - i
  {
    if i < |reg| && vs[i].Accepted? {
      ScanCompletes(reg, vs, i + 1, acc[reg[i].0 := vs[i].table]);
    }
  }

  lemma {:induction false} ScanTables(reg: Registry, vs: seq<Verdict>, i: nat, acc: map<string, Table>)
    requires |vs| == |reg| && i <= |reg| && DistinctZones(reg)
    requires forall j :: i <= j < |reg| ==> vs[j].Accepted?
    ensures Scan(reg, vs, i, acc).AllValid?
    ensures var m := Scan(reg, vs, i, acc).tables;
              && m.Keys == acc.Keys + ZonesFrom(reg, i)
              && (forall j :: i <= j < |reg| ==> m[reg[j].0] == vs[j].table)
              && (forall z :: z in acc && z !in ZonesFrom(reg, i) ==> m[z] == acc[z])
    decreases |reg| - i
  {
    if i < |reg| {
      ScanTables(reg, vs, i + 1, acc[reg[i].0 := vs[i].table]);
      assert ZonesFrom(reg, i) == {reg[i].0} + ZonesFrom(reg, i + 1);
      assert reg[i].0 !in ZonesFrom(reg, i + 1);
    }
  }

  /** The loop completes exactly when every zone is present and valid; the dictionary
      then has exactly the registered zones as keys, each bound to the table that
      passed validation for that zone's columns. */
  lemma LoadAllValid(reg: Registry, req: Request, load: Loader)
    requires DistinctZones(reg)
    ensures LoadAll(reg, req, load).AllValid? <==>
              forall k :: 0 <= k < |reg| ==> Examine(reg, k, req, load).Accepted?
    ensures LoadAll(reg, req, load).AllValid? ==>
              && LoadAll(reg, req, load).tables.Keys == ZoneSet(reg)
              && forall k :: 0 <= k < |reg| ==>
                   && Present(req, reg[k].0)
                   && ReadAndValidate(req[reg[k].0], reg[k].1, load) == Done(LoadAll(reg, req, load).tables[reg[k].0])
  {
    var vs := Verdicts(reg, req, load);
    ScanCompletes(reg, vs, 0, map[]);
    if LoadAll(reg, req, load).AllValid? {
      ScanTables(reg, vs, 0, map[]);
      assert ZonesFrom(reg, 0) == ZoneSet(reg);
    }
  }

  lemma {:induction false} ScanRefusal(reg: Registry, vs: seq<Verdict>, i: nat, k: nat, acc: map<string, Table>)
    requires |vs| == |reg| && i <= k < |reg|
    requires forall j :: i <= j < k ==> vs[j].Accepted?
    requires vs[k].Refused?
    ensures Scan(reg, vs, i, acc) == Rejected(vs[k].response)
    decreases k - i
  {
    if i < k {
      ScanRefusal(reg, vs, i + 1, k, acc[reg[i].0 := vs[i].table]);
    }
  }

  /** Zones are examined in registry order and the first one that is absent or fails
      validation decides the error. */
  lemma FirstRefusalDecides(reg: Registry, req: Request, load: Loader, k: nat)
    requires k < |reg|
    requires forall j :: 0 <= j < k ==> Examine(reg, j, req, load).Accepted?
    requires Examine(reg, k, req, load).Refused?
    ensures LoadAll(reg, req, load) == Rejected(Examine(reg, k, req, load).response)
  {
    ScanRefusal(reg, Verdicts(reg, req, load), 0, k, map[]);
  }

  lemma {:induction false} FindRefusal(vs: seq<Verdict>, i: nat) returns (k: nat)
    requires i <= |vs|
    requires forall j :: 0 <= j < i ==> vs[j].Accepted?
    requires exists j :: i <= j < |vs| && vs[j].Refused?
    ensures i <= k < |vs| && vs[k].Refused?
    ensures forall j :: 0 <= j < k ==> vs[j].Accepted?
    decreases |vs| - i
  {
    if vs[i].Refused? {
      k := i;
    } else {
      k := FindRefusal(vs, i + 1);
    }
  }

  /** A zone that is refused has a first refused zone at or before it. */
  lemma FirstRefusal(reg: Registry, req: Request, load: Loader, k: nat) returns (first: nat)
    requires k < |reg| && Examine(reg, k, req, load).Refused?
    ensures first <= k && Examine(reg, first, req, load).Refused?
    ensures forall j :: 0 <= j < first ==> Examine(reg, j, req, load).Accepted?
  {
    var vs := Verdicts(reg, req, load);
    assert vs[k].Refused?;
    first := FindRefusal(vs, 0);
    forall j | 0 <= j < first
      ensures Examine(reg, j, req, load).Accepted?
    {
      assert vs[j] == Examine(reg, j, req, load);
    }
  }

  /** Conversely, a rejected request was rejected by its first failing zone. */
  lemma RejectionHasFirstRefusal(reg: Registry, req: Request, load: Loader) returns (k: nat)
    requires LoadAll(reg, req, load).Rejected?
    ensures k < |reg|
    ensures forall j :: 0 <= j < k ==> Examine(reg, j, req, load).Accepted?
    ensures Examine(reg, k, req, load) == Refused(LoadAll(reg, req, load).response)
  {
    var vs := Verdicts(reg, req, load);
    ScanCompletes(reg, vs, 0, map[]);
    k := FindRefusal(vs, 0);
    forall j | 0 <= j < k
      ensures Examine(reg, j, req, load).Accepted?
    {
      assert vs[j] == Examine(reg, j, req, load);
    }
    ScanRefusal(reg, vs, 0, k, map[]);
  }

  // ----- step 2: the stages -----

  /** The stage functions the source leaves as stubs; each may return a table or raise. */
  datatype Stages = Stages(
    modelChanges: (Table, Table) -> Outcome<Table>,
    notifications: (Table, Table, Table) -> Outcome<Table>,
    rebalances: (Table, Table) -> Outcome<Table>,
    contributions: (Table, Table) -> Outcome<Table>,
    masterAccounts: map<string, Table> -> Outcome<Table>)

  /** The stubs as shipped: each returns `pd.DataFrame([])`. */
  function SourceStages(): Stages
  {
    Stages((psc, liq) => Done(EmptyFrame),
           (lpl, schwab, accounts) => Done(EmptyFrame),
           (orion, master) => Done(EmptyFrame),
           (contrib, master) => Done(EmptyFrame),
           dfs => Done(EmptyFrame))
  }

  const RaiseCashFile := "Raise_Cash_Requests" + XlsxSuffix
  const ModelChangesFile := "Model_Changes" + XlsxSuffix
  const NotificationsFile := "Notifications" + CsvSuffix
  const RebalancesFile := "Rebalances" + CsvSuffix
  const ContributionsFile := "Contributions" + CsvSuffix
  const MasterAccountsFile := "Master_Account_Numbers" + CsvSuffix

  /** The archive's entry names and formats, in the order they are written. */
  const Layout: seq<(string, FileFormat)> := [
    (RaiseCashFile, Spreadsheet), (ModelChangesFile, Spreadsheet), (NotificationsFile, Csv),
    (RebalancesFile, Csv), (ContributionsFile, Csv), (MasterAccountsFile, Csv)
  ]

  /** The six stages in their fixed order, each output going into the archive; the
      first stage that raises ends the run. */
  function RunStages(dfs: map<string, Table>, stages: Stages, today: string): Outcome<seq<Entry>>
    requires StageInputs <= dfs.Keys
  {
    match RaiseCash(dfs[CashRequests], today)
    case Raised(e) => Raised(e)
    case Done(cash) =>
    match stages.modelChanges(dfs[PscRequests], dfs[OrionQuery])
    case Raised(e) => Raised(e)
    case Done(changes) =>
    match stages.notifications(dfs[LplAlerts], dfs[SchwabAlerts], dfs[EclipseAccounts])
    case Raised(e) => Raised(e)
    case Done(notif) =>
    match stages.rebalances(dfs[OrionQuery], notif)
    case Raised(e) => Raised(e)
    case Done(rebalances) =>
    match stages.contributions(dfs[EclipseContributions], notif)
    case Raised(e) => Raised(e)
    case Done(contributions) =>
    match stages.masterAccounts(dfs)
    case Raised(e) => Raised(e)
    case Done(master) =>
      Done([Entry(RaiseCashFile, Spreadsheet, cash),
            Entry(ModelChangesFile, Spreadsheet, changes),
            Entry(NotificationsFile, Csv, notif),
            Entry(RebalancesFile, Csv, rebalances),
            Entry(ContributionsFile, Csv, contributions),
            Entry(MasterAccountsFile, Csv, master)])
  }

  /** The whole handler: the response for a request. */
  function Respond(req: Request, load: Loader, stages: Stages, today: string): Response
  {
    match LoadAll(Expected, req, load)
    case Rejected(r) => r
    case AllValid(dfs) =>
      ExpectedDistinct();
      LoadAllValid(Expected, req, load);
      ZonePositions();
      match RunStages(dfs, stages, today)
      case Raised(e) => ErrorResponse(e)
      case Done(entries) => Zip(DownloadName, entries)
  }

  /** `process_all`: the validation loop fills `dfs` and may return early; the stages
      then run one after another, each output written into the archive at once. */
  method ProcessAll(req: Request, load: Loader, stages: Stages, today: string) returns (resp: Response)
    ensures resp == Respond(req, load, stages, today)
  {
    var dfs: map<string, Table> := map[];
    var i := 0;
    while i < |Expected|
      invariant 0 <= i <= |Expected|
      invariant LoadAll(Expected, req, load) == Scan(Expected, Verdicts(Expected, req, load), i, dfs)
    {
      var zone, cols := Expected[i].0, Expected[i].1;
      if !Present(req, zone) {
        return Error(BadRequest, MissingUploadMessage(zone));
      }
      var df := ReadAndValidate(req[zone], cols, load);
      if df.Raised? {
        return ErrorResponse(df.exc);
      }
      dfs := dfs[zone := df.value];
      i := i + 1;
    }
    ExpectedDistinct();
    LoadAllValid(Expected, req, load);
    assert LoadAll(Expected, req, load) == AllValid(dfs);
    ZonePositions();
    var written := WriteArchive(dfs, stages, today);
    match written
    case Raised(e) => resp := ErrorResponse(e);
    case Done(entries) => resp := Zip(DownloadName, entries);
  }

  /** The `with zipfile.ZipFile(bio, 'w') as z:` block: the stages run one after
      another and each output is written into the archive at once; an exception
      leaves the block and the archive is dropped. */
  method WriteArchive(dfs: map<string, Table>, stages: Stages, today: string) returns (out: Outcome<seq<Entry>>)
    requires StageInputs <= dfs.Keys
    ensures out == RunStages(dfs, stages, today)
  {
    var z := new ZipWriter();
    var cash := ProcessRaiseCash(dfs[CashRequests], today);
    if cash.Raised? {
      return Raised(cash.exc);
    }
    z.WriteStr(RaiseCashFile, Spreadsheet, cash.value);

    var changes := stages.modelChanges(dfs[PscRequests], dfs[OrionQuery]);
    if changes.Raised? {
      return Raised(changes.exc);
    }
    z.WriteStr(ModelChangesFile, Spreadsheet, changes.value);

    var notif := stages.notifications(dfs[LplAlerts], dfs[SchwabAlerts], dfs[EclipseAccounts]);
    if notif.Raised? {
      return Raised(notif.exc);
    }
    z.WriteStr(NotificationsFile, Csv, notif.value);

    var rebalances := stages.rebalances(dfs[OrionQuery], notif.value);
    if rebalances.Raised? {
      return Raised(rebalances.exc);
    }
    z.WriteStr(RebalancesFile, Csv, rebalances.value);

    var contributions := stages.contributions(dfs[EclipseContributions], notif.value);
    if contributions.Raised? {
      return Raised(contributions.exc);
    }
    z.WriteStr(ContributionsFile, Csv, contributions.value);

    var master := stages.masterAccounts(dfs);
    if master.Raised? {
      return Raised(master.exc);
    }
    z.WriteStr(MasterAccountsFile, Csv, master.value);

    assert z.entries == [Entry(RaiseCashFile, Spreadsheet, cash.value),
                         Entry(ModelChangesFile, Spreadsheet, changes.value),
                         Entry(NotificationsFile, Csv, notif.value),
                         Entry(RebalancesFile, Csv, rebalances.value),
                         Entry(ContributionsFile, Csv, contributions.value),
                         Entry(MasterAccountsFile, Csv, master.value)];
    out := Done(z.entries);
  }
}
