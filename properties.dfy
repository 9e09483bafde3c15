/** What the handler promises about its response, stated over the model in
    the Process module. */
module Properties {
  import opened Tables
  import opened Schema
  import opened Validate
  import opened RaiseCashStage
  import opened Archive
  import opened Process

  /** On success the archive holds six entries, named and formatted as the layout says,
      in order; each is the output of its stage, and the Rebalances and Contributions
      stages are given the Notifications output. */
  lemma BundleWiring(dfs: map<string, Table>, stages: Stages, today: string)
    requires StageInputs <= dfs.Keys
    requires RunStages(dfs, stages, today).Done?
    ensures var es := RunStages(dfs, stages, today).value;
      && |es| == |Layout|
      && (forall i :: 0 <= i < |es| ==> es[i].name == Layout[i].0 && es[i].format == Layout[i].1)
      && RaiseCash(dfs[CashRequests], today) == Done(es[0].table)
      && stages.modelChanges(dfs[PscRequests], dfs[OrionQuery]) == Done(es[1].table)
      && stages.notifications(dfs[LplAlerts], dfs[SchwabAlerts], dfs[EclipseAccounts]) == Done(es[2].table)
      && stages.rebalances(dfs[OrionQuery], es[2].table) == Done(es[3].table)
      && stages.contributions(dfs[EclipseContributions], es[2].table) == Done(es[4].table)
      && stages.masterAccounts(dfs) == Done(es[5].table)
  {
  }

  /** When the Notifications stage raises, its exception is the result, whatever the
      stages after it (the two that consume its output and Master Accounts) would do. */
  lemma NotificationsFailureStopsDependents(dfs: map<string, Table>, s1: Stages, s2: Stages, today: string)
    requires StageInputs <= dfs.Keys
    requires s1.modelChanges == s2.modelChanges && s1.notifications == s2.notifications
    requires RaiseCash(dfs[CashRequests], today).Done?
    requires s1.modelChanges(dfs[PscRequests], dfs[OrionQuery]).Done?
    requires s1.notifications(dfs[LplAlerts], dfs[SchwabAlerts], dfs[EclipseAccounts]).Raised?
    ensures RunStages(dfs, s1, today) == RunStages(dfs, s2, today) ==
              Raised(s1.notifications(dfs[LplAlerts], dfs[SchwabAlerts], dfs[EclipseAccounts]).exc)
  {
  }

  /** Every entry name in the archive, read back by the upload rules, has the format it
      was written in. */
  lemma LayoutNamesMatchFormats(i: nat)
    requires i < |Layout|
    ensures DetectFormat(Layout[i].0) == Some(Layout[i].1)
  {
    if i == 0 {
      DetectFormatOfSuffix("Raise_Cash_Requests", XlsxSuffix);
    } else if i == 1 {
      DetectFormatOfSuffix("Model_Changes", XlsxSuffix);
    } else if i == 2 {
      DetectFormatOfSuffix("Notifications", CsvSuffix);
    } else if i == 3 {
      DetectFormatOfSuffix("Rebalances", CsvSuffix);
    } else if i == 4 {
      DetectFormatOfSuffix("Contributions", CsvSuffix);
    } else {
      DetectFormatOfSuffix("Master_Account_Numbers", CsvSuffix);
    }
  }

  /** No entry name is used twice. */
  lemma LayoutNamesDistinct()
    ensures forall i, j :: 0 <= i < j < |Layout| ==> Layout[i].0 != Layout[j].0
  {
    assert |RaiseCashFile| == 24 && |ModelChangesFile| == 18 && |NotificationsFile| == 17;
    assert |RebalancesFile| == 14 && |ContributionsFile| == 17 && |MasterAccountsFile| == 26;
    assert NotificationsFile[0] == 'N' && ContributionsFile[0] == 'C';
  }

  /** Every error response is a 400 or a 500, and a 500 never carries detail. A
      `ValueError` from the stages becomes a 400 with its message, any other exception
      a 500 with the generic message; no archive is returned in either case. */
  lemma ResponseStatus(req: Request, load: Loader, stages: Stages, today: string)
    ensures Respond(req, load, stages, today).Error? ==>
              Respond(req, load, stages, today).status in {BadRequest, ServerError}
    ensures Respond(req, load, stages, today).Error? && Respond(req, load, stages, today).status == ServerError ==>
              Respond(req, load, stages, today).message == InternalMessage
  {
    if LoadAll(Expected, req, load).Rejected? {
      var k := RejectionHasFirstRefusal(Expected, req, load);
    }
  }

  /** Once every zone validates, the stages decide the response: the archive when they
      all succeed, otherwise the status and message of the first exception. */
  lemma StagesDecideResponse(req: Request, load: Loader, stages: Stages, today: string)
    ensures Respond(req, load, stages, today).Zip? ==>
              && Respond(req, load, stages, today).downloadName == DownloadName
              && LoadAll(Expected, req, load).AllValid?
              && StageInputs <= LoadAll(Expected, req, load).tables.Keys
              && RunStages(LoadAll(Expected, req, load).tables, stages, today) == Done(Respond(req, load, stages, today).entries)
    ensures LoadAll(Expected, req, load).AllValid? && StageInputs <= LoadAll(Expected, req, load).tables.Keys ==>
              match RunStages(LoadAll(Expected, req, load).tables, stages, today)
              case Raised(ValueError(m)) => Respond(req, load, stages, today) == Error(BadRequest, m)
              case Raised(OtherError(_)) => Respond(req, load, stages, today) == Error(ServerError, InternalMessage)
              case Done(es) => Respond(req, load, stages, today) == Zip(DownloadName, es)
  {
    if LoadAll(Expected, req, load).Rejected? {
      var k := RejectionHasFirstRefusal(Expected, req, load);
    } else {
      ExpectedDistinct();
      ZonePositions();
      LoadAllValid(Expected, req, load);
    }
  }

  /** With the stubs as shipped, a request whose every zone validates is answered with
      the archive: the Raise Cash frame computed from the cash requests, then five empty
      frames. */
  lemma ShippedStagesSucceed(req: Request, load: Loader, today: string)
    requires forall k :: 0 <= k < |Expected| ==> Examine(Expected, k, req, load).Accepted?
    ensures LoadAll(Expected, req, load).AllValid?
    ensures CashRequests in LoadAll(Expected, req, load).tables
    ensures var cash := RaiseCash(LoadAll(Expected, req, load).tables[CashRequests], today);
      && cash.Done?
      && Respond(req, load, SourceStages(), today) ==
           Zip(DownloadName, [Entry(RaiseCashFile, Spreadsheet, cash.value),
                              Entry(ModelChangesFile, Spreadsheet, EmptyFrame),
                              Entry(NotificationsFile, Csv, EmptyFrame),
                              Entry(RebalancesFile, Csv, EmptyFrame),
                              Entry(ContributionsFile, Csv, EmptyFrame),
                              Entry(MasterAccountsFile, Csv, EmptyFrame)])
  {
    ExpectedDistinct();
    ZonePositions();
    LoadAllValid(Expected, req, load);
    var dfs := LoadAll(Expected, req, load).tables;
    var u := req[CashRequests];
    ReadAndValidateSpec(u, Expected[6].1, load);
    assert AccountNumberCol in Expected[6].1 && GrossAmountCol in Expected[6].1;
  }

  /** Once a zone is refused, nothing after it is looked at: whatever the later zones'
      uploads are, whatever the reader makes of their files, whatever the stages do and
      whatever the date, the response is the same. */
  lemma LaterZonesIgnored(req1: Request, req2: Request, load1: Loader, load2: Loader, k: nat,
                          s1: Stages, s2: Stages, today1: string, today2: string)
    requires k < |Expected|
    requires forall j :: 0 <= j <= k ==>
               (Present(req1, Expected[j].0) <==> Present(req2, Expected[j].0)) &&
               (Present(req1, Expected[j].0) ==> req1[Expected[j].0] == req2[Expected[j].0])
    requires forall j :: 0 <= j <= k && Present(req1, Expected[j].0) ==>
               var u := req1[Expected[j].0];
               DetectFormat(u.filename).Some? ==>
                 load1(DetectFormat(u.filename).value, u.content) == load2(DetectFormat(u.filename).value, u.content)
    requires Examine(Expected, k, req1, load1).Refused?
    ensures LoadAll(Expected, req1, load1).Rejected?
    ensures Respond(req1, load1, s1, today1) == Respond(req2, load2, s2, today2)
  {
    forall j | 0 <= j <= k
      ensures Examine(Expected, j, req1, load1) == Examine(Expected, j, req2, load2)
    {
      if Present(req1, Expected[j].0) {
        var u := req1[Expected[j].0];
        var f := DetectFormat(u.filename);
        if f.Some? {
          assert load1(f.value, u.content) == load2(f.value, u.content);
        }
        assert ReadAndValidate(u, Expected[j].1, load1) == ReadAndValidate(u, Expected[j].1, load2);
      }
    }
    var first := FirstRefusal(Expected, req1, load1, k);
    FirstRefusalDecides(Expected, req1, load1, first);
    FirstRefusalDecides(Expected, req2, load2, first);
  }

  /** Taking one upload away from a request whose every zone validates is answered
      with a 400 naming exactly that zone. */
  lemma MissingUploadNamesZone(req: Request, load: Loader, stages: Stages, today: string, k: nat)
    requires k < |Expected|
    requires forall j :: 0 <= j < |Expected| ==> Examine(Expected, j, req, load).Accepted?
    ensures Respond(req - {Expected[k].0}, load, stages, today) == Error(BadRequest, MissingUploadMessage(Expected[k].0))
  {
    ExpectedDistinct();
    var req' := req - {Expected[k].0};
    forall j | 0 <= j < k
      ensures Examine(Expected, j, req', load) == Examine(Expected, j, req, load)
    {
      assert Expected[j].0 != Expected[k].0;
      assert Present(req', Expected[j].0) == Present(req, Expected[j].0);
    }
    FirstRefusalDecides(Expected, req', load, k);
  }

  /** A file with an unsupported suffix in the first zone that fails is answered with a
      400 saying so; the reader is not consulted for it. */
  lemma UnsupportedFileRejected(req: Request, load: Loader, stages: Stages, today: string, k: nat)
    requires k < |Expected|
    requires forall j :: 0 <= j < k ==> Examine(Expected, j, req, load).Accepted?
    requires Present(req, Expected[k].0) && DetectFormat(req[Expected[k].0].filename) == None
    ensures Respond(req, load, stages, today) == Error(BadRequest, UnsupportedMessage)
  {
    ReadAndValidateSpec(req[Expected[k].0], Expected[k].1, load);
    FirstRefusalDecides(Expected, req, load, k);
  }

  /** A table lacking required columns in the first zone that fails is answered with a
      400 whose message names the file and lists every missing column in order. */
  lemma MissingColumnsRejected(req: Request, load: Loader, stages: Stages, today: string, k: nat)
    requires k < |Expected|
    requires forall j :: 0 <= j < k ==> Examine(Expected, j, req, load).Accepted?
    requires Present(req, Expected[k].0)
    requires var u := req[Expected[k].0];
      DetectFormat(u.filename).Some? && load(DetectFormat(u.filename).value, u.content).Done? &&
      exists c :: c in Expected[k].1 && c !in load(DetectFormat(u.filename).value, u.content).value.columns
    ensures var u := req[Expected[k].0];
      Respond(req, load, stages, today) ==
        Error(BadRequest, MissingColumnsMessage(u.filename,
          Missing(Expected[k].1, load(DetectFormat(u.filename).value, u.content).value.columns)))
  {
    ReadAndValidateSpec(req[Expected[k].0], Expected[k].1, load);
    FirstRefusalDecides(Expected, req, load, k);
  }
}
