/** The schema registry: each upload zone, in declaration order, with the
    columns its table must have (app.py, `EXPECTED`). */
module Schema {

  const LplAlerts := "LPL Alerts"
  const SchwabAlerts := "Schwab Alerts"
  const EclipseAccounts := "Eclipse Accounts"
  const EclipseContributions := "Eclipse Contributions"
  const OrionQuery := "Orion Query 30842"
  const PscRequests := "Practifi PSC Requests"
  const CashRequests := "Practifi Cash Requests"

  const AccountNumberCol := "Related Process: Account Number"
  const GrossAmountCol := "Related Process: Gross Amount Requested"

  /** Zone name and required columns, in the order the registry declares them. */
  const Expected: seq<(string, seq<string>)> := [
    (LplAlerts, ["Category", "LPL Account Number"]),
    (SchwabAlerts, ["Subject", "Date Created", "Account"]),
    (EclipseAccounts, ["Account Number", "Managed Value"]),
    (EclipseContributions, ["Account Number", "Model", "Managed Value"]),
    (OrionQuery, ["Account #", "Account Model", "Account Value", "Ticker", "Current Units"]),
    (PscRequests, [AccountNumberCol, "New Model Trading"]),
    (CashRequests, [AccountNumberCol, GrossAmountCol, "Related Process: Amount to be set aside"])
  ]

  /** A registry: zone names with their required columns, in declaration order. */
  type Registry = seq<(string, seq<string>)>

  /** The registry's keys. */
  function ZoneSet(reg: Registry): set<string>
  {
    set k | 0 <= k < |reg| :: reg[k].0
  }

  /** A registry is a dictionary: no zone name is declared twice. */
  ghost predicate DistinctZones(reg: Registry)
  {
    forall k, l :: 0 <= k < |reg| && 0 <= l < |reg| && k != l ==> reg[k].0 != reg[l].0
  }

  lemma ExpectedDistinct()
    ensures DistinctZones(Expected)
  {
  }

  /** The zones the pipeline reads by name. */
  const StageInputs: set<string> :=
    {LplAlerts, SchwabAlerts, EclipseAccounts, EclipseContributions, OrionQuery, PscRequests, CashRequests}

  /** Position of each zone the pipeline reads by name; they are all the zones. */
  lemma ZonePositions()
    ensures ZoneSet(Expected) == StageInputs
    ensures |Expected| == 7
    ensures Expected[0].0 == LplAlerts && Expected[1].0 == SchwabAlerts && Expected[2].0 == EclipseAccounts
    ensures Expected[3].0 == EclipseContributions && Expected[4].0 == OrionQuery
    ensures Expected[5].0 == PscRequests && Expected[6].0 == CashRequests
    ensures Expected[6].1[0] == AccountNumberCol && Expected[6].1[1] == GrossAmountCol
  {
    assert Expected[0].0 in ZoneSet(Expected);
    assert Expected[1].0 in ZoneSet(Expected);
    assert Expected[2].0 in ZoneSet(Expected);
    assert Expected[3].0 in ZoneSet(Expected);
    assert Expected[4].0 in ZoneSet(Expected);
    assert Expected[5].0 in ZoneSet(Expected);
    assert Expected[6].0 in ZoneSet(Expected);
  }
}
