/** app/delivery_head/routes.py: the two-level delivery-lead → manager
    rollup over the database records. Its `reports` view runs the DataFrame
    code of `App.DeliveryHeadReports`. */
module DeliveryHeadRoutes {
  import opened Common
  import opened Records
  import opened Views
  import opened Utils

  /** A manager's team: one summary per report, and their number. */
  function TeamFor(db: Db, mgr: string): (r: ManagerTeam<Option<string>>)
    ensures r.name == mgr && r.totalReports == |r.employees| == |EmployeesByManager(db, mgr)|
  {
    TeamFrom(mgr, Summaries(db, EmployeesByManager(db, mgr)))
  }

  function TeamOf(db: Db): string -> ManagerTeam<Option<string>> {
    (mgr: string) => TeamFor(db, mgr)
  }

  /** The dictionary the dashboard builds for one delivery lead: one team
      per manager of the lead. */
  function DlEntryFor(db: Db, dl: string): (r: DlEntry<Option<string>>)
    ensures r.name == dl && r.totalManagers == |r.managers| == |ManagersByDl(db, dl)|
  {
    DlEntryFrom(dl, Map(ManagersByDl(db, dl), TeamOf(db)))
  }

  function DlEntryOf(db: Db): string -> DlEntry<Option<string>> {
    (dl: string) => DlEntryFor(db, dl)
  }

  /** A delivery-lead entry lists that lead's managers one-to-one, in
      resolver order, each with the number of that manager's reports. */
  lemma DlEntryTeams(db: Db, dl: string)
    ensures var e := DlEntryFor(db, dl);
      && e.name == dl
      && |e.managers| == e.totalManagers == |ManagersByDl(db, dl)|
      && forall i :: 0 <= i < |e.managers| ==>
        && e.managers[i].name == ManagersByDl(db, dl)[i]
        && e.managers[i].employees == Summaries(db, EmployeesByManager(db, e.managers[i].name))
        && e.managers[i].totalReports == |e.managers[i].employees|
        && e.managers[i].totalReports == |EmployeesByManager(db, e.managers[i].name)|
  {
    var names := ManagersByDl(db, dl);
    MapAt(names, TeamOf(db));
  }

  /** A delivery lead's employee total is the headcount of the lists shown
      under their managers; a lead without managers has zero of both. */
  lemma DlEntryHeadcount(db: Db, dl: string)
    ensures var e := DlEntryFor(db, dl);
      && e.totalEmployees == |AllEmployees(e.managers)|
      && (ManagersByDl(db, dl) == [] ==> e.totalManagers == 0 && e.totalEmployees == 0)
  {
    var names := ManagersByDl(db, dl);
    var teams := Map(names, TeamOf(db));
    assert DlEntryFor(db, dl) == DlEntryFrom(dl, teams);
    MapAt(names, TeamOf(db));
    forall i | 0 <= i < |teams| ensures teams[i].totalReports == |teams[i].employees| {
      assert teams[i] == TeamFor(db, names[i]);
    }
    SumReportsIsHeadcount(teams);
  }

  /** The inner loop of `dashboard`: one team per manager. */
  method Teams(db: Db, managerNames: seq<string>) returns (managersData: seq<ManagerTeam<Option<string>>>)
    ensures managersData == Map(managerNames, TeamOf(db))
  {
    managersData := [];
    for k := 0 to |managerNames|
      invariant managersData == Map(managerNames[..k], TeamOf(db))
    {
      var mgr := managerNames[k];
      var empDf := EmployeesByManager(db, mgr);
      var employees := EmployeeSummary(db, empDf);
      MapPrefix(managerNames, TeamOf(db), k);
      managersData := managersData + [TeamFrom(mgr, employees)];
    }
    assert managerNames[..|managerNames|] == managerNames;
  }

  /** `dashboard`: the outer loop, one entry per delivery lead of the
      delivery head. */
  method Dashboard(db: Db, dhName: string) returns (dlsData: seq<DlEntry<Option<string>>>)
    ensures dlsData == Map(DlsByDh(db, dhName), DlEntryOf(db))
  {
    var dlNames := DlsByDh(db, dhName);
    dlsData := [];
    for i := 0 to |dlNames|
      invariant dlsData == Map(dlNames[..i], DlEntryOf(db))
    {
      var dl := dlNames[i];
      var managersData := Teams(db, ManagersByDl(db, dl));
      MapPrefix(dlNames, DlEntryOf(db), i);
      dlsData := dlsData + [DlEntryFrom(dl, managersData)];
    }
    assert dlNames[..|dlNames|] == dlNames;
  }

  /** The dashboard lists the delivery head's delivery leads one-to-one, in
      resolver order, none of them `'N/A'`. */
  lemma DashboardLeads(db: Db, dhName: string)
    ensures var names := DlsByDh(db, dhName);
      var dls := Map(names, DlEntryOf(db));
      && |dls| == |names|
      && forall i :: 0 <= i < |dls| ==>
        && dls[i].name == names[i]
        && dls[i].name != NotAssigned
        && dls[i] == DlEntryFor(db, names[i])
  {
    var names := DlsByDh(db, dhName);
    MapAt(names, DlEntryOf(db));
    forall i | 0 <= i < |names| ensures names[i] != NotAssigned {
      assert names[i] in names;
    }
  }
}
