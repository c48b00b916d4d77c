/** app/delivery_lead/routes.py: the delivery-lead dashboard over the
    database records. Its `reports` view runs the DataFrame code of
    `App.DeliveryLeadReports`. */
module DeliveryLeadRoutes {
  import opened Common
  import opened Records
  import opened Views
  import opened Utils

  /** The entry for one manager, from the manager's reports and their
      summaries: the NBK and role of the first report, or empty. */
  function ManagerEntryFrom(mgr: string, emps: seq<Employee>, employees: seq<Summary<Option<string>>>)
    : ManagerEntry<Option<string>>
  {
    ManagerEntry(mgr,
                 if emps != [] then emps[0].nbk else "",
                 if emps != [] then emps[0].role else Some(""),
                 employees, |employees|, SumCurrentGaps(employees))
  }

  /** The dictionary the dashboard builds for one manager: one summary per
      report, and the NBK and role of one of the reports, or empty when the
      manager has none. */
  function ManagerEntryFor(db: Db, mgr: string): (r: ManagerEntry<Option<string>>)
    ensures r.name == mgr && r.totalReports == |r.employees| == |EmployeesByManager(db, mgr)|
    ensures EmployeesByManager(db, mgr) == [] ==> r.nbk == "" && r.role == Some("") && r.employees == []
    ensures EmployeesByManager(db, mgr) != [] ==>
      exists e :: e in db.employees && e.managerName == Some(mgr) && e.nbk == r.nbk && e.role == r.role
  {
    var emps := EmployeesByManager(db, mgr);
    assert emps != [] ==> emps[0] in emps;
    ManagerEntryFrom(mgr, emps, Summaries(db, emps))
  }

  function ManagerEntryOf(db: Db): string -> ManagerEntry<Option<string>> {
    (mgr: string) => ManagerEntryFor(db, mgr)
  }

  /** A manager entry counts the manager's reports and their current gaps;
      the gaps never exceed the skill records, and with the primary key in
      force they are the count over the reports' own skill records. The NBK
      and role come from a report of that manager, or are empty when there
      is none. */
  lemma ManagerEntryTotals(db: Db, mgr: string)
    ensures var e := ManagerEntryFor(db, mgr);
      && e.name == mgr
      && e.totalReports == |e.employees| == |EmployeesByManager(db, mgr)|
      && e.totalGaps <= SumTotalSkills(e.employees)
      && (KeysUnique(db) ==> e.totalGaps == Count(SkillsOfAll(db, EmployeesByManager(db, mgr)), CurrentGap()))
      && (EmployeesByManager(db, mgr) == [] ==> e.nbk == "" && e.role == Some(""))
      && (EmployeesByManager(db, mgr) != [] ==>
            exists r :: r in db.employees && r.managerName == Some(mgr) && e.nbk == r.nbk && e.role == r.role)
  {
    var emps := EmployeesByManager(db, mgr);
    SummariesWellFormed(db, emps);
    SumCurrentGapsBound(Summaries(db, emps));
    if KeysUnique(db) {
      ReportsDistinct(db, mgr);
      SummariesTotals(db, emps);
    }
  }

  /** `dashboard`: one entry per manager of the delivery lead, in resolver
      order, then the exact manager-name filter. The `employee` and `search`
      parameters are read but do not narrow the result. */
  method Dashboard(db: Db, dlName: string, managerFilter: string, employeeFilter: string, search: string)
    returns (managers: seq<ManagerEntry<Option<string>>>, allManagers: seq<string>)
    ensures allManagers == ManagersByDl(db, dlName)
    ensures managers == FilterManagers(Map(allManagers, ManagerEntryOf(db)), managerFilter)
  {
    allManagers := ManagersByDl(db, dlName);
    var managersData: seq<ManagerEntry<Option<string>>> := [];
    for i := 0 to |allManagers|
      invariant managersData == Map(allManagers[..i], ManagerEntryOf(db))
    {
      var mgr := allManagers[i];
      var empDf := EmployeesByManager(db, mgr);
      var employees := EmployeeSummary(db, empDf);
      MapPrefix(allManagers, ManagerEntryOf(db), i);
      managersData := managersData + [ManagerEntryFrom(mgr, empDf, employees)];
    }
    assert allManagers[..|allManagers|] == allManagers;
    managers := managersData;
    if managerFilter != "" {
      managers := Filter(managers, NamePred(managerFilter));
    }
  }

  /** Before the filter there is exactly one entry per manager of the
      delivery lead, in the same order, none of them `'N/A'`. */
  lemma DashboardEntries(db: Db, dlName: string)
    ensures var names := ManagersByDl(db, dlName);
      var data := Map(names, ManagerEntryOf(db));
      && |data| == |names|
      && forall i :: 0 <= i < |data| ==>
        && data[i].name == names[i]
        && data[i].name != NotAssigned
        && data[i] == ManagerEntryFor(db, names[i])
  {
    var names := ManagersByDl(db, dlName);
    MapAt(names, ManagerEntryOf(db));
    forall i | 0 <= i < |names| ensures names[i] != NotAssigned {
      assert names[i] in names;
    }
  }

  /** A non-empty manager filter leaves exactly the entry of that manager when
      the manager is under the delivery lead, and nothing otherwise. */
  lemma DashboardFilterResult(db: Db, dlName: string, managerFilter: string)
    requires managerFilter != ""
    ensures var names := ManagersByDl(db, dlName);
      FilterManagers(Map(names, ManagerEntryOf(db)), managerFilter) ==
        if managerFilter in names then [ManagerEntryFor(db, managerFilter)] else []
  {
    FilterEntriesByName(ManagersByDl(db, dlName), ManagerEntryOf(db), managerFilter);
  }
}
