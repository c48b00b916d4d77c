/** app/manager/routes.py: the manager dashboard over the database records
    (the search and exact-NBK filters) and the manager reports. */
module ManagerRoutes {
  import opened Common
  import opened Records
  import opened Views
  import opened Utils

  /** What `dashboard` hands to its template. */
  datatype DashboardView = DashboardView(
    managerName: string,
    employees: seq<Summary<Option<string>>>,
    allEmployees: seq<Summary<Option<string>>>)

  /** `dashboard`: the manager's summaries narrowed by the lowered search term
      and the exact NBK filter; `allEmployees` is the list before either,
      one summary per report. */
  function Dashboard(db: Db, managerName: string, search: string, employeeFilter: string): (r: DashboardView)
    ensures r.managerName == managerName
    ensures |r.allEmployees| == |EmployeesByManager(db, managerName)|
    ensures IsSubseq(r.employees, r.allEmployees)
    ensures search == "" && employeeFilter == "" ==> r.employees == r.allEmployees
  {
    var employeesDf := EmployeesByManager(db, managerName);
    var employees := Summaries(db, employeesDf);
    DashboardView(managerName, FilterEmployees(employees, search, employeeFilter), Summaries(db, employeesDf))
  }

  /** The unfiltered list holds the summary of every report of the manager
      and nothing else. */
  lemma DashboardAll(db: Db, managerName: string, search: string, employeeFilter: string)
    ensures forall s :: s in Dashboard(db, managerName, search, employeeFilter).allEmployees <==>
      exists e :: e in db.employees && e.managerName == Some(managerName) && SummaryFor(db, e) == s
  {
    var emps := EmployeesByManager(db, managerName);
    assert Dashboard(db, managerName, search, employeeFilter).allEmployees == Summaries(db, emps);
    SummariesMembers(db, emps);
  }

  /** The shown list keeps, in order, exactly the entries of the unfiltered
      list that pass both filters; filtering it again changes nothing. */
  lemma DashboardShown(db: Db, managerName: string, search: string, employeeFilter: string)
    ensures var v := Dashboard(db, managerName, search, employeeFilter);
      && (forall s :: s in v.employees <==>
            && s in v.allEmployees
            && (search != "" ==> MatchesSearch(s, Lower(search)))
            && (employeeFilter != "" ==> s.nbk == employeeFilter))
      && IsSubseq(v.employees, v.allEmployees)
      && FilterEmployees(v.employees, search, employeeFilter) == v.employees
  {
    FilterEmployeesIdempotent(Summaries(db, EmployeesByManager(db, managerName)), search, employeeFilter);
  }

  /** What `reports` hands to its template. */
  datatype ReportsView = ReportsView(
    managerName: string,
    employees: seq<Summary<Option<string>>>,
    totalSkills: nat,
    currentGaps: nat)

  /** `reports`: the number of the reports' skill records and how many of
      them carry a current `'Under-Skilled'` verdict, both taken from the
      summaries; the gaps never exceed the records. */
  function Reports(db: Db, managerName: string): (r: ReportsView)
    ensures r.managerName == managerName
    ensures |r.employees| == |EmployeesByManager(db, managerName)|
    ensures r.currentGaps <= r.totalSkills
  {
    var emps := EmployeesByManager(db, managerName);
    var employees := Summaries(db, emps);
    SummariesWellFormed(db, emps);
    SumCurrentGapsBound(employees);
    ReportsView(managerName, employees, SumTotalSkills(employees), SumCurrentGaps(employees))
  }

  /** The current gaps never exceed the skill records; with the primary key
      in force the two totals are the counts over the reports' own skill
      records. */
  lemma ReportsTotals(db: Db, managerName: string)
    ensures var r := Reports(db, managerName);
      && r.currentGaps <= r.totalSkills
      && (KeysUnique(db) ==>
            && r.totalSkills == |SkillsOfAll(db, EmployeesByManager(db, managerName))|
            && r.currentGaps == Count(SkillsOfAll(db, EmployeesByManager(db, managerName)), CurrentGap()))
  {
    var emps := EmployeesByManager(db, managerName);
    if KeysUnique(db) {
      ReportsDistinct(db, managerName);
      SummariesTotals(db, emps);
    }
  }
}
