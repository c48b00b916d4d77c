/** The dictionaries the dashboards hand to their templates, and the filter
    layer applied to them. Both data variants (pandas rows and DB records)
    build the same shapes; `N` is the type of the optional columns copied
    into a summary (role, function and the four hierarchy names): `string`
    for a CSV cell, `Option<string>` for a nullable DB column. */
module Views {
  import opened Common

  /** One entry of `get_employee_summary`'s result. */
  datatype Summary<N> = Summary(
    name: string, nbk: string, role: N, functionName: N,
    manager: N, dl: N, dh: N, gdl: N,
    totalSkills: nat, currentGaps: nat, futureGaps: nat)

  /** A delivery-lead dashboard entry: one manager and their team. */
  datatype ManagerEntry<N> = ManagerEntry(
    name: string, nbk: string, role: N,
    employees: seq<Summary<N>>, totalReports: nat, totalGaps: nat)

  /** A manager inside a delivery-head dashboard entry. */
  datatype ManagerTeam<N> = ManagerTeam(name: string, employees: seq<Summary<N>>, totalReports: nat)

  /** A delivery-head dashboard entry: one delivery lead and their managers. */
  datatype DlEntry<N> = DlEntry(
    name: string, managers: seq<ManagerTeam<N>>, totalManagers: nat, totalEmployees: nat)

  /** A manager's team: the summaries shown and their number. */
  function TeamFrom<N>(mgr: string, employees: seq<Summary<N>>): ManagerTeam<N> {
    ManagerTeam(mgr, employees, |employees|)
  }

  /** A delivery lead's entry: the teams shown, their number and their summed
      reports. */
  function DlEntryFrom<N>(dl: string, managers: seq<ManagerTeam<N>>): DlEntry<N> {
    DlEntry(dl, managers, |managers|, SumReports(managers))
  }

  /** The three node kinds of the group-delivery-lead tree. */
  datatype ManagerNode<N> = ManagerNode(name: string, employees: seq<Summary<N>>)
  datatype DlNode<N> = DlNode(name: string, managers: seq<ManagerNode<N>>)
  datatype DhNode<N> = DhNode(name: string, dls: seq<DlNode<N>>)

  /** One entry of the `skills` list of the employee details page. */
  datatype SkillDetail = SkillDetail(
    name: string, skillType: string, category: string, currentProf: string,
    expectedProf: string, gapCurrent: string, expectedFuture: string, gapFuture: string)

  /** One entry of the `feedbacks` list of the employee details page. */
  datatype FeedbackEntry = FeedbackEntry(givenBy: string, feedbackType: string, content: string, date: int)

  /** The context handed to every `employee_details` template. */
  datatype Details<E> = Details(employee: E, skills: seq<SkillDetail>, feedbacks: seq<FeedbackEntry>)

  function Nbks<N>(es: seq<Summary<N>>): seq<string> {
    seq(|es|, i requires 0 <= i < |es| => es[i].nbk)
  }

  function ManagerNames<N>(ms: seq<ManagerEntry<N>>): seq<string> {
    seq(|ms|, i requires 0 <= i < |ms| => ms[i].name)
  }

  /** `sum(e['current_gaps'] for e in employees)` */
  function SumCurrentGaps<N>(es: seq<Summary<N>>): nat
    decreases |es|
  {
    if es == [] then 0 else SumCurrentGaps(es[..|es| - 1]) + es[|es| - 1].currentGaps
  }

  function SumTotalSkills<N>(es: seq<Summary<N>>): nat
    decreases |es|
  {
    if es == [] then 0 else SumTotalSkills(es[..|es| - 1]) + es[|es| - 1].totalSkills
  }

  /** `sum(m['total_reports'] for m in managers_data)` */
  function SumReports<N>(teams: seq<ManagerTeam<N>>): nat
    decreases |teams|
  {
    if teams == [] then 0 else SumReports(teams[..|teams| - 1]) + teams[|teams| - 1].totalReports
  }

  /** Every employee listed under some manager of `teams`, team after team. */
  function AllEmployees<N>(teams: seq<ManagerTeam<N>>): seq<Summary<N>>
    decreases |teams|
  {
    if teams == [] then [] else AllEmployees(teams[..|teams| - 1]) + teams[|teams| - 1].employees
  }

  ghost predicate WellFormedSummaries<N>(es: seq<Summary<N>>) {
    forall i :: 0 <= i < |es| ==> es[i].currentGaps <= es[i].totalSkills
  }

  /** When no employee has more current gaps than skills, neither does any
      team: the bound survives the rollup. */
  lemma {:induction false} SumCurrentGapsBound<N>(es: seq<Summary<N>>)
    requires WellFormedSummaries(es)
    ensures SumCurrentGaps(es) <= SumTotalSkills(es)
    decreases |es|
  {
    if es != [] {
      SumCurrentGapsBound(es[..|es| - 1]);
    }
  }

  ghost predicate CountedTeams<N>(teams: seq<ManagerTeam<N>>) {
    forall i :: 0 <= i < |teams| ==> teams[i].totalReports == |teams[i].employees|
  }

  /** A delivery lead's employee total is the length of the list of all the
      employee summaries shown under their managers: no employee is dropped
      or counted twice by the summation. */
  lemma {:induction false} SumReportsIsHeadcount<N>(teams: seq<ManagerTeam<N>>)
    requires CountedTeams(teams)
    ensures SumReports(teams) == |AllEmployees(teams)|
    decreases |teams|
  {
    if teams != [] {
      SumReportsIsHeadcount(teams[..|teams| - 1]);
    }
  }

  // ---------------------------------------------------------------------
  // The manager dashboard's filters (app.py:122-128, app/manager/routes.py:17-23)

  /** The case-insensitive search: the lowered term occurs in the lowered
      name or in the lowered NBK. */
  predicate MatchesSearch<N>(e: Summary<N>, term: string) {
    Contains(Lower(e.name), term) || Contains(Lower(e.nbk), term)
  }

  function SearchPred<N>(term: string): Summary<N> -> bool {
    (e: Summary<N>) => MatchesSearch(e, term)
  }

  function NbkPred<N>(nbk: string): Summary<N> -> bool {
    (e: Summary<N>) => e.nbk == nbk
  }

  /** The search, then the exact NBK filter, each applied only when its
      parameter is non-empty. */
  function FilterEmployees<N(!new)>(employees: seq<Summary<N>>, search: string, employeeFilter: string)
    : (r: seq<Summary<N>>)
    ensures IsSubseq(r, employees)
    ensures forall e :: e in r <==>
      && e in employees
      && (search != "" ==> MatchesSearch(e, Lower(search)))
      && (employeeFilter != "" ==> e.nbk == employeeFilter)
    ensures search == "" && employeeFilter == "" ==> r == employees
  {
    var term := Lower(search);
    assert |term| == |search|;
    var afterSearch := if term != "" then Filter(employees, SearchPred(term)) else employees;
    SubseqRefl(employees);
    FilterSubseq(employees, SearchPred(term));
    if employeeFilter != "" then
      var r := Filter(afterSearch, NbkPred(employeeFilter));
      FilterSubseq(afterSearch, NbkPred(employeeFilter));
      SubseqTrans(r, afterSearch, employees);
      r
    else afterSearch
  }

  /** Every copy of an entry that passes both filters is kept, and no copy
      of one that does not. */
  lemma FilterEmployeesMultiset<N(!new)>(employees: seq<Summary<N>>, search: string, employeeFilter: string)
    ensures var r := FilterEmployees(employees, search, employeeFilter);
      forall e :: multiset(r)[e] ==
        if (search != "" ==> MatchesSearch(e, Lower(search))) && (employeeFilter != "" ==> e.nbk == employeeFilter)
        then multiset(employees)[e] else 0
  {
    var term := Lower(search);
    assert |term| == |search|;
    FilterMultiset(employees, SearchPred(term));
    var afterSearch := if term != "" then Filter(employees, SearchPred(term)) else employees;
    FilterMultiset(afterSearch, NbkPred(employeeFilter));
  }

  /** Filtering an already filtered list with the same search and filter
      returns it unchanged. */
  lemma FilterEmployeesIdempotent<N(!new)>(employees: seq<Summary<N>>, search: string, employeeFilter: string)
    ensures var once := FilterEmployees(employees, search, employeeFilter);
      FilterEmployees(once, search, employeeFilter) == once
  {
    var once := FilterEmployees(employees, search, employeeFilter);
    var term := Lower(search);
    assert |term| == |search|;
    var afterSearch := if term != "" then Filter(once, SearchPred(term)) else once;
    if term != "" {
      FilterAll(once, SearchPred(term));
    }
    assert afterSearch == once;
    if employeeFilter != "" {
      FilterAll(once, NbkPred(employeeFilter));
    }
  }

  function NamePred<N>(name: string): ManagerEntry<N> -> bool {
    (m: ManagerEntry<N>) => m.name == name
  }

  /** The delivery-lead dashboard's manager filter: exact name match, applied
      only when the filter is non-empty. */
  function FilterManagers<N(!new)>(managers: seq<ManagerEntry<N>>, managerFilter: string)
    : (r: seq<ManagerEntry<N>>)
    ensures IsSubseq(r, managers)
    ensures forall m :: m in r <==> m in managers && (managerFilter != "" ==> m.name == managerFilter)
    ensures managerFilter == "" ==> r == managers
  {
    SubseqRefl(managers);
    FilterSubseq(managers, NamePred(managerFilter));
    if managerFilter != "" then Filter(managers, NamePred(managerFilter)) else managers
  }

  /** With distinct manager names the exact filter leaves at most one entry:
      the one whose name is the filter, if there is one. */
  lemma {:induction false} FilterManagersSingle<N(!new)>(managers: seq<ManagerEntry<N>>, managerFilter: string)
    requires NoDup(ManagerNames(managers))
    requires managerFilter != ""
    ensures var r := FilterManagers(managers, managerFilter);
      if managerFilter in ManagerNames(managers)
      then |r| == 1 && r[0].name == managerFilter && r[0] in managers
      else r == []
    decreases |managers|
  {
    if managers != [] {
      var init, last := managers[..|managers| - 1], managers[|managers| - 1];
      assert managers == init + [last];
      assert ManagerNames(init) == ManagerNames(managers)[..|init|];
      FilterManagersSingle(init, managerFilter);
      assert Filter(managers, NamePred(managerFilter)) ==
        Filter(init, NamePred(managerFilter)) + (if last.name == managerFilter then [last] else []);
      if last.name == managerFilter {
        assert ManagerNames(managers)[|init|] == last.name;
        assert managerFilter !in ManagerNames(init);
      }
      if managerFilter in ManagerNames(managers) && last.name != managerFilter {
        var k :| 0 <= k < |managers| && ManagerNames(managers)[k] == managerFilter;
        assert ManagerNames(init)[k] == managerFilter;
      }
      if managerFilter in ManagerNames(init) {
        var k :| 0 <= k < |init| && ManagerNames(init)[k] == managerFilter;
        assert ManagerNames(managers)[k] == managerFilter;
      }
    }
  }

  /** The entries built by `f` from distinct names, one per name, filtered
      by a non-empty name: the entry of that name if it is listed, nothing
      otherwise. */
  lemma FilterEntriesByName<N(!new)>(names: seq<string>, f: string -> ManagerEntry<N>, managerFilter: string)
    requires NoDup(names)
    requires managerFilter != ""
    requires forall n :: f(n).name == n
    ensures FilterManagers(Map(names, f), managerFilter) ==
      if managerFilter in names then [f(managerFilter)] else []
  {
    var data := Map(names, f);
    MapAt(names, f);
    assert ManagerNames(data) == names by {
      forall i | 0 <= i < |names| ensures ManagerNames(data)[i] == names[i] {
        assert data[i] == f(names[i]);
      }
    }
    FilterManagersSingle(data, managerFilter);
    if managerFilter in names {
      var r := FilterManagers(data, managerFilter);
      var k :| 0 <= k < |data| && data[k] == r[0];
      assert data[k] == f(names[k]);
      assert r == [r[0]];
    }
  }
}
