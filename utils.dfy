/** app/utils.py: the database variant of the hierarchy resolvers, the
    employee summariser and the employee details context. The order in which
    the database returns rows is not specified, so the contracts here do not
    depend on it, except where the code itself orders (`order_by`). */
module Utils {
  import opened Common
  import opened Records
  import opened Views

  // ---------------------------------------------------------------------
  // Resolvers (app/utils.py:4-23)

  function ManagedBy(managerName: string): Employee -> bool {
    (e: Employee) => e.managerName == Some(managerName)
  }

  /** `get_employees_by_manager`: `Employee.query.filter_by(manager_name=...)`. */
  function EmployeesByManager(db: Db, managerName: string): (r: seq<Employee>)
    ensures forall e :: e in r <==> e in db.employees && e.managerName == Some(managerName)
  {
    Filter(db.employees, ManagedBy(managerName))
  }

  /** The four hierarchy columns of `employees`. */
  datatype Level = Manager | Dl | Dh | Gdl

  function LevelName(e: Employee, l: Level): Option<string> {
    match l
    case Manager => e.managerName
    case Dl => e.dlName
    case Dh => e.dhName
    case Gdl => e.gdlName
  }

  function At(l: Level, name: string): Employee -> bool {
    (e: Employee) => LevelName(e, l) == Some(name)
  }

  function LevelValues(emps: seq<Employee>, l: Level): seq<Option<string>> {
    seq(|emps|, i requires 0 <= i < |emps| => LevelName(emps[i], l))
  }

  /** `db.session.query(child).filter_by(parent=name).distinct().all()`:
      the distinct values, NULL included. */
  function DistinctValues(db: Db, parent: Level, child: Level, name: string): (r: seq<Option<string>>)
    ensures NoDup(r)
  {
    Unique(LevelValues(Filter(db.employees, At(parent, name)), child))
  }

  lemma DistinctValuesMembers(db: Db, parent: Level, child: Level, name: string)
    ensures forall v :: v in DistinctValues(db, parent, child, name) <==>
      exists e :: e in db.employees && LevelName(e, parent) == Some(name) && LevelName(e, child) == v
  {
    var selected := Filter(db.employees, At(parent, name));
    forall v ensures v in LevelValues(selected, child) <==>
      exists e :: e in db.employees && LevelName(e, parent) == Some(name) && LevelName(e, child) == v
    {
      if v in LevelValues(selected, child) {
        var i :| 0 <= i < |selected| && LevelValues(selected, child)[i] == v;
        assert selected[i] in selected;
      }
      if exists e :: e in db.employees && LevelName(e, parent) == Some(name) && LevelName(e, child) == v {
        var e :| e in db.employees && LevelName(e, parent) == Some(name) && LevelName(e, child) == v;
        assert e in selected;
        var i :| 0 <= i < |selected| && selected[i] == e;
        assert LevelValues(selected, child)[i] == v;
      }
    }
  }

  /** The guard `r[0] and r[0] != 'N/A'`: not NULL, not empty, not the
      sentinel. */
  predicate IsName(v: Option<string>) {
    v.Some? && v.value != "" && v.value != NotAssigned
  }

  /** `[r[0] for r in result if r[0] and r[0] != 'N/A']` */
  function Names(result: seq<Option<string>>): (r: seq<string>)
    ensures forall n :: n in r <==> Some(n) in result && n != "" && n != NotAssigned
    ensures NoDup(result) ==> NoDup(r)
    decreases |result|
  {
    if result == [] then []
    else
      var init, last := result[..|result| - 1], result[|result| - 1];
      assert result == init + [last];
      var r := Names(init);
      if IsName(last) then
        assert NoDup(result) ==> last !in init;
        NoDupSnoc(r, last.value);
        r + [last.value]
      else r
  }

  /** The names one level down, as the three resolvers compute them. */
  function ChildNames(db: Db, parent: Level, child: Level, name: string): (r: seq<string>)
    ensures NoDup(r)
    ensures NotAssigned !in r && "" !in r
  {
    Names(DistinctValues(db, parent, child, name))
  }

  lemma ChildNamesMembers(db: Db, parent: Level, child: Level, name: string)
    ensures forall c :: c in ChildNames(db, parent, child, name) <==>
      && c != "" && c != NotAssigned
      && exists e :: e in db.employees && LevelName(e, parent) == Some(name) && LevelName(e, child) == Some(c)
  {
    DistinctValuesMembers(db, parent, child, name);
  }

  /** `get_managers_by_dl` */
  function ManagersByDl(db: Db, dlName: string): (r: seq<string>)
    ensures NoDup(r) && NotAssigned !in r && "" !in r
  {
    ChildNames(db, Dl, Manager, dlName)
  }

  lemma ManagersByDlMembers(db: Db, dlName: string)
    ensures forall m :: m in ManagersByDl(db, dlName) <==>
      && m != "" && m != NotAssigned
      && exists e :: e in db.employees && e.dlName == Some(dlName) && e.managerName == Some(m)
  {
    ChildNamesMembers(db, Dl, Manager, dlName);
  }

  /** `get_dls_by_dh` */
  function DlsByDh(db: Db, dhName: string): (r: seq<string>)
    ensures NoDup(r) && NotAssigned !in r && "" !in r
  {
    ChildNames(db, Dh, Dl, dhName)
  }

  lemma DlsByDhMembers(db: Db, dhName: string)
    ensures forall d :: d in DlsByDh(db, dhName) <==>
      && d != "" && d != NotAssigned
      && exists e :: e in db.employees && e.dhName == Some(dhName) && e.dlName == Some(d)
  {
    ChildNamesMembers(db, Dh, Dl, dhName);
  }

  /** `get_dhs_by_gdl` */
  function DhsByGdl(db: Db, gdlName: string): (r: seq<string>)
    ensures NoDup(r) && NotAssigned !in r && "" !in r
  {
    ChildNames(db, Gdl, Dh, gdlName)
  }

  lemma DhsByGdlMembers(db: Db, gdlName: string)
    ensures forall d :: d in DhsByGdl(db, gdlName) <==>
      && d != "" && d != NotAssigned
      && exists e :: e in db.employees && e.gdlName == Some(gdlName) && e.dhName == Some(d)
  {
    ChildNamesMembers(db, Gdl, Dh, gdlName);
  }

  // ---------------------------------------------------------------------
  // Employee summariser (app/utils.py:25-57)

  function OfEmployee(nbk: string): Skill -> bool {
    (s: Skill) => s.employeeNbk == nbk
  }

  function CurrentGap(): Skill -> bool {
    (s: Skill) => s.gapCurrent == UnderSkilled
  }

  function FutureGap(): Skill -> bool {
    (s: Skill) => s.gapFuture == UnderSkilled
  }

  /** `Skill.query.filter_by(employee_nbk=nbk).all()` */
  function SkillsOf(db: Db, nbk: string): (r: seq<Skill>)
    ensures forall s :: s in r <==> s in db.skills && s.employeeNbk == nbk
  {
    Filter(db.skills, OfEmployee(nbk))
  }

  /** The summary dictionary of one employee: that employee's identity,
      the number of its skill records and, bounded by that number, how many
      carry each `'Under-Skilled'` verdict. */
  function SummaryFor(db: Db, emp: Employee): (r: Summary<Option<string>>)
    ensures r.nbk == emp.nbk && r.name == emp.name
    ensures r.totalSkills == |SkillsOf(db, emp.nbk)|
    ensures r.currentGaps <= r.totalSkills && r.futureGaps <= r.totalSkills
  {
    var skills := SkillsOf(db, emp.nbk);
    Summary(emp.name, emp.nbk, emp.role, emp.functionName,
            emp.managerName, emp.dlName, emp.dhName, emp.gdlName,
            |skills|, Count(skills, CurrentGap()), Count(skills, FutureGap()))
  }

  function SummaryOf(db: Db): Employee -> Summary<Option<string>> {
    (emp: Employee) => SummaryFor(db, emp)
  }

  /** What `get_employee_summary(employees)` returns: one summary per
      employee, and `[]` for no employees. */
  function Summaries(db: Db, employees: seq<Employee>): (r: seq<Summary<Option<string>>>)
    ensures |r| == |employees|
    ensures employees == [] ==> r == []
  {
    Map(employees, SummaryOf(db))
  }

  /** `[]` for no employees; otherwise one summary per input employee, in
      input order, copying the employee's columns and counting that
      employee's skill records and their `'Under-Skilled'` verdicts. */
  lemma SummariesFacts(db: Db, employees: seq<Employee>)
    ensures var r := Summaries(db, employees);
      && (employees == [] ==> r == [])
      && |r| == |employees|
      && forall i :: 0 <= i < |r| ==>
        && r[i].name == employees[i].name
        && r[i].nbk == employees[i].nbk
        && r[i].role == employees[i].role
        && r[i].functionName == employees[i].functionName
        && r[i].manager == employees[i].managerName
        && r[i].dl == employees[i].dlName
        && r[i].dh == employees[i].dhName
        && r[i].gdl == employees[i].gdlName
        && r[i].totalSkills == |SkillsOf(db, employees[i].nbk)|
        && r[i].currentGaps == Count(SkillsOf(db, employees[i].nbk), CurrentGap())
        && r[i].futureGaps == Count(SkillsOf(db, employees[i].nbk), FutureGap())
        && r[i].currentGaps <= r[i].totalSkills
        && r[i].futureGaps <= r[i].totalSkills
  {
    MapAt(employees, SummaryOf(db));
  }

  /** The summaries are those of the input employees and of no one else. */
  lemma SummariesMembers(db: Db, emps: seq<Employee>)
    ensures forall s :: s in Summaries(db, emps) <==> exists e :: e in emps && SummaryFor(db, e) == s
  {
    var all := Summaries(db, emps);
    MapAt(emps, SummaryOf(db));
    forall s ensures s in all <==> exists e :: e in emps && SummaryFor(db, e) == s {
      if s in all {
        var i :| 0 <= i < |all| && all[i] == s;
        assert emps[i] in emps && SummaryFor(db, emps[i]) == s;
      }
      if exists e :: e in emps && SummaryFor(db, e) == s {
        var e :| e in emps && SummaryFor(db, e) == s;
        var i :| 0 <= i < |emps| && emps[i] == e;
        assert all[i] == s;
      }
    }
  }

  /** No summary has more current gaps than skills. */
  lemma SummariesWellFormed(db: Db, employees: seq<Employee>)
    ensures WellFormedSummaries(Summaries(db, employees))
  {
    SummariesFacts(db, employees);
  }

  /** `get_employee_summary`: the loop over the employees. */
  method EmployeeSummary(db: Db, employees: seq<Employee>) returns (summaryList: seq<Summary<Option<string>>>)
    ensures summaryList == Summaries(db, employees)
  {
    if employees == [] {
      return [];
    }
    summaryList := [];
    for i := 0 to |employees|
      invariant summaryList == Map(employees[..i], SummaryOf(db))
    {
      var emp := employees[i];
      MapPrefix(employees, SummaryOf(db), i);
      summaryList := summaryList + [SummaryFor(db, emp)];
    }
    assert employees[..|employees|] == employees;
  }

  // ---------------------------------------------------------------------
  // The skill records behind a list of summaries

  function NbksOf(emps: seq<Employee>): seq<string> {
    seq(|emps|, i requires 0 <= i < |emps| => emps[i].nbk)
  }

  function OfAny(nbks: seq<string>): Skill -> bool {
    (s: Skill) => s.employeeNbk in nbks
  }

  /** The skill records of the given employees: what a DataFrame of their
      skill rows would hold. */
  function SkillsOfAll(db: Db, emps: seq<Employee>): (r: seq<Skill>)
    ensures forall s :: s in r <==> s in db.skills && s.employeeNbk in NbksOf(emps)
  {
    Filter(db.skills, OfAny(NbksOf(emps)))
  }

  function AnySkill(): Skill -> bool {
    (s: Skill) => true
  }

  /** Sum over the NBKs of the number of that employee's records satisfying
      `q`. */
  function PerEmployee(skills: seq<Skill>, nbks: seq<string>, q: Skill -> bool): nat
    decreases |nbks|
  {
    if nbks == [] then 0
    else PerEmployee(skills, nbks[..|nbks| - 1], q) + Count(Filter(skills, OfEmployee(nbks[|nbks| - 1])), q)
  }

  lemma {:induction false} PerEmployeeEmpty(nbks: seq<string>, q: Skill -> bool)
    ensures PerEmployee([], nbks, q) == 0
    decreases |nbks|
  {
    if nbks != [] {
      PerEmployeeEmpty(nbks[..|nbks| - 1], q);
    }
  }

  lemma {:induction false} PerEmployeeSnoc(skills: seq<Skill>, s: Skill, nbks: seq<string>, q: Skill -> bool)
    requires NoDup(nbks)
    ensures PerEmployee(skills + [s], nbks, q) ==
      PerEmployee(skills, nbks, q) + (if q(s) && s.employeeNbk in nbks then 1 else 0)
    decreases |nbks|
  {
    if nbks != [] {
      var init, n := nbks[..|nbks| - 1], nbks[|nbks| - 1];
      assert nbks == init + [n];
      assert NoDup(init);
      assert n !in init;
      PerEmployeeSnoc(skills, s, init, q);
      FilterSnoc(skills, s, OfEmployee(n));
      if s.employeeNbk == n {
        CountSnoc(Filter(skills, OfEmployee(n)), s, q);
      } else {
        assert Filter(skills + [s], OfEmployee(n)) == Filter(skills, OfEmployee(n)) + [];
      }
    }
  }

  /** Each record belongs to at most one of distinct employees, so the
      per-employee counts add up to the count over all their records. */
  lemma {:induction false} PerEmployeePartition(skills: seq<Skill>, nbks: seq<string>, q: Skill -> bool)
    requires NoDup(nbks)
    ensures PerEmployee(skills, nbks, q) == Count(Filter(skills, OfAny(nbks)), q)
    decreases |skills|
  {
    if skills == [] {
      PerEmployeeEmpty(nbks, q);
    } else {
      var init, s := skills[..|skills| - 1], skills[|skills| - 1];
      assert skills == init + [s];
      PerEmployeePartition(init, nbks, q);
      PerEmployeeSnoc(init, s, nbks, q);
      FilterSnoc(init, s, OfAny(nbks));
      if s.employeeNbk in nbks {
        CountSnoc(Filter(init, OfAny(nbks)), s, q);
      } else {
        assert Filter(skills, OfAny(nbks)) == Filter(init, OfAny(nbks)) + [];
      }
    }
  }

  /** The summary totals, summed over employees, are sums of per-employee
      record counts. */
  lemma {:induction false} SummariesSums(db: Db, emps: seq<Employee>)
    ensures SumTotalSkills(Summaries(db, emps)) == PerEmployee(db.skills, NbksOf(emps), AnySkill())
    ensures SumCurrentGaps(Summaries(db, emps)) == PerEmployee(db.skills, NbksOf(emps), CurrentGap())
    decreases |emps|
  {
    if emps != [] {
      var init, e := emps[..|emps| - 1], emps[|emps| - 1];
      SummariesSums(db, init);
      var r := Summaries(db, emps);
      assert r[..|r| - 1] == Summaries(db, init);
      assert r[|r| - 1] == SummaryFor(db, e);
      assert NbksOf(emps)[..|emps| - 1] == NbksOf(init);
      FilterAll(SkillsOf(db, e.nbk), AnySkill());
    }
  }

  /** For employees with distinct NBKs, the summed totals are the number of
      their skill records and the number of those whose current verdict is
      `'Under-Skilled'`. */
  lemma SummariesTotals(db: Db, emps: seq<Employee>)
    requires NoDup(NbksOf(emps))
    ensures SumTotalSkills(Summaries(db, emps)) == |SkillsOfAll(db, emps)|
    ensures SumCurrentGaps(Summaries(db, emps)) == Count(SkillsOfAll(db, emps), CurrentGap())
  {
    SummariesSums(db, emps);
    PerEmployeePartition(db.skills, NbksOf(emps), AnySkill());
    PerEmployeePartition(db.skills, NbksOf(emps), CurrentGap());
    FilterAll(SkillsOfAll(db, emps), AnySkill());
  }

  /** With the primary key in force, a manager's reports have distinct NBKs. */
  lemma {:induction false} ReportsDistinct(db: Db, managerName: string)
    requires KeysUnique(db)
    ensures NoDup(NbksOf(EmployeesByManager(db, managerName)))
  {
    assert NoDup(NbksOf(db.employees));
    FilterKeys(db.employees, ManagedBy(managerName));
  }

  lemma {:induction false} FilterKeys(emps: seq<Employee>, p: Employee -> bool)
    requires NoDup(NbksOf(emps))
    ensures NoDup(NbksOf(Filter(emps, p)))
    decreases |emps|
  {
    if emps != [] {
      var init, last := emps[..|emps| - 1], emps[|emps| - 1];
      assert emps == init + [last];
      assert NbksOf(init) == NbksOf(emps)[..|init|];
      assert NoDup(NbksOf(init));
      FilterKeys(init, p);
      var r := Filter(init, p);
      if p(last) {
        forall k | 0 <= k < |r| ensures NbksOf(r)[k] != last.nbk {
          assert r[k] in init;
          var j :| 0 <= j < |init| && init[j] == r[k];
          assert NbksOf(emps)[j] != NbksOf(emps)[|init|];
        }
        assert NbksOf(r + [last]) == NbksOf(r) + [last.nbk];
        NoDupSnoc(NbksOf(r), last.nbk);
      }
    }
  }

  // ---------------------------------------------------------------------
  // Employee details (app/utils.py:59-108)

  function HasNbk(nbk: string): Employee -> bool {
    (e: Employee) => e.nbk == nbk
  }

  /** `Employee.query.get(nbk)`: the employee with that primary key, if any. */
  function Lookup(db: Db, nbk: string): (r: Option<Employee>)
    ensures r.None? <==> forall e :: e in db.employees ==> e.nbk != nbk
    ensures r.Some? ==> r.value in db.employees && r.value.nbk == nbk
  {
    var hits := Filter(db.employees, HasNbk(nbk));
    if hits == [] then None
    else
      assert hits[0] in hits;
      Some(hits[0])
  }

  /** With the primary key in force, the lookup finds the one employee with
      that NBK. */
  lemma LookupUnique(db: Db, nbk: string, e: Employee)
    requires KeysUnique(db)
    requires e in db.employees && e.nbk == nbk
    ensures Lookup(db, nbk) == Some(e)
  {
    var f := Lookup(db, nbk).value;
    var i :| 0 <= i < |db.employees| && db.employees[i] == e;
    var j :| 0 <= j < |db.employees| && db.employees[j] == f;
    assert i == j;
  }

  function ForEmployee(nbk: string): Feedback -> bool {
    (f: Feedback) => f.employeeNbk == nbk
  }

  /** `Feedback.query.filter_by(employee_nbk=nbk)`, before ordering. */
  function FeedbacksOf(db: Db, nbk: string): (r: seq<Feedback>)
    ensures forall f :: f in r <==> f in db.feedbacks && f.employeeNbk == nbk
  {
    Filter(db.feedbacks, ForEmployee(nbk))
  }

  ghost predicate NewestFirst(fs: seq<Feedback>) {
    forall i, j :: 0 <= i < j < |fs| ==> fs[i].createdAt >= fs[j].createdAt
  }

  /** Places `f` before the first record that is not newer than it. */
  function Insert(f: Feedback, sorted: seq<Feedback>): (r: seq<Feedback>)
    ensures multiset(r) == multiset(sorted) + multiset{f}
    decreases |sorted|
  {
    if sorted == [] then [f]
    else if f.createdAt >= sorted[0].createdAt then [f] + sorted
    else
      assert sorted == [sorted[0]] + sorted[1..];
      [sorted[0]] + Insert(f, sorted[1..])
  }

  /** A record no older than every record of a newest-first list can go in
      front of it. */
  lemma NewestFirstCons(x: Feedback, fs: seq<Feedback>)
    requires NewestFirst(fs)
    requires forall y :: y in fs ==> x.createdAt >= y.createdAt
    ensures NewestFirst([x] + fs)
  {
    var r := [x] + fs;
    forall i, j | 0 <= i < j < |r| ensures r[i].createdAt >= r[j].createdAt {
      assert r[j] == fs[j - 1];
      if i > 0 {
        assert r[i] == fs[i - 1];
      }
    }
  }

  /** Inserting into a newest-first list keeps it newest first. */
  lemma {:induction false} InsertNewestFirst(f: Feedback, sorted: seq<Feedback>)
    requires NewestFirst(sorted)
    ensures NewestFirst(Insert(f, sorted))
    decreases |sorted|
  {
    if sorted != [] {
      if f.createdAt >= sorted[0].createdAt {
        forall y | y in sorted ensures f.createdAt >= y.createdAt {
          var k :| 0 <= k < |sorted| && sorted[k] == y;
        }
        NewestFirstCons(f, sorted);
      } else {
        var tail := sorted[1..];
        var rest := Insert(f, tail);
        InsertNewestFirst(f, tail);
        forall x | x in rest ensures sorted[0].createdAt >= x.createdAt {
          assert x in multiset(rest);
          if x != f {
            assert x in multiset(tail);
            var k :| 0 <= k < |tail| && tail[k] == x;
            assert sorted[k + 1] == x;
          }
        }
        NewestFirstCons(sorted[0], rest);
      }
    }
  }

  /** `order_by(Feedback.created_at.desc())`: newest first. The database's
      order among equal timestamps is not specified; this one is a choice. */
  function SortNewestFirst(fs: seq<Feedback>): (r: seq<Feedback>)
    ensures multiset(r) == multiset(fs)
    ensures NewestFirst(r)
    decreases |fs|
  {
    if fs == [] then []
    else
      assert fs == [fs[0]] + fs[1..];
      InsertNewestFirst(fs[0], SortNewestFirst(fs[1..]));
      Insert(fs[0], SortNewestFirst(fs[1..]))
  }

  function SkillDetailOf(): Skill -> SkillDetail {
    (s: Skill) => SkillDetail(s.skillName, s.skillType, s.empSkillCategory, s.userProficiency,
                              s.expectedCurrentProf, s.gapCurrent, s.expectedFutureProf, s.gapFuture)
  }

  function FeedbackEntryOf(): Feedback -> FeedbackEntry {
    (f: Feedback) => FeedbackEntry(f.givenBy, f.feedbackType, f.content, f.createdAt)
  }

  /** The capitalised keys of the employee dictionary. */
  const DictKeys: set<string> :=
    {"Name", "NBK", "Email", "Role", "FunctionName", "PM/IC", "MgrName", "DLName", "DHName", "GDLName"}

  /** `employee_dict`: each record column under its template key. */
  function EmployeeDict(emp: Employee): (d: map<string, Option<string>>)
    ensures d.Keys == DictKeys
  {
    map["Name" := Some(emp.name), "NBK" := Some(emp.nbk), "Email" := emp.email, "Role" := emp.role,
        "FunctionName" := emp.functionName, "PM/IC" := emp.pmIc, "MgrName" := emp.managerName,
        "DLName" := emp.dlName, "DHName" := emp.dhName, "GDLName" := emp.gdlName]
  }

  /** Reads a record back from a dictionary with the template keys. */
  function FromDict(d: map<string, Option<string>>): Option<Employee> {
    if DictKeys <= d.Keys && d["Name"].Some? && d["NBK"].Some? then
      Some(Employee(d["NBK"].value, d["Name"].value, d["Email"], d["Role"], d["FunctionName"],
                    d["PM/IC"], d["MgrName"], d["DLName"], d["DHName"], d["GDLName"]))
    else None
  }

  /** Every column reaches the dictionary under its own key: the record can
      be read back from it, so two employees never share a dictionary. */
  lemma EmployeeDictRoundTrip(emp: Employee, other: Employee)
    ensures FromDict(EmployeeDict(emp)) == Some(emp)
    ensures EmployeeDict(emp) == EmployeeDict(other) ==> emp == other
  {
    assert FromDict(EmployeeDict(other)) == Some(other);
  }

  /** `get_employee_details_context`: `None` for an unknown NBK; otherwise the
      employee dictionary, one skill entry per skill record (the loop), and
      the feedback entries newest first. */
  method EmployeeDetailsContext(db: Db, nbk: string)
    returns (context: Option<Details<map<string, Option<string>>>>)
    ensures context.None? <==> forall e :: e in db.employees ==> e.nbk != nbk
    ensures context.Some? ==>
      && Lookup(db, nbk).Some?
      && context.value.employee == EmployeeDict(Lookup(db, nbk).value)
      && context.value.skills == Map(SkillsOf(db, nbk), SkillDetailOf())
      && context.value.feedbacks == Map(SortNewestFirst(FeedbacksOf(db, nbk)), FeedbackEntryOf())
  {
    var emp := Lookup(db, nbk);
    if emp.None? {
      return None;
    }
    var skillsQuery := SkillsOf(db, nbk);
    var skills: seq<SkillDetail> := [];
    for i := 0 to |skillsQuery|
      invariant skills == Map(skillsQuery[..i], SkillDetailOf())
    {
      var skill := skillsQuery[i];
      MapPrefix(skillsQuery, SkillDetailOf(), i);
      skills := skills + [SkillDetailOf()(skill)];
    }
    assert skillsQuery[..|skillsQuery|] == skillsQuery;
    var feedbacksQuery := SortNewestFirst(FeedbacksOf(db, nbk));
    var feedbacks := Map(feedbacksQuery, FeedbackEntryOf());
    var employeeDict := EmployeeDict(emp.value);
    context := Some(Details(employeeDict, skills, feedbacks));
  }

  /** The details page lists exactly that employee's skill records, field
      for field, and all of that employee's feedback, newest first. */
  lemma DetailsContents(db: Db, nbk: string)
    ensures var skills := Map(SkillsOf(db, nbk), SkillDetailOf());
      && |skills| == |SkillsOf(db, nbk)|
      && forall i :: 0 <= i < |skills| ==>
        var s := SkillsOf(db, nbk)[i];
        && s in db.skills && s.employeeNbk == nbk
        && skills[i] == SkillDetail(s.skillName, s.skillType, s.empSkillCategory, s.userProficiency,
                                    s.expectedCurrentProf, s.gapCurrent, s.expectedFutureProf, s.gapFuture)
    ensures var sorted := SortNewestFirst(FeedbacksOf(db, nbk));
      var feedbacks := Map(sorted, FeedbackEntryOf());
      && (forall f :: f in sorted <==> f in db.feedbacks && f.employeeNbk == nbk)
      && |feedbacks| == |FeedbacksOf(db, nbk)|
      && (forall i :: 0 <= i < |feedbacks| ==>
            feedbacks[i] == FeedbackEntry(sorted[i].givenBy, sorted[i].feedbackType, sorted[i].content, sorted[i].createdAt))
      && (forall i, j :: 0 <= i < j < |feedbacks| ==> feedbacks[i].date >= feedbacks[j].date)
  {
    var skillsQuery := SkillsOf(db, nbk);
    MapAt(skillsQuery, SkillDetailOf());
    forall i | 0 <= i < |skillsQuery| ensures skillsQuery[i] in db.skills && skillsQuery[i].employeeNbk == nbk {
      assert skillsQuery[i] in skillsQuery;
    }
    var fs := FeedbacksOf(db, nbk);
    var sorted := SortNewestFirst(fs);
    MapAt(sorted, FeedbackEntryOf());
    assert |sorted| == |multiset(sorted)| == |multiset(fs)| == |fs|;
    forall f ensures f in sorted <==> f in fs {
      assert f in sorted <==> f in multiset(sorted);
      assert f in fs <==> f in multiset(fs);
    }
  }
}
