/** app.py: the pandas variant. Every view reads the table `rows`, which the
    source loads once from sample_data.csv into the global `df_data`. */
module App {
  import opened Common
  import opened Table
  import opened Views

  // ---------------------------------------------------------------------
  // Hierarchy resolvers (app.py:23-40)

  /** `get_employees_by_manager`: the rows whose `MgrName` is the argument. */
  function EmployeesByManager(rows: seq<Row>, managerName: string): (r: seq<Row>)
    ensures forall row :: row in r <==> row in rows && row.mgrName == managerName
  {
    Where(rows, MgrName, managerName)
  }

  /** The manager's rows keep their table order. */
  lemma EmployeesByManagerOrder(rows: seq<Row>, managerName: string)
    ensures IsSubseq(EmployeesByManager(rows, managerName), rows)
  {
    FilterSubseq(rows, Is(MgrName, managerName));
  }

  function IsAssigned(): string -> bool {
    (n: string) => n != NotAssigned
  }

  lemma ColumnWhereMember(rows: seq<Row>, parent: Field, name: string, child: Field)
    ensures forall c :: c in Column(Where(rows, parent, name), child) <==>
      exists row :: row in rows && Get(row, parent) == name && Get(row, child) == c
  {
    forall c ensures c in Column(Where(rows, parent, name), child) <==>
      exists row :: row in rows && Get(row, parent) == name && Get(row, child) == c
    {
      ColumnMember(Where(rows, parent, name), child, c);
    }
  }

  /** `df[df[parent] == name][child].unique()` without `'N/A'`: the distinct
      names one level down. */
  function Children(rows: seq<Row>, parent: Field, child: Field, name: string): (r: seq<string>)
    ensures NoDup(r)
    ensures NotAssigned !in r
  {
    FilterNoDup(Unique(Column(Where(rows, parent, name), child)), IsAssigned());
    Filter(Unique(Column(Where(rows, parent, name), child)), IsAssigned())
  }

  /** A name is listed exactly when some row with that parent carries it and
      it is not `'N/A'`. */
  lemma ChildrenMembers(rows: seq<Row>, parent: Field, child: Field, name: string)
    ensures forall c :: c in Children(rows, parent, child, name) <==>
      c != NotAssigned && exists row :: row in rows && Get(row, parent) == name && Get(row, child) == c
  {
    ColumnWhereMember(rows, parent, name, child);
  }

  /** `get_managers_by_dl` */
  function ManagersByDl(rows: seq<Row>, dlName: string): (r: seq<string>)
    ensures NoDup(r) && NotAssigned !in r
  {
    Children(rows, DlName, MgrName, dlName)
  }

  lemma ManagersByDlMembers(rows: seq<Row>, dlName: string)
    ensures forall m :: m in ManagersByDl(rows, dlName) <==>
      m != NotAssigned && exists row :: row in rows && row.dlName == dlName && row.mgrName == m
  {
    ChildrenMembers(rows, DlName, MgrName, dlName);
  }

  /** `get_dls_by_dh` */
  function DlsByDh(rows: seq<Row>, dhName: string): (r: seq<string>)
    ensures NoDup(r) && NotAssigned !in r
  {
    Children(rows, DhName, DlName, dhName)
  }

  lemma DlsByDhMembers(rows: seq<Row>, dhName: string)
    ensures forall d :: d in DlsByDh(rows, dhName) <==>
      d != NotAssigned && exists row :: row in rows && row.dhName == dhName && row.dlName == d
  {
    ChildrenMembers(rows, DhName, DlName, dhName);
  }

  /** `get_dhs_by_gdl` */
  function DhsByGdl(rows: seq<Row>, gdlName: string): (r: seq<string>)
    ensures NoDup(r) && NotAssigned !in r
  {
    Children(rows, GdlName, DhName, gdlName)
  }

  lemma DhsByGdlMembers(rows: seq<Row>, gdlName: string)
    ensures forall d :: d in DhsByGdl(rows, gdlName) <==>
      d != NotAssigned && exists row :: row in rows && row.gdlName == gdlName && row.dhName == d
  {
    ChildrenMembers(rows, GdlName, DhName, gdlName);
  }

  // ---------------------------------------------------------------------
  // Employee summariser (app.py:42-70)

  /** The summary dictionary of one employee, from that employee's rows. */
  function SummaryOf(empSkills: seq<Row>): (r: Summary<string>)
    requires empSkills != []
    ensures r.nbk == empSkills[0].nbk && r.name == empSkills[0].name
    ensures r.totalSkills == |empSkills|
    ensures r.currentGaps <= r.totalSkills && r.futureGaps <= r.totalSkills
  {
    var empData := empSkills[0];
    Summary(empData.name, empData.nbk, empData.role, empData.functionName,
            empData.mgrName, empData.dlName, empData.dhName, empData.gdlName,
            |empSkills|,
            Count(empSkills, Is(GapCurrent, UnderSkilled)),
            Count(empSkills, Is(GapFuture, UnderSkilled)))
  }

  /** The summaries of the given NBKs, in the given order. */
  function SummariesOver(rows: seq<Row>, ids: seq<string>): (r: seq<Summary<string>>)
    requires forall id :: id in ids ==> id in Column(rows, Nbk)
    ensures |r| == |ids|
    decreases |ids|
  {
    if ids == [] then []
    else
      var id := ids[|ids| - 1];
      GroupNonEmpty(rows, Nbk, id);
      SummariesOver(rows, ids[..|ids| - 1]) + [SummaryOf(Where(rows, Nbk, id))]
  }

  lemma {:induction false} SummariesOverAt(rows: seq<Row>, ids: seq<string>)
    requires forall id :: id in ids ==> id in Column(rows, Nbk)
    ensures forall k :: 0 <= k < |ids| ==>
      Where(rows, Nbk, ids[k]) != [] &&
      SummariesOver(rows, ids)[k] == SummaryOf(Where(rows, Nbk, ids[k]))
    decreases |ids|
  {
    if ids != [] {
      var init := ids[..|ids| - 1];
      SummariesOverAt(rows, init);
      forall k | 0 <= k < |ids|
        ensures Where(rows, Nbk, ids[k]) != []
        ensures SummariesOver(rows, ids)[k] == SummaryOf(Where(rows, Nbk, ids[k]))
      {
        GroupNonEmpty(rows, Nbk, ids[k]);
        if k < |init| {
          assert ids[k] == init[k];
        }
      }
    }
  }

  /** One step of the summariser's loop. */
  lemma SummariesOverPrefix(rows: seq<Row>, ids: seq<string>, k: nat)
    requires forall id :: id in ids ==> id in Column(rows, Nbk)
    requires k < |ids|
    ensures Where(rows, Nbk, ids[k]) != []
    ensures SummariesOver(rows, ids[..k + 1]) ==
      SummariesOver(rows, ids[..k]) + [SummaryOf(Where(rows, Nbk, ids[k]))]
  {
    GroupNonEmpty(rows, Nbk, ids[k]);
    assert ids[..k + 1][..k] == ids[..k];
  }

  lemma SummaryOfNbk(rows: seq<Row>, id: string)
    requires Where(rows, Nbk, id) != []
    ensures SummaryOf(Where(rows, Nbk, id)).nbk == id
  {
    var w := Where(rows, Nbk, id);
    assert w[0] in w;
  }

  /** Each summary carries the NBK it was built for. */
  lemma SummariesOverNbks(rows: seq<Row>, ids: seq<string>)
    requires forall id :: id in ids ==> id in Column(rows, Nbk)
    ensures Nbks(SummariesOver(rows, ids)) == ids
  {
    var s := SummariesOver(rows, ids);
    SummariesOverAt(rows, ids);
    forall k | 0 <= k < |ids| ensures Nbks(s)[k] == ids[k] {
      SummaryOfNbk(rows, ids[k]);
    }
  }

  /** The whole result of `get_employee_summary`: `[]` on an empty table,
      otherwise one summary per distinct NBK, in the order of `unique()`. */
  function SummaryTable(rows: seq<Row>): (r: seq<Summary<string>>)
    ensures rows == [] ==> r == []
    ensures Nbks(r) == Unique(Column(rows, Nbk))
  {
    if rows == [] then []
    else
      var ids := Unique(Column(rows, Nbk));
      SummariesOverNbks(rows, ids);
      SummariesOver(rows, ids)
  }

  /** Each summary counts that employee's rows and, among them, the
      `'Under-Skilled'` verdicts of each kind; neither count exceeds the
      number of rows. */
  lemma SummaryTableCounts(rows: seq<Row>)
    ensures var r := SummaryTable(rows);
      forall k :: 0 <= k < |r| ==>
        && r[k].totalSkills == |Where(rows, Nbk, r[k].nbk)|
        && r[k].currentGaps == Count(Where(rows, Nbk, r[k].nbk), Is(GapCurrent, UnderSkilled))
        && r[k].futureGaps == Count(Where(rows, Nbk, r[k].nbk), Is(GapFuture, UnderSkilled))
        && r[k].currentGaps <= r[k].totalSkills
        && r[k].futureGaps <= r[k].totalSkills
  {
    if rows != [] {
      var ids := Unique(Column(rows, Nbk));
      SummariesOverAt(rows, ids);
      SummariesOverNbks(rows, ids);
      var r := SummaryTable(rows);
      forall k | 0 <= k < |r| ensures r[k].nbk == ids[k] {
        assert Nbks(r)[k] == r[k].nbk;
      }
    }
  }

  /** One summary per distinct NBK of the table, and no other. */
  lemma SummaryTableKeys(rows: seq<Row>)
    ensures NoDup(Nbks(SummaryTable(rows)))
    ensures forall n :: n in Nbks(SummaryTable(rows)) <==> exists row :: row in rows && row.nbk == n
  {
    forall n ensures n in Column(rows, Nbk) <==> exists row :: row in rows && row.nbk == n {
      ColumnMember(rows, Nbk, n);
    }
  }

  /** The summaries come in the order in which their NBKs first occur. */
  lemma SummaryTableOrder(rows: seq<Row>)
    ensures var ns := Nbks(SummaryTable(rows));
      forall i, j :: 0 <= i < j < |ns| ==>
        FirstIndex(Column(rows, Nbk), ns[i]) < FirstIndex(Column(rows, Nbk), ns[j])
  {
    UniqueOrder(Column(rows, Nbk));
  }

  lemma {:induction false} SummariesOverSums(rows: seq<Row>, ids: seq<string>)
    requires forall id :: id in ids ==> id in Column(rows, Nbk)
    ensures SumCurrentGaps(SummariesOver(rows, ids)) == GroupSum(rows, ids, Is(GapCurrent, UnderSkilled))
    ensures SumTotalSkills(SummariesOver(rows, ids)) == GroupSum(rows, ids, AnyRow())
    decreases |ids|
  {
    if ids != [] {
      var init, id := ids[..|ids| - 1], ids[|ids| - 1];
      SummariesOverSums(rows, init);
      GroupNonEmpty(rows, Nbk, id);
      var s := SummariesOver(rows, ids);
      assert s[..|s| - 1] == SummariesOver(rows, init);
      CountAnyRow(Where(rows, Nbk, id));
    }
  }

  /** The per-employee counts add up to the counts over the whole table:
      every row is counted under exactly one summary. */
  lemma SummaryTableTotals(rows: seq<Row>)
    ensures SumCurrentGaps(SummaryTable(rows)) == Count(rows, Is(GapCurrent, UnderSkilled))
    ensures SumTotalSkills(SummaryTable(rows)) == |rows|
  {
    if rows != [] {
      var ids := Unique(Column(rows, Nbk));
      SummariesOverSums(rows, ids);
      forall row | row in rows ensures row.nbk in ids {
        ColumnMember(rows, Nbk, row.nbk);
      }
      Partition(rows, ids, Is(GapCurrent, UnderSkilled));
      Partition(rows, ids, AnyRow());
      CountAnyRow(rows);
    }
  }

  /** `get_employee_summary`: the loop over the unique NBKs. */
  method EmployeeSummary(dfSubset: seq<Row>) returns (employees: seq<Summary<string>>)
    ensures employees == SummaryTable(dfSubset)
  {
    if dfSubset == [] {
      return [];
    }
    employees := [];
    var ids := Unique(Column(dfSubset, Nbk));
    for k := 0 to |ids|
      invariant employees == SummariesOver(dfSubset, ids[..k])
    {
      var nbk := ids[k];
      SummariesOverPrefix(dfSubset, ids, k);
      var empSkills := Where(dfSubset, Nbk, nbk);
      employees := employees + [SummaryOf(empSkills)];
    }
    assert ids[..|ids|] == ids;
  }

  // ---------------------------------------------------------------------
  // Employee details (app.py:72-99)

  function DetailOf(skill: Row): SkillDetail {
    SkillDetail(skill.skillName, skill.skillType, skill.empSkillCategory, skill.userProficiency,
                skill.expectedCurrentProf, skill.gapCurrent, skill.expectedFutureProf, skill.gapFuture)
  }

  lemma WhereEmpty(rows: seq<Row>, f: Field, v: string)
    ensures Where(rows, f, v) == [] <==> forall row :: row in rows ==> Get(row, f) != v
  {
    var w := Where(rows, f, v);
    if w != [] {
      assert w[0] in w;
    }
  }

  /** `get_employee_details_context`: `None` for an unknown NBK, otherwise the
      employee's first row, one skill entry per row, and the (always empty)
      mock feedback list. */
  method EmployeeDetailsContext(rows: seq<Row>, nbk: string) returns (context: Option<Details<Row>>)
    ensures context.None? <==> forall row :: row in rows ==> row.nbk != nbk
    ensures context.Some? ==>
      var empSkills := Where(rows, Nbk, nbk);
      && empSkills != []
      && context.value.employee == empSkills[0]
      && context.value.employee.nbk == nbk
      && |context.value.skills| == |empSkills|
      && (forall i :: 0 <= i < |empSkills| ==> context.value.skills[i] == DetailOf(empSkills[i]))
      && context.value.feedbacks == []
  {
    var empSkills := Where(rows, Nbk, nbk);
    WhereEmpty(rows, Nbk, nbk);
    if empSkills == [] {
      return None;
    }
    var empInfo := empSkills[0];
    assert empInfo in empSkills;
    var skills: seq<SkillDetail> := [];
    for i := 0 to |empSkills|
      invariant |skills| == i
      invariant forall j :: 0 <= j < i ==> skills[j] == DetailOf(empSkills[j])
    {
      var skill := empSkills[i];
      skills := skills + [SkillDetail(skill.skillName, skill.skillType, skill.empSkillCategory,
                                      skill.userProficiency, skill.expectedCurrentProf, skill.gapCurrent,
                                      skill.expectedFutureProf, skill.gapFuture)];
    }
    var feedbacks: seq<FeedbackEntry> := [];
    context := Some(Details(empInfo, skills, feedbacks));
  }

  // ---------------------------------------------------------------------
  // Employee views (app.py:396-481)

  /** One entry of the employee dashboard's `skills` list. */
  datatype SkillView = SkillView(
    name: string, currentProf: string, expectedProf: string, gapCurrent: string, gapFuture: string)

  function SkillViewOf(): Row -> SkillView {
    (skill: Row) => SkillView(skill.skillName, skill.userProficiency, skill.expectedCurrentProf,
                              skill.gapCurrent, skill.gapFuture)
  }

  /** The employee dashboard, or the "Employee not found" (404) outcome. */
  datatype EmployeeView =
    | EmployeeNotFound
    | EmployeeView(employee: Row, skills: seq<SkillView>, totalSkills: nat, currentGaps: nat, futureGaps: nat)

  /** The loop of `employee_dashboard`: one skill entry per row, and the two
      gap counters. */
  method SkillLoop(empDf: seq<Row>) returns (skills: seq<SkillView>, currentGaps: nat, futureGaps: nat)
    ensures skills == Map(empDf, SkillViewOf())
    ensures currentGaps == Count(empDf, Is(GapCurrent, UnderSkilled))
    ensures futureGaps == Count(empDf, Is(GapFuture, UnderSkilled))
  {
    skills := [];
    currentGaps, futureGaps := 0, 0;
    for i := 0 to |empDf|
      invariant skills == Map(empDf[..i], SkillViewOf())
      invariant currentGaps == Count(empDf[..i], Is(GapCurrent, UnderSkilled))
      invariant futureGaps == Count(empDf[..i], Is(GapFuture, UnderSkilled))
    {
      var skill := empDf[i];
      MapPrefix(empDf, SkillViewOf(), i);
      CountPrefix(empDf, Is(GapCurrent, UnderSkilled), i);
      CountPrefix(empDf, Is(GapFuture, UnderSkilled), i);
      skills := skills + [SkillView(skill.skillName, skill.userProficiency, skill.expectedCurrentProf,
                                    skill.gapCurrent, skill.gapFuture)];
      if skill.gapCurrent == UnderSkilled {
        currentGaps := currentGaps + 1;
      }
      if skill.gapFuture == UnderSkilled {
        futureGaps := futureGaps + 1;
      }
    }
    assert empDf[..|empDf|] == empDf;
  }

  /** `employee_dashboard`: the 404 outcome for an NBK without rows;
      otherwise the employee's first row, one skill entry per row and the two
      gap counters, neither above the number of skills. */
  method EmployeeDashboard(rows: seq<Row>, nbk: string) returns (view: EmployeeView)
    ensures view.EmployeeNotFound? <==> forall row :: row in rows ==> row.nbk != nbk
    ensures view.EmployeeView? ==>
      var empDf := Where(rows, Nbk, nbk);
      && empDf != []
      && view.employee == empDf[0]
      && view.employee.nbk == nbk
      && view.skills == Map(empDf, SkillViewOf())
      && view.totalSkills == |view.skills| == |empDf|
      && view.currentGaps == Count(empDf, Is(GapCurrent, UnderSkilled))
      && view.futureGaps == Count(empDf, Is(GapFuture, UnderSkilled))
      && view.currentGaps <= view.totalSkills
      && view.futureGaps <= view.totalSkills
  {
    var empDf := Where(rows, Nbk, nbk);
    WhereEmpty(rows, Nbk, nbk);
    if empDf == [] {
      return EmployeeNotFound;
    }
    var empInfo := empDf[0];
    assert empInfo in empDf;
    var skills, currentGaps, futureGaps := SkillLoop(empDf);
    view := EmployeeView(empInfo, skills, |skills|, currentGaps, futureGaps);
  }

  /** One entry of `gap_skills` or `future_gap_skills`. */
  datatype PlanItem = PlanItem(name: string, current: string, target: string)

  function CurrentItemOf(): Row -> PlanItem {
    (skill: Row) => PlanItem(skill.skillName, skill.userProficiency, skill.expectedCurrentProf)
  }

  function FutureItemOf(): Row -> PlanItem {
    (skill: Row) => PlanItem(skill.skillName, skill.userProficiency, skill.expectedFutureProf)
  }

  /** The set `current_gap_names`. */
  function GapNames(skillsWithGaps: seq<Row>): set<string> {
    set skill | skill in skillsWithGaps :: skill.skillName
  }

  /** The mask for `future_with_gaps`: a future gap whose skill is not named
      in `names`. */
  function FutureGapOutside(names: set<string>): Row -> bool {
    (skill: Row) => skill.gapFuture == UnderSkilled && skill.skillName !in names
  }

  /** `skills_with_gaps` */
  function CurrentGapRows(empDf: seq<Row>): seq<Row> {
    Where(empDf, GapCurrent, UnderSkilled)
  }

  /** `future_with_gaps` */
  function FutureGapRows(empDf: seq<Row>): seq<Row> {
    Filter(empDf, FutureGapOutside(GapNames(CurrentGapRows(empDf))))
  }

  /** The upskill plan, or the "Employee not found" (404) outcome. */
  datatype UpskillView =
    | UpskillNotFound
    | UpskillView(employee: Row, gapSkills: seq<PlanItem>, futureGapSkills: seq<PlanItem>)

  lemma ItemNames(skills: seq<Row>, f: Row -> PlanItem)
    requires forall skill :: f(skill).name == skill.skillName
    ensures (set item | item in Map(skills, f) :: item.name) == GapNames(skills)
  {
    var items := Map(skills, f);
    MapAt(skills, f);
    forall n | n in GapNames(skills) ensures n in (set item | item in items :: item.name) {
      var skill :| skill in skills && skill.skillName == n;
      var k :| 0 <= k < |skills| && skills[k] == skill;
      assert items[k] in items;
    }
  }

  /** `employee_upskill_plan`: the current-gap items, then the future-gap
      items whose skill is not already a current gap. */
  method UpskillPlan(rows: seq<Row>, nbk: string) returns (view: UpskillView)
    ensures view.UpskillNotFound? <==> forall row :: row in rows ==> row.nbk != nbk
    ensures view.UpskillView? ==>
      var empDf := Where(rows, Nbk, nbk);
      && empDf != []
      && view.employee == empDf[0]
      && view.employee.nbk == nbk
      && view.gapSkills == Map(CurrentGapRows(empDf), CurrentItemOf())
      && view.futureGapSkills == Map(FutureGapRows(empDf), FutureItemOf())
  {
    var empDf := Where(rows, Nbk, nbk);
    WhereEmpty(rows, Nbk, nbk);
    if empDf == [] {
      return UpskillNotFound;
    }
    var empInfo := empDf[0];
    assert empInfo in empDf;
    var skillsWithGaps := Where(empDf, GapCurrent, UnderSkilled);
    var gapSkills: seq<PlanItem> := [];
    for i := 0 to |skillsWithGaps|
      invariant gapSkills == Map(skillsWithGaps[..i], CurrentItemOf())
    {
      var skill := skillsWithGaps[i];
      MapPrefix(skillsWithGaps, CurrentItemOf(), i);
      gapSkills := gapSkills + [PlanItem(skill.skillName, skill.userProficiency, skill.expectedCurrentProf)];
    }
    assert skillsWithGaps[..|skillsWithGaps|] == skillsWithGaps;
    var currentGapNames := set s | s in gapSkills :: s.name;
    ItemNames(skillsWithGaps, CurrentItemOf());
    var futureWithGaps := Filter(empDf, FutureGapOutside(currentGapNames));
    var futureGapSkills: seq<PlanItem> := [];
    for i := 0 to |futureWithGaps|
      invariant futureGapSkills == Map(futureWithGaps[..i], FutureItemOf())
    {
      var skill := futureWithGaps[i];
      MapPrefix(futureWithGaps, FutureItemOf(), i);
      futureGapSkills := futureGapSkills + [PlanItem(skill.skillName, skill.userProficiency, skill.expectedFutureProf)];
    }
    assert futureWithGaps[..|futureWithGaps|] == futureWithGaps;
    view := UpskillView(empInfo, gapSkills, futureGapSkills);
  }

  /** `gap_skills` is drawn from exactly the current-gap rows, and its target
      is the expected current proficiency. */
  lemma CurrentGapItems(empDf: seq<Row>)
    ensures forall skill :: skill in CurrentGapRows(empDf) <==> skill in empDf && skill.gapCurrent == UnderSkilled
    ensures var items := Map(CurrentGapRows(empDf), CurrentItemOf());
      forall i :: 0 <= i < |items| ==>
        items[i].name == CurrentGapRows(empDf)[i].skillName &&
        items[i].target == CurrentGapRows(empDf)[i].expectedCurrentProf
  {
    MapAt(CurrentGapRows(empDf), CurrentItemOf());
  }

  /** `future_with_gaps` holds exactly the future-gap rows whose skill has no
      current gap for this employee; its target is the expected future
      proficiency. */
  lemma FutureGapItems(empDf: seq<Row>)
    ensures forall skill :: skill in FutureGapRows(empDf) <==>
      && skill in empDf
      && skill.gapFuture == UnderSkilled
      && !(exists c :: c in empDf && c.gapCurrent == UnderSkilled && c.skillName == skill.skillName)
    ensures var items := Map(FutureGapRows(empDf), FutureItemOf());
      forall i :: 0 <= i < |items| ==>
        items[i].name == FutureGapRows(empDf)[i].skillName &&
        items[i].target == FutureGapRows(empDf)[i].expectedFutureProf
  {
    var current := CurrentGapRows(empDf);
    forall skill: Row ensures skill.skillName in GapNames(current) <==>
      exists c :: c in empDf && c.gapCurrent == UnderSkilled && c.skillName == skill.skillName
    {
      if exists c :: c in empDf && c.gapCurrent == UnderSkilled && c.skillName == skill.skillName {
        var c :| c in empDf && c.gapCurrent == UnderSkilled && c.skillName == skill.skillName;
        assert c in current;
      }
    }
    MapAt(FutureGapRows(empDf), FutureItemOf());
  }

  /** No skill is planned both as a current and as a future gap. */
  lemma UpskillDisjoint(empDf: seq<Row>)
    ensures var gapSkills := Map(CurrentGapRows(empDf), CurrentItemOf());
      var futureGapSkills := Map(FutureGapRows(empDf), FutureItemOf());
      forall i, j :: 0 <= i < |gapSkills| && 0 <= j < |futureGapSkills| ==>
        gapSkills[i].name != futureGapSkills[j].name
  {
    var current, future := CurrentGapRows(empDf), FutureGapRows(empDf);
    MapAt(current, CurrentItemOf());
    MapAt(future, FutureItemOf());
    forall i, j | 0 <= i < |current| && 0 <= j < |future|
      ensures current[i].skillName != future[j].skillName
    {
      assert current[i] in current;
      assert future[j] in future;
    }
  }

  // ---------------------------------------------------------------------
  // Manager views (app.py:111-161)

  /** `manager_dashboard`: the manager's summaries, narrowed by the search and
      the exact NBK filter; `allEmployees` is the unfiltered list. */
  method ManagerDashboard(rows: seq<Row>, managerName: string, search: string, employeeFilter: string)
    returns (employees: seq<Summary<string>>, allEmployees: seq<Summary<string>>)
    ensures allEmployees == SummaryTable(EmployeesByManager(rows, managerName))
    ensures employees == FilterEmployees(allEmployees, search, employeeFilter)
  {
    var employeesDf := EmployeesByManager(rows, managerName);
    employees := EmployeeSummary(employeesDf);
    var term := Lower(search);
    if term != "" {
      employees := Filter(employees, SearchPred(term));
    }
    if employeeFilter != "" {
      employees := Filter(employees, NbkPred(employeeFilter));
    }
    allEmployees := EmployeeSummary(employeesDf);
  }

  datatype ManagerReport = ManagerReport(employees: seq<Summary<string>>, totalSkills: nat, currentGaps: nat)

  /** `manager_reports`: the team's skill-row count and current-gap count,
      which agree with the sums over the team's summaries. */
  method ManagerReports(rows: seq<Row>, managerName: string) returns (report: ManagerReport)
    ensures report.employees == SummaryTable(EmployeesByManager(rows, managerName))
    ensures report.totalSkills == |EmployeesByManager(rows, managerName)|
    ensures report.currentGaps == Count(EmployeesByManager(rows, managerName), Is(GapCurrent, UnderSkilled))
    ensures report.currentGaps <= report.totalSkills
    ensures report.totalSkills == SumTotalSkills(report.employees)
    ensures report.currentGaps == SumCurrentGaps(report.employees)
  {
    var employeesDf := EmployeesByManager(rows, managerName);
    var employees := EmployeeSummary(employeesDf);
    var totalSkills := |employeesDf|;
    var currentGaps := Count(employeesDf, Is(GapCurrent, UnderSkilled));
    SummaryTableTotals(employeesDf);
    report := ManagerReport(employees, totalSkills, currentGaps);
  }

  // ---------------------------------------------------------------------
  // Delivery-lead views (app.py:178-239)

  /** The entry for one manager, from the manager's rows and their
      summaries: the NBK and role of the first row, or empty. */
  function ManagerEntryFrom(mgr: string, empDf: seq<Row>, employees: seq<Summary<string>>): ManagerEntry<string> {
    ManagerEntry(mgr,
                 if empDf != [] then empDf[0].nbk else "",
                 if empDf != [] then empDf[0].role else "",
                 employees, |employees|, SumCurrentGaps(employees))
  }

  /** The dictionary the delivery-lead dashboard builds for one manager: one
      summary per distinct NBK under the manager, and the NBK and role of a
      row of that manager, or empty when the manager has no rows. */
  function ManagerEntryFor(rows: seq<Row>, mgr: string): (r: ManagerEntry<string>)
    ensures r.name == mgr && r.totalReports == |r.employees|
    ensures Nbks(r.employees) == Unique(Column(EmployeesByManager(rows, mgr), Nbk))
    ensures EmployeesByManager(rows, mgr) == [] ==> r.nbk == "" && r.role == "" && r.employees == []
    ensures EmployeesByManager(rows, mgr) != [] ==>
      exists row :: row in rows && row.mgrName == mgr && row.nbk == r.nbk && row.role == r.role
  {
    var empDf := EmployeesByManager(rows, mgr);
    assert empDf != [] ==> empDf[0] in empDf;
    ManagerEntryFrom(mgr, empDf, SummaryTable(empDf))
  }

  function ManagerEntryOf(rows: seq<Row>): string -> ManagerEntry<string> {
    (mgr: string) => ManagerEntryFor(rows, mgr)
  }

  /** A manager entry's totals, stated against the raw table: the number of
      distinct NBKs reporting to the manager, and the number of their skill
      rows whose current verdict is `'Under-Skilled'`. */
  lemma ManagerEntryTotals(rows: seq<Row>, mgr: string)
    ensures var e := ManagerEntryFor(rows, mgr);
      && e.name == mgr
      && e.totalReports == |ValuesWhere(rows, MgrName, mgr, Nbk)|
      && e.totalGaps == Count(EmployeesByManager(rows, mgr), Is(GapCurrent, UnderSkilled))
      && e.totalGaps <= SumTotalSkills(e.employees)
  {
    var empDf := EmployeesByManager(rows, mgr);
    SummaryTableTotals(empDf);
    DistinctCount(rows, MgrName, mgr, Nbk);
    assert |SummaryTable(empDf)| == |Nbks(SummaryTable(empDf))|;
  }

  /** `delivery_lead_dashboard`: one entry per manager of the delivery lead,
      then the exact manager-name filter. The `employee` and `search`
      parameters are read but do not narrow the result. */
  method DeliveryLeadDashboard(rows: seq<Row>, dlName: string, managerFilter: string,
                               employeeFilter: string, search: string)
    returns (managers: seq<ManagerEntry<string>>, allManagers: seq<string>)
    ensures allManagers == ManagersByDl(rows, dlName)
    ensures managers == FilterManagers(Map(allManagers, ManagerEntryOf(rows)), managerFilter)
  {
    allManagers := ManagersByDl(rows, dlName);
    var managersData: seq<ManagerEntry<string>> := [];
    for i := 0 to |allManagers|
      invariant managersData == Map(allManagers[..i], ManagerEntryOf(rows))
    {
      var mgr := allManagers[i];
      var empDf := EmployeesByManager(rows, mgr);
      var employees := EmployeeSummary(empDf);
      MapPrefix(allManagers, ManagerEntryOf(rows), i);
      managersData := managersData + [ManagerEntryFrom(mgr, empDf, employees)];
    }
    assert allManagers[..|allManagers|] == allManagers;
    managers := managersData;
    if managerFilter != "" {
      managers := Filter(managers, NamePred(managerFilter));
    }
  }

  /** A non-empty manager filter leaves exactly the entry of that manager when
      the manager is under the delivery lead, and nothing otherwise. */
  lemma DeliveryLeadFilterResult(rows: seq<Row>, dlName: string, managerFilter: string)
    requires managerFilter != ""
    ensures var names := ManagersByDl(rows, dlName);
      FilterManagers(Map(names, ManagerEntryOf(rows)), managerFilter) ==
        if managerFilter in names then [ManagerEntryFor(rows, managerFilter)] else []
  {
    FilterEntriesByName(ManagersByDl(rows, dlName), ManagerEntryOf(rows), managerFilter);
  }

  datatype DlReport = DlReport(totalEmployees: nat, totalSkills: nat, currentGaps: nat)

  /** `delivery_lead_reports`: distinct employees, skill rows and current gaps
      among the delivery lead's rows. */
  function DeliveryLeadReports(rows: seq<Row>, dlName: string): (r: DlReport)
    ensures r.totalEmployees == |ValuesWhere(rows, DlName, dlName, Nbk)|
    ensures r.totalSkills == |Where(rows, DlName, dlName)|
    ensures r.currentGaps == Count(Where(rows, DlName, dlName), Is(GapCurrent, UnderSkilled))
    ensures r.totalEmployees <= r.totalSkills
    ensures r.currentGaps <= r.totalSkills
  {
    var dlDf := Where(rows, DlName, dlName);
    DistinctCount(rows, DlName, dlName, Nbk);
    DlReport(|Unique(Column(dlDf, Nbk))|, |dlDf|, Count(dlDf, Is(GapCurrent, UnderSkilled)))
  }

  // ---------------------------------------------------------------------
  // Delivery-head views (app.py:256-310)

  /** A manager's team on the delivery-head dashboard: one summary per
      distinct NBK under the manager, and their number. */
  function TeamFor(rows: seq<Row>, mgr: string): (r: ManagerTeam<string>)
    ensures r.name == mgr && r.totalReports == |r.employees|
    ensures Nbks(r.employees) == Unique(Column(EmployeesByManager(rows, mgr), Nbk))
  {
    TeamFrom(mgr, SummaryTable(EmployeesByManager(rows, mgr)))
  }

  function TeamOf(rows: seq<Row>): string -> ManagerTeam<string> {
    (mgr: string) => TeamFor(rows, mgr)
  }

  /** The dictionary the delivery-head dashboard builds for one delivery
      lead: one team per manager of the lead. */
  function DlEntryFor(rows: seq<Row>, dl: string): (r: DlEntry<string>)
    ensures r.name == dl && r.totalManagers == |r.managers| == |ManagersByDl(rows, dl)|
  {
    DlEntryFrom(dl, Map(ManagersByDl(rows, dl), TeamOf(rows)))
  }

  function DlEntryOf(rows: seq<Row>): string -> DlEntry<string> {
    (dl: string) => DlEntryFor(rows, dl)
  }

  /** A delivery-lead entry lists that lead's managers one-to-one, each
      with the number of distinct NBKs reporting to them. */
  lemma DlEntryTeams(rows: seq<Row>, dl: string)
    ensures var e := DlEntryFor(rows, dl);
      && e.name == dl
      && |e.managers| == e.totalManagers == |ManagersByDl(rows, dl)|
      && forall i :: 0 <= i < |e.managers| ==>
        && e.managers[i].name == ManagersByDl(rows, dl)[i]
        && e.managers[i].totalReports == |e.managers[i].employees|
        && e.managers[i].totalReports == |ValuesWhere(rows, MgrName, e.managers[i].name, Nbk)|
  {
    var names := ManagersByDl(rows, dl);
    var e := DlEntryFor(rows, dl);
    MapAt(names, TeamOf(rows));
    forall i | 0 <= i < |e.managers|
      ensures e.managers[i] == TeamFor(rows, names[i])
      ensures e.managers[i].totalReports == |ValuesWhere(rows, MgrName, names[i], Nbk)|
    {
      var mgr := names[i];
      assert e.managers[i] == TeamOf(rows)(mgr);
      DistinctCount(rows, MgrName, mgr, Nbk);
      var st := SummaryTable(EmployeesByManager(rows, mgr));
      assert |st| == |Nbks(st)|;
    }
  }

  /** A delivery lead's employee total is the headcount of the lists shown
      under their managers; a lead without managers has zero of both. */
  lemma DlEntryHeadcount(rows: seq<Row>, dl: string)
    ensures var e := DlEntryFor(rows, dl);
      && e.totalEmployees == |AllEmployees(e.managers)|
      && (ManagersByDl(rows, dl) == [] ==> e.totalManagers == 0 && e.totalEmployees == 0)
  {
    var names := ManagersByDl(rows, dl);
    var teams := Map(names, TeamOf(rows));
    assert DlEntryFor(rows, dl) == DlEntryFrom(dl, teams);
    MapAt(names, TeamOf(rows));
    forall i | 0 <= i < |teams| ensures teams[i].totalReports == |teams[i].employees| {
      assert teams[i] == TeamFor(rows, names[i]);
    }
    SumReportsIsHeadcount(teams);
  }

  /** The inner loop of `delivery_head_dashboard`: one team per manager. */
  method Teams(rows: seq<Row>, managerNames: seq<string>) returns (managersData: seq<ManagerTeam<string>>)
    ensures managersData == Map(managerNames, TeamOf(rows))
  {
    managersData := [];
    for k := 0 to |managerNames|
      invariant managersData == Map(managerNames[..k], TeamOf(rows))
    {
      var mgr := managerNames[k];
      var empDf := EmployeesByManager(rows, mgr);
      var employees := EmployeeSummary(empDf);
      MapPrefix(managerNames, TeamOf(rows), k);
      managersData := managersData + [TeamFrom(mgr, employees)];
    }
    assert managerNames[..|managerNames|] == managerNames;
  }

  /** `delivery_head_dashboard`: the outer loop, over the delivery leads. */
  method DeliveryHeadDashboard(rows: seq<Row>, dhName: string) returns (dlsData: seq<DlEntry<string>>)
    ensures dlsData == Map(DlsByDh(rows, dhName), DlEntryOf(rows))
  {
    var dlNames := DlsByDh(rows, dhName);
    dlsData := [];
    for i := 0 to |dlNames|
      invariant dlsData == Map(dlNames[..i], DlEntryOf(rows))
    {
      var dl := dlNames[i];
      var managersData := Teams(rows, ManagersByDl(rows, dl));
      MapPrefix(dlNames, DlEntryOf(rows), i);
      dlsData := dlsData + [DlEntryFrom(dl, managersData)];
    }
    assert dlNames[..|dlNames|] == dlNames;
  }

  /** `delivery_head_reports`: the number of distinct NBKs among the delivery
      head's rows. */
  function DeliveryHeadReports(rows: seq<Row>, dhName: string): (totalEmployees: nat)
    ensures totalEmployees == |ValuesWhere(rows, DhName, dhName, Nbk)|
    ensures totalEmployees <= |Where(rows, DhName, dhName)|
  {
    DistinctCount(rows, DhName, dhName, Nbk);
    |Unique(Column(Where(rows, DhName, dhName), Nbk))|
  }

  // ---------------------------------------------------------------------
  // Group-delivery-lead view (app.py:327-364)

  function ManagerNodeOf(rows: seq<Row>): string -> ManagerNode<string> {
    (mgr: string) => ManagerNode(mgr, SummaryTable(EmployeesByManager(rows, mgr)))
  }

  function DlNodeOf(rows: seq<Row>): string -> DlNode<string> {
    (dl: string) => DlNode(dl, Map(ManagersByDl(rows, dl), ManagerNodeOf(rows)))
  }

  function DhNodeOf(rows: seq<Row>): string -> DhNode<string> {
    (dh: string) => DhNode(dh, Map(DlsByDh(rows, dh), DlNodeOf(rows)))
  }

  /** The tree under one group delivery lead: one node per delivery head. */
  function GdlTree(rows: seq<Row>, gdl: string): (r: seq<DhNode<string>>)
    ensures |r| == |DhsByGdl(rows, gdl)|
  {
    Map(DhsByGdl(rows, gdl), DhNodeOf(rows))
  }

  /** The tree's top level lists the group delivery lead's delivery heads,
      none of them `'N/A'`, each with the subtree built for it. */
  lemma GdlTreeHeads(rows: seq<Row>, gdl: string)
    ensures var t := GdlTree(rows, gdl);
      && |t| == |DhsByGdl(rows, gdl)|
      && forall i :: 0 <= i < |t| ==>
        && t[i].name == DhsByGdl(rows, gdl)[i]
        && t[i].name != NotAssigned
        && t[i] == DhNodeOf(rows)(t[i].name)
  {
    var names := DhsByGdl(rows, gdl);
    MapAt(names, DhNodeOf(rows));
    forall i | 0 <= i < |names| ensures names[i] != NotAssigned {
      assert names[i] in names;
    }
  }

  /** A delivery-head node lists that head's delivery leads, none of them
      `'N/A'`, each with the node built for it. */
  lemma DhNodeLeads(rows: seq<Row>, dh: string)
    ensures var n := DhNodeOf(rows)(dh);
      && n.name == dh
      && |n.dls| == |DlsByDh(rows, dh)|
      && forall j :: 0 <= j < |n.dls| ==>
        && n.dls[j].name == DlsByDh(rows, dh)[j]
        && n.dls[j].name != NotAssigned
        && n.dls[j] == DlNodeOf(rows)(n.dls[j].name)
  {
    var names := DlsByDh(rows, dh);
    MapAt(names, DlNodeOf(rows));
    forall j | 0 <= j < |names| ensures names[j] != NotAssigned {
      assert names[j] in names;
    }
  }

  /** A delivery-lead node lists that lead's managers, none of them `'N/A'`,
      each with that manager's employee summaries. */
  lemma DlNodeManagers(rows: seq<Row>, dl: string)
    ensures var n := DlNodeOf(rows)(dl);
      && n.name == dl
      && |n.managers| == |ManagersByDl(rows, dl)|
      && forall k :: 0 <= k < |n.managers| ==>
        && n.managers[k].name == ManagersByDl(rows, dl)[k]
        && n.managers[k].name != NotAssigned
        && n.managers[k].employees == SummaryTable(EmployeesByManager(rows, n.managers[k].name))
  {
    var names := ManagersByDl(rows, dl);
    MapAt(names, ManagerNodeOf(rows));
    forall k | 0 <= k < |names| ensures names[k] != NotAssigned {
      assert names[k] in names;
    }
  }

  /** The innermost loop of `group_delivery_lead_dashboard`: one node per
      manager. */
  method ManagerNodes(rows: seq<Row>, managerNames: seq<string>) returns (managersData: seq<ManagerNode<string>>)
    ensures managersData == Map(managerNames, ManagerNodeOf(rows))
  {
    managersData := [];
    for m := 0 to |managerNames|
      invariant managersData == Map(managerNames[..m], ManagerNodeOf(rows))
    {
      var mgr := managerNames[m];
      var empDf := EmployeesByManager(rows, mgr);
      var employees := EmployeeSummary(empDf);
      MapPrefix(managerNames, ManagerNodeOf(rows), m);
      managersData := managersData + [ManagerNode(mgr, employees)];
    }
    assert managerNames[..|managerNames|] == managerNames;
  }

  /** The middle loop: one node per delivery lead. */
  method DlNodes(rows: seq<Row>, dlNames: seq<string>) returns (dlsData: seq<DlNode<string>>)
    ensures dlsData == Map(dlNames, DlNodeOf(rows))
  {
    dlsData := [];
    for k := 0 to |dlNames|
      invariant dlsData == Map(dlNames[..k], DlNodeOf(rows))
    {
      var dl := dlNames[k];
      var managersData := ManagerNodes(rows, ManagersByDl(rows, dl));
      MapPrefix(dlNames, DlNodeOf(rows), k);
      dlsData := dlsData + [DlNode(dl, managersData)];
    }
    assert dlNames[..|dlNames|] == dlNames;
  }

  /** The outer loop: one node per delivery head. */
  method DhNodes(rows: seq<Row>, dhNames: seq<string>) returns (dhsData: seq<DhNode<string>>)
    ensures dhsData == Map(dhNames, DhNodeOf(rows))
  {
    dhsData := [];
    for i := 0 to |dhNames|
      invariant dhsData == Map(dhNames[..i], DhNodeOf(rows))
    {
      var dh := dhNames[i];
      var dlsData := DlNodes(rows, DlsByDh(rows, dh));
      MapPrefix(dhNames, DhNodeOf(rows), i);
      dhsData := dhsData + [DhNode(dh, dlsData)];
    }
    assert dhNames[..|dhNames|] == dhNames;
  }

  /** `group_delivery_lead_dashboard`: the tree under the group delivery lead. */
  method GroupDeliveryLeadDashboard(rows: seq<Row>, gdlName: string) returns (dhsData: seq<DhNode<string>>)
    ensures dhsData == GdlTree(rows, gdlName)
  {
    var dhNames := DhsByGdl(rows, gdlName);
    dhsData := DhNodes(rows, dhNames);
  }
}
