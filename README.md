# Skill-gap analyzer: aggregation and hierarchy rollup

The skill-gap analyzer is a Flask application. It shows employees' skill
gaps to five roles:

- the employee;
- the manager (MGR);
- the delivery lead (DL);
- the delivery head (DH);
- the group delivery lead (GDL).

Every employee row names the person's manager, DL, DH and GDL. Every skill
record carries two stored verdicts, `GAP-Current` and `GAP-Future`. The only
value the code ever compares a verdict against is `'Under-Skilled'`.

This project models the application's computational core in Dafny:

- the resolvers that walk one level down the hierarchy;
- the per-employee summariser;
- the employee details context;
- the dashboards that roll managers up under DLs, DLs under DHs and DHs under
  a GDL, with their filters and totals;
- the employee dashboard and upskill plan.

The application has two data back ends, and the model keeps both.

- **The CSV table.** `app.py` works on a pandas table, modelled as
  `seq<Table.Row>`, one row per (employee, skill). It is covered by modules
  `Table` (masks, `unique()`, counting) and `App` (the functions and views of
  `app.py`).
- **The database.** `app/utils.py` and the blueprint dashboards query the
  `employees`, `skills` and `feedbacks` tables. These are modelled as
  `Records.Db`. It is covered by modules `Utils`, `ManagerRoutes`,
  `DeliveryLeadRoutes`, `DeliveryHeadRoutes` and `GroupDeliveryLeadRoutes`.

`Views` holds the dictionaries handed to the templates. They are generic in
the type of the optional columns: a CSV cell is a `string`, and a nullable
database column is an `Option<string>`. `Views` also holds the filter layer
shared by both back ends. `Common` holds the list comprehension (`Filter`),
pandas `unique()` (`Unique`), `str.lower()` and substring search.

The model follows the source's form.

- Code made of comprehensions and masks is written as functions.
- Code that builds results with append loops or counter increments is
  written as methods with loops. Each such method is proved equal to a
  specification function, and the properties are proved as lemmas about that
  function.
- The nested rollup loops are split into one method per level, each called
  from the level above.

The database row order under `.distinct()` and unordered queries is not
fixed. The contracts of the `Utils` resolvers therefore state membership,
distinctness and exclusions, never an order.

## Model

| member | source | states |
|---|---|---|
| App.EmployeesByManager | app.py:23-25 | a row is returned iff it is in the table and its `MgrName` is the manager |
| App.EmployeesByManagerOrder | app.py:23-25 | the returned rows keep table order (an order-preserving subsequence) |
| App.Children | app.py:27-40 | a resolver's result has no duplicates and never contains `'N/A'` |
| App.ChildrenMembers | app.py:27-40 | a name is returned iff it is not `'N/A'` and some row has the parent value and that child value |
| App.ManagersByDl | app.py:27-30 | the managers of a DL are distinct and never `'N/A'` |
| App.ManagersByDlMembers | app.py:27-30 | `m` is returned iff `m != 'N/A'` and some row has `DLName == d` and `MgrName == m` |
| App.DlsByDh | app.py:32-35 | the DLs of a DH are distinct and never `'N/A'` |
| App.DlsByDhMembers | app.py:32-35 | `d` is returned iff `d != 'N/A'` and some row has `DHName == h` and `DLName == d` |
| App.DhsByGdl | app.py:37-40 | the DHs of a GDL are distinct and never `'N/A'` |
| App.DhsByGdlMembers | app.py:37-40 | `h` is returned iff `h != 'N/A'` and some row has `GDLName == g` and `DHName == h` |
| App.SummaryOf | app.py:49-68 | a summary carries the NBK and name of the employee's first row; `total_skills` is the row count and neither gap count exceeds it |
| App.SummariesOver | app.py:47-68 | one summary per NBK given |
| App.SummariesOverAt | app.py:48-68 | summary `k` is built from the (non-empty) rows of the `k`-th NBK |
| App.SummariesOverPrefix | app.py:48-68 | one pass of the loop appends exactly the summary of the next NBK |
| App.SummariesOverNbks | app.py:48-58 | the summaries' NBKs are the given NBKs, in order |
| App.SummaryTable | app.py:42-70 | an empty table gives `[]`; the summaries' NBKs are `unique()` of the NBK column |
| App.SummaryTableCounts | app.py:49-54 | each summary's totals are that NBK's row count and its two `'Under-Skilled'` counts, both at most the row count |
| App.SummaryTableKeys | app.py:47-48 | one summary per distinct NBK present in the table, and no other |
| App.SummaryTableOrder | app.py:48 | summaries come in order of first occurrence of their NBK |
| App.SummariesOverSums | app.py:52-54 | the summed totals equal the per-NBK group sums |
| App.SummaryTableTotals | app.py:42-70 | summed over all summaries, the current gaps are the table's `'Under-Skilled'` count and the skills its row count |
| App.EmployeeSummary | app.py:42-70 | the loop over `unique()` NBKs computes the summary table |
| App.WhereEmpty | app.py:74-76 | the selection is empty iff no row has the value |
| App.EmployeeDetailsContext | app.py:72-99 | `None` iff no row has the NBK; otherwise the first row, one detail per row with the row's fields, and no feedback |
| App.SkillLoop | app.py:406-421 | the loop yields one skill view per row, in order, and the two counters equal the `'Under-Skilled'` counts |
| App.EmployeeDashboard | app.py:396-428 | not found iff no row has the NBK; otherwise first row, skills per row, `total_skills == len(skills)`, counters equal the counts and are at most `total_skills`; the employee blueprint's `dashboard` runs the same code |
| App.ItemNames | app.py:453-476 | the plan items' names are the selected rows' skill names |
| App.UpskillPlan | app.py:442-481 | not found iff no row has the NBK; otherwise the current-gap items and the future-gap items come from the two row selections; the employee blueprint's `upskill_plan` runs the same code |
| App.CurrentGapItems | app.py:452-461 | an item is listed iff it comes from a row with `GAP-Current == 'Under-Skilled'`; its target is `Expected Current Prof` |
| App.FutureGapItems | app.py:463-476 | an item is listed iff its row has `GAP-Future == 'Under-Skilled'` and no current-gap row has its skill name; its target is `Expected Future Prof` |
| App.UpskillDisjoint | app.py:463-468 | no skill name appears among both the current-gap and the future-gap items |
| App.ManagerDashboard | app.py:111-133 | `all_employees` is the manager's summary table; `employees` is that table after the search and NBK filters |
| App.ManagerReports | app.py:146-161 | the totals are the manager's row count and `'Under-Skilled'` count; gaps at most the skills; both equal the sums over the summaries |
| App.ManagerEntryFor | app.py:188-199 | one summary per distinct NBK under the manager, `total_reports` their number; NBK and role of a row of the manager, or empty (with no summaries) when the manager has no rows |
| App.ManagerEntryTotals | app.py:188-199 | an entry's `total_reports` is the number of distinct NBKs under the manager; `total_gaps` is their `'Under-Skilled'` count, at most their skills |
| App.DeliveryLeadDashboard | app.py:178-212 | one entry per manager of the DL, in resolver order, then the exact manager filter; `employee`/`search` do not narrow |
| App.DeliveryLeadFilterResult | app.py:206-207 | a non-empty filter leaves exactly that manager's entry if the manager is under the DL, else nothing |
| App.DeliveryLeadReports | app.py:225-239 | distinct NBKs, rows and `'Under-Skilled'` rows of the DL; both counts at most the row count; the DL blueprint's `reports` runs the same code |
| App.TeamFor | app.py:270-278 | a team has one summary per distinct NBK under the manager and `total_reports` their number |
| App.DlEntryFor | app.py:265-285 | a DL entry has one team per manager of the DL and `total_managers` their number |
| App.DlEntryTeams | app.py:265-285 | a DL entry lists its managers one-to-one in resolver order; each manager's `total_reports` is its number of distinct NBKs |
| App.DlEntryHeadcount | app.py:280-285 | `total_employees` is the number of employees listed under the managers; a DL without managers has zero of both |
| App.Teams | app.py:268-278 | the inner loop builds one team per manager name |
| App.DeliveryHeadDashboard | app.py:256-289 | one DL entry per DL of the DH, in resolver order |
| App.DeliveryHeadReports | app.py:302-310 | `total_employees` is the number of distinct NBKs among the DH's rows, at most their row count; the DH blueprint's `reports` runs the same code |
| App.GdlTree | app.py:333-360 | the tree has one node per DH of the GDL |
| App.GdlTreeHeads | app.py:333-360 | the tree's top level is the GDL's DHs one-to-one, none `'N/A'` |
| App.DhNodeLeads | app.py:336-360 | a DH node lists the DH's DLs one-to-one, none `'N/A'` |
| App.DlNodeManagers | app.py:340-355 | a DL node lists the DL's managers one-to-one, none `'N/A'`, each with its summary table |
| App.ManagerNodes | app.py:342-350 | the innermost loop builds one node per manager |
| App.DlNodes | app.py:338-355 | the middle loop builds one node per DL |
| App.DhNodes | app.py:335-360 | the outer loop builds one node per DH |
| App.GroupDeliveryLeadDashboard | app.py:327-364 | the result is the GDL's tree |
| Common.Filter | app.py:126-128 | the comprehension keeps exactly the elements satisfying the condition, never more elements than given |
| Common.FilterSubseq | app.py:126-128 | the comprehension keeps the order of what it keeps |
| Common.FilterMultiset | app.py:126-128 | every copy of an element meeting the condition is kept, and no copy of one that does not |
| Common.FilterIdempotent | app.py:126-128 | applying the same comprehension twice equals applying it once |
| Common.Unique | app.py:48 | `unique()` is duplicate-free, holds exactly the values present, and is no longer than the column |
| Common.UniqueOrder | app.py:48 | `unique()` lists values by first occurrence |
| Common.UniqueCard | app.py:231 | `len(unique())` is the number of distinct values |
| Table.Where | app.py:25 | the boolean-mask selection keeps exactly the rows with the value |
| Table.DistinctCount | app.py:231 | the length of `unique()` over a selection is the size of the set of its values |
| Table.Partition | app.py:52-54 | when each row's NBK is among the distinct groups, the per-group counts add up to the count over all rows |
| Views.FilterEmployees | app/manager/routes.py:17-23 | an entry is kept iff it passes the lowered search (name or NBK) when given and the exact NBK when given; order kept; identity with no filters |
| Views.FilterEmployeesMultiset | app/manager/routes.py:20-23 | every copy of an entry passing both filters is kept, and no copy of one that does not |
| Views.FilterEmployeesIdempotent | app/manager/routes.py:20-23 | filtering the filtered list again changes nothing |
| Views.FilterManagers | app/delivery_lead/routes.py:34-35 | a non-empty filter keeps exactly the entries with that name, in order; an empty one keeps all |
| Views.FilterManagersSingle | app/delivery_lead/routes.py:34-35 | with distinct names the filter leaves one entry of that name or none |
| Views.FilterEntriesByName | app/delivery_lead/routes.py:15-35 | over entries built one per distinct name, the filter leaves the entry of the filtered name or nothing |
| Views.SumCurrentGapsBound | app/delivery_lead/routes.py:26 | summed current gaps never exceed summed skills when each summary's do not |
| Views.SumReportsIsHeadcount | app/delivery_head/routes.py:34 | the sum of the managers' `total_reports` is the number of employees listed under them |
| Utils.EmployeesByManager | app/utils.py:4-6 | an employee is returned iff its `manager_name` is the manager |
| Utils.DistinctValues | app/utils.py:11 | the distinct query returns no duplicates |
| Utils.DistinctValuesMembers | app/utils.py:11 | a value (NULL included) is returned iff some employee with the parent value has it |
| Utils.Names | app/utils.py:13 | a name is kept iff it is a non-NULL, non-empty, non-`'N/A'` result; distinct results stay distinct |
| Utils.ChildNames | app/utils.py:8-23 | a resolver's names are distinct, never `'N/A'` and never empty |
| Utils.ChildNamesMembers | app/utils.py:8-23 | a name is returned iff it is neither empty nor `'N/A'` and some employee has the parent value and that child value |
| Utils.ManagersByDl | app/utils.py:8-13 | distinct, never `'N/A'`, never empty |
| Utils.ManagersByDlMembers | app/utils.py:8-13 | `m` is returned iff it is neither empty nor `'N/A'` and some employee has `dl_name == d` and `manager_name == m` |
| Utils.DlsByDh | app/utils.py:15-18 | distinct, never `'N/A'`, never empty |
| Utils.DlsByDhMembers | app/utils.py:15-18 | `d` is returned iff it is neither empty nor `'N/A'` and some employee has `dh_name == h` and `dl_name == d` |
| Utils.DhsByGdl | app/utils.py:20-23 | distinct, never `'N/A'`, never empty |
| Utils.DhsByGdlMembers | app/utils.py:20-23 | `h` is returned iff it is neither empty nor `'N/A'` and some employee has `gdl_name == g` and `dh_name == h` |
| Utils.SkillsOf | app/utils.py:37 | exactly the skill records of that NBK |
| Utils.SummaryFor | app/utils.py:37-55 | a summary carries the employee's NBK and name; `total_skills` is the number of its skill records and neither gap count exceeds it |
| Utils.Summaries | app/utils.py:30-57 | one summary per input employee, `[]` for none |
| Utils.SummariesFacts | app/utils.py:25-57 | `[]` for no employees; one summary per employee in input order, with its name, NBK, role, function and four hierarchy columns copied and its records' totals and `'Under-Skilled'` counts, each count at most the total |
| Utils.SummariesMembers | app/utils.py:34-55 | the summaries are those of the input employees and no others |
| Utils.SummariesWellFormed | app/utils.py:39-41 | no summary has more current gaps than skills |
| Utils.EmployeeSummary | app/utils.py:25-57 | the loop computes one summary per employee, in order |
| Utils.SkillsOfAll | app/utils.py:37 | exactly the skill records of the given employees |
| Utils.PerEmployeePartition | app/utils.py:37-41 | for distinct NBKs the per-employee record counts add up to the count over all their records |
| Utils.SummariesSums | app/utils.py:39-41 | the summed totals are sums of per-employee record counts |
| Utils.SummariesTotals | app/utils.py:37-41 | for distinct NBKs the summed skill totals are the employees' record count, and the summed current gaps their `'Under-Skilled'` count |
| Utils.ReportsDistinct | app/models.py:6 | under the `nbk` primary key, a manager's reports have distinct NBKs |
| Utils.Lookup | app/utils.py:61-63 | `None` iff no employee has the NBK; otherwise an employee with that NBK |
| Utils.LookupUnique | app/utils.py:61 | under the primary key the lookup returns the one employee with that NBK |
| Utils.FeedbacksOf | app/utils.py:81 | exactly the feedback records of the NBK |
| Utils.Insert | app/utils.py:81 | insertion adds exactly the one record |
| Utils.InsertNewestFirst | app/utils.py:81 | insertion keeps a newest-first list newest-first |
| Utils.SortNewestFirst | app/utils.py:81 | the ordering is a permutation of the records and is newest-first by `created_at` |
| Utils.EmployeeDict | app/utils.py:91-102 | the dictionary has exactly the ten capitalised keys |
| Utils.EmployeeDictRoundTrip | app/utils.py:91-102 | each column sits under its own key: the record reads back from the dictionary, and distinct employees give distinct dictionaries |
| Utils.EmployeeDetailsContext | app/utils.py:59-108 | `None` iff no employee has the NBK; otherwise the employee dictionary, its skill details and its feedback newest first |
| Utils.DetailsContents | app/utils.py:65-87 | one detail per skill record of the NBK, field for field; the feedback entries are exactly that NBK's feedback, newest first, each carrying its record's `given_by`, `feedback_type`, `content` and date |
| ManagerRoutes.Dashboard | app/manager/routes.py:6-28 | `all_employees` has one summary per report; `employees` is an order-preserving subsequence of it, all of it without filters |
| ManagerRoutes.DashboardAll | app/manager/routes.py:13-28 | `all_employees` holds the summary of each report of the manager and nothing else |
| ManagerRoutes.DashboardShown | app/manager/routes.py:17-23 | `employees` keeps in order exactly the entries passing both filters, and refiltering changes nothing |
| ManagerRoutes.Reports | app/manager/routes.py:41-56 | one summary per report; the admitted intended totals (see "Left out") have current gaps at most total skills |
| ManagerRoutes.ReportsTotals | app/manager/routes.py:41-56 | current gaps at most total skills; under the primary key, the totals are the reports' skill records and their `'Under-Skilled'` count |
| DeliveryLeadRoutes.ManagerEntryFor | app/delivery_lead/routes.py:16-27 | one summary per report, `total_reports` their number; the admitted intended NBK and role (see "Left out") are those of a report of the manager, or empty with no reports |
| DeliveryLeadRoutes.ManagerEntryTotals | app/delivery_lead/routes.py:16-27 | `total_reports` counts the reports; `total_gaps` at most their skills and, under the primary key, their `'Under-Skilled'` records; nbk/role from a report or empty |
| DeliveryLeadRoutes.Dashboard | app/delivery_lead/routes.py:6-40 | `all_managers` is the resolver result; `managers` is one entry per manager, then the exact filter; `employee`/`search` do not narrow |
| DeliveryLeadRoutes.DashboardEntries | app/delivery_lead/routes.py:12-27 | one entry per manager name of the DL in the same order, none `'N/A'` |
| DeliveryLeadRoutes.DashboardFilterResult | app/delivery_lead/routes.py:34-35 | a non-empty filter leaves that manager's entry if listed, else nothing |
| DeliveryHeadRoutes.TeamFor | app/delivery_head/routes.py:20-28 | a team has one summary per report and `total_reports` their number |
| DeliveryHeadRoutes.DlEntryFor | app/delivery_head/routes.py:15-35 | a DL entry has one team per manager of the DL and `total_managers` their number |
| DeliveryHeadRoutes.DlEntryTeams | app/delivery_head/routes.py:17-35 | a DL entry lists the DL's managers one-to-one, each with its reports' summaries and `total_reports == len(employees)` |
| DeliveryHeadRoutes.DlEntryHeadcount | app/delivery_head/routes.py:30-35 | `total_employees` is the sum of the managers' `total_reports`, the number of employees listed; zero managers gives zero of both |
| DeliveryHeadRoutes.Teams | app/delivery_head/routes.py:18-28 | the inner loop builds one team per manager |
| DeliveryHeadRoutes.Dashboard | app/delivery_head/routes.py:6-39 | one DL entry per DL of the DH |
| DeliveryHeadRoutes.DashboardLeads | app/delivery_head/routes.py:12-35 | the entries correspond one-to-one, in order, to the DH's DLs, none `'N/A'` |
| GroupDeliveryLeadRoutes.GdlTree | app/group_delivery_lead/routes.py:12-39 | the tree has one node per DH of the GDL |
| GroupDeliveryLeadRoutes.GdlTreeHeads | app/group_delivery_lead/routes.py:12-39 | the top level is the GDL's DHs one-to-one, none `'N/A'` or empty |
| GroupDeliveryLeadRoutes.DhNodeLeads | app/group_delivery_lead/routes.py:16-39 | a DH node's `dls` correspond one-to-one with the DH's DLs |
| GroupDeliveryLeadRoutes.DlNodeManagers | app/group_delivery_lead/routes.py:20-34 | a DL node's managers correspond one-to-one with the DL's managers, each with its reports' summaries |
| GroupDeliveryLeadRoutes.ManagerNodes | app/group_delivery_lead/routes.py:23-29 | the innermost loop builds one node per manager |
| GroupDeliveryLeadRoutes.DlNodes | app/group_delivery_lead/routes.py:19-34 | the middle loop builds one node per DL |
| GroupDeliveryLeadRoutes.DhNodes | app/group_delivery_lead/routes.py:14-39 | the outer loop builds one node per DH |
| GroupDeliveryLeadRoutes.Dashboard | app/group_delivery_lead/routes.py:6-43 | the result is the GDL's tree |

## Left out

- Flask plumbing is not modelled: blueprints, `render_template`, error
  handlers, the `import_data` and `settings` views, and `app/main/routes.py`.
  The query parameters and their defaults (`'Harvey Specter'` and so on)
  become plain inputs. A 404 outcome becomes a `None` or not-found value.
- I/O is outside the model. The table and the database are values passed in,
  so CSV loading, the global `df_data` cache, `seed.py` and the SQLAlchemy
  session are left out.
- `app/config.py` and the models without logic (`TrainingPlan`, `Milestone`,
  `Setting`, `DataImportLog`, `TrainingResource`) are not part of this model.
- `employee_feedback` (app.py:430-440) and the blueprint
  `employee.feedback` only look up the first row of an NBK, which
  `App.EmployeeDetailsContext` already models. The `employee_details` views of
  every role only wrap `get_employee_details_context`, so they are not
  modelled separately.
- `app/employee/routes.py:2`, `app/delivery_lead/routes.py:2` and
  `app/delivery_head/routes.py:2` import `get_data`, which `app/utils.py`
  does not define. Importing any of these modules therefore raises
  `ImportError`. `create_app` imports every blueprint package
  (app/__init__.py:15-27). The packages' own `__init__.py` files are not part
  of this model. If they import their routes, as Flask blueprints usually
  do, no blueprint can be served as written, the manager and GDL ones
  included. The model takes each route's body on its own terms. The
  blueprint employee views and the DL and DH `reports` views carry the same
  DataFrame code as `app.py` over `get_data()`, so each is modelled once, in
  `App`.
- Two blueprint routes treat the list of `Employee` records as a DataFrame.
  - `app/manager/routes.py:49` takes `len` of the list, which is the number
    of reports, not of skill records. Line 50 indexes the list by the
    string `'GAP-Current'` and raises a `TypeError`.
  - `app/delivery_lead/routes.py:22-23` reads `.empty` and `.iloc` of the
    list, which a list does not have, so they raise an `AttributeError`.

  `ManagerRoutes.Reports` and `DeliveryLeadRoutes.ManagerEntryFor` model what
  the code evidently means instead:
  - the reports' skill records and their `'Under-Skilled'` count;
  - the first report's NBK and role, or empty when there are none.
- Utils.SortNewestFirst: the database does not fix the order of feedback
  with equal `created_at`. The contract states only the permutation and the
  newest-first order; the tie order of the body is one choice among those
  allowed.
- Utils.ManagersByDl, Utils.DlsByDh, Utils.DhsByGdl: the order of SQL
  `.distinct()` results is not fixed. Their contracts therefore state
  membership and distinctness but no order, and so do those of the rollups
  built on them.
- Timestamps are integers. Datetime handling and the `date` formatting of
  the feedback entries are not modelled.
- The `App` model takes the table as loaded with every cell a string. Under
  the default `na_values` of `pd.read_csv` (app.py:17), a cell holding
  `'N/A'` or nothing arrives as NaN. The `!= 'N/A'` guards of app.py:29, 34
  and 39 do not remove NaN, so on such a table the resolvers can return it.
  The sentinel exclusion that `App.Children`, `App.ManagersByDl`,
  `App.DlsByDh`, `App.DhsByGdl` and the rollups built on them state holds
  only for a table whose hierarchy cells are strings. The database variant
  is not affected: a missing value is NULL there, and the guard of
  app/utils.py:13 drops it.
- `Lower` lowercases only the ASCII letters, where Python's `str.lower()`
  covers all of Unicode.
- Nullable text columns of `skills` and `feedbacks` are plain strings.
  Verdicts are only compared with `'Under-Skilled'`, so NULL would act like
  any other non-matching value.
- No gap verdict is computed from proficiency levels, because the code never
  does so: verdicts are stored strings.
- App.EmployeeDetailsContext and App.EmployeeDashboard: the employee
  returned is the row itself, not the result of pandas `to_dict()`. The
  employee dictionary with capitalised keys is modelled only for the database
  variant (`Utils.EmployeeDict`).
