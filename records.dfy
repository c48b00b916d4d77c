/** The database tables the blueprint views read (app/models.py): employees,
    their skill records and the feedback given to them. */
module Records {
  import opened Common

  /** A row of `employees`. `nbk` is the primary key and `name` is required;
      every other column may be NULL. */
  datatype Employee = Employee(
    nbk: string, name: string,
    email: Option<string>, role: Option<string>, functionName: Option<string>, pmIc: Option<string>,
    managerName: Option<string>, dlName: Option<string>, dhName: Option<string>, gdlName: Option<string>)

  /** A row of `skills`; the gap verdicts are stored strings. */
  datatype Skill = Skill(
    employeeNbk: string, skillName: string, skillType: string, empSkillCategory: string,
    userProficiency: string, expectedCurrentProf: string, gapCurrent: string,
    expectedFutureProf: string, gapFuture: string)

  /** A row of `feedbacks`; `createdAt` is the timestamp as a number. */
  datatype Feedback = Feedback(
    employeeNbk: string, givenBy: string, feedbackType: string, content: string, createdAt: int)

  /** The database contents, each table as the list a query without
      `order_by` may return. */
  datatype Db = Db(employees: seq<Employee>, skills: seq<Skill>, feedbacks: seq<Feedback>)

  /** The primary key of `employees` holds. */
  ghost predicate KeysUnique(db: Db) {
    forall i, j :: 0 <= i < j < |db.employees| ==> db.employees[i].nbk != db.employees[j].nbk
  }
}
