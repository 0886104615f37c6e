/** The rows of the three tables the routers read (app/database/models.py),
    with money held in integer cents (the columns are Numeric(12, 2)). */
module Records {
  import opened Wrappers
  import opened Calendar

  /** The values the `role` column is meant to hold. */
  datatype Role = EMPLOYEE | MANAGER | ADMIN

  function RoleName(r: Role): string
  {
    match r
    case EMPLOYEE => "EMPLOYEE"
    case MANAGER => "MANAGER"
    case ADMIN => "ADMIN"
  }

  datatype Employee = Employee(
    empId: int,
    firstName: string,
    lastName: string,
    cnp: string,
    email: string,
    role: Role,
    grade: Option<string>,
    baseSalary: int,
    managerId: Option<int>,
    hireDate: Date,
    isActive: bool)

  datatype Bonus = Bonus(bonusId: int, empId: int, name: string, amount: int, effectiveMonth: Date)

  datatype VacationType = PAID | UNPAID

  datatype Vacation = Vacation(vacId: int, empId: int, startDate: Date, endDate: Date, kind: VacationType)

  /** The three tables, each in the order the database happens to return it. */
  datatype Database = Database(employees: seq<Employee>, bonuses: seq<Bonus>, vacations: seq<Vacation>)

  predicate UniqueIds(table: seq<Employee>)
  {
    forall i, j :: 0 <= i < j < |table| ==> table[i].empId != table[j].empId
  }

  predicate ValidVacations(vacations: seq<Vacation>)
  {
    forall i :: 0 <= i < |vacations| ==> ValidDate(vacations[i].startDate) && ValidDate(vacations[i].endDate)
  }

  /** What the schema guarantees: a primary key per employee, unique national
      ids and e-mails, and real dates in the date columns. */
  predicate WellFormed(db: Database)
  {
    && UniqueIds(db.employees)
    && (forall i, j :: 0 <= i < j < |db.employees| ==> db.employees[i].cnp != db.employees[j].cnp)
    && (forall i, j :: 0 <= i < j < |db.employees| ==> db.employees[i].email != db.employees[j].email)
    && (forall i :: 0 <= i < |db.employees| ==> ValidDate(db.employees[i].hireDate))
    && (forall i :: 0 <= i < |db.bonuses| ==> ValidDate(db.bonuses[i].effectiveMonth))
    && ValidVacations(db.vacations)
  }

  /** The position of the row `query.filter(...).first()` returns, or -1. */
  function FirstIndex(table: seq<Employee>, p: Employee -> bool): (k: int)
    ensures -1 <= k < |table|
    ensures k >= 0 ==> p(table[k])
    ensures forall j :: 0 <= j < |table| && (k == -1 || j < k) ==> !p(table[j])
  {
    if table == [] then -1
    else if p(table[0]) then 0
    else
      var k := FirstIndex(table[1..], p);
      if k == -1 then -1 else k + 1
  }

  /** `query.filter(...).first()`: the first row that satisfies `p`. */
  function FirstMatch(table: seq<Employee>, p: Employee -> bool): Option<Employee>
  {
    var k := FirstIndex(table, p);
    if k == -1 then None else Some(table[k])
  }

  /** An active employee of that id is the row `first()` finds for it, when
      ids are unique. */
  lemma FirstMatchById(table: seq<Employee>, i: int)
    requires UniqueIds(table) && 0 <= i < |table| && table[i].isActive
    ensures FirstMatch(table, (e: Employee) => e.empId == table[i].empId && e.isActive) == Some(table[i])
  {
    var k := FirstIndex(table, (e: Employee) => e.empId == table[i].empId && e.isActive);
    assert k != -1;
    assert k == i;
  }
}
