/** The monthly figures both routers compute for a manager's team: the bonus
    and vacation queries (payroll.py:77-94, payslips.py:104-126), the roster
    query (payroll.py:97-102, payslips.py:129-134) and the per-employee values
    that become a CSV row or a payslip (payroll.py:116-127, payslips.py:148-150). */
module Aggregation {
  import opened Wrappers
  import opened Text
  import opened Calendar
  import opened Records

  // ---------------------------------------------------------------------
  // Bonuses: SELECT emp_id, COALESCE(SUM(amount), 0) ... WHERE effective_month = :m0
  // ---------------------------------------------------------------------

  /** The sum of the amounts of `empId`'s bonus rows dated exactly `m0`. */
  function BonusTotal(bonuses: seq<Bonus>, empId: int, m0: Date): int
  {
    if bonuses == [] then 0
    else
      var b := bonuses[|bonuses| - 1];
      BonusTotal(bonuses[..|bonuses| - 1], empId, m0) + (if b.empId == empId && b.effectiveMonth == m0 then b.amount else 0)
  }

  /** The groups the bonus query returns: employees with a bonus row dated `m0`. */
  function BonusGroups(bonuses: seq<Bonus>, m0: Date): set<int>
  {
    set b | b in bonuses && b.effectiveMonth == m0 :: b.empId
  }

  /** The `bonus_rows` dictionary. */
  function BonusRows(bonuses: seq<Bonus>, m0: Date): map<int, int>
  {
    map e | e in BonusGroups(bonuses, m0) :: BonusTotal(bonuses, e, m0)
  }

  /** `d.get(k, 0)`. */
  function Get(d: map<int, int>, k: int): int
  {
    if k in d then d[k] else 0
  }

  lemma {:induction false} BonusTotalOutsideGroups(bonuses: seq<Bonus>, empId: int, m0: Date)
    requires empId !in BonusGroups(bonuses, m0)
    ensures BonusTotal(bonuses, empId, m0) == 0
  {
    if bonuses != [] {
      var prefix := bonuses[..|bonuses| - 1];
      assert BonusGroups(prefix, m0) <= BonusGroups(bonuses, m0) by {
        forall e | e in BonusGroups(prefix, m0)
          ensures e in BonusGroups(bonuses, m0)
        {
          var b :| b in prefix && b.effectiveMonth == m0 && b.empId == e;
          assert b in bonuses;
        }
      }
      BonusTotalOutsideGroups(prefix, empId, m0);
      var b := bonuses[|bonuses| - 1];
      assert b in bonuses;
    }
  }

  /** `bonus_rows.get(emp_id, 0)` is the employee's bonus total: an employee
      without a bonus row dated `m0` gets 0. */
  lemma BonusRowsGet(bonuses: seq<Bonus>, empId: int, m0: Date)
    ensures Get(BonusRows(bonuses, m0), empId) == BonusTotal(bonuses, empId, m0)
  {
    if empId !in BonusGroups(bonuses, m0) {
      BonusTotalOutsideGroups(bonuses, empId, m0);
    }
  }

  /** One more bonus row adds its amount exactly when it belongs to the
      employee and is dated `m0`; a row dated any other day of the month,
      or another employee's row, adds nothing. */
  lemma BonusTotalAppend(bonuses: seq<Bonus>, b: Bonus, empId: int, m0: Date)
    ensures BonusTotal(bonuses + [b], empId, m0) ==
            BonusTotal(bonuses, empId, m0) + (if b.empId == empId && b.effectiveMonth == m0 then b.amount else 0)
  {
    assert (bonuses + [b])[..|bonuses|] == bonuses;
  }

  // ---------------------------------------------------------------------
  // Vacations: SUM(GREATEST(0, LEAST(end_date, :m1) - GREATEST(start_date, :m0) + 1))
  //            WHERE end_date >= :m0 AND start_date <= :m1
  // ---------------------------------------------------------------------

  predicate ValidPeriod(p: Period)
  {
    ValidDate(p.start) && ValidDate(p.end) && ToOrdinal(p.start) <= ToOrdinal(p.end)
  }

  function PeriodLength(p: Period): int
    requires ValidPeriod(p)
  {
    ToOrdinal(p.end) - ToOrdinal(p.start) + 1
  }

  predicate ValidVacation(v: Vacation)
  {
    ValidDate(v.startDate) && ValidDate(v.endDate)
  }

  /** The WHERE clause: the record's range touches the period. */
  predicate Overlaps(v: Vacation, p: Period)
    requires ValidVacation(v) && ValidPeriod(p)
  {
    ToOrdinal(v.endDate) >= ToOrdinal(p.start) && ToOrdinal(v.startDate) <= ToOrdinal(p.end)
  }

  function Min(a: int, b: int): int { if a <= b then a else b }
  function Max(a: int, b: int): int { if a >= b then a else b }

  /** The summed term for one record: the inclusive length of its overlap
      with the period, never negative. */
  function OverlapDays(v: Vacation, p: Period): (r: int)
    requires ValidVacation(v) && ValidPeriod(p)
    ensures 0 <= r <= PeriodLength(p)
    ensures Overlaps(v, p) && ToOrdinal(v.startDate) <= ToOrdinal(v.endDate) ==> r >= 1
    ensures ToOrdinal(v.startDate) <= ToOrdinal(p.start) && ToOrdinal(p.end) <= ToOrdinal(v.endDate) ==> r == PeriodLength(p)
  {
    Max(0, Min(ToOrdinal(v.endDate), ToOrdinal(p.end)) - Max(ToOrdinal(v.startDate), ToOrdinal(p.start)) + 1)
  }

  /** An independent count: the ordinals n in [lo, hi] with a <= n <= b,
      taken one day at a time. */
  function CoveredDays(a: int, b: int, lo: int, hi: int): nat
    decreases hi - lo
  {
    if hi < lo then 0
    else CoveredDays(a, b, lo, hi - 1) + (if a <= hi <= b then 1 else 0)
  }

  lemma {:induction false} CoveredDaysClosedForm(a: int, b: int, lo: int, hi: int)
    ensures CoveredDays(a, b, lo, hi) == Max(0, Min(b, hi) - Max(a, lo) + 1)
    decreases hi - lo
  {
    if hi >= lo {
      CoveredDaysClosedForm(a, b, lo, hi - 1);
    }
  }

  /** The summed term is the number of days of the period the record covers. */
  lemma OverlapDaysCounted(v: Vacation, p: Period)
    requires ValidVacation(v) && ValidPeriod(p)
    ensures OverlapDays(v, p) ==
            CoveredDays(ToOrdinal(v.startDate), ToOrdinal(v.endDate), ToOrdinal(p.start), ToOrdinal(p.end))
  {
    CoveredDaysClosedForm(ToOrdinal(v.startDate), ToOrdinal(v.endDate), ToOrdinal(p.start), ToOrdinal(p.end));
  }

  /** The vacation days of `empId`: every overlapping record counts, with no
      deduplication, whatever its type. */
  function VacationDays(vacations: seq<Vacation>, empId: int, p: Period): int
    requires ValidVacations(vacations) && ValidPeriod(p)
  {
    if vacations == [] then 0
    else
      var v := vacations[|vacations| - 1];
      VacationDays(vacations[..|vacations| - 1], empId, p) +
        (if v.empId == empId && Overlaps(v, p) then OverlapDays(v, p) else 0)
  }

  lemma {:induction false} VacationDaysNonNegative(vacations: seq<Vacation>, empId: int, p: Period)
    requires ValidVacations(vacations) && ValidPeriod(p)
    ensures VacationDays(vacations, empId, p) >= 0
  {
    if vacations != [] {
      VacationDaysNonNegative(vacations[..|vacations| - 1], empId, p);
    }
  }

  /** One more record adds its overlap when it is the employee's and touches
      the period; overlapping records are not merged. */
  lemma VacationDaysAppend(vacations: seq<Vacation>, v: Vacation, empId: int, p: Period)
    requires ValidVacations(vacations) && ValidVacation(v) && ValidPeriod(p)
    ensures ValidVacations(vacations + [v])
    ensures VacationDays(vacations + [v], empId, p) ==
            VacationDays(vacations, empId, p) + (if v.empId == empId && Overlaps(v, p) then OverlapDays(v, p) else 0)
  {
    assert (vacations + [v])[..|vacations|] == vacations;
  }

  /** The same overlapping record stored twice is counted twice. */
  lemma DuplicateCountedTwice(v: Vacation, p: Period)
    requires ValidVacation(v) && ValidPeriod(p) && Overlaps(v, p)
    ensures ValidVacations([v, v])
    ensures VacationDays([v, v], v.empId, p) == 2 * OverlapDays(v, p)
  {
    VacationDaysAppend([], v, v.empId, p);
    VacationDaysAppend([v], v, v.empId, p);
    assert [v] + [v] == [v, v];
  }

  predicate SameButType(vs: seq<Vacation>, ws: seq<Vacation>)
  {
    |vs| == |ws| &&
    forall i :: 0 <= i < |vs| ==> vs[i].(kind := PAID) == ws[i].(kind := PAID)
  }

  /** The vacation type plays no part in the count. */
  lemma {:induction false} VacationTypeIgnored(vs: seq<Vacation>, ws: seq<Vacation>, empId: int, p: Period)
    requires ValidVacations(vs) && ValidPeriod(p) && SameButType(vs, ws)
    ensures ValidVacations(ws)
    ensures VacationDays(vs, empId, p) == VacationDays(ws, empId, p)
  {
    assert ValidVacations(ws) by {
      forall i | 0 <= i < |ws|
        ensures ValidDate(ws[i].startDate) && ValidDate(ws[i].endDate)
      {
        assert vs[i].(kind := PAID).startDate == ws[i].(kind := PAID).startDate;
        assert vs[i].(kind := PAID).endDate == ws[i].(kind := PAID).endDate;
      }
    }
    if vs != [] {
      var n := |vs| - 1;
      assert vs[n].(kind := PAID) == ws[n].(kind := PAID);
      VacationTypeIgnored(vs[..n], ws[..n], empId, p);
    }
  }

  /** The groups the vacation query returns. */
  function VacationGroups(vacations: seq<Vacation>, p: Period): set<int>
    requires ValidVacations(vacations) && ValidPeriod(p)
  {
    set i | 0 <= i < |vacations| && Overlaps(vacations[i], p) :: vacations[i].empId
  }

  /** The `vac_rows` dictionary. */
  function VacationRows(vacations: seq<Vacation>, p: Period): map<int, int>
    requires ValidVacations(vacations) && ValidPeriod(p)
  {
    map e | e in VacationGroups(vacations, p) :: VacationDays(vacations, e, p)
  }

  lemma {:induction false} VacationDaysOutsideGroups(vacations: seq<Vacation>, empId: int, p: Period)
    requires ValidVacations(vacations) && ValidPeriod(p)
    requires empId !in VacationGroups(vacations, p)
    ensures VacationDays(vacations, empId, p) == 0
  {
    if vacations != [] {
      var n := |vacations| - 1;
      var prefix := vacations[..n];
      assert VacationGroups(prefix, p) <= VacationGroups(vacations, p) by {
        forall e | e in VacationGroups(prefix, p)
          ensures e in VacationGroups(vacations, p)
        {
          var i :| 0 <= i < |prefix| && Overlaps(prefix[i], p) && prefix[i].empId == e;
          assert vacations[i] == prefix[i];
        }
      }
      VacationDaysOutsideGroups(prefix, empId, p);
      assert Overlaps(vacations[n], p) ==> vacations[n].empId in VacationGroups(vacations, p);
    }
  }

  /** `vac_rows.get(emp_id, 0)` is the employee's vacation count. */
  lemma VacationRowsGet(vacations: seq<Vacation>, empId: int, p: Period)
    requires ValidVacations(vacations) && ValidPeriod(p)
    ensures Get(VacationRows(vacations, p), empId) == VacationDays(vacations, empId, p)
  {
    if empId !in VacationGroups(vacations, p) {
      VacationDaysOutsideGroups(vacations, empId, p);
    }
  }

  // ---------------------------------------------------------------------
  // Roster: filter_by(manager_id=..., is_active=True).order_by(emp_id.asc())
  // ---------------------------------------------------------------------

  predicate ReportsTo(e: Employee, managerId: int)
  {
    e.managerId == Some(managerId) && e.isActive
  }

  /** The matching rows, in storage order. */
  function Reports(table: seq<Employee>, managerId: int): (r: seq<Employee>)
    ensures forall e :: e in r <==> e in table && ReportsTo(e, managerId)
    ensures multiset(r) <= multiset(table)
  {
    if table == [] then []
    else
      var rest := Reports(table[1..], managerId);
      assert table == [table[0]] + table[1..];
      if ReportsTo(table[0], managerId) then [table[0]] + rest else rest
  }

  predicate SortedById(s: seq<Employee>)
  {
    forall i, j :: 0 <= i < j < |s| ==> s[i].empId <= s[j].empId
  }

  function InsertById(e: Employee, s: seq<Employee>): (r: seq<Employee>)
    requires SortedById(s)
    ensures SortedById(r)
    ensures multiset(r) == multiset(s) + multiset{e}
    ensures |r| == |s| + 1 && (r[0] == e || (|s| > 0 && r[0] == s[0]))
  {
    if s == [] || e.empId <= s[0].empId then [e] + s
    else
      var t := InsertById(e, s[1..]);
      InsertBehindHead(e, s, t);
      [s[0]] + t
  }

  /** The step of the insertion past the head of the list. */
  lemma InsertBehindHead(e: Employee, s: seq<Employee>, t: seq<Employee>)
    requires SortedById(s) && s != [] && e.empId > s[0].empId
    requires SortedById(t) && multiset(t) == multiset(s[1..]) + multiset{e}
    requires |t| == |s| && (t[0] == e || (|s| > 1 && t[0] == s[1]))
    ensures SortedById([s[0]] + t)
    ensures multiset([s[0]] + t) == multiset(s) + multiset{e}
  {
    ConsSortedById(s[0], t);
    assert s == [s[0]] + s[1..];
  }

  /** An employee whose id is at most the head's can go in front of a sorted list. */
  lemma ConsSortedById(x: Employee, t: seq<Employee>)
    requires SortedById(t) && (t == [] || x.empId <= t[0].empId)
    ensures SortedById([x] + t)
  {
    var u := [x] + t;
    forall i, j | 0 <= i < j < |u|
      ensures u[i].empId <= u[j].empId
    {
      if i > 0 {
        assert u[i] == t[i - 1] && u[j] == t[j - 1];
      } else if j > 1 {
        assert t[0].empId <= t[j - 1].empId;
      }
    }
  }

  /** ORDER BY emp_id ASC. */
  function SortById(s: seq<Employee>): (r: seq<Employee>)
    ensures SortedById(r)
    ensures multiset(r) == multiset(s)
  {
    if s == [] then []
    else
      assert s == [s[0]] + s[1..];
      InsertById(s[0], SortById(s[1..]))
  }

  function Roster(table: seq<Employee>, managerId: int): seq<Employee>
  {
    SortById(Reports(table, managerId))
  }

  lemma {:induction false} ReportsUniqueIds(table: seq<Employee>, managerId: int)
    requires UniqueIds(table)
    ensures UniqueIds(Reports(table, managerId))
  {
    if table != [] {
      assert UniqueIds(table[1..]);
      ReportsUniqueIds(table[1..], managerId);
      var rest := Reports(table[1..], managerId);
      forall x | x in rest
        ensures x.empId != table[0].empId
      {
        var k :| 0 <= k < |table[1..]| && table[1..][k] == x;
        assert table[k + 1] == x;
      }
    }
  }

  lemma {:induction false} InsertUniqueIds(e: Employee, s: seq<Employee>)
    requires SortedById(s) && UniqueIds(s)
    requires forall x :: x in s ==> x.empId != e.empId
    ensures UniqueIds(InsertById(e, s))
  {
    if s != [] && e.empId > s[0].empId {
      assert UniqueIds(s[1..]);
      InsertUniqueIds(e, s[1..]);
      var t := InsertById(e, s[1..]);
      if |s| > 1 {
        assert s[0].empId < s[1].empId;
      }
      assert s[0].empId < t[0].empId;
      var u := [s[0]] + t;
      forall i, j | 0 <= i < j < |u|
        ensures u[i].empId != u[j].empId
      {
        if i > 0 {
          assert u[i] == t[i - 1] && u[j] == t[j - 1];
        } else {
          assert t[0].empId <= t[j - 1].empId;
        }
      }
      assert InsertById(e, s) == u;
    }
  }

  lemma {:induction false} SortUniqueIds(s: seq<Employee>)
    requires UniqueIds(s)
    ensures UniqueIds(SortById(s))
  {
    if s != [] {
      assert UniqueIds(s[1..]);
      SortUniqueIds(s[1..]);
      var t := SortById(s[1..]);
      forall x | x in t
        ensures x.empId != s[0].empId
      {
        assert x in multiset(t);
        assert x in s[1..];
      }
      InsertUniqueIds(s[0], t);
    }
  }

  /** The roster holds exactly the caller's active direct reports, each once,
      in strictly ascending id order when ids are unique. */
  lemma RosterIsTheTeam(table: seq<Employee>, managerId: int)
    ensures forall e :: e in Roster(table, managerId) <==> e in table && ReportsTo(e, managerId)
    ensures multiset(Roster(table, managerId)) == multiset(Reports(table, managerId))
    ensures UniqueIds(table) ==>
              forall i, j :: 0 <= i < j < |Roster(table, managerId)| ==>
                Roster(table, managerId)[i].empId < Roster(table, managerId)[j].empId
  {
    var r := Roster(table, managerId);
    forall e
      ensures e in r <==> e in table && ReportsTo(e, managerId)
    {
      assert e in r <==> e in multiset(r);
    }
    if UniqueIds(table) {
      ReportsUniqueIds(table, managerId);
      SortUniqueIds(Reports(table, managerId));
    }
  }

  // ---------------------------------------------------------------------
  // Per-employee figures and the CSV row
  // ---------------------------------------------------------------------

  /** What the loop body computes for one employee, in cents and days. */
  datatype Figures = Figures(employee: Employee, bonusCents: int, vacationDays: int)
  {
    function SalaryToPay(): int { employee.baseSalary + bonusCents }
  }

  /** The two dictionary lookups with their 0 defaults. */
  function FiguresOf(e: Employee, bonusRows: map<int, int>, vacRows: map<int, int>): Figures
  {
    Figures(e, Get(bonusRows, e.empId), Get(vacRows, e.empId))
  }

  /** The lookups give the employee's query sums. */
  lemma FiguresOfQueries(db: Database, e: Employee, p: Period)
    requires ValidVacations(db.vacations) && ValidPeriod(p)
    ensures FiguresOf(e, BonusRows(db.bonuses, p.start), VacationRows(db.vacations, p)) ==
            Figures(e, BonusTotal(db.bonuses, e.empId, p.start), VacationDays(db.vacations, e.empId, p))
  {
    BonusRowsGet(db.bonuses, e.empId, p.start);
    VacationRowsGet(db.vacations, e.empId, p);
  }

  const CsvHeader: seq<string> := [
    "Employee name",
    "Salary to be paid (current month)",
    "Working days in month",
    "Vacation days (taken)",
    "Additional bonuses (current month)"
  ]

  function FullName(e: Employee): string
  {
    e.firstName + " " + e.lastName
  }

  /** One data row: name, salary to pay, working days, vacation days, bonus. */
  function CsvRow(f: Figures, workingDays: int): seq<string>
  {
    [FullName(f.employee), FormatCents(f.SalaryToPay()), IntToString(workingDays),
     IntToString(f.vacationDays), FormatCents(f.bonusCents)]
  }

  /** Every field of a row reads back as the figure it was written from. */
  lemma CsvRowReadsBack(f: Figures, workingDays: int)
    ensures |CsvRow(f, workingDays)| == |CsvHeader|
    ensures CsvRow(f, workingDays)[0] == f.employee.firstName + " " + f.employee.lastName
    ensures ParseCents(CsvRow(f, workingDays)[1]) == Some(f.employee.baseSalary + f.bonusCents)
    ensures ParseInt(CsvRow(f, workingDays)[2]) == Some(workingDays)
    ensures ParseInt(CsvRow(f, workingDays)[3]) == Some(f.vacationDays)
    ensures ParseCents(CsvRow(f, workingDays)[4]) == Some(f.bonusCents)
  {
    var row := CsvRow(f, workingDays);
    assert row[1] == FormatCents(f.SalaryToPay()) && row[4] == FormatCents(f.bonusCents);
    assert row[2] == IntToString(workingDays) && row[3] == IntToString(f.vacationDays);
    FormatCentsRoundTrip(f.SalaryToPay());
    FormatCentsRoundTrip(f.bonusCents);
    IntToStringParses(workingDays);
    IntToStringParses(f.vacationDays);
  }
}
