/** The two payroll endpoints of app/api/routers/payroll.py, for the manager
    the guard has admitted: /createAggregatedEmployeeData writes the team's
    monthly CSV into the archive, /sendAggregatedEmployeeData mails the most
    recent one to the manager and moves it to `sent/`. */
module Payroll {
  import opened Wrappers
  import opened Text
  import opened Calendar
  import opened Records
  import opened Aggregation
  import opened Archive
  import opened Mail

  /** archive/YYYY-MM/manager_<id>/aggregated_YYYY_MM.csv */
  function CsvPath(today: Date, managerId: int): Path
    requires ValidDate(today)
  {
    [ArchiveRoot, YearMonth(today, '-'), ManagerFolder(managerId), "aggregated_" + YearMonth(today, '_') + ".csv"]
  }

  /** The file the create endpoint writes is one the send endpoint looks for,
      for that manager and no other. */
  lemma CsvPathFound(today: Date, managerId: int, other: int)
    requires ValidDate(today)
    ensures IsCsvCandidate(CsvPath(today, managerId), managerId)
    ensures IsCsvCandidate(CsvPath(today, managerId), other) ==> other == managerId
  {
    var ym := YearMonth(today, '-');
    assert MatchesStar(ym) by {
      assert IsDigit(ym[0]);
    }
    var name := "aggregated_" + YearMonth(today, '_') + ".csv";
    assert name[..11] == "aggregated_";
    assert name[|name| - 4..] == ".csv";
    if IsCsvCandidate(CsvPath(today, managerId), other) {
      ManagerFoldersDisjoint(CsvPath(today, managerId), managerId, other);
    }
  }

  /** The CSV the endpoint writes: the header, then one row per employee of
      `team`, in order, with the same working-day count in every row. */
  function CsvDocument(team: seq<Employee>, bonusRows: map<int, int>, vacRows: map<int, int>, workingDays: int): seq<seq<string>>
  {
    [CsvHeader] + CsvRows(team, bonusRows, vacRows, workingDays)
  }

  /** The data rows, one per employee of `team`, in order. */
  function CsvRows(team: seq<Employee>, bonusRows: map<int, int>, vacRows: map<int, int>, workingDays: int): (rows: seq<seq<string>>)
    ensures |rows| == |team|
    ensures forall i :: 0 <= i < |team| ==> rows[i] == CsvRow(FiguresOf(team[i], bonusRows, vacRows), workingDays)
  {
    if team == [] then []
    else
      var n := |team| - 1;
      assert forall i :: 0 <= i < n ==> team[..n][i] == team[i];
      CsvRows(team[..n], bonusRows, vacRows, workingDays) + [CsvRow(FiguresOf(team[n], bonusRows, vacRows), workingDays)]
  }

  /** The loop over the team: writes the header, then one row per employee,
      counting the rows. */
  method BuildCsv(team: seq<Employee>, bonusRows: map<int, int>, vacRows: map<int, int>, workingDays: int)
      returns (rows: seq<seq<string>>, rowsCount: nat)
    ensures rows == CsvDocument(team, bonusRows, vacRows, workingDays)
    ensures rowsCount == |rows| - 1 == |team|
  {
    rows := [CsvHeader];
    rowsCount := 0;
    for k := 0 to |team|
      invariant rowsCount == k && |rows| == k + 1 && rows[0] == CsvHeader
      invariant forall i :: 0 <= i < k ==> rows[i + 1] == CsvRow(FiguresOf(team[i], bonusRows, vacRows), workingDays)
    {
      var f := FiguresOf(team[k], bonusRows, vacRows);
      rows := rows + [CsvRow(f, workingDays)];
      rowsCount := rowsCount + 1;
    }
    DocumentOfRows(rows, team, bonusRows, vacRows, workingDays);
  }

  lemma DocumentOfRows(rows: seq<seq<string>>, team: seq<Employee>, bonusRows: map<int, int>, vacRows: map<int, int>, workingDays: int)
    requires |rows| == |team| + 1 && rows[0] == CsvHeader
    requires forall i :: 0 <= i < |team| ==> rows[i + 1] == CsvRow(FiguresOf(team[i], bonusRows, vacRows), workingDays)
    ensures rows == CsvDocument(team, bonusRows, vacRows, workingDays)
  {
  }

  /** For the caller's team the CSV has exactly one row per active direct
      report, and each row reads back as that employee's name, base salary
      plus bonus total, the month's working days, vacation days and bonus total. */
  lemma CsvDocumentForTeam(db: Database, managerId: int, p: Period, workingDays: int)
    requires ValidVacations(db.vacations) && ValidPeriod(p)
    ensures var team := Roster(db.employees, managerId);
      var doc := CsvDocument(team, BonusRows(db.bonuses, p.start), VacationRows(db.vacations, p), workingDays);
      && |doc| == |team| + 1 && doc[0] == CsvHeader
      && forall i :: 0 <= i < |team| ==> RowOf(doc[i + 1], db, team[i], p, workingDays)
  {
    var team := Roster(db.employees, managerId);
    var bonusRows, vacRows := BonusRows(db.bonuses, p.start), VacationRows(db.vacations, p);
    var doc := CsvDocument(team, bonusRows, vacRows, workingDays);
    DocumentShape(team, bonusRows, vacRows, workingDays);
    forall i | 0 <= i < |team|
      ensures RowOf(doc[i + 1], db, team[i], p, workingDays)
    {
      DocumentRow(team, bonusRows, vacRows, workingDays, i);
      CsvRowOf(db, team[i], p, workingDays);
    }
  }

  lemma DocumentShape(team: seq<Employee>, bonusRows: map<int, int>, vacRows: map<int, int>, workingDays: int)
    ensures var doc := CsvDocument(team, bonusRows, vacRows, workingDays);
      |doc| == |team| + 1 && doc[0] == CsvHeader
  {
  }

  lemma DocumentRow(team: seq<Employee>, bonusRows: map<int, int>, vacRows: map<int, int>, workingDays: int, i: int)
    requires 0 <= i < |team|
    ensures |CsvDocument(team, bonusRows, vacRows, workingDays)| == |team| + 1
    ensures CsvDocument(team, bonusRows, vacRows, workingDays)[i + 1] == CsvRow(FiguresOf(team[i], bonusRows, vacRows), workingDays)
  {
    assert CsvDocument(team, bonusRows, vacRows, workingDays)[i + 1] == CsvRows(team, bonusRows, vacRows, workingDays)[i];
  }

  /** `row` holds `e`'s name, salary to pay, the working days, vacation days
      and bonus total for the period. */
  predicate RowOf(row: seq<string>, db: Database, e: Employee, p: Period, workingDays: int)
    requires ValidVacations(db.vacations) && ValidPeriod(p)
  {
    && |row| == 5
    && row[0] == e.firstName + " " + e.lastName
    && ParseCents(row[1]) == Some(e.baseSalary + BonusTotal(db.bonuses, e.empId, p.start))
    && ParseInt(row[2]) == Some(workingDays)
    && ParseInt(row[3]) == Some(VacationDays(db.vacations, e.empId, p))
    && ParseCents(row[4]) == Some(BonusTotal(db.bonuses, e.empId, p.start))
  }

  lemma CsvRowOf(db: Database, e: Employee, p: Period, workingDays: int)
    requires ValidVacations(db.vacations) && ValidPeriod(p)
    ensures RowOf(CsvRow(FiguresOf(e, BonusRows(db.bonuses, p.start), VacationRows(db.vacations, p)), workingDays),
                  db, e, p, workingDays)
  {
    FiguresOfQueries(db, e, p);
    CsvRowReadsBack(FiguresOf(e, BonusRows(db.bonuses, p.start), VacationRows(db.vacations, p)), workingDays);
  }

  datatype CreateCsvResponse =
    | CsvCreated(managerId: int, period: Period, workingDays: nat, rows: nat, filePath: Path)  // 200, status "ok"
    | CsvInternalError                                                                        // 500, "Internal error."

  /** /createAggregatedEmployeeData for `manager` on day `today` at time `now`.
      It fails only when the month has no successor day (December 9999) or
      the file cannot be written; otherwise the CSV replaces whatever was at
      its path, and nothing else in the tree changes. */
  method CreateAggregatedEmployeeData(fs: FileSystem, db: Database, manager: Employee, today: Date, now: int)
      returns (r: CreateCsvResponse)
    requires ValidDate(today) && ValidVacations(db.vacations)
    modifies fs
    ensures r.CsvInternalError? <==>
              (today.year == MaxYear && today.month == 12) || !CanWrite(old(fs.files), CsvPath(today, manager.empId))
    ensures r.CsvCreated? ==>
              && r.managerId == manager.empId
              && MonthBounds(today) == Ok(r.period)
              && r.workingDays == BusinessDayCount(today.year, today.month, {})
              && r.filePath == CsvPath(today, manager.empId)
              && r.rows == |Roster(db.employees, manager.empId)|
              && ValidPeriod(r.period)
              && fs.files == old(fs.files)[r.filePath := FileEntry(CsvFile(CsvDocument(
                   Roster(db.employees, manager.empId), BonusRows(db.bonuses, r.period.start),
                   VacationRows(db.vacations, r.period), r.workingDays)), now)]
    ensures r.CsvInternalError? ==> fs.files == old(fs.files)
  {
    var w := BusinessDaysInMonth(today, {});
    if w.Err? {
      return CsvInternalError;
    }
    var period := MonthBounds(today).value;
    var bonusRows := BonusRows(db.bonuses, period.start);
    var vacRows := VacationRows(db.vacations, period);
    var team := Roster(db.employees, manager.empId);
    var rows, rowsCount := BuildCsv(team, bonusRows, vacRows, w.value);
    var path := CsvPath(today, manager.empId);
    var ok := fs.WriteFile(path, CsvFile(rows), now);
    if !ok {
      return CsvInternalError;
    }
    r := CsvCreated(manager.empId, period, w.value, rowsCount, path);
  }

  function CsvSubject(manager: Employee): string
  {
    "Aggregated Employee Data for Manager " + manager.firstName + " " + manager.lastName
  }

  function CsvBody(manager: Employee, fileName: string): string
  {
    "Hello " + manager.firstName + "!\n\n" +
    "Please find attached the aggregated employee data for your team.\n" +
    "Generated file: " + fileName + "\n\n" +
    "Best regards,\n" +
    "Slip Salary App"
  }

  /** The message for the CSV at `path`, addressed to the manager. */
  function CsvMail(s: SmtpSettings, manager: Employee, path: Path, doc: Document): Mail
    requires |path| >= 1
  {
    var fileName := path[|path| - 1];
    Mail(s.fromEmail, manager.email, CsvSubject(manager), CsvBody(manager, fileName), doc, fileName, TextCsv,
         s.host, s.port, CsvMailPlan(s.useTls, s.username, s.password))
  }

  datatype SendCsvResponse =
    | CsvNotFound                                         // 404, "No aggregated CSV found for manager"
    | CsvSent(to: string, file: Path, archivedTo: Path)   // 200, status "sent"
    | CsvSendFailed(file: Path)                           // an exception escapes the handler: 500

  /** `path` is one of the manager's CSVs, and none is more recent. */
  predicate Latest(files: Files, managerId: int, path: Path)
  {
    path in CsvCandidates(files, managerId) &&
    forall q :: q in CsvCandidates(files, managerId) ==> files[q].mtime <= files[path].mtime
  }

  /** /sendAggregatedEmployeeData for `manager`. `deliver` is the SMTP
      exchange (false: it raised). The file is archived only after its mail
      went out; a failure anywhere leaves the tree as it was, except that
      a mail already sent stays sent. */
  method SendAggregatedEmployeeData(fs: FileSystem, manager: Employee, env: Env, deliver: Mail -> bool, now: int)
      returns (r: SendCsvResponse)
    modifies fs
    ensures r.CsvNotFound? <==> CsvCandidates(old(fs.files), manager.empId) == {}
    ensures r.CsvSent? ==>
              && r.to == manager.email
              && Latest(old(fs.files), manager.empId, r.file)
              && ReadSettings(env).Some?
              && deliver(CsvMail(ReadSettings(env).value, manager, r.file, old(fs.files)[r.file].doc))
              && ArchiveSent(old(fs.files), r.file, now) == (Ok(r.archivedTo), fs.files)
    ensures r.CsvSendFailed? ==>
              && Latest(old(fs.files), manager.empId, r.file)
              && (|| ReadSettings(env).None?
                  || !deliver(CsvMail(ReadSettings(env).value, manager, r.file, old(fs.files)[r.file].doc))
                  || ArchiveSent(old(fs.files), r.file, now).0.Err?)
    ensures !r.CsvSent? ==> fs.files == old(fs.files)
  {
    var found := FindLatestCsv(fs, manager.empId);
    if found.None? {
      return CsvNotFound;
    }
    assert Latest(fs.files, manager.empId, found.value);
    r := MailAndArchive(fs, manager, found.value, ReadSettings(env), deliver, now);
  }

  /** The endpoint after the search: mail the file with the settings read
      from the environment (`None`: they could not be read), then archive it. */
  method MailAndArchive(fs: FileSystem, manager: Employee, path: Path, settings: Option<SmtpSettings>, deliver: Mail -> bool, now: int)
      returns (r: SendCsvResponse)
    requires path in fs.files && |path| >= 1
    modifies fs
    ensures (r.CsvSent? || r.CsvSendFailed?) && r.file == path
    ensures r.CsvSent? ==>
              && r.to == manager.email
              && settings.Some?
              && deliver(CsvMail(settings.value, manager, path, old(fs.files)[path].doc))
              && ArchiveSent(old(fs.files), path, now) == (Ok(r.archivedTo), fs.files)
    ensures r.CsvSendFailed? ==>
              || settings.None?
              || !deliver(CsvMail(settings.value, manager, path, old(fs.files)[path].doc))
              || ArchiveSent(old(fs.files), path, now).0.Err?
    ensures !r.CsvSent? ==> fs.files == old(fs.files)
  {
    if settings.None? {
      return CsvSendFailed(path);
    }
    var mail := CsvMail(settings.value, manager, path, fs.files[path].doc);
    if !deliver(mail) {
      return CsvSendFailed(path);
    }
    var archived := ArchiveSentFile(fs, path, now);
    if archived.Err? {
      return CsvSendFailed(path);
    }
    r := CsvSent(manager.email, path, archived.value);
  }
}
