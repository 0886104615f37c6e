/** The two payslip endpoints of app/api/routers/payslips.py, for the manager
    the guard has admitted: /createPdfForEmployees writes one encrypted PDF
    per active direct report, /sendPdfToEmployees mails every PDF found to
    the employee its name designates and moves it to `sent/`. */
module Payslips {
  import opened Wrappers
  import opened Text
  import opened Calendar
  import opened Records
  import opened Aggregation
  import opened Archive
  import opened Mail

  // ---------------------------------------------------------------------
  // File names
  // ---------------------------------------------------------------------

  /** archive/YYYY-MM/manager_<id>/pdfs */
  function PdfFolderPath(today: Date, managerId: int): Path
    requires ValidDate(today)
  {
    [ArchiveRoot, YearMonth(today, '-'), ManagerFolder(managerId), PdfFolder]
  }

  /** {first}_{last}_{YYYY_MM}.pdf */
  function PdfName(e: Employee, today: Date): string
    requires ValidDate(today)
  {
    e.firstName + "_" + e.lastName + "_" + YearMonth(today, '_') + ".pdf"
  }

  function PdfPath(e: Employee, today: Date, managerId: int): Path
    requires ValidDate(today)
  {
    PdfFolderPath(today, managerId) + [PdfName(e, today)]
  }

  /** A generated payslip is found by the manager's PDF search unless the
      first name starts with a dot, which makes the file hidden from it. */
  lemma PdfPathFound(e: Employee, today: Date, managerId: int)
    requires ValidDate(today)
    ensures IsPdfCandidate(PdfPath(e, today, managerId), managerId) <==> e.firstName == [] || e.firstName[0] != '.'
  {
    var ym := YearMonth(today, '-');
    assert MatchesStar(ym) by {
      assert IsDigit(ym[0]);
    }
    var name := PdfName(e, today);
    assert name[|name| - 4..] == ".pdf";
    if e.firstName == [] {
      assert name[0] == '_';
    } else {
      assert name[0] == e.firstName[0];
    }
  }

  datatype NameParse = InvalidName | Names(first: string, last: string)

  /** Drop the extension, split on '_', keep the first two parts. */
  function ParsePdfName(base: string): NameParse
  {
    var parts := Split(SplitExt(base).0, '_');
    if |parts| < 2 then InvalidName else Names(parts[0], parts[1])
  }

  /** A name is rejected exactly when its stem holds no '_'. */
  lemma ParsePdfNameInvalid(base: string)
    ensures ParsePdfName(base).InvalidName? <==> '_' !in SplitExt(base).0
  {
    var stem := SplitExt(base).0;
    if '_' in stem {
      var k := IndexOf(stem, '_');
      assert k != -1;
    }
  }

  /** Parsing a generated name gives back the first and last name, as long
      as neither holds a '_'. */
  lemma ParsePdfNameRoundTrip(e: Employee, today: Date)
    requires ValidDate(today)
    requires '_' !in e.firstName && '_' !in e.lastName
    ensures ParsePdfName(PdfName(e, today)) == Names(e.firstName, e.lastName)
  {
    var ym := YearMonth(today, '_');
    var stem := e.firstName + "_" + e.lastName + "_" + ym;
    assert PdfName(e, today) == stem + ".pdf";
    assert stem[|e.firstName|] == '_';
    SplitExtOf(stem, ".pdf");
    assert stem == e.firstName + ['_'] + (e.lastName + ['_'] + ym);
    SplitAfter(e.firstName, '_', e.lastName + ['_'] + ym);
    SplitAfter(e.lastName, '_', ym);
  }

  // ---------------------------------------------------------------------
  // /createPdfForEmployees
  // ---------------------------------------------------------------------

  /** The PDF for one employee: the figures drawn on it, encrypted with the
      employee's CNP as both the owner and the user password. */
  function PayslipDocument(f: Figures): Document
  {
    PdfFile(f, f.employee.cnp, f.employee.cnp)
  }

  /** The files the loop writes, in order: one per employee of `team`. */
  function PayslipEntries(team: seq<Employee>, bonusRows: map<int, int>, vacRows: map<int, int>, today: Date, managerId: int)
      : seq<(Path, Document)>
    requires ValidDate(today)
  {
    seq(|team|, i requires 0 <= i < |team| => PayslipEntry(team[i], bonusRows, vacRows, today, managerId))
  }

  /** The file written for one employee, and where. */
  function PayslipEntry(e: Employee, bonusRows: map<int, int>, vacRows: map<int, int>, today: Date, managerId: int)
      : (Path, Document)
    requires ValidDate(today)
  {
    (PdfPath(e, today, managerId), PayslipDocument(FiguresOf(e, bonusRows, vacRows)))
  }

  /** The paths of the entries, in order. */
  function EntryPaths(entries: seq<(Path, Document)>): (paths: seq<Path>)
    ensures |paths| == |entries| && forall i :: 0 <= i < |entries| ==> paths[i] == entries[i].0
  {
    if entries == [] then [] else EntryPaths(entries[..|entries| - 1]) + [entries[|entries| - 1].0]
  }

  /** The writes one after another; `false` once one raised, after which
      nothing more is written. */
  function WritePayslips(files: Files, entries: seq<(Path, Document)>, now: int): (bool, Files)
  {
    if entries == [] then (true, files)
    else
      var prev := WritePayslips(files, entries[..|entries| - 1], now);
      var last := entries[|entries| - 1];
      if prev.0 && CanWrite(prev.1, last.0) then (true, prev.1[last.0 := FileEntry(last.1, now)]) else (false, prev.1)
  }

  /** One more entry: the loop's step. */
  lemma WriteStep(files: Files, entries: seq<(Path, Document)>, k: nat, now: int)
    requires k < |entries|
    ensures var prev := WritePayslips(files, entries[..k], now);
      WritePayslips(files, entries[..k + 1], now) ==
        if prev.0 && CanWrite(prev.1, entries[k].0) then (true, prev.1[entries[k].0 := FileEntry(entries[k].1, now)])
        else (false, prev.1)
  {
    assert entries[..k + 1][..k] == entries[..k];
  }

  /** After all writes succeed a path holds the document of the last entry
      written to it: a later payslip overwrites an earlier one of the same
      name. */
  lemma {:induction false} LastWriteWins(files: Files, entries: seq<(Path, Document)>, now: int, k: nat)
    requires WritePayslips(files, entries, now).0
    requires k < |entries|
    requires forall j :: k < j < |entries| ==> entries[j].0 != entries[k].0
    ensures entries[k].0 in WritePayslips(files, entries, now).1
    ensures WritePayslips(files, entries, now).1[entries[k].0] == FileEntry(entries[k].1, now)
  {
    var n := |entries| - 1;
    if k < n {
      var init := entries[..n];
      assert forall j :: k < j < |init| ==> init[j] == entries[j];
      LastWriteWins(files, init, now, k);
    }
  }

  /** A path no entry names is left as it was. */
  lemma {:induction false} WritesKeepOthers(files: Files, entries: seq<(Path, Document)>, now: int, p: Path)
    requires forall j :: 0 <= j < |entries| ==> entries[j].0 != p
    ensures p in WritePayslips(files, entries, now).1 <==> p in files
    ensures p in files ==> WritePayslips(files, entries, now).1[p] == files[p]
  {
    if entries != [] {
      var n := |entries| - 1;
      assert forall j :: 0 <= j < n ==> entries[..n][j] == entries[j];
      WritesKeepOthers(files, entries[..n], now, p);
    }
  }

  datatype CreatePdfResponse =
    | PdfsCreated(managerId: int, generated: seq<Path>)   // 200, status "ok"
    | PdfInternalError                                    // 500, "Internal error"

  /** What the endpoint leaves behind when the month has bounds and the
      folder could be made: the writes of every payslip, stopping at the
      first that raised. */
  predicate CreatedAsSpecified(r: CreatePdfResponse, before: Files, after: Files, db: Database, managerId: int,
                               today: Date, now: int)
    requires ValidDate(today) && ValidVacations(db.vacations) && MonthBounds(today).Ok?
  {
    var period := MonthBounds(today).value;
    var entries := PayslipEntries(Roster(db.employees, managerId), BonusRows(db.bonuses, period.start),
                                  VacationRows(db.vacations, period), today, managerId);
    var (ok, files) := WritePayslips(before, entries, now);
    && after == files
    && r == if ok then PdfsCreated(managerId, EntryPaths(entries))
            else PdfInternalError
  }

  /** /createPdfForEmployees for `manager` on day `today` at time `now`. */
  method CreatePdfForEmployees(fs: FileSystem, db: Database, manager: Employee, today: Date, now: int)
      returns (r: CreatePdfResponse)
    requires ValidDate(today) && ValidVacations(db.vacations)
    modifies fs
    ensures MonthBounds(today).Err? || Blocked(old(fs.files), PdfFolderPath(today, manager.empId)) ==>
              r == PdfInternalError && fs.files == old(fs.files)
    ensures MonthBounds(today).Ok? && !Blocked(old(fs.files), PdfFolderPath(today, manager.empId)) ==>
              CreatedAsSpecified(r, old(fs.files), fs.files, db, manager.empId, today, now)
  {
    var bounds := MonthBounds(today);
    if bounds.Err? {
      return PdfInternalError;
    }
    var period := bounds.value;
    var bonusRows := BonusRows(db.bonuses, period.start);
    var vacRows := VacationRows(db.vacations, period);
    var team := Roster(db.employees, manager.empId);
    var folder := PdfFolderPath(today, manager.empId);
    if Blocked(fs.files, folder) {
      return PdfInternalError;
    }
    var generated, ok := WritePdfs(fs, team, bonusRows, vacRows, today, manager.empId, now);
    r := if ok then PdfsCreated(manager.empId, generated) else PdfInternalError;
  }

  /** The loop over the team: one encrypted PDF per employee, written into
      the folder; it stops at the first write that raises. */
  method WritePdfs(fs: FileSystem, team: seq<Employee>, bonusRows: map<int, int>, vacRows: map<int, int>,
                   today: Date, managerId: int, now: int)
      returns (generated: seq<Path>, ok: bool)
    requires ValidDate(today)
    modifies fs
    ensures var entries := PayslipEntries(team, bonusRows, vacRows, today, managerId);
      && (ok, fs.files) == WritePayslips(old(fs.files), entries, now)
      && (ok ==> generated == EntryPaths(entries))
  {
    ghost var entries := PayslipEntries(team, bonusRows, vacRows, today, managerId);
    var folder := PdfFolderPath(today, managerId);
    generated := [];
    for k := 0 to |team|
      invariant WritePayslips(old(fs.files), entries[..k], now) == (true, fs.files)
      invariant generated == EntryPaths(entries[..k])
    {
      var e := team[k];
      var f := Figures(e, Get(bonusRows, e.empId), Get(vacRows, e.empId));
      var path := folder + [PdfName(e, today)];
      assert entries[k] == PayslipEntry(e, bonusRows, vacRows, today, managerId) == (path, PayslipDocument(f));
      ghost var before := fs.files;
      ok := fs.WriteFile(path, PayslipDocument(f), now);
      WriteOutcome(old(fs.files), entries, k, now, before, fs.files, ok);
      PathsStep(entries, k);
      if !ok {
        return;
      }
      generated := generated + [path];
    }
    assert entries[..|team|] == entries;
    ok := true;
  }

  /** One write of the loop, against the writes it models: a success
      extends the prefix, a failure is the outcome of the whole batch. */
  lemma WriteOutcome(files: Files, entries: seq<(Path, Document)>, k: nat, now: int, before: Files, after: Files, ok: bool)
    requires k < |entries| && WritePayslips(files, entries[..k], now) == (true, before)
    requires ok == CanWrite(before, entries[k].0)
    requires after == if ok then before[entries[k].0 := FileEntry(entries[k].1, now)] else before
    ensures ok ==> WritePayslips(files, entries[..k + 1], now) == (true, after)
    ensures !ok ==> WritePayslips(files, entries, now) == (false, after)
  {
    WriteStep(files, entries, k, now);
    if !ok {
      FailedWritesStay(files, entries, k + 1, now);
    }
  }

  lemma PathsStep(entries: seq<(Path, Document)>, k: nat)
    requires k < |entries|
    ensures EntryPaths(entries[..k + 1]) == EntryPaths(entries[..k]) + [entries[k].0]
  {
    assert entries[..k + 1][..k] == entries[..k];
  }

  /** Once a write has raised, the later entries change nothing. */
  lemma {:induction false} FailedWritesStay(files: Files, entries: seq<(Path, Document)>, k: nat, now: int)
    requires k <= |entries|
    requires !WritePayslips(files, entries[..k], now).0
    ensures WritePayslips(files, entries, now) == WritePayslips(files, entries[..k], now)
    decreases |entries| - k
  {
    if k < |entries| {
      assert entries[..k + 1][..k] == entries[..k];
      FailedWritesStay(files, entries, k + 1, now);
    } else {
      assert entries[..k] == entries;
    }
  }

  /** Each payslip carries its employee's query sums, salary to pay = base +
      bonus total, and the CNP as both passwords. */
  lemma PayslipEntryContents(db: Database, managerId: int, today: Date, i: int)
    requires ValidDate(today) && ValidVacations(db.vacations) && MonthBounds(today).Ok?
    requires 0 <= i < |Roster(db.employees, managerId)|
    ensures var period := MonthBounds(today).value;
      var e := Roster(db.employees, managerId)[i];
      var entries := PayslipEntries(Roster(db.employees, managerId), BonusRows(db.bonuses, period.start),
                                    VacationRows(db.vacations, period), today, managerId);
      && entries[i].0 == PdfFolderPath(today, managerId) + [e.firstName + "_" + e.lastName + "_" + YearMonth(today, '_') + ".pdf"]
      && entries[i].1.PdfFile?
      && entries[i].1.slip.employee == e
      && entries[i].1.slip.bonusCents == BonusTotal(db.bonuses, e.empId, period.start)
      && entries[i].1.slip.vacationDays == VacationDays(db.vacations, e.empId, period)
      && entries[i].1.slip.SalaryToPay() == e.baseSalary + BonusTotal(db.bonuses, e.empId, period.start)
      && entries[i].1.ownerPassword == e.cnp && entries[i].1.userPassword == e.cnp
  {
    var period := MonthBounds(today).value;
    FiguresOfQueries(db, Roster(db.employees, managerId)[i], period);
  }

  /** Two reports with the same first and last name share one path, so only
      the payslip of the one later in the roster is left on disk. */
  lemma NamesakesShareAFile(team: seq<Employee>, bonusRows: map<int, int>, vacRows: map<int, int>, today: Date,
                            managerId: int, files: Files, now: int, i: int, j: int)
    requires ValidDate(today) && 0 <= i < j < |team|
    requires team[i].firstName == team[j].firstName && team[i].lastName == team[j].lastName
    requires forall k :: j < k < |team| ==> PdfName(team[k], today) != PdfName(team[j], today)
    requires WritePayslips(files, PayslipEntries(team, bonusRows, vacRows, today, managerId), now).0
    ensures var entries := PayslipEntries(team, bonusRows, vacRows, today, managerId);
      && entries[i].0 == entries[j].0
      && entries[i].0 in WritePayslips(files, entries, now).1
      && WritePayslips(files, entries, now).1[entries[i].0].doc == PayslipDocument(FiguresOf(team[j], bonusRows, vacRows))
  {
    var entries := PayslipEntries(team, bonusRows, vacRows, today, managerId);
    forall k | j < k < |entries|
      ensures entries[k].0 != entries[j].0
    {
      assert entries[k].0[4] == PdfName(team[k], today);
    }
    LastWriteWins(files, entries, now, j);
  }

  /** Payslip names are distinct for distinct names, as long as no name
      holds a '_'. */
  lemma PdfNameInjective(a: Employee, b: Employee, today: Date)
    requires ValidDate(today)
    requires PdfName(a, today) == PdfName(b, today)
    ensures (a.firstName == b.firstName && a.lastName == b.lastName) || '_' in a.firstName + a.lastName + b.firstName + b.lastName
  {
    if '_' !in a.firstName + a.lastName + b.firstName + b.lastName {
      assert forall c :: c in a.firstName ==> c in a.firstName + a.lastName + b.firstName + b.lastName;
      assert forall c :: c in a.lastName ==> c in a.firstName + a.lastName + b.firstName + b.lastName;
      assert forall c :: c in b.firstName ==> c in a.firstName + a.lastName + b.firstName + b.lastName;
      assert forall c :: c in b.lastName ==> c in a.firstName + a.lastName + b.firstName + b.lastName;
      ParsePdfNameRoundTrip(a, today);
      ParsePdfNameRoundTrip(b, today);
    }
  }

  // ---------------------------------------------------------------------
  // /sendPdfToEmployees
  // ---------------------------------------------------------------------

  const InvalidNameReason := "invalid_name"
  const NoRecipientReason := "employee_not_found_or_no_email"

  function BaseName(p: Path): string
    requires |p| >= 1
  {
    p[|p| - 1]
  }

  /** The query's filter: both names equal ignoring case (`ilike` on a name
      without wildcards), a direct report of `managerId`, active. */
  predicate NamedReport(e: Employee, first: string, last: string, managerId: int)
  {
    EqualsIgnoreCase(e.firstName, first) && EqualsIgnoreCase(e.lastName, last) && ReportsTo(e, managerId)
  }

  /** `.first()` on that query. */
  function Recipient(table: seq<Employee>, first: string, last: string, managerId: int): Option<Employee>
  {
    FirstMatch(table, (e: Employee) => NamedReport(e, first, last, managerId))
  }

  /** What the loop does with a file, decided by its name alone. */
  datatype Disposition = SkipInvalidName | SkipNoRecipient | Deliver(recipient: Employee)

  function Classify(table: seq<Employee>, managerId: int, base: string): Disposition
  {
    match ParsePdfName(base)
    case InvalidName => SkipInvalidName
    case Names(first, last) =>
      var emp := Recipient(table, first, last, managerId);
      if emp.None? || emp.value.email == "" then SkipNoRecipient else Deliver(emp.value)
  }

  /** A payslip is only ever mailed to an active direct report of the
      manager, with an address, whose names match the file's ignoring case;
      the first such row in storage order. */
  lemma ClassifyDeliver(table: seq<Employee>, managerId: int, base: string)
    requires Classify(table, managerId, base).Deliver?
    ensures var e := Classify(table, managerId, base).recipient;
      && ParsePdfName(base).Names?
      && e in table && ReportsTo(e, managerId) && e.email != ""
      && EqualsIgnoreCase(e.firstName, ParsePdfName(base).first)
      && EqualsIgnoreCase(e.lastName, ParsePdfName(base).last)
      && exists i :: 0 <= i < |table| && table[i] == e &&
           forall k :: 0 <= k < i ==> !NamedReport(table[k], ParsePdfName(base).first, ParsePdfName(base).last, managerId)
  {
    var parsed := ParsePdfName(base);
    var i := FirstIndex(table, (e: Employee) => NamedReport(e, parsed.first, parsed.last, managerId));
    assert table[i] == Classify(table, managerId, base).recipient;
  }

  /** The payslip generated for an employee goes back to that employee, when
      the names hold no '_' and no earlier report shares them. */
  lemma GeneratedPayslipReachesItsEmployee(table: seq<Employee>, managerId: int, today: Date, i: int)
    requires ValidDate(today) && 0 <= i < |table|
    requires ReportsTo(table[i], managerId) && table[i].email != ""
    requires '_' !in table[i].firstName && '_' !in table[i].lastName
    requires forall k :: 0 <= k < i ==> !NamedReport(table[k], table[i].firstName, table[i].lastName, managerId)
    ensures Classify(table, managerId, PdfName(table[i], today)) == Deliver(table[i])
  {
    ParsePdfNameRoundTrip(table[i], today);
    var k := FirstIndex(table, (e: Employee) => NamedReport(e, table[i].firstName, table[i].lastName, managerId));
    assert NamedReport(table[i], table[i].firstName, table[i].lastName, managerId);
    assert k == i;
  }

  /** Two reports whose names differ only in case share a payslip name, and
      the later one's payslip is mailed to the earlier one. */
  lemma NamesakePayslipGoesAstray(table: seq<Employee>, managerId: int, today: Date, i: int, j: int)
    requires ValidDate(today) && 0 <= i < j < |table| && UniqueIds(table)
    requires ReportsTo(table[i], managerId) && ReportsTo(table[j], managerId) && table[i].email != ""
    requires EqualsIgnoreCase(table[i].firstName, table[j].firstName) && EqualsIgnoreCase(table[i].lastName, table[j].lastName)
    requires '_' !in table[j].firstName && '_' !in table[j].lastName
    requires forall k :: 0 <= k < i ==> !NamedReport(table[k], table[j].firstName, table[j].lastName, managerId)
    ensures Classify(table, managerId, PdfName(table[j], today)) == Deliver(table[i])
    ensures table[i].empId != table[j].empId
  {
    ParsePdfNameRoundTrip(table[j], today);
    var k := FirstIndex(table, (e: Employee) => NamedReport(e, table[j].firstName, table[j].lastName, managerId));
    assert NamedReport(table[i], table[j].firstName, table[j].lastName, managerId);
    assert k == i;
  }

  /** `%Y` */
  function YearText(d: Date): string
    requires ValidDate(d)
  {
    PadLeft(NatToString(d.year), 4)
  }

  function PayslipSubject(today: Date): string
    requires ValidDate(today)
  {
    "Payslip - " + MonthName(today.month) + " " + YearText(today)
  }

  function PayslipBody(e: Employee): string
  {
    "Hello " + e.firstName + ",\n\n" +
    "Please find attached your payslip for the current month.\n" +
    "The PDF is password-protected with your CNP.\n\n" +
    "Best regards,\n" +
    "Slip Salary App"
  }

  /** The message for one payslip, over the transport the payslips copy of
      the helper chooses. */
  function PayslipMail(s: SmtpSettings, e: Employee, today: Date, base: string, doc: Document): Mail
    requires ValidDate(today)
  {
    Mail(s.fromEmail, e.email, PayslipSubject(today), PayslipBody(e), doc, base, ApplicationPdf,
         s.host, s.port, PdfMailPlan(s.useSsl, s.useTls, s.username, s.password))
  }

  datatype SentEntry = SentEntry(employee: string, email: string, file: string, archivedTo: Path)
  datatype SkipEntry = SkipEntry(file: string, reason: string)

  /** The loop's state: the tree, the two response lists, and whether an
      exception has ended the request. */
  datatype Batch = Batch(files: Files, sent: seq<SentEntry>, skipped: seq<SkipEntry>, failed: bool)

  /** What the loop reads and never changes: the employee table, the
      manager, the settings, the mail server (`false`: it raised), the day
      and the clock. */
  datatype SendContext = SendContext(employees: seq<Employee>, managerId: int, settings: SmtpSettings,
                                     deliver: Mail -> bool, today: Date, now: int)

  /** One iteration: skip, or mail then archive; an exception while opening,
      sending or archiving ends the request. */
  function Step(c: SendContext, b: Batch, path: Path): Batch
    requires ValidDate(c.today) && |path| >= 1
  {
    if b.failed then b
    else
      var base := BaseName(path);
      match Classify(c.employees, c.managerId, base)
      case SkipInvalidName => b.(skipped := b.skipped + [SkipEntry(base, InvalidNameReason)])
      case SkipNoRecipient => b.(skipped := b.skipped + [SkipEntry(base, NoRecipientReason)])
      case Deliver(e) => DeliverStep(c, b, path, e)
  }

  /** Mailing the file to `e`, then archiving it. */
  function DeliverStep(c: SendContext, b: Batch, path: Path, e: Employee): Batch
    requires ValidDate(c.today) && |path| >= 1
  {
    var base := BaseName(path);
    if path !in b.files || !c.deliver(PayslipMail(c.settings, e, c.today, base, b.files[path].doc)) then
      b.(failed := true)
    else
      var archived := ArchiveSent(b.files, path, c.now);
      if archived.0.Err? then b.(failed := true)
      else Batch(archived.1, b.sent + [SentEntry(FullName(e), e.email, base, archived.0.value)], b.skipped, false)
  }

  predicate AllNamed(paths: seq<Path>)
  {
    forall i :: 0 <= i < |paths| ==> |paths[i]| >= 1
  }

  /** The loop over `paths`, in order. */
  function RunBatch(c: SendContext, b: Batch, paths: seq<Path>): Batch
    requires ValidDate(c.today) && AllNamed(paths)
  {
    if paths == [] then b
    else Step(c, RunBatch(c, b, paths[..|paths| - 1]), paths[|paths| - 1])
  }

  lemma BatchStep(c: SendContext, b: Batch, paths: seq<Path>, k: nat)
    requires ValidDate(c.today) && AllNamed(paths) && k < |paths|
    ensures RunBatch(c, b, paths[..k + 1]) == Step(c, RunBatch(c, b, paths[..k]), paths[k])
  {
    assert paths[..k + 1][..k] == paths[..k];
  }

  /** Once the request has failed the rest of the files are not looked at. */
  lemma {:induction false} FailedBatchStays(c: SendContext, b: Batch, paths: seq<Path>, k: nat)
    requires ValidDate(c.today) && AllNamed(paths) && k <= |paths|
    requires RunBatch(c, b, paths[..k]).failed
    ensures RunBatch(c, b, paths) == RunBatch(c, b, paths[..k])
    decreases |paths| - k
  {
    if k < |paths| {
      BatchStep(c, b, paths, k);
      FailedBatchStays(c, b, paths, k + 1);
    } else {
      assert paths[..k] == paths;
    }
  }

  /** The skip entry a file gets, by name alone (none when it is mailed). */
  function SkipOf(c: SendContext, path: Path): seq<SkipEntry>
    requires |path| >= 1
  {
    match Classify(c.employees, c.managerId, BaseName(path))
    case SkipInvalidName => [SkipEntry(BaseName(path), InvalidNameReason)]
    case SkipNoRecipient => [SkipEntry(BaseName(path), NoRecipientReason)]
    case Deliver(_) => []
  }

  /** The file and its recipient, when the file is to be mailed. */
  function DeliveryOf(c: SendContext, path: Path): seq<(Path, Employee)>
    requires |path| >= 1
  {
    match Classify(c.employees, c.managerId, BaseName(path))
    case Deliver(e) => [(path, e)]
    case _ => []
  }

  function Skips(c: SendContext, paths: seq<Path>): seq<SkipEntry>
    requires AllNamed(paths)
  {
    if paths == [] then [] else Skips(c, paths[..|paths| - 1]) + SkipOf(c, paths[|paths| - 1])
  }

  function Deliveries(c: SendContext, paths: seq<Path>): seq<(Path, Employee)>
    requires AllNamed(paths)
  {
    if paths == [] then [] else Deliveries(c, paths[..|paths| - 1]) + DeliveryOf(c, paths[|paths| - 1])
  }

  function DeliveredPaths(c: SendContext, paths: seq<Path>): set<Path>
    requires AllNamed(paths)
  {
    set d | d in Deliveries(c, paths) :: d.0
  }

  /** A step that does not fail adds the file's skip entry, or its sent
      entry, and nothing else to the lists. */
  lemma StepLists(c: SendContext, b: Batch, path: Path)
    requires ValidDate(c.today) && |path| >= 1
    requires !Step(c, b, path).failed
    ensures !b.failed
    ensures |SkipOf(c, path)| + |DeliveryOf(c, path)| == 1
    ensures Step(c, b, path).skipped == b.skipped + SkipOf(c, path)
    ensures |Step(c, b, path).sent| == |b.sent| + |DeliveryOf(c, path)|
    ensures Step(c, b, path).sent[..|b.sent|] == b.sent
    ensures DeliveryOf(c, path) != [] ==>
              var e := DeliveryOf(c, path)[0].1;
              var entry := Step(c, b, path).sent[|b.sent|];
              entry.file == BaseName(path) && entry.email == e.email && entry.employee == FullName(e)
  {
    OneEntryEach(c, path);
    StepSkips(c, b, path);
    StepSent(c, b, path);
  }

  lemma StepSkips(c: SendContext, b: Batch, path: Path)
    requires ValidDate(c.today) && |path| >= 1
    requires !Step(c, b, path).failed
    ensures !b.failed
    ensures Step(c, b, path).skipped == b.skipped + SkipOf(c, path)
  {
  }

  lemma StepSent(c: SendContext, b: Batch, path: Path)
    requires ValidDate(c.today) && |path| >= 1
    requires !Step(c, b, path).failed
    ensures Step(c, b, path).sent == b.sent + if DeliveryOf(c, path) == [] then [] else
              var e := DeliveryOf(c, path)[0].1;
              [SentEntry(FullName(e), e.email, BaseName(path), ArchiveSent(b.files, path, c.now).0.value)]
  {
  }

  /** A step that does not fail leaves the tree alone, or archives the file
      it mailed. */
  lemma StepFiles(c: SendContext, b: Batch, path: Path)
    requires ValidDate(c.today) && |path| >= 1
    requires !Step(c, b, path).failed
    ensures DeliveryOf(c, path) == [] ==> Step(c, b, path).files == b.files
    ensures DeliveryOf(c, path) != [] ==>
              ArchiveSent(b.files, path, c.now).0.Ok? && Step(c, b, path).files == ArchiveSent(b.files, path, c.now).1
  {
    match Classify(c.employees, c.managerId, BaseName(path))
    case Deliver(e) =>
    case _ =>
  }

  /** A run that completes accounts for every file exactly once, in order:
      each is either skipped, with the reason its name gives, or listed as
      sent to the recipient its name designates. */
  lemma BatchAccounts(c: SendContext, files: Files, paths: seq<Path>)
    requires ValidDate(c.today) && AllNamed(paths)
    ensures var b := RunBatch(c, Batch(files, [], [], false), paths);
      !b.failed ==>
        && b.skipped == Skips(c, paths)
        && |b.sent| == |Deliveries(c, paths)|
        && |b.sent| + |b.skipped| == |paths|
        && forall i :: 0 <= i < |b.sent| ==> SentMatches(b.sent[i], Deliveries(c, paths)[i])
  {
    BatchSkipped(c, files, paths);
    BatchSent(c, files, paths);
    ListsCoverPaths(c, paths);
  }

  lemma {:induction false} BatchSkipped(c: SendContext, files: Files, paths: seq<Path>)
    requires ValidDate(c.today) && AllNamed(paths)
    ensures var b := RunBatch(c, Batch(files, [], [], false), paths);
      !b.failed ==> b.skipped == Skips(c, paths)
  {
    if paths != [] && !RunBatch(c, Batch(files, [], [], false), paths).failed {
      AccountsStep(c, files, paths);
      BatchSkipped(c, files, paths[..|paths| - 1]);
    }
  }

  lemma {:induction false} BatchSent(c: SendContext, files: Files, paths: seq<Path>)
    requires ValidDate(c.today) && AllNamed(paths)
    ensures var b := RunBatch(c, Batch(files, [], [], false), paths);
      !b.failed ==>
        && |b.sent| == |Deliveries(c, paths)|
        && forall i :: 0 <= i < |b.sent| ==> SentMatches(b.sent[i], Deliveries(c, paths)[i])
  {
    var b := RunBatch(c, Batch(files, [], [], false), paths);
    if paths != [] && !b.failed {
      var n := |paths| - 1;
      var init := paths[..n];
      AccountsStep(c, files, paths);
      var prev := RunBatch(c, Batch(files, [], [], false), init);
      BatchSent(c, files, init);
      assert Deliveries(c, paths) == Deliveries(c, init) + DeliveryOf(c, paths[n]);
      SentAppend(prev.sent, b.sent, Deliveries(c, init), DeliveryOf(c, paths[n]));
    }
  }

  /** Matching entries stay matched when both lists grow at the end. */
  lemma SentAppend(before: seq<SentEntry>, after: seq<SentEntry>, d: seq<(Path, Employee)>, x: seq<(Path, Employee)>)
    requires |before| == |d| && forall i :: 0 <= i < |before| ==> SentMatches(before[i], d[i])
    requires |x| <= 1 && |after| == |before| + |x|
    requires forall i :: 0 <= i < |before| ==> after[i] == before[i]
    requires x != [] ==> SentMatches(after[|before|], x[0])
    ensures |after| == |d + x| && forall i :: 0 <= i < |after| ==> SentMatches(after[i], (d + x)[i])
  {
  }

  /** Every file gets exactly one entry, in one of the two lists. */
  lemma {:induction false} ListsCoverPaths(c: SendContext, paths: seq<Path>)
    requires AllNamed(paths)
    ensures |Skips(c, paths)| + |Deliveries(c, paths)| == |paths|
  {
    if paths != [] {
      var n := |paths| - 1;
      assert AllNamed(paths[..n]);
      ListsCoverPaths(c, paths[..n]);
      OneEntryEach(c, paths[n]);
    }
  }

  lemma OneEntryEach(c: SendContext, path: Path)
    requires |path| >= 1
    ensures |SkipOf(c, path)| + |DeliveryOf(c, path)| == 1
  {
  }

  /** The last file of a run that completes, in terms of the run before it. */
  lemma AccountsStep(c: SendContext, files: Files, paths: seq<Path>)
    requires ValidDate(c.today) && AllNamed(paths) && paths != []
    requires !RunBatch(c, Batch(files, [], [], false), paths).failed
    ensures AllNamed(paths[..|paths| - 1])
    ensures var prev := RunBatch(c, Batch(files, [], [], false), paths[..|paths| - 1]);
      var b := RunBatch(c, Batch(files, [], [], false), paths);
      var last := paths[|paths| - 1];
      && !prev.failed
      && |SkipOf(c, last)| + |DeliveryOf(c, last)| == 1
      && b.skipped == prev.skipped + SkipOf(c, last)
      && |b.sent| == |prev.sent| + |DeliveryOf(c, last)|
      && (forall i :: 0 <= i < |prev.sent| ==> b.sent[i] == prev.sent[i])
      && (DeliveryOf(c, last) != [] ==> SentMatches(b.sent[|prev.sent|], DeliveryOf(c, last)[0]))
  {
    var n := |paths| - 1;
    assert AllNamed(paths[..n]);
    var prev := RunBatch(c, Batch(files, [], [], false), paths[..n]);
    StepLists(c, prev, paths[n]);
  }

  /** A sent entry names the file and the recipient of a delivery. */
  predicate SentMatches(entry: SentEntry, d: (Path, Employee))
  {
    |d.0| >= 1 && entry.file == BaseName(d.0) && entry.email == d.1.email && entry.employee == FullName(d.1)
  }

  /** Every delivered file is one of the run's paths. */
  lemma {:induction false} DeliveriesFromPaths(c: SendContext, paths: seq<Path>)
    requires AllNamed(paths)
    ensures forall d :: d in Deliveries(c, paths) ==> d.0 in paths
  {
    if paths != [] {
      var n := |paths| - 1;
      assert AllNamed(paths[..n]);
      DeliveriesFromPaths(c, paths[..n]);
      assert forall q :: q in paths[..n] ==> q in paths;
    }
  }

  /** Run over the manager's PDFs (distinct, all in the tree), a request that
      completes has moved away exactly the files it mailed: every skipped
      file is still found by the next search, and no other manager's
      search changes. */
  lemma {:induction false} BatchLeavesSkipped(c: SendContext, files: Files, paths: seq<Path>, managerId: int)
    requires ValidDate(c.today) && AllNamed(paths)
    requires forall i :: 0 <= i < |paths| ==> IsPdfCandidate(paths[i], c.managerId) && paths[i] in files
    requires forall i, j :: 0 <= i < j < |paths| ==> paths[i] != paths[j]
    ensures var b := RunBatch(c, Batch(files, [], [], false), paths);
      !b.failed ==> PdfCandidates(b.files, managerId) == PdfCandidates(files, managerId) - DeliveredPaths(c, paths)
  {
    if paths != [] {
      var n := |paths| - 1;
      var init := paths[..n];
      var path := paths[n];
      assert forall i :: 0 <= i < |init| ==> init[i] == paths[i];
      var prev := RunBatch(c, Batch(files, [], [], false), init);
      var b := RunBatch(c, Batch(files, [], [], false), paths);
      assert b == Step(c, prev, path);
      if !b.failed {
        StepLists(c, prev, path);
        StepFiles(c, prev, path);
        BatchLeavesSkipped(c, files, init, managerId);
        DeliveredPathsStep(c, paths);
        if DeliveryOf(c, path) != [] {
          BatchLeavesSkipped(c, files, init, c.managerId);
          assert path !in DeliveredPaths(c, init) by {
            DeliveriesFromPaths(c, init);
            assert path !in init;
          }
          ArchivedStepCandidates(files, DeliveredPaths(c, init), prev.files, path, c.now, c.managerId, managerId);
        }
      }
    }
  }

  lemma DeliveredPathsStep(c: SendContext, paths: seq<Path>)
    requires AllNamed(paths) && paths != []
    ensures AllNamed(paths[..|paths| - 1])
    ensures DeliveredPaths(c, paths) ==
              DeliveredPaths(c, paths[..|paths| - 1]) + (if DeliveryOf(c, paths[|paths| - 1]) != [] then {paths[|paths| - 1]} else {})
  {
    var n := |paths| - 1;
    assert AllNamed(paths[..n]);
    assert Deliveries(c, paths) == Deliveries(c, paths[..n]) + DeliveryOf(c, paths[n]);
  }

  /** Archiving one more of the manager's files takes it out of every search. */
  lemma ArchivedStepCandidates(files: Files, gone: set<Path>, current: Files, path: Path, now: int, owner: int, managerId: int)
    requires PdfCandidates(current, owner) == PdfCandidates(files, owner) - gone
    requires PdfCandidates(current, managerId) == PdfCandidates(files, managerId) - gone
    requires path in files && IsPdfCandidate(path, owner) && path !in gone
    requires ArchiveSent(current, path, now).0.Ok?
    ensures PdfCandidates(ArchiveSent(current, path, now).1, managerId) == PdfCandidates(files, managerId) - (gone + {path})
  {
    assert path in PdfCandidates(current, owner);
    ArchivedLeavesSearches(current, path, now, owner, managerId);
  }

  /** One iteration of the loop. */
  method ProcessFile(fs: FileSystem, c: SendContext, sent: seq<SentEntry>, skipped: seq<SkipEntry>, path: Path)
      returns (sent': seq<SentEntry>, skipped': seq<SkipEntry>, failed: bool)
    requires ValidDate(c.today) && |path| >= 1
    modifies fs
    ensures Batch(fs.files, sent', skipped', failed) == Step(c, Batch(old(fs.files), sent, skipped, false), path)
  {
    sent', skipped', failed := sent, skipped, false;
    var base := path[|path| - 1];
    assert base == BaseName(path);
    var parsed := ParsePdfName(base);
    if parsed.InvalidName? {
      assert Classify(c.employees, c.managerId, base) == SkipInvalidName;
      skipped' := skipped + [SkipEntry(base, InvalidNameReason)];
      return;
    }
    var emp := Recipient(c.employees, parsed.first, parsed.last, c.managerId);
    if emp.None? || emp.value.email == "" {
      assert Classify(c.employees, c.managerId, base) == SkipNoRecipient;
      skipped' := skipped + [SkipEntry(base, NoRecipientReason)];
      return;
    }
    var e := emp.value;
    assert Classify(c.employees, c.managerId, base) == Deliver(e);
    sent', failed := MailPayslip(fs, c, sent, skipped, path, e);
  }

  /** The endpoint's `try` for one recipient: open, mail, archive. */
  method MailPayslip(fs: FileSystem, c: SendContext, sent: seq<SentEntry>, skipped: seq<SkipEntry>, path: Path, e: Employee)
      returns (sent': seq<SentEntry>, failed: bool)
    requires ValidDate(c.today) && |path| >= 1
    modifies fs
    ensures Batch(fs.files, sent', skipped, failed) == DeliverStep(c, Batch(old(fs.files), sent, skipped, false), path, e)
  {
    sent', failed := sent, false;
    var base := path[|path| - 1];
    if path !in fs.files {
      failed := true;
      return;
    }
    var mail := PayslipMail(c.settings, e, c.today, base, fs.files[path].doc);
    if !c.deliver(mail) {
      failed := true;
      return;
    }
    var archived := ArchiveSentFile(fs, path, c.now);
    if archived.Err? {
      failed := true;
      return;
    }
    sent' := sent + [SentEntry(FullName(e), e.email, base, archived.value)];
  }

  /** The loop over the files found, in order. */
  method SendAll(fs: FileSystem, c: SendContext, paths: seq<Path>)
      returns (sent: seq<SentEntry>, skipped: seq<SkipEntry>, failed: bool)
    requires ValidDate(c.today) && AllNamed(paths)
    modifies fs
    ensures Batch(fs.files, sent, skipped, failed) == RunBatch(c, Batch(old(fs.files), [], [], false), paths)
  {
    ghost var init := Batch(old(fs.files), [], [], false);
    sent, skipped, failed := [], [], false;
    for k := 0 to |paths|
      invariant Batch(fs.files, sent, skipped, false) == RunBatch(c, init, paths[..k])
    {
      BatchStep(c, init, paths, k);
      sent, skipped, failed := ProcessFile(fs, c, sent, skipped, paths[k]);
      if failed {
        FailedBatchStays(c, init, paths, k + 1);
        return;
      }
    }
    assert paths[..|paths|] == paths;
  }

  datatype SendPdfResponse =
    | PdfsNotFound                                                                  // 404
    | PdfsSent(managerId: int, sentTo: seq<SentEntry>, skipped: seq<SkipEntry>)    // 200, status "sent"
    | PdfSendError                                                                  // 500, "Internal error"

  /** The response and tree a run over `found` leaves. */
  predicate SentAsSpecified(r: SendPdfResponse, before: Files, after: Files, c: SendContext, found: seq<Path>)
    requires ValidDate(c.today) && AllNamed(found)
  {
    var b := RunBatch(c, Batch(before, [], [], false), found);
    && after == b.files
    && r == if b.failed then PdfSendError else PdfsSent(c.managerId, b.sent, b.skipped)
  }

  /** /sendPdfToEmployees for `manager`; `found` is the search's result, in
      the order the files are handled. */
  method SendPdfToEmployees(fs: FileSystem, db: Database, manager: Employee, env: Env, deliver: Mail -> bool,
                            today: Date, now: int)
      returns (r: SendPdfResponse, found: seq<Path>)
    requires ValidDate(today)
    modifies fs
    ensures forall p :: p in found <==> p in PdfCandidates(old(fs.files), manager.empId)
    ensures (forall i, j :: 0 <= i < j < |found| ==> found[i] != found[j]) && SortedPaths(found)
    ensures AllNamed(found)
    ensures r.PdfsNotFound? <==> found == []
    ensures found == [] || ReadSettings(env).None? ==> fs.files == old(fs.files)
    ensures found != [] && ReadSettings(env).None? ==> r == PdfSendError
    ensures found != [] && ReadSettings(env).Some? ==>
              SentAsSpecified(r, old(fs.files), fs.files,
                              SendContext(db.employees, manager.empId, ReadSettings(env).value, deliver, today, now), found)
  {
    found := FindPdfs(fs, manager.empId);
    assert forall i :: 0 <= i < |found| ==> found[i] in PdfCandidates(fs.files, manager.empId);
    if found == [] {
      return PdfsNotFound, found;
    }
    r := SendWithSettings(fs, db.employees, manager.empId, ReadSettings(env), deliver, today, now, found);
  }

  /** The endpoint after the search, with the settings read from the
      environment (`None`: SMTP_PORT did not parse). */
  method SendWithSettings(fs: FileSystem, employees: seq<Employee>, managerId: int, settings: Option<SmtpSettings>,
                          deliver: Mail -> bool, today: Date, now: int, found: seq<Path>)
      returns (r: SendPdfResponse)
    requires ValidDate(today) && AllNamed(found)
    modifies fs
    ensures !r.PdfsNotFound?
    ensures settings.None? ==> r == PdfSendError && fs.files == old(fs.files)
    ensures settings.Some? ==>
              SentAsSpecified(r, old(fs.files), fs.files,
                              SendContext(employees, managerId, settings.value, deliver, today, now), found)
  {
    if settings.None? {
      return PdfSendError;
    }
    var c := SendContext(employees, managerId, settings.value, deliver, today, now);
    var sent, skipped, failed := SendAll(fs, c, found);
    r := if failed then PdfSendError else PdfsSent(managerId, sent, skipped);
  }
}
