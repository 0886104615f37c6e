# Slip Salary App: payroll and payslip endpoints, guard and login

This project is a Dafny model of the core of a small Flask salary service.
Each month, for the manager whose token the guard admits, the service does
four things:

- **Monthly CSV.** `/createAggregatedEmployeeData` writes one CSV for the team:
  - where: `archive/YYYY-MM/manager_<id>/aggregated_YYYY_MM.csv`;
  - per employee: name, salary to pay (base salary plus this month's
    bonuses), the month's working days, vacation days and the bonus total.
- **Send the CSV.** `/sendAggregatedEmployeeData` mails the most recent of
  those CSVs to the manager, then moves it into a `sent/` folder next to it.
- **Payslips.** `/createPdfForEmployees` writes one payslip per team member
  to `.../manager_<id>/pdfs/<first>_<last>_YYYY_MM.pdf`. Each payslip is
  protected by the employee's CNP (the Romanian personal numeric code).
- **Send the payslips.** `/sendPdfToEmployees` takes every payslip found, in
  sorted order:
  - it parses the employee's names from the file name;
  - it finds that active report of the manager by a case-insensitive match;
  - it mails the file to them and archives it to `sent/`;
  - it reports what was sent and what was skipped, and why.

Two pieces sit in front of these endpoints. The `manager_required` guard
checks the bearer token, the employee it names and their role. When it is
asked to, it also checks the `manager_id` the request carries. `/auth/login`
checks an employee's e-mail and CNP and issues the token.

The modules follow the program's structure:

- `Wrappers`: `Option` and `Result`.
- `Text`: the Python string operations the code relies on, with their
  properties. These are `str()`/`int()`, `strip`, `lower`, `split`,
  `os.path.splitext`, string order and the `:.2f` rendering of money.
- `Json`: request bodies and configuration values, Python truthiness and `int()`.
- `Calendar`: proleptic Gregorian dates, `month_bounds`, business days,
  `strftime`.
- `Records`: the `employees`, `bonuses` and `vacations` tables, and `.first()`.
- `Aggregation`: the two SQL aggregates, the team roster and the CSV row.
- `Archive`: the working tree as a map from paths to files, held by a
  `FileSystem` class whose `WriteFile` and `Move` change it in place. It
  also holds:
  - the glob searches;
  - the latest-CSV and sorted-PDF listings;
  - the shared move-to-`sent/` step.
- `Mail`: the SMTP settings read from the environment, the transport each
  copy of the mail helper picks, and the outgoing message.
- `Payroll`, `Payslips`: the four endpoints.
- `Auth`: `core/auth.py`, meaning the token claims, the decode-error cascade,
  and the guard as a pure decision plus a `RequestContext` class for
  `g.current_user`.
- `Login`: `routers/auth.py`.

Amounts are integer cents. The SMTP exchange is a parameter
`deliver: Mail -> bool`, where false means it raised. JWT decoding is a
parameter `decode: string -> DecodeOutcome`, which yields the payload or one
of the library's error classes. The clock is read once per request, as
`today` and `now`.

**The two copies of the mail helper choose different transports.** In
`app/api/routers/payroll.py:197-207` the CSV mail goes over STARTTLS when
`SMTP_USE_TLS` is true and over implicit SSL (`SMTP_SSL`) otherwise, never
in plaintext. The payslip copy falls back to plaintext when both
`SMTP_USE_SSL` and `SMTP_USE_TLS` are off. `Mail.CsvMailPlan`,
`Mail.PdfMailPlan` and `Mail.MailPlansCompared` state this.

## Model

| member | source | states |
|---|---|---|
| `Text.IntToStringParses` | app/core/auth.py:20 | `int(str(i)) == i` for every integer, so the `sub` claim written as a string reads back as the employee id |
| `Text.IntToStringInjective` | app/core/auth.py:60 | distinct ids render as distinct `sub` strings |
| `Text.NatToStringValue` | app/core/auth.py:20 | the decimal digits `str` writes have the number's value |
| `Text.TrimStart` | app/api/routers/auth.py:12 | the result is a suffix of the input, starts with no whitespace, and only whitespace was removed |
| `Text.TrimEnd` | app/api/routers/auth.py:12 | the result is a prefix of the input, ends with no whitespace, and only whitespace was removed |
| `Text.Strip` | app/api/routers/auth.py:12-13 | the result is a slice of the input with no whitespace at either end, and everything cut off before and after it is whitespace |
| `Text.StripUnchanged` | app/api/routers/auth.py:12-13 | a string with no surrounding whitespace is its own `strip()` |
| `Text.Lower` | app/api/routers/auth.py:12 | same length, each character lowered |
| `Text.IndexOf` | app/core/auth.py:47 | the first occurrence of a character, or -1 when there is none |
| `Text.LastIndexOf` | app/api/routers/payslips.py:272 | the last occurrence of a character, or -1 when there is none |
| `Text.Split` | app/api/routers/payslips.py:273 | `str.split(sep)` yields at least one part, and no part holds the separator |
| `Text.JoinSplit` | app/api/routers/payslips.py:273 | joining the parts of a split with the separator gives back the string |
| `Text.SplitAfter` | app/api/routers/payslips.py:273 | splitting `a + sep + b`, with no separator in `a`, yields `a` followed by the parts of `b` |
| `Text.SplitJoin` | app/api/routers/payslips.py:273 | splitting a join of separator-free parts gives back the parts |
| `Text.SplitExt` | app/api/routers/payslips.py:272 | `os.path.splitext`: stem and extension concatenate to the name; the extension is empty or one dot and no other dot |
| `Text.SplitExtOf` | app/api/routers/payroll.py:219 | a stem that is not all dots and a one-dot extension split back apart |
| `Text.StrLeTotal` | app/api/routers/payslips.py:222 | Python string order is total |
| `Text.StrLeTransitive` | app/api/routers/payslips.py:222 | Python string order is transitive |
| `Text.StrLeAntisymmetric` | app/api/routers/payslips.py:222 | Python string order is antisymmetric |
| `Text.FormatCentsRoundTrip` | app/api/routers/payroll.py:123-126 | the `:.2f` rendering of an amount reads back as the same amount |
| `Calendar.MakeDate` | app/api/routers/payroll.py:25-33 | `date(y, m, d)` succeeds exactly for valid calendar dates |
| `Calendar.YearLength` | app/api/routers/payroll.py:25-33 | a year has 366 days when it is a leap year and 365 otherwise |
| `Calendar.DaysBeforeDecember` | app/api/routers/payroll.py:25-33 | the months of a year add up to its length |
| `Calendar.PrevDay` | app/api/routers/payroll.py:29-32 | `d - timedelta(days=1)` is the ordinal's predecessor; it fails only on 1 January of year 1 |
| `Calendar.NextDay` | app/api/routers/payroll.py:44 | `d + timedelta(days=1)` is the ordinal's successor and a later date; it fails only on 31 December 9999 |
| `Calendar.MonthBounds` | app/api/routers/payroll.py:25-33 | the first and last day of the month holding `d`, spanning exactly the month's length; it fails exactly in December 9999 |
| `Calendar.BusinessDaysInMonth` | app/api/routers/payroll.py:35-45 | the loop counts the month's weekdays outside the holiday set, and fails exactly when `month_bounds` does |
| `Calendar.BusinessDaysAtMostMonthLength` | app/api/routers/payroll.py:35-45 | the count never exceeds the number of days counted over |
| `Calendar.MoreHolidaysFewerDays` | app/api/routers/payroll.py:35-45 | adding holidays never raises the count |
| `Calendar.BusinessDaysCountsTheSet` | app/api/routers/payroll.py:35-45 | the count is the size of the set of days with weekday < 5 that are not holidays |
| `Calendar.WeekdayRunSplit` | app/api/routers/payroll.py:39-44 | counting weekdays over two consecutive runs adds up |
| `Calendar.WeekdayRunBound` | app/api/routers/payroll.py:39-44 | a run of n days holds at most n weekdays |
| `Calendar.OneWeek` | app/api/routers/payroll.py:39-44 | any seven consecutive days hold five weekdays |
| `Calendar.FourWeeks` | app/api/routers/payroll.py:39-44 | any 28 consecutive days hold 20 weekdays |
| `Calendar.BusinessDaysAsWeekdayRun` | app/api/routers/payroll.py:35-45 | with no holidays, the count is the weekdays in a run that starts on the month's first weekday |
| `Calendar.BusinessDaysWithoutHolidays` | app/api/routers/payroll.py:74 | with the empty holiday set the endpoint uses, every month has 20 to 23 working days |
| `Calendar.PadLeft` | app/api/routers/payroll.py:133-134 | zero padding reaches the width, keeps the text all digits, and keeps its value: the result reads back as the same number |
| `Calendar.YearMonth` | app/api/routers/payroll.py:133-134 | `strftime("%Y-%m")` / `"%Y_%m"` is seven characters: four digits that read back as the date's year, the separator, and two digits that read back as its month |
| `Calendar.DigitCount` | app/api/routers/payroll.py:133-134 | the digit count of small numbers, for the padded date fields |
| `Records.FirstIndex` | app/core/auth.py:61 | `.first()`: the index of the first row that satisfies the filter, or -1 when no row does |
| `Records.FirstMatchById` | app/core/auth.py:61 | with unique ids, filtering on an active employee's id finds that employee |
| `Aggregation.BonusTotalOutsideGroups` | app/api/routers/payroll.py:77-84 | an employee with no bonus row for the month has a bonus total of 0 |
| `Aggregation.BonusRowsGet` | app/api/routers/payroll.py:117 | looking up an id in the grouped bonus dictionary, with default 0, gives that employee's bonus sum for the month |
| `Aggregation.BonusTotalAppend` | app/api/routers/payroll.py:77-84 | a further bonus adds its amount exactly when it is the employee's and is effective that month |
| `Aggregation.OverlapDays` | app/api/routers/payroll.py:86-94 | one vacation contributes 0 to the month's length; at least 1 when it overlaps; the whole month when it covers it |
| `Aggregation.CoveredDaysClosedForm` | app/api/routers/payroll.py:88 | counting covered days gives `GREATEST(0, LEAST(b, hi) - GREATEST(a, lo) + 1)` |
| `Aggregation.OverlapDaysCounted` | app/api/routers/payroll.py:88 | the SQL term equals the number of the vacation's days that fall in the month |
| `Aggregation.VacationDaysNonNegative` | app/api/routers/payroll.py:86-94 | vacation days are never negative |
| `Aggregation.VacationDaysAppend` | app/api/routers/payroll.py:86-94 | a further vacation record adds its overlap exactly when it is the employee's and overlaps the month |
| `Aggregation.DuplicateCountedTwice` | app/api/routers/payroll.py:86-94 | overlapping or repeated records are summed, not merged |
| `Aggregation.VacationTypeIgnored` | app/api/routers/payroll.py:86-94 | the vacation type plays no part in the count |
| `Aggregation.VacationDaysOutsideGroups` | app/api/routers/payroll.py:86-94 | an employee with no overlapping record has 0 vacation days |
| `Aggregation.VacationRowsGet` | app/api/routers/payroll.py:118 | the dictionary lookup with default 0 gives the employee's vacation days |
| `Aggregation.Reports` | app/api/routers/payroll.py:97-102 | `filter_by(manager_id=…, is_active=True)` keeps exactly the active direct reports, each no more often than in the table |
| `Aggregation.InsertById` | app/api/routers/payroll.py:100 | inserting into an id-ordered list keeps it ordered and adds exactly that row |
| `Aggregation.SortById` | app/api/routers/payroll.py:100 | `order_by(emp_id)` is ordered and a permutation |
| `Aggregation.ReportsUniqueIds` | app/api/routers/payroll.py:97-102 | filtering keeps ids distinct |
| `Aggregation.InsertUniqueIds` | app/api/routers/payroll.py:100 | inserting a new id keeps ids distinct |
| `Aggregation.SortUniqueIds` | app/api/routers/payroll.py:100 | sorting keeps ids distinct |
| `Aggregation.RosterIsTheTeam` | app/api/routers/payroll.py:97-102 | the roster is exactly the active direct reports, a permutation of the filtered rows, strictly ascending by id |
| `Aggregation.FiguresOfQueries` | app/api/routers/payroll.py:117-119 | the two `get(emp_id, 0)` lookups give the employee's bonus total and vacation days |
| `Aggregation.CsvRowReadsBack` | app/api/routers/payroll.py:121-127 | a CSV row has the header's five columns and reads back as name, base plus bonus, working days, vacation days and bonus |
| `Archive.Renamed` | app/api/routers/payroll.py:222 | the moved file is at the target and gone from the source; every other path is untouched |
| `Archive.FileSystem.WriteFile` | app/api/routers/payroll.py:136-140 | writing succeeds exactly when no file blocks the directories and the path is not a directory; on success it puts the document at the path stamped `now`, otherwise nothing changes |
| `Archive.FileSystem.Move` | app/api/routers/payroll.py:222 | `shutil.move` succeeds exactly when allowed; on success it renames into the directory target or onto the path, otherwise nothing changes |
| `Archive.ManagerFoldersDisjoint` | app/api/routers/payroll.py:164 | a file matches the search patterns of at most one manager |
| `Archive.FindLatestCsv` | app/api/routers/payroll.py:159-169 | returns nothing exactly when no CSV matches, and otherwise a match with the greatest modification time |
| `Archive.InsertPath` | app/api/routers/payslips.py:222 | inserting into a sorted list keeps it sorted and adds exactly that path |
| `Archive.SortPaths` | app/api/routers/payslips.py:222 | `sorted()` of paths is sorted and a permutation |
| `Archive.Listing` | app/api/routers/payslips.py:221-222 | `glob` lists each matching path once |
| `Archive.FindPdfs` | app/api/routers/payslips.py:216-222 | exactly the manager's PDFs, each once, in sorted order |
| `Archive.PermutationKeepsDistinct` | app/api/routers/payslips.py:222 | sorting a list without repeats keeps its elements and keeps it free of repeats |
| `Archive.DistinctCount` | app/api/routers/payslips.py:222 | a list without repeats holds each path at most once |
| `Archive.ArchiveSentFile` | app/api/routers/payslips.py:225-238 | the method performs the move-to-`sent/` step as the function `ArchiveSent` describes |
| `Archive.ArchiveSentMoves` | app/api/routers/payroll.py:210-223 | archiving fails on a missing file or a blocked `sent/`; otherwise it moves the file into `sent/`, returns the destination and leaves every other file as it was; a failure changes nothing |
| `Archive.ArchiveTwiceFails` | app/api/routers/payslips.py:225-238 | once archived, a file cannot be archived again |
| `Archive.ArchivedLeavesSearches` | app/api/routers/payslips.py:225-238 | an archived file drops out of both searches and nothing else enters or leaves them |
| `Archive.RenameOutsideSearches` | app/api/routers/payroll.py:164 | moving a file to a path no search matches removes exactly it from the searches |
| `Archive.ClashKeepsExtension` | app/api/routers/payroll.py:218-220 | when `sent/` already holds the name, the destination is `<stem>_<now><ext>` |
| `Archive.SuffixedNameOverwritten` | app/api/routers/payroll.py:218-222 | when the suffixed name is also taken, the move overwrites it with the sent file |
| `Mail.CsvMailPlan` | app/api/routers/payroll.py:197-207 | STARTTLS exactly when `use_tls`, otherwise implicit SSL, never plaintext; login exactly when both credentials are non-empty |
| `Mail.PdfMailPlan` | app/api/routers/payslips.py:203-214 | SSL when `use_ssl`; otherwise STARTTLS exactly when `use_tls`; plaintext exactly when both are off; login as above |
| `Mail.MailPlansCompared` | app/api/routers/payroll.py:197-207 | the two helper copies agree with TLS on, and differ when `SMTP_USE_TLS` is false: SSL for the CSV, plaintext for payslips |
| `Mail.EmptyEnvironmentSettings` | app/api/routers/payroll.py:240-245 | with nothing set: `smtp.gmail.com`, port 587, no credentials, no sender, STARTTLS and no login |
| `Mail.UnsetKeysTakeDefaults` | app/api/routers/payroll.py:240-245 | in any environment without `SMTP_PORT` the settings are read, with port 587; each unset key takes its default (host `smtp.gmail.com`, no username or password, the username as sender, TLS on, SSL off) and a set host is used as given |
| `Mail.BadPortFails` | app/api/routers/payslips.py:260 | an `SMTP_PORT` that `int()` rejects stops the request whatever else is set |
| `Mail.SenderDefaultsToUser` | app/api/routers/payroll.py:244 | without `FROM_EMAIL` the sender is the SMTP user name |
| `Payroll.CsvPathFound` | app/api/routers/payroll.py:133-137 | the file the create endpoint writes is found by this manager's CSV search and by no other manager's |
| `Payroll.BuildCsv` | app/api/routers/payroll.py:104-128 | the loop produces the header and one row per team member in order; the count is the team size |
| `Payroll.CsvDocumentForTeam` | app/api/routers/payroll.py:72-128 | one row per active direct report, each reading back as name, base plus bonus, working days, vacation days, bonus |
| `Payroll.CsvRowOf` | app/api/routers/payroll.py:116-127 | one employee's row carries the SQL aggregates of that employee |
| `Payroll.CreateAggregatedEmployeeData` | app/api/routers/payroll.py:56-153 | 500 exactly in December 9999 or when the file cannot be written, with nothing changed; otherwise the reply's period, working days and row count, and only the CSV path changed, holding the team's document |
| `Payroll.SendAggregatedEmployeeData` | app/api/routers/payroll.py:227-281 | 404 exactly when no CSV matches; on 200 the latest CSV was mailed to the manager and archived; any failure leaves the tree unchanged |
| `Payroll.MailAndArchive` | app/api/routers/payroll.py:240-281 | mails with the environment's settings, then archives; it fails on bad settings, a failed send or a failed move, and then changes nothing |
| `Payslips.PdfPathFound` | app/api/routers/payslips.py:216-222 | a payslip path is found by the PDF search exactly when the first name does not start with a dot, since `*` skips hidden files |
| `Payslips.ParsePdfNameInvalid` | app/api/routers/payslips.py:271-277 | a file is skipped as `invalid_name` exactly when its stem has no underscore |
| `Payslips.ParsePdfNameRoundTrip` | app/api/routers/payslips.py:271-279 | the names parsed from a payslip name are the employee's, when neither name holds an underscore |
| `Payslips.WriteStep` | app/api/routers/payslips.py:146-156 | one more payslip either writes over its path or stops the loop |
| `Payslips.LastWriteWins` | app/api/routers/payslips.py:146-156 | after a successful loop each path holds the last payslip written to it |
| `Payslips.WritesKeepOthers` | app/api/routers/payslips.py:146-156 | paths no payslip names keep their files |
| `Payslips.CreatePdfForEmployees` | app/api/routers/payslips.py:92-169 | 500 with nothing changed when there is no next month or `pdfs/` is blocked; otherwise on 200 every payslip is written and listed, and on a failed write the reply is 500 |
| `Payslips.WritePdfs` | app/api/routers/payslips.py:146-156 | the loop performs the writes and, when it succeeds, lists each path in order |
| `Payslips.FailedWritesStay` | app/api/routers/payslips.py:146-156 | after a failed write no later payslip is written |
| `Payslips.PayslipEntryContents` | app/api/routers/payslips.py:146-156 | the i-th payslip is at `<first>_<last>_YYYY_MM.pdf`, shows base plus bonus, bonus and vacation days, and is locked with the employee's CNP |
| `Payslips.NamesakesShareAFile` | app/api/routers/payslips.py:152-156 | two reports with the same names get the same path, and the later one's payslip replaces the earlier one's |
| `Payslips.PdfNameInjective` | app/api/routers/payslips.py:152 | equal payslip names mean equal names, unless a name holds an underscore |
| `Payslips.ClassifyDeliver` | app/api/routers/payslips.py:282-295 | a delivered file goes to the first active report, with an e-mail, whose names match the file's ignoring case |
| `Payslips.GeneratedPayslipReachesItsEmployee` | app/api/routers/payslips.py:271-295 | a payslip the create endpoint named reaches its employee when no earlier report has the same names |
| `Payslips.NamesakePayslipGoesAstray` | app/api/routers/payslips.py:282-291 | a later namesake's payslip is mailed to the earlier employee with those names |
| `Payslips.BatchStep` | app/api/routers/payslips.py:270-330 | the batch over a prefix extended by one file is one more step |
| `Payslips.FailedBatchStays` | app/api/routers/payslips.py:339-341 | once a step fails, the remaining files are not processed |
| `Payslips.StepLists` | app/api/routers/payslips.py:270-330 | each file is either skipped with its reason or sent with the matched employee's name and address |
| `Payslips.StepFiles` | app/api/routers/payslips.py:323 | a skipped file stays in place; a sent file is archived |
| `Payslips.BatchAccounts` | app/api/routers/payslips.py:267-337 | without a failure every file is sent or skipped once, in order, and each sent entry names the employee it was mailed to |
| `Payslips.DeliveriesFromPaths` | app/api/routers/payslips.py:270 | only listed files are delivered |
| `Payslips.BatchLeavesSkipped` | app/api/routers/payslips.py:267-330 | after the batch, the manager's PDF search finds exactly the files that were not delivered |
| `Payslips.DeliveredPathsStep` | app/api/routers/payslips.py:270-330 | the delivered set grows by at most the current file |
| `Payslips.ArchivedStepCandidates` | app/api/routers/payslips.py:323 | archiving one more file removes exactly it from the search |
| `Payslips.ProcessFile` | app/api/routers/payslips.py:270-330 | one loop iteration performs one step |
| `Payslips.SendAll` | app/api/routers/payslips.py:267-330 | the loop performs the whole batch |
| `Payslips.SendPdfToEmployees` | app/api/routers/payslips.py:242-341 | lists the manager's PDFs sorted and distinct; 404 exactly when there are none; a bad port gives 500 with nothing changed; otherwise the reply and the tree are the batch's |
| `Payslips.SendWithSettings` | app/api/routers/payslips.py:259-341 | never 404; without settings 500 and unchanged; otherwise the batch's outcome |
| `Auth.TtlMinutesRead` | app/core/auth.py:11-15 | TOKEN_TTL_MIN when `int()` accepts it, 120 otherwise |
| `Auth.TokenClaimsRead` | app/core/auth.py:17-25 | the token's `sub` reads back as the employee id, `role` is the role's name, `iat` is now, and it lives TTL·60 seconds |
| `Auth.Dispatch` | app/core/auth.py:49-58 | the first `except` clause whose class the error is an instance of, and none only when no clause catches it |
| `Auth.DecodeFailureResponses` | app/core/auth.py:49-58 | every decode failure is a 401: expired, signature, malformed, or the library's own message |
| `Auth.SplitOnce` | app/core/auth.py:47 | `split(" ", 1)` yields one part without the separator, or two around its first occurrence |
| `Auth.BearerTokenIsRest` | app/core/auth.py:44-47 | the token is what follows `"Bearer "`, stripped |
| `Auth.MissingBearerFirst` | app/core/auth.py:44-46 | without the prefix the answer is 401 "Missing Bearer token", whatever the token, user table or parameters |
| `Auth.DecodeFailureRejected` | app/core/auth.py:49-58 | a token that fails to decode is refused with its handler's 401 |
| `Auth.AdmitMeansOwnManager` | app/core/auth.py:43-74 | an admitted user is in the table, active, a manager, the token's subject, and, when matching is asked for, the given `manager_id` is absent or theirs |
| `Auth.QueryParamWins` | app/core/auth.py:69 | a non-empty query parameter makes the body irrelevant |
| `Auth.NoMatchIgnoresParams` | app/core/auth.py:67-71 | without matching, the parameters play no part |
| `Auth.ForeignManagerIdRefused` | app/core/auth.py:67-71 | a manager asking for another manager's id gets 403 |
| `Auth.FreshTokenAdmitted` | app/core/auth.py:17-74 | a token issued to an active manager, decoded intact, admits that manager |
| `Auth.RequestContext.constructor` | app/core/auth.py:30-31 | no current user and no handler run yet |
| `Auth.RequestContext.ManagerRequired` | app/core/auth.py:43-74 | decides as `Decide`; only on admission it sets `g.current_user` and runs the handler |
| `Login.NormalizeEmailNormal` | app/api/routers/auth.py:12 | the normalised e-mail has no surrounding whitespace and no capitals, and normalising again changes nothing |
| `Login.LowerCharLower` | app/api/routers/auth.py:12 | lowering keeps whitespace, leaves no capital and is idempotent |
| `Login.NormalizeCnpIdempotent` | app/api/routers/auth.py:13 | normalising the CNP twice is normalising once |
| `Login.MissingCredentialsWithoutLookup` | app/api/routers/auth.py:15-16 | an empty field gives 400 whatever the employee table |
| `Login.LoginSucceedsIff` | app/api/routers/auth.py:9-32 | 200 exactly when both fields are non-empty, an active employee has that e-mail and CNP, and TOKEN_TTL_MIN is unset or an integer |
| `Login.AnswerOk` | app/api/routers/auth.py:15-32 | the same, once the fields are read |
| `Login.LoginDescribesOwner` | app/api/routers/auth.py:19-32 | the reply describes the first matching employee and carries their token's claims |
| `Login.ExpiresInMatchesToken` | app/api/routers/auth.py:23-24 | `expires_in` is the token's own lifetime, issued now |
| `Login.CapitalisedEmailNeverMatches` | app/api/routers/auth.py:12-19 | an employee whose stored address has a capital letter can never log in |

## Left out

- Wire formats are not modelled. This covers the JWT signature (HS256) and
  its encoding, SMTP and MIME, PDF rendering (reportlab) and its encryption,
  and CSV quoting. A payslip is its figures plus the two passwords. A CSV is
  its rows of cells. A token is the claims it signs, and decoding is the
  `decode` parameter.
- Sending mail is the `deliver` parameter. It models only whether the SMTP
  exchange completed.
- Floating point is not modelled. The source sums `Numeric` amounts as
  `float`, and the model uses exact integer cents. `:.2f` rounding of
  non-cent values is therefore not modelled.
- Each request reads the clock once. The source calls `date.today()` and
  `time.time()` several times within one request, for example once per
  archived file and once per payslip subject.
- Matching is plain equality on the text. SQL `ILIKE` wildcards (`%`, `_`)
  in names are not modelled, nor is database collation. `lower()` and the
  case-insensitive match fold ASCII letters only.
- Python `int()` on strings is modelled as optional whitespace, an optional
  sign and ASCII digits. Underscores, non-ASCII digits and JSON floats are
  not modelled (`int(2.5)`).
- Calendar.YearMonth: years below 1000 are not modelled. The model pads the
  year to four digits, while glibc's `strftime` (and CPython's
  `date.strftime` on Linux) prints it unpadded, so the source would write
  `999-01` where the model writes `0999-01`.
- Names containing `/`, which would make extra directory levels, are not
  modelled.
- The tree holds files only. A directory exists when some file lies under
  it, so the empty folders `os.makedirs` creates are not tracked.
- Ties in modification time between CSVs are not modelled. `FindLatestCsv`
  guarantees the greatest time, while the source keeps glob order among ties.
- Concurrency between requests is not modelled, nor is the database
  session.
- Several pieces around the core are not part of this model:
  - `fetch_manager_or_404` (unused by the endpoints);
  - `/auth/debug-jwt`;
  - the app factory, blueprints and configuration loading;
  - HTTP and structured logging.
- The `detail` string of a 500 reply is not modelled.
- The payroll send endpoint has no `try`. Any exception there escapes to
  Flask's 500, and the model represents that as `CsvSendFailed`.
- `glob` matches a directory whose name ends in `.pdf` or `.csv`; the
  model's searches list files only.
- Payslips.Recipient: `.first()` without `ORDER BY` (app/api/routers/payslips.py:282-291)
  lets the database return any matching row; the model takes the first row
  in the table's sequence order, so "the earlier namesake" in
  `Payslips.NamesakePayslipGoesAstray` means earlier in that order. The
  same reading applies to the other `.first()` queries (`Records.FirstIndex`,
  `Login.CredentialOwner`).
- Records.Role: the `role` column is free text (`String(16)`); the model
  admits only the three values the schema names (EMPLOYEE, MANAGER, ADMIN).
  Any other stored value would be refused by the guard like EMPLOYEE, but
  would still appear in the token's `role` claim and the login reply, which
  the model cannot show.
- Archive.SuffixedNameOverwritten: stated only for trees in which no file
  path is a prefix of another (`IsTree`), which the real file system
  guarantees.
