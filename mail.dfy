/** Outgoing mail: the SMTP settings both send endpoints read from the
    environment (payroll.py:240-245, payslips.py:259-265), the transport and
    login each `_send_email_with_attachment` copy chooses (payroll.py:171-207,
    payslips.py:176-214), and the message handed to the mail server. The
    SMTP exchange itself is a parameter: it either completes or raises. */
module Mail {
  import opened Wrappers
  import opened Text
  import opened Archive

  datatype Transport =
    | PlainSmtp     // smtplib.SMTP without STARTTLS
    | StartTls      // smtplib.SMTP, then starttls()
    | ImplicitSsl   // smtplib.SMTP_SSL

  /** How the connection is opened and whether `login` is called on it. */
  datatype SmtpPlan = SmtpPlan(transport: Transport, login: bool)

  /** `if username and password:`. */
  predicate HasCredentials(username: Option<string>, password: Option<string>)
  {
    username.Some? && username.value != "" && password.Some? && password.value != ""
  }

  /** The payroll copy: STARTTLS when `use_tls`, implicit SSL otherwise. */
  function CsvMailPlan(useTls: bool, username: Option<string>, password: Option<string>): (p: SmtpPlan)
    ensures p.transport != PlainSmtp
    ensures p.transport == StartTls <==> useTls
    ensures p.login <==> HasCredentials(username, password)
  {
    SmtpPlan(if useTls then StartTls else ImplicitSsl, HasCredentials(username, password))
  }

  /** The payslips copy: `use_ssl` wins; otherwise plain SMTP, upgraded with
      STARTTLS when `use_tls`. */
  function PdfMailPlan(useSsl: bool, useTls: bool, username: Option<string>, password: Option<string>): (p: SmtpPlan)
    ensures useSsl ==> p.transport == ImplicitSsl
    ensures !useSsl ==> (p.transport == StartTls <==> useTls)
    ensures p.transport == PlainSmtp <==> !useSsl && !useTls
    ensures p.login <==> HasCredentials(username, password)
  {
    SmtpPlan(if useSsl then ImplicitSsl else if useTls then StartTls else PlainSmtp, HasCredentials(username, password))
  }

  /** The two copies agree while TLS is on and SSL off, and part ways when
      SMTP_USE_TLS is false: the CSV goes over SSL, the payslips in plaintext. */
  lemma MailPlansCompared(username: Option<string>, password: Option<string>)
    ensures CsvMailPlan(true, username, password) == PdfMailPlan(false, true, username, password)
    ensures CsvMailPlan(false, username, password).transport == ImplicitSsl
    ensures PdfMailPlan(false, false, username, password).transport == PlainSmtp
  {
  }

  /** The process environment. */
  type Env = map<string, string>

  function Getenv(env: Env, key: string): Option<string>
  {
    if key in env then Some(env[key]) else None
  }

  /** `os.getenv(key, default).lower() == "true"`. */
  predicate EnvFlag(env: Env, key: string, default: string)
  {
    Lower(Getenv(env, key).GetOr(default)) == "true"
  }

  datatype SmtpSettings = SmtpSettings(
    host: string,
    port: int,
    username: Option<string>,
    password: Option<string>,
    fromEmail: Option<string>,
    useTls: bool,
    useSsl: bool)

  const DefaultHost := "smtp.gmail.com"
  const DefaultPort := "587"

  /** The settings block; `None` is the ValueError `int()` raises on SMTP_PORT. */
  function ReadSettings(env: Env): Option<SmtpSettings>
  {
    match ParseInt(Getenv(env, "SMTP_PORT").GetOr(DefaultPort))
    case None => None
    case Some(port) =>
      var username := Getenv(env, "SMTP_USERNAME");
      Some(SmtpSettings(
        Getenv(env, "SMTP_HOST").GetOr(DefaultHost),
        port,
        username,
        Getenv(env, "SMTP_PASSWORD"),
        if "FROM_EMAIL" in env then Some(env["FROM_EMAIL"]) else username,
        EnvFlag(env, "SMTP_USE_TLS", "true"),
        EnvFlag(env, "SMTP_USE_SSL", "false")))
  }

  /** With nothing configured: Gmail's submission port, STARTTLS, no login,
      no sender address. */
  lemma EmptyEnvironmentSettings()
    ensures ReadSettings(map[]) == Some(SmtpSettings(DefaultHost, 587, None, None, None, true, false))
    ensures CsvMailPlan(true, None, None) == SmtpPlan(StartTls, false)
  {
    DefaultPortParses();
    LowerTrue();
  }

  /** Every key the environment leaves unset takes the default written at
      the `os.getenv` call, whatever else is set; a set key is read as is. */
  lemma UnsetKeysTakeDefaults(env: Env)
    requires "SMTP_PORT" !in env
    ensures ReadSettings(env).Some?
    ensures var c := ReadSettings(env).value;
      && c.port == 587
      && ("SMTP_HOST" !in env ==> c.host == DefaultHost)
      && ("SMTP_HOST" in env ==> c.host == env["SMTP_HOST"])
      && ("SMTP_USERNAME" !in env ==> c.username == None)
      && ("SMTP_PASSWORD" !in env ==> c.password == None)
      && ("FROM_EMAIL" !in env ==> c.fromEmail == c.username)
      && ("SMTP_USE_TLS" !in env ==> c.useTls)
      && ("SMTP_USE_SSL" !in env ==> !c.useSsl)
  {
    DefaultPortParses();
    LowerTrue();
  }

  lemma DefaultPortParses()
    ensures ParseInt(DefaultPort) == Some(587)
  {
    assert IntToString(587) == DefaultPort by {
      assert NatToString(5) == "5";
      assert NatToString(58) == "58";
    }
    IntToStringParses(587);
  }

  lemma LowerTrue()
    ensures Lower("true") == "true"
    ensures Lower("false") != "true"
  {
    var t := Lower("true");
    assert t[0] == 't' && t[1] == 'r' && t[2] == 'u' && t[3] == 'e';
  }

  /** Settings are read only from the environment's values: a port that
      does not parse stops the request, whatever else is set. */
  lemma BadPortFails(env: Env)
    requires "SMTP_PORT" in env && ParseInt(env["SMTP_PORT"]).None?
    ensures ReadSettings(env).None?
  {
  }

  /** The sender defaults to the SMTP user name. */
  lemma SenderDefaultsToUser(env: Env)
    requires "FROM_EMAIL" !in env && ReadSettings(env).Some?
    ensures ReadSettings(env).value.fromEmail == Getenv(env, "SMTP_USERNAME")
  {
  }

  datatype AttachmentType = TextCsv | ApplicationPdf

  /** The message and the connection it is sent over. */
  datatype Mail = Mail(
    fromEmail: Option<string>,
    to: string,
    subject: string,
    body: string,
    attachment: Document,
    filename: string,
    attachmentType: AttachmentType,
    host: string,
    port: int,
    plan: SmtpPlan)
}
