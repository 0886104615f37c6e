/** POST /auth/login (app/api/routers/auth.py): an employee identifies
    with an e-mail address and a CNP and receives a token. */
module Login {
  import opened Wrappers
  import opened Text
  import opened Json
  import opened Records
  import opened Aggregation
  import opened Auth

  /** `(data.get(key) or "")`, ready for `.strip()`: a falsy value reads as
      "", a string as itself. `None` is the AttributeError raised when the
      body is not an object or the value is a truthy non-string. */
  function FieldText(body: Body, key: string): Option<string>
  {
    match BodyGet(body, key)
    case None => None
    case Some(v) =>
      if !Truthy(v) then Some("")
      else if v.JStr? then Some(v.s)
      else None
  }

  function NormalizeEmail(s: string): string
  {
    Lower(Strip(s))
  }

  function NormalizeCnp(s: string): string
  {
    Strip(s)
  }

  /** The normalised e-mail has no surrounding whitespace and no capital
      letters, and normalising it again changes nothing. */
  lemma NormalizeEmailNormal(s: string)
    ensures var e := NormalizeEmail(s);
      && (e == [] || (!IsSpace(e[0]) && !IsSpace(e[|e| - 1])))
      && (forall i :: 0 <= i < |e| ==> !('A' <= e[i] <= 'Z'))
      && NormalizeEmail(e) == e
  {
    var t := Strip(s);
    var e := Lower(t);
    forall i | 0 <= i < |e|
      ensures !('A' <= e[i] <= 'Z') && LowerChar(e[i]) == e[i]
    {
      LowerCharLower(t[i]);
    }
    if e != [] {
      LowerCharLower(t[0]);
      LowerCharLower(t[|t| - 1]);
      StripUnchanged(e);
    }
    assert Lower(e) == e;
  }

  /** Lowering a character leaves whitespace alone, yields no capital, and
      is idempotent. */
  lemma LowerCharLower(c: char)
    ensures IsSpace(LowerChar(c)) == IsSpace(c)
    ensures !('A' <= LowerChar(c) <= 'Z')
    ensures LowerChar(LowerChar(c)) == LowerChar(c)
  {
  }

  /** The CNP is only stripped, and stripping twice is stripping once. */
  lemma NormalizeCnpIdempotent(s: string)
    ensures NormalizeCnp(NormalizeCnp(s)) == NormalizeCnp(s)
  {
    var t := Strip(s);
    if t != [] {
      StripUnchanged(t);
    }
  }

  /** What a successful login returns; `claims` is what the issued token
      signs. */
  datatype LoginResponse =
    | LoginOk(claims: Claims, empId: int, role: Role, expiresIn: int, name: string)   // 200
    | MissingCredentials                                                               // 400 "email and cnp are required"
    | InvalidCredentials                                                               // 401 "Invalid credentials"
    | LoginCrash                                                                       // an exception escapes: 500

  /** The filter: this e-mail, this CNP, active. */
  predicate Owns(e: Employee, email: string, cnp: string)
  {
    e.email == email && e.cnp == cnp && e.isActive
  }

  /** `Employee.query.filter_by(email=..., cnp=..., is_active=True).first()` */
  function CredentialOwner(employees: seq<Employee>, email: string, cnp: string): Option<Employee>
  {
    FirstMatch(employees, (e: Employee) => Owns(e, email, cnp))
  }

  /** The normalised credentials of a request whose fields can be read. */
  predicate Readable(body: Body)
  {
    FieldText(body, "email").Some? && FieldText(body, "cnp").Some?
  }

  function EmailOf(body: Body): string
    requires Readable(body)
  {
    NormalizeEmail(FieldText(body, "email").value)
  }

  function CnpOf(body: Body): string
    requires Readable(body)
  {
    NormalizeCnp(FieldText(body, "cnp").value)
  }

  /** The login handler; `config` is TOKEN_TTL_MIN when set, `now` the clock. */
  function LoginHandler(employees: seq<Employee>, body: Body, config: Option<JsonValue>, now: int): LoginResponse
  {
    if !Readable(body) then LoginCrash else Answer(employees, EmailOf(body), CnpOf(body), config, now)
  }

  /** The handler once the two fields are read and normalised. */
  function Answer(employees: seq<Employee>, email: string, cnp: string, config: Option<JsonValue>, now: int): LoginResponse
  {
    if email == "" || cnp == "" then MissingCredentials
    else
      match CredentialOwner(employees, email, cnp)
      case None => InvalidCredentials
      case Some(user) =>
        var ttl := match config case None => Some(DefaultTtlMinutes) case Some(v) => PyInt(v);
        if ttl.None? then LoginCrash
        else LoginOk(TokenClaims(user, now, config), user.empId, user.role, ttl.value * 60, FullName(user))
  }

  /** Empty credentials are refused before the database is consulted. */
  lemma MissingCredentialsWithoutLookup(employees: seq<Employee>, employees': seq<Employee>, body: Body,
                                        config: Option<JsonValue>, now: int)
    requires Readable(body) && (EmailOf(body) == "" || CnpOf(body) == "")
    ensures LoginHandler(employees, body, config, now) == MissingCredentials
    ensures LoginHandler(employees', body, config, now) == MissingCredentials
  {
  }

  /** A login succeeds exactly when both fields are non-empty after
      normalisation, some active employee's stored e-mail and CNP equal
      them, and TOKEN_TTL_MIN is unset or parses. */
  lemma LoginSucceedsIff(employees: seq<Employee>, body: Body, config: Option<JsonValue>, now: int)
    ensures LoginHandler(employees, body, config, now).LoginOk? <==>
      && Readable(body) && EmailOf(body) != "" && CnpOf(body) != ""
      && (config.None? || PyInt(config.value).Some?)
      && exists i :: 0 <= i < |employees| && Owns(employees[i], EmailOf(body), CnpOf(body))
  {
    if Readable(body) {
      AnswerOk(employees, EmailOf(body), CnpOf(body), config, now);
    }
  }

  lemma AnswerOk(employees: seq<Employee>, email: string, cnp: string, config: Option<JsonValue>, now: int)
    ensures Answer(employees, email, cnp, config, now).LoginOk? <==>
      && email != "" && cnp != ""
      && (config.None? || PyInt(config.value).Some?)
      && exists i :: 0 <= i < |employees| && Owns(employees[i], email, cnp)
  {
    var k := FirstIndex(employees, (e: Employee) => Owns(e, email, cnp));
    if k != -1 {
      assert Owns(employees[k], email, cnp);
    }
  }

  /** A successful response describes the first matching employee and
      carries the claims of the token issued to it. */
  lemma LoginDescribesOwner(employees: seq<Employee>, body: Body, config: Option<JsonValue>, now: int)
    requires LoginHandler(employees, body, config, now).LoginOk?
    ensures Readable(body)
    ensures var r := LoginHandler(employees, body, config, now);
      exists i :: 0 <= i < |employees| && Owns(employees[i], EmailOf(body), CnpOf(body))
        && (forall k :: 0 <= k < i ==> !Owns(employees[k], EmailOf(body), CnpOf(body)))
        && r.empId == employees[i].empId && r.role == employees[i].role
        && r.name == employees[i].firstName + " " + employees[i].lastName
        && r.claims == TokenClaims(employees[i], now, config)
  {
    var email, cnp := EmailOf(body), CnpOf(body);
    assert LoginHandler(employees, body, config, now) == Answer(employees, email, cnp, config, now);
    var k := FirstIndex(employees, (e: Employee) => Owns(e, email, cnp));
    assert Owns(employees[k], email, cnp);
  }

  /** `expires_in` is the lifetime the token itself carries. */
  lemma ExpiresInMatchesToken(employees: seq<Employee>, body: Body, config: Option<JsonValue>, now: int)
    requires LoginHandler(employees, body, config, now).LoginOk?
    ensures var r := LoginHandler(employees, body, config, now);
      r.expiresIn == r.claims.exp - r.claims.iat && r.claims.iat == now
  {
    var email, cnp := EmailOf(body), CnpOf(body);
    var user := CredentialOwner(employees, email, cnp).value;
    var ttl := match config case None => Some(DefaultTtlMinutes) case Some(v) => PyInt(v);
    assert TtlMinutes(config) == ttl.value;
    assert LoginHandler(employees, body, config, now) ==
           LoginOk(TokenClaims(user, now, config), user.empId, user.role, ttl.value * 60, FullName(user));
  }

  /** An employee whose stored address has a capital letter can never log
      in: the input is lowercased before the exact comparison. */
  lemma CapitalisedEmailNeverMatches(employees: seq<Employee>, body: Body, config: Option<JsonValue>, now: int, i: int)
    requires UniqueIds(employees) && 0 <= i < |employees|
    requires exists j :: 0 <= j < |employees[i].email| && 'A' <= employees[i].email[j] <= 'Z'
    requires LoginHandler(employees, body, config, now).LoginOk?
    ensures LoginHandler(employees, body, config, now).empId != employees[i].empId
  {
    LoginDescribesOwner(employees, body, config, now);
    NormalizeEmailNormal(FieldText(body, "email").value);
    var r := LoginHandler(employees, body, config, now);
    var j :| 0 <= j < |employees| && Owns(employees[j], EmailOf(body), CnpOf(body)) && r.empId == employees[j].empId;
    assert j != i;
  }
}
