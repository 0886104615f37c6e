/** The authorisation side of app/core/auth.py: the claims a login token
    carries, and `manager_required`, the guard in front of every payroll
    and payslip endpoint. Signing and verifying tokens is PyJWT's business;
    here `decode` is a parameter that either yields the payload or raises
    one of PyJWT's errors. */
module Auth {
  import opened Wrappers
  import opened Text
  import opened Json
  import opened Records

  // ---------------------------------------------------------------------
  // Tokens
  // ---------------------------------------------------------------------

  const DefaultTtlMinutes := 120

  /** `_ttl_minutes()`; `config` is TOKEN_TTL_MIN when the app sets it. An
      `int()` that raises falls back to the default. */
  function TtlMinutes(config: Option<JsonValue>): int
  {
    match config
    case None => DefaultTtlMinutes
    case Some(v) => PyInt(v).GetOr(DefaultTtlMinutes)
  }

  /** The lifetime is the default unless the config holds something `int()`
      accepts; a number written out as text is read back as that number. */
  lemma TtlMinutesRead(config: Option<JsonValue>, n: int)
    ensures config.None? || PyInt(config.value).None? ==> TtlMinutes(config) == DefaultTtlMinutes
    ensures config == Some(JStr(IntToString(n))) || config == Some(JInt(n)) ==> TtlMinutes(config) == n
  {
    IntToStringParses(n);
  }

  /** The claims `generate_token` signs. */
  datatype Claims = Claims(sub: string, role: string, iat: int, exp: int)

  function TokenClaims(e: Employee, now: int, config: Option<JsonValue>): Claims
  {
    Claims(IntToString(e.empId), RoleName(e.role), now, now + TtlMinutes(config) * 60)
  }

  /** The payload a verified token decodes to. */
  function ClaimsPayload(c: Claims): map<string, JsonValue>
  {
    map["role" := JStr(c.role), "iat" := JInt(c.iat), "exp" := JInt(c.exp), "sub" := JStr(c.sub)]
  }

  /** A token names its employee: `int(sub)` gives back the id; it is issued
      now and lives for the configured number of minutes. */
  lemma TokenClaimsRead(e: Employee, now: int, config: Option<JsonValue>)
    ensures var c := TokenClaims(e, now, config);
      && PyInt(ClaimsPayload(c)["sub"]) == Some(e.empId)
      && c.role == RoleName(e.role)
      && c.iat == now
      && c.exp - c.iat == TtlMinutes(config) * 60
  {
    SubjectRead(e.empId, TokenClaims(e, now, config));
  }

  lemma SubjectRead(empId: int, c: Claims)
    requires c.sub == IntToString(empId)
    ensures var p := ClaimsPayload(c); "sub" in p && PyInt(p["sub"]) == Some(empId)
  {
    var p := ClaimsPayload(c);
    assert p["sub"] == JStr(IntToString(empId));
    IntToStringParses(empId);
  }

  // ---------------------------------------------------------------------
  // Decode failures and the handler's except clauses
  // ---------------------------------------------------------------------

  /** The errors `jwt.decode` raises, each with the text `str(e)` gives. */
  datatype JwtError =
    | ExpiredSignature(message: string)   // ExpiredSignatureError
    | InvalidSignature(message: string)   // InvalidSignatureError, a kind of DecodeError
    | Malformed(message: string)          // any other DecodeError
    | OtherInvalid(message: string)       // any other InvalidTokenError

  datatype DecodeOutcome = Decoded(payload: map<string, JsonValue>) | Failed(error: JwtError)

  /** The except clauses around the decode, by the class each names. */
  datatype Handler = OnExpired | OnInvalidSignature | OnDecodeError | OnInvalidToken

  /** `isinstance(err, cls)`, along PyJWT's class hierarchy. */
  predicate Catches(h: Handler, err: JwtError)
  {
    match h
    case OnExpired => err.ExpiredSignature?
    case OnInvalidSignature => err.InvalidSignature?
    case OnDecodeError => err.InvalidSignature? || err.Malformed?
    case OnInvalidToken => true
  }

  /** The clauses in the order they are written. */
  const GuardHandlers: seq<Handler> := [OnExpired, OnInvalidSignature, OnDecodeError, OnInvalidToken]

  /** The first clause that catches `err`; `None`: the error propagates. */
  function Dispatch(handlers: seq<Handler>, err: JwtError): (h: Option<Handler>)
    ensures h.Some? ==> h.value in handlers && Catches(h.value, err)
    ensures h.None? <==> forall k :: 0 <= k < |handlers| ==> !Catches(handlers[k], err)
  {
    if handlers == [] then None
    else if Catches(handlers[0], err) then Some(handlers[0])
    else Dispatch(handlers[1..], err)
  }

  /** An error response: status, `error`, and `detail` when there is one. */
  datatype Rejection = Rejection(status: int, error: string, detail: Option<string>)

  function HandlerResponse(h: Handler, err: JwtError): Rejection
  {
    match h
    case OnExpired => Rejection(401, "Token has expired", None)
    case OnInvalidSignature => Rejection(401, "Invalid token", Some("signature failed"))
    case OnDecodeError => Rejection(401, "Invalid token", Some("malformed"))
    case OnInvalidToken => Rejection(401, "Invalid token", Some(err.message))
  }

  /** Every decode failure is caught, gives 401, and each kind has its own
      response; a bad signature is reported as such even though it is also
      a DecodeError, because its clause comes first. */
  lemma DecodeFailureResponses(err: JwtError)
    ensures Dispatch(GuardHandlers, err).Some?
    ensures HandlerResponse(Dispatch(GuardHandlers, err).value, err).status == 401
    ensures var r := HandlerResponse(Dispatch(GuardHandlers, err).value, err);
      && (err.ExpiredSignature? <==> r == Rejection(401, "Token has expired", None))
      && (err.InvalidSignature? <==> r.detail == Some("signature failed") && !err.OtherInvalid?)
      && (err.Malformed? <==> r.detail == Some("malformed") && !err.OtherInvalid?)
      && (err.OtherInvalid? ==> r == Rejection(401, "Invalid token", Some(err.message)))
  {
    match err
    case ExpiredSignature(_) => assert Dispatch(GuardHandlers, err) == Some(OnExpired);
    case InvalidSignature(_) => assert Dispatch(GuardHandlers, err) == Some(OnInvalidSignature);
    case Malformed(_) =>
      assert Dispatch(GuardHandlers, err) == Dispatch(GuardHandlers[2..], err) == Some(OnDecodeError);
    case OtherInvalid(_) =>
      assert Dispatch(GuardHandlers, err) == Dispatch(GuardHandlers[2..], err) == Dispatch(GuardHandlers[3..], err);
      assert Catches(GuardHandlers[3], err);
  }

  // ---------------------------------------------------------------------
  // The guard
  // ---------------------------------------------------------------------

  /** What the guard reads from the request: the Authorization header, the
      `manager_id` query argument and the JSON body. */
  datatype Request = Request(authorization: Option<string>, queryManagerId: Option<string>, body: Body)

  const BearerPrefix := "Bearer "

  /** `s.split(sep, 1)`. */
  function SplitOnce(s: string, sep: char): (parts: seq<string>)
    ensures 1 <= |parts| <= 2
    ensures |parts| == 1 <==> sep !in s
    ensures |parts| == 1 ==> parts[0] == s
    ensures |parts| == 2 ==> parts[0] + [sep] + parts[1] == s && sep !in parts[0]
  {
    var k := IndexOf(s, sep);
    if k == -1 then [s] else [s[..k], s[k + 1..]]
  }

  /** `auth.split(" ", 1)[1].strip()`, for a header that has the prefix. */
  function BearerToken(header: string): string
    requires HasPrefix(header, BearerPrefix)
  {
    assert header[6] == BearerPrefix[6];
    Strip(SplitOnce(header, ' ')[1])
  }

  /** The token is what follows the prefix, stripped. */
  lemma BearerTokenIsRest(header: string)
    requires HasPrefix(header, BearerPrefix)
    ensures BearerToken(header) == Strip(header[|BearerPrefix|..])
  {
    assert header[6] == ' ';
    assert forall j :: 0 <= j < 6 ==> header[j] == BearerPrefix[j] && header[j] != ' ';
    var parts := SplitOnce(header, ' ');
    assert |parts[0] + [' ']| == 7 by {
      assert IndexOf(header, ' ') == 6;
    }
    assert header[7..] == (parts[0] + [' '] + parts[1])[7..];
  }

  /** `request.args.get("manager_id") or body.get("manager_id")`: a non-empty
      query argument, else the body's field (`JNull`: Python's None). `None`
      is the AttributeError a truthy body that is not an object raises. */
  function ManagerParam(req: Request): Option<JsonValue>
  {
    if req.queryManagerId.Some? && req.queryManagerId.value != "" then Some(JStr(req.queryManagerId.value))
    else BodyGet(req.body, "manager_id")
  }

  /** The outcome: the handler runs for this user, a JSON error response,
      or an exception that escapes the guard (the framework's 500). */
  datatype GuardDecision = Admit(user: Employee) | Reject(rejection: Rejection) | Crash

  const MissingBearer := Rejection(401, "Missing Bearer token", None)
  const UnknownUser := Rejection(401, "User not found or inactive", None)
  const NotManager := Rejection(403, "Manager role required", None)
  const ForeignManager := Rejection(403, "Manager can only access their own data", None)

  /** `Employee.query.filter_by(emp_id=..., is_active=True).first()` */
  function ActiveEmployee(employees: seq<Employee>, empId: int): Option<Employee>
  {
    FirstMatch(employees, (e: Employee) => e.empId == empId && e.isActive)
  }

  /** `payload.get("sub")` */
  function Subject(payload: map<string, JsonValue>): JsonValue
  {
    if "sub" in payload then payload["sub"] else JNull
  }

  /** `manager_required(require_match_with_param)`, check by check. */
  function Decide(employees: seq<Employee>, decode: string -> DecodeOutcome, requireMatch: bool, req: Request): GuardDecision
  {
    var auth := req.authorization.GetOr("");
    if !HasPrefix(auth, BearerPrefix) then Reject(MissingBearer)
    else
      match decode(BearerToken(auth))
      case Failed(err) =>
        (match Dispatch(GuardHandlers, err)
         case None => Crash
         case Some(h) => Reject(HandlerResponse(h, err)))
      case Decoded(payload) =>
        match PyInt(Subject(payload))
        case None => Crash
        case Some(empId) =>
          match ActiveEmployee(employees, empId)
          case None => Reject(UnknownUser)
          case Some(emp) =>
            if emp.role != MANAGER then Reject(NotManager)
            else if !requireMatch then Admit(emp)
            else
              match ManagerParam(req)
              case None => Crash
              case Some(param) =>
                if param == JNull then Admit(emp)
                else
                  match PyInt(param)
                  case None => Crash
                  case Some(id) => if id != emp.empId then Reject(ForeignManager) else Admit(emp)
  }

  /** A missing or non-Bearer Authorization header is refused before the
      token, the database or the parameters are looked at. */
  lemma MissingBearerFirst(employees: seq<Employee>, decode: string -> DecodeOutcome, requireMatch: bool, req: Request,
                           employees': seq<Employee>, decode': string -> DecodeOutcome, req': Request)
    requires !HasPrefix(req.authorization.GetOr(""), BearerPrefix)
    requires req'.authorization == req.authorization
    ensures Decide(employees, decode, requireMatch, req) == Reject(MissingBearer)
    ensures Decide(employees, decode, requireMatch, req) == Decide(employees', decode', !requireMatch, req')
  {
  }

  /** A token that fails to decode gives the 401 of the clause that catches
      it, whoever the database holds. */
  lemma DecodeFailureRejected(employees: seq<Employee>, decode: string -> DecodeOutcome, requireMatch: bool, req: Request)
    requires HasPrefix(req.authorization.GetOr(""), BearerPrefix)
    requires decode(BearerToken(req.authorization.GetOr(""))).Failed?
    ensures Dispatch(GuardHandlers, decode(BearerToken(req.authorization.GetOr(""))).error).Some?
    ensures var err := decode(BearerToken(req.authorization.GetOr(""))).error;
      Decide(employees, decode, requireMatch, req) == Reject(HandlerResponse(Dispatch(GuardHandlers, err).value, err))
    ensures Decide(employees, decode, requireMatch, req).rejection.status == 401
  {
    DecodeFailureResponses(decode(BearerToken(req.authorization.GetOr(""))).error);
  }

  /** The handler runs only for an active MANAGER whose id is the token's
      subject and, when matching is required, the request's manager_id (if
      any) names that same manager. */
  lemma AdmitMeansOwnManager(employees: seq<Employee>, decode: string -> DecodeOutcome, requireMatch: bool, req: Request)
    requires Decide(employees, decode, requireMatch, req).Admit?
    ensures var e := Decide(employees, decode, requireMatch, req).user;
      var auth := req.authorization.GetOr("");
      && e in employees && e.isActive && e.role == MANAGER
      && HasPrefix(auth, BearerPrefix)
      && decode(BearerToken(auth)).Decoded?
      && PyInt(Subject(decode(BearerToken(auth)).payload)) == Some(e.empId)
      && (requireMatch ==>
            ManagerParam(req).Some? && (ManagerParam(req).value == JNull || PyInt(ManagerParam(req).value) == Some(e.empId)))
  {
    var auth := req.authorization.GetOr("");
    var empId := PyInt(Subject(decode(BearerToken(auth)).payload)).value;
    var k := FirstIndex(employees, (e: Employee) => e.empId == empId && e.isActive);
    assert employees[k] == Decide(employees, decode, requireMatch, req).user;
  }

  /** A non-empty manager_id query argument decides alone: the body is not
      read. */
  lemma QueryParamWins(employees: seq<Employee>, decode: string -> DecodeOutcome, req: Request, body: Body)
    requires req.queryManagerId.Some? && req.queryManagerId.value != ""
    ensures Decide(employees, decode, true, req) == Decide(employees, decode, true, req.(body := body))
  {
  }

  /** With matching off, neither the query nor the body matters. */
  lemma NoMatchIgnoresParams(employees: seq<Employee>, decode: string -> DecodeOutcome, req: Request)
    ensures Decide(employees, decode, false, req) == Decide(employees, decode, false, req.(queryManagerId := None, body := NoJson))
  {
  }

  /** A manager_id naming another manager is refused with 403. */
  lemma ForeignManagerIdRefused(employees: seq<Employee>, decode: string -> DecodeOutcome, req: Request, i: int)
    requires UniqueIds(employees) && 0 <= i < |employees|
    requires employees[i].isActive && employees[i].role == MANAGER
    requires HasPrefix(req.authorization.GetOr(""), BearerPrefix)
    requires decode(BearerToken(req.authorization.GetOr(""))) == Decoded(map["sub" := JInt(employees[i].empId)])
    requires ManagerParam(req).Some? && PyInt(ManagerParam(req).value).Some?
    requires ManagerParam(req).value != JNull && PyInt(ManagerParam(req).value).value != employees[i].empId
    ensures Decide(employees, decode, true, req) == Reject(ForeignManager)
  {
    FirstMatchById(employees, i);
  }

  /** A token issued to an active manager, decoded intact, lets that manager
      through when the request names no other manager. */
  lemma FreshTokenAdmitted(employees: seq<Employee>, i: int, now: int, config: Option<JsonValue>,
                           decode: string -> DecodeOutcome, requireMatch: bool, req: Request)
    requires UniqueIds(employees) && 0 <= i < |employees|
    requires employees[i].isActive && employees[i].role == MANAGER
    requires HasPrefix(req.authorization.GetOr(""), BearerPrefix)
    requires decode(BearerToken(req.authorization.GetOr(""))) == Decoded(ClaimsPayload(TokenClaims(employees[i], now, config)))
    requires requireMatch ==>
               ManagerParam(req).Some? && (ManagerParam(req).value == JNull || PyInt(ManagerParam(req).value) == Some(employees[i].empId))
    ensures Decide(employees, decode, requireMatch, req) == Admit(employees[i])
  {
    var e := employees[i];
    var c := TokenClaims(e, now, config);
    SubjectRead(e.empId, c);
    assert PyInt(Subject(ClaimsPayload(c))) == Some(e.empId);
    FirstMatchById(employees, i);
    assert ActiveEmployee(employees, e.empId) == Some(e);
  }

  /** The request-scoped state the guard touches: `g.current_user`, and how
      many times the wrapped endpoint has run. */
  class RequestContext {
    var currentUser: Option<Employee>
    var handlerRuns: nat

    constructor()
      ensures currentUser == None && handlerRuns == 0
    {
      currentUser := None;
      handlerRuns := 0;
    }

    /** The wrapper: decide, then on success set the user and run the
        endpoint once; on any rejection or exception nothing is set and the
        endpoint does not run. */
    method ManagerRequired(employees: seq<Employee>, decode: string -> DecodeOutcome, requireMatch: bool, req: Request)
        returns (d: GuardDecision)
      modifies this
      ensures d == Decide(employees, decode, requireMatch, req)
      ensures d.Admit? ==> currentUser == Some(d.user) && handlerRuns == old(handlerRuns) + 1
      ensures !d.Admit? ==> currentUser == old(currentUser) && handlerRuns == old(handlerRuns)
    {
      d := Decide(employees, decode, requireMatch, req);
      if d.Admit? {
        currentUser := Some(d.user);
        handlerRuns := handlerRuns + 1;
      }
    }
  }
}
