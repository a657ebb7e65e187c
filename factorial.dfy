/** The `Factorial` client with its HTTP transport abstracted: every request
    it issues is appended to a log, and the status code and decoded body of
    the response arrive as parameters. */
module FactorialClient {
  import opened Wrappers
  import opened Truthiness
  import Decimal

  /** The loaded `.env` values: a key written without a value maps to `None`. */
  type Config = map<string, Option<string>>

  const EmailKey := "EMAIL"
  const PasswordKey := "PASSWORD"
  const LoginUrlKey := "LOGIN_URL"
  const SessionUrlKey := "SESSION_URL"
  const ClockInUrlKey := "CLOCK_IN_URL"
  const ClockOutUrlKey := "CLOCK_OUT_URL"
  const OpenShiftUrlKey := "OPEN_SHIFT_URL"
  const ShiftsUrlKey := "SHIFTS_URL"
  const CookieFileKey := "COOKIE_FILE"

  const MsgHalfCredentials := "Specify both email and password"
  const MsgEnvCredentials := "Both email and password are required, fix your .env file"
  const MsgLoginPage := "Can't retrieve the login page"
  const MsgToken := "Can't retrieve the authenticity token"
  const MsgLogin := "Can't login"
  const MsgClockIn := "Can't clock in"
  const MsgOpenShift := "Can't get open shift"
  const MsgShifts := "Can't get shifts"
  const MsgDeleteShift := "Can't delete shift"
  /** The `TypeError` of `os.path.exists(None)` when `COOKIE_FILE` is not configured. */
  const MsgNoCookieFile := "stat: path should be string, bytes, os.PathLike or integer, not NoneType"
  /** The `TypeError` of `None + "/..."` when `SHIFTS_URL` is not configured. */
  const MsgNoShiftsUrl := "unsupported operand type(s) for +: 'NoneType' and 'str'"

  /** `dict.get(key)`. */
  function Lookup(c: Config, key: string): Option<string> {
    if key in c then c[key] else None
  }

  predicate HasCredentials(c: Config) {
    Truthy(Lookup(c, EmailKey)) && Truthy(Lookup(c, PasswordKey))
  }

  /** The checks and the override of `Factorial.__init__`: credentials given
      on the command line against the `.env` values. */
  function ResolveConfig(email: Option<string>, password: Option<string>, env: Config): (r: Result<Config, string>)
    // exactly one given: rejected whatever the .env file holds
    ensures Truthy(email) != Truthy(password) ==> r == Failure(MsgHalfCredentials)
    // both given: they override EMAIL and PASSWORD and nothing else
    ensures Truthy(email) && Truthy(password) ==>
              && r.Success?
              && r.value.Keys == env.Keys + {EmailKey, PasswordKey}
              && r.value[EmailKey] == email && r.value[PasswordKey] == password
              && forall k :: k in env && k != EmailKey && k != PasswordKey ==> r.value[k] == env[k]
    // neither given: the .env file must hold both, and is then used as it is
    ensures !Truthy(email) && !Truthy(password) ==>
              && (r.Success? <==> HasCredentials(env))
              && (r.Success? ==> r.value == env)
              && (r.Failure? ==> r.error == MsgEnvCredentials)
    // whatever the path, a resolved configuration carries both credentials
    ensures r.Success? ==> HasCredentials(r.value)
  {
    if (Truthy(email) && !Truthy(password)) || (Truthy(password) && !Truthy(email)) then
      Failure(MsgHalfCredentials)
    else if Truthy(email) && Truthy(password) then
      Success(env[EmailKey := email][PasswordKey := password])
    else if !Truthy(Lookup(env, EmailKey)) || !Truthy(Lookup(env, PasswordKey)) then
      Failure(MsgEnvCredentials)
    else
      Success(env)
  }

  /** The HTTP calls the client makes, each with its own status-code test. */
  datatype Call = LoginPage | LoginSubmit | Logout | ClockIn | ClockOut | OpenShift | ListShifts | DeleteShift

  /** Whether the client accepts `status` as the answer to `call`. */
  predicate Accepts(call: Call, status: int) {
    match call
    case ClockIn | ClockOut => status in {200, 201}
    case Logout | DeleteShift => status == 204
    case LoginPage | LoginSubmit | OpenShift | ListShifts => status == 200
  }

  /** The error raised when a call is not accepted (`logout` raises none).
      `clock_out` reports the same message as `clock_in`. */
  function ErrorMessage(call: Call): string {
    match call
    case LoginPage => MsgLoginPage
    case LoginSubmit => MsgLogin
    case Logout => ""
    case ClockIn | ClockOut => MsgClockIn
    case OpenShift => MsgOpenShift
    case ListShifts => MsgShifts
    case DeleteShift => MsgDeleteShift
  }

  /** One entry of the list of shifts; only its `id` is used. */
  datatype Shift = Shift(id: int)

  /** `url` is `base` followed by `/` and `str(id)`, as `f"/{id}"` renders it. */
  predicate NamesShift(base: string, url: string, id: int) {
    url == base + "/" + Decimal.IntToString(id)
  }

  /** The id can be read back from the text after `base + "/"`. */
  lemma ShiftUrlReadsBackId(base: string, url: string, id: int)
    requires NamesShift(base, url, id)
    ensures |url| > |base| + 1 && url[..|base| + 1] == base + "/"
    ensures Decimal.ParseInt(url[|base| + 1..]) == Some(id)
  {
    assert url[|base| + 1..] == Decimal.IntToString(id);
    Decimal.ParseIntOfIntToString(id);
  }

  /** The choice made by `delete_last_shift`: nothing to delete for an empty
      list, otherwise the URL of the last shift. */
  function DeleteTarget(base: Option<string>, shifts: seq<Shift>): (r: Result<Option<string>, string>)
    ensures |shifts| == 0 <==> r == Success(None)
    ensures |shifts| > 0 && base.None? ==> r == Failure(MsgNoShiftsUrl)
    ensures |shifts| > 0 && base.Some? ==>
              r.Success? && r.value.Some? && NamesShift(base.value, r.value.value, shifts[|shifts| - 1].id)
  {
    if |shifts| == 0 then Success(None)
    else
      var last := shifts[|shifts| - 1];
      match base
      case None => Failure(MsgNoShiftsUrl)
      case Some(b) =>
        Success(Some(b + "/" + Decimal.IntToString(last.id)))
  }

  /** Two different last shifts are never deleted through the same URL. */
  lemma DeleteTargetDistinguishesShifts(base: string, s: seq<Shift>, t: seq<Shift>)
    requires |s| > 0 && |t| > 0 && s[|s| - 1].id != t[|t| - 1].id
    ensures DeleteTarget(Some(base), s) != DeleteTarget(Some(base), t)
  {
    var u := DeleteTarget(Some(base), s).value.value;
    var v := DeleteTarget(Some(base), t).value.value;
    ShiftUrlReadsBackId(base, u, s[|s| - 1].id);
    ShiftUrlReadsBackId(base, v, t[|t| - 1].id);
  }

  // ---------------------------------------------------------------------
  // The client object

  datatype Verb = Get | Post | Delete

  /** The fixed fields of the login form. */
  const LoginRememberMe := 0
  const LoginCommit := "Accedi"

  /** The form data of a POST; the clock-in/out timestamp is not modelled. */
  datatype Form = NoForm
                | LoginForm(token: string, email: Option<string>, password: Option<string>,
                            rememberMe: int, commit: string)
                | ClockForm(source: string)

  datatype Request = Request(verb: Verb, url: Option<string>, form: Form)

  /** A `requests.Session`: whether its cookies were restored from the stored file. */
  class Session {
    const restored: bool

    constructor(restored: bool)
      ensures this.restored == restored
    {
      this.restored := restored;
    }
  }

  class Factorial {
    var config: Config
    var session: Session
    /** Whether the cookie file exists. */
    var sessionStored: bool
    /** The requests issued so far, oldest first. */
    var sent: seq<Request>

    /** Every client has passed the credential checks and names a cookie file. */
    ghost predicate Valid()
      reads this
    {
      HasCredentials(config) && Lookup(config, CookieFileKey).Some?
    }

    /** The part of `__init__` after the credential checks: a new session,
        whose cookies are loaded if the cookie file exists. */
    constructor(config: Config, cookieStored: bool)
      requires HasCredentials(config) && Lookup(config, CookieFileKey).Some?
      ensures Valid()
      ensures this.config == config && sessionStored == cookieStored && sent == []
      ensures fresh(session) && session.restored == cookieStored
    {
      this.config := config;
      session := new Session(cookieStored);
      sessionStored := cookieStored;
      sent := [];
    }

    /** `Factorial(email, password)` with the `.env` values `env`; the
        `ValueError`s of `__init__` are the `Failure` results. */
    static method Create(email: Option<string>, password: Option<string>, env: Config, cookieStored: bool)
      returns (r: Result<Factorial, string>)
      ensures r.Success? <==> ResolveConfig(email, password, env).Success? && Lookup(env, CookieFileKey).Some?
      ensures ResolveConfig(email, password, env).Failure? ==> r == Failure(ResolveConfig(email, password, env).error)
      ensures ResolveConfig(email, password, env).Success? && Lookup(env, CookieFileKey).None? ==>
                r == Failure(MsgNoCookieFile)
      ensures r.Success? ==>
                && fresh(r.value) && fresh(r.value.session)
                && r.value.Valid()
                && r.value.config == ResolveConfig(email, password, env).value
                && r.value.sessionStored == cookieStored && r.value.session.restored == cookieStored
                && r.value.sent == []
    {
      if (Truthy(email) && !Truthy(password)) || (Truthy(password) && !Truthy(email)) {
        return Failure(MsgHalfCredentials);
      }
      var config := env;
      if Truthy(email) && Truthy(password) {
        config := config[EmailKey := email];
        config := config[PasswordKey := password];
      } else if !Truthy(Lookup(config, EmailKey)) || !Truthy(Lookup(config, PasswordKey)) {
        return Failure(MsgEnvCredentials);
      }
      if Lookup(config, CookieFileKey).None? {
        return Failure(MsgNoCookieFile);
      }
      var f := new Factorial(config, cookieStored);
      return Success(f);
    }

    /** `login`, given the status of the login page, the authenticity token
        found in it, and the status of the form submission. */
    method Login(pageStatus: int, token: Option<string>, status: int) returns (r: Result<bool, string>)
      requires Valid()
      modifies this`sessionStored, this`sent
      ensures Valid()
      ensures r.Success? <==> pageStatus == 200 && Truthy(token) && status == 200
      ensures r.Success? ==> r.value
      ensures pageStatus != 200 ==>
                && r == Failure(MsgLoginPage)
                && sent == old(sent) + [Request(Get, Lookup(config, LoginUrlKey), NoForm)]
      ensures pageStatus == 200 && !Truthy(token) ==>
                && r == Failure(MsgToken)
                && sent == old(sent) + [Request(Get, Lookup(config, LoginUrlKey), NoForm)]
      ensures pageStatus == 200 && Truthy(token) ==>
                && (status != 200 ==> r == Failure(MsgLogin))
                && sent == old(sent) + [Request(Get, Lookup(config, LoginUrlKey), NoForm),
                                        Request(Post, Lookup(config, LoginUrlKey),
                                                LoginForm(token.value, Lookup(config, EmailKey), Lookup(config, PasswordKey),
                                                          LoginRememberMe, LoginCommit))]
      // a client always posts a non-empty email and password
      ensures pageStatus == 200 && Truthy(token) ==>
                sent[|sent| - 1].form.LoginForm? && Truthy(sent[|sent| - 1].form.email)
                && Truthy(sent[|sent| - 1].form.password)
      ensures sessionStored == (old(sessionStored) || r.Success?)
    {
      sent := sent + [Request(Get, Lookup(config, LoginUrlKey), NoForm)];
      if !Accepts(Call.LoginPage, pageStatus) {
        return Failure(ErrorMessage(Call.LoginPage));
      }
      if !Truthy(token) {
        return Failure(MsgToken);
      }
      var form := LoginForm(token.value, Lookup(config, EmailKey), Lookup(config, PasswordKey),
                                                          LoginRememberMe, LoginCommit);
      sent := sent + [Request(Post, Lookup(config, LoginUrlKey), form)];
      if !Accepts(Call.LoginSubmit, status) {
        return Failure(ErrorMessage(Call.LoginSubmit));
      }
      sessionStored := true;
      return Success(true);
    }

    /** `logout`: whatever the answer, the session is replaced by an empty one
        and the cookie file is removed. */
    method Logout(status: int) returns (ok: bool)
      requires Valid()
      modifies this`session, this`sessionStored, this`sent
      ensures Valid()
      ensures ok <==> status == 204
      ensures fresh(session) && !session.restored && !sessionStored
      ensures sent == old(sent) + [Request(Delete, Lookup(config, SessionUrlKey), NoForm)]
    {
      sent := sent + [Request(Delete, Lookup(config, SessionUrlKey), NoForm)];
      ok := Accepts(Call.Logout, status);
      session := new Session(false);
      sessionStored := false;
    }

    /** `clock_in`. */
    method ClockIn(status: int) returns (r: Result<bool, string>)
      requires Valid()
      modifies this`sent
      ensures Valid()
      ensures r.Success? <==> status in {200, 201}
      ensures r == (if status in {200, 201} then Success(true) else Failure(MsgClockIn))
      ensures sent == old(sent) + [Request(Post, Lookup(config, ClockInUrlKey), ClockForm("desktop"))]
    {
      sent := sent + [Request(Post, Lookup(config, ClockInUrlKey), ClockForm("desktop"))];
      if !Accepts(Call.ClockIn, status) {
        return Failure(ErrorMessage(Call.ClockIn));
      }
      return Success(true);
    }

    /** `clock_out`; it raises with the clock-in message, as the source does. */
    method ClockOut(status: int) returns (r: Result<bool, string>)
      requires Valid()
      modifies this`sent
      ensures Valid()
      ensures r.Success? <==> status in {200, 201}
      ensures r == (if status in {200, 201} then Success(true) else Failure(MsgClockIn))
      ensures sent == old(sent) + [Request(Post, Lookup(config, ClockOutUrlKey), ClockForm("desktop"))]
    {
      sent := sent + [Request(Post, Lookup(config, ClockOutUrlKey), ClockForm("desktop"))];
      if !Accepts(Call.ClockOut, status) {
        return Failure(ErrorMessage(Call.ClockOut));
      }
      return Success(true);
    }

    /** `open_shift`: the decoded body on status 200. */
    method OpenShift(status: int, body: map<string, string>) returns (r: Result<map<string, string>, string>)
      requires Valid()
      modifies this`sent
      ensures Valid()
      ensures r == (if status == 200 then Success(body) else Failure(MsgOpenShift))
      ensures sent == old(sent) + [Request(Get, Lookup(config, OpenShiftUrlKey), NoForm)]
    {
      sent := sent + [Request(Get, Lookup(config, OpenShiftUrlKey), NoForm)];
      if !Accepts(Call.OpenShift, status) {
        return Failure(ErrorMessage(Call.OpenShift));
      }
      return Success(body);
    }

    /** `is_clocked_in`: true when there is NO open shift, as written. */
    method IsClockedIn(status: int, body: map<string, string>) returns (r: Result<bool, string>)
      requires Valid()
      modifies this`sent
      ensures Valid()
      ensures status == 200 ==> r == Success(|body| == 0)
      ensures status != 200 ==> r == Failure(MsgOpenShift)
      ensures sent == old(sent) + [Request(Get, Lookup(config, OpenShiftUrlKey), NoForm)]
    {
      var open := OpenShift(status, body);
      match open
      case Failure(e) => return Failure(e);
      case Success(shift) => return Success(|shift| == 0);
    }

    /** `shifts`: the decoded list on status 200. */
    method Shifts(status: int, body: seq<Shift>) returns (r: Result<seq<Shift>, string>)
      requires Valid()
      modifies this`sent
      ensures Valid()
      ensures r == (if status == 200 then Success(body) else Failure(MsgShifts))
      ensures sent == old(sent) + [Request(Get, Lookup(config, ShiftsUrlKey), NoForm)]
    {
      sent := sent + [Request(Get, Lookup(config, ShiftsUrlKey), NoForm)];
      if !Accepts(Call.ListShifts, status) {
        return Failure(ErrorMessage(Call.ListShifts));
      }
      return Success(body);
    }

    /** `delete_last_shift`, given the answer to the list request and the
        status of the delete request. */
    method DeleteLastShift(listStatus: int, listBody: seq<Shift>, deleteStatus: int) returns (r: Result<bool, string>)
      requires Valid()
      modifies this`sent
      ensures Valid()
      ensures listStatus != 200 ==>
                r == Failure(MsgShifts) && sent == old(sent) + [Request(Get, Lookup(config, ShiftsUrlKey), NoForm)]
      // an empty list: nothing is deleted
      ensures listStatus == 200 && |listBody| == 0 ==>
                r == Success(false) && sent == old(sent) + [Request(Get, Lookup(config, ShiftsUrlKey), NoForm)]
      ensures listStatus == 200 && |listBody| > 0 && Lookup(config, ShiftsUrlKey).None? ==>
                r == Failure(MsgNoShiftsUrl) && sent == old(sent) + [Request(Get, None, NoForm)]
      // otherwise exactly one delete, of the last shift
      ensures listStatus == 200 && |listBody| > 0 && Lookup(config, ShiftsUrlKey).Some? ==>
                var base := Lookup(config, ShiftsUrlKey).value;
                && |sent| == |old(sent)| + 2
                && sent[..|old(sent)| + 1] == old(sent) + [Request(Get, Some(base), NoForm)]
                && sent[|old(sent)| + 1].verb == Delete
                && sent[|old(sent)| + 1].url.Some?
                && NamesShift(base, sent[|old(sent)| + 1].url.value, listBody[|listBody| - 1].id)
                && r == (if deleteStatus == 204 then Success(true) else Failure(MsgDeleteShift))
      ensures r == Success(false) <==> listStatus == 200 && |listBody| == 0
    {
      var listed := Shifts(listStatus, listBody);
      if listed.Failure? {
        return Failure(listed.error);
      }
      var target := DeleteTarget(Lookup(config, ShiftsUrlKey), listed.value);
      match target
      case Failure(e) =>
        return Failure(e);
      case Success(None) =>
        return Success(false);
      case Success(Some(url)) =>
        sent := sent + [Request(Delete, Some(url), NoForm)];
        if !Accepts(Call.DeleteShift, deleteStatus) {
          return Failure(ErrorMessage(Call.DeleteShift));
        }
        return Success(true);
    }
  }
}
