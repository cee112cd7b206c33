// routes/users.js: the `checkUser` middleware and the /register and /login
// routes it guards. The database (`save`, `findOne`), bcrypt (`genSalt`,
// `hash`, `compare`) and jsonwebtoken (`sign`) are parameters: genSalt's
// outcome is a value, the others are functions from their arguments to a
// result or to the error their promise rejects with (or that they throw).

module Users {
  import opened Api
  import opened RoleGate

  /** `req.body` as the two routes read it. */
  datatype Credentials = Credentials(username: Value, password: Value)

  const UsernameNotProvided := "Username not provided"
  const PasswordNotProvided := "Password not provided"
  /** The bare string /login answers for a wrong password, spelled as in the source. */
  const IncorrectPassword := "Icorrect password"

  // ---------------------------------------------------------------------
  // checkUser
  // ---------------------------------------------------------------------

  /** `checkUser`: the username, then the password, must be truthy. */
  function CheckUser(body: Credentials): (r: Outcome)
    ensures r == Continue <==> Truthy(body.username) && Truthy(body.password)
    ensures r != Continue ==> r.Respond? && r.code == 400 && r.body.Message?
  {
    if !Truthy(body.username) then Respond(400, Message(UsernameNotProvided))
    else if !Truthy(body.password) then Respond(400, Message(PasswordNotProvided))
    else Continue
  }

  /** The username is checked first: without it the answer names the
      username, whatever the password is. */
  lemma UsernameCheckedFirst(body: Credentials)
    requires !Truthy(body.username)
    ensures CheckUser(body) == Respond(400, Message(UsernameNotProvided))
  {
  }

  /** With a username and no password the answer names the password. */
  lemma PasswordCheckedSecond(body: Credentials)
    requires Truthy(body.username) && !Truthy(body.password)
    ensures CheckUser(body) == Respond(400, Message(PasswordNotProvided))
  {
  }

  /** An empty string is missing, as `!""` is true. */
  lemma EmptyUsernameMissing(password: Value)
    ensures CheckUser(Credentials(Str(""), password)) == Respond(400, Message(UsernameNotProvided))
  {
  }

  // ---------------------------------------------------------------------
  // /register
  // ---------------------------------------------------------------------

  /** Every step of /register resolves: the route reaches `res.status(201)`. */
  predicate Registers(body: Credentials, salt: Result<string, Failure>,
                      hash: (Value, string) -> Result<string, Failure>,
                      save: NewUser -> Result<StoredUser, Failure>)
  {
    CheckUser(body) == Continue && salt.Ok? && hash(body.password, salt.value).Ok? &&
    save(NewUser(body.username, hash(body.password, salt.value).value)).Ok?
  }

  /** The calls /register makes, in order, up to the first one that rejects. */
  function RegisterCalls(body: Credentials, salt: Result<string, Failure>,
                         hash: (Value, string) -> Result<string, Failure>): seq<OracleCall>
  {
    if CheckUser(body) != Continue then []
    else if salt.Err? then [GenSalt]
    else if hash(body.password, salt.value).Err? then [GenSalt, Hash(body.password, salt.value)]
    else [GenSalt, Hash(body.password, salt.value),
          Save(NewUser(body.username, hash(body.password, salt.value).value))]
  }

  /** The one response /register writes. */
  function RegisterReply(body: Credentials, salt: Result<string, Failure>,
                         hash: (Value, string) -> Result<string, Failure>,
                         save: NewUser -> Result<StoredUser, Failure>): Effect
  {
    var gate := CheckUser(body);
    if gate.Respond? then Reply(gate.code, gate.body)
    else if salt.Err? then Reply(400, Message(salt.error.message))
    else
      var hashed := hash(body.password, salt.value);
      if hashed.Err? then Reply(400, Message(hashed.error.message))
      else
        var saved := save(NewUser(body.username, hashed.value));
        if saved.Err? then Reply(400, Message(saved.error.message))
        else Reply(201, SavedUser(saved.value))
  }

  /** POST /register: checkUser, then genSalt, hash and save, each awaited
      in turn; a rejection is caught and answered 400 with its message. */
  method Register(body: Credentials, salt: Result<string, Failure>,
                  hash: (Value, string) -> Result<string, Failure>,
                  save: NewUser -> Result<StoredUser, Failure>)
    returns (trace: seq<Effect>)
    ensures trace == CallEffects(RegisterCalls(body, salt, hash)) + [RegisterReply(body, salt, hash, save)]
  {
    var gate := CheckUser(body);
    if gate.Respond? {
      trace := [Reply(gate.code, gate.body)];
      return;
    }
    trace := [Call(GenSalt)];
    if salt.Err? {
      trace := trace + [Reply(400, Message(salt.error.message))];
      return;
    }
    trace := trace + [Call(Hash(body.password, salt.value))];
    var hashed := hash(body.password, salt.value);
    if hashed.Err? {
      trace := trace + [Reply(400, Message(hashed.error.message))];
      return;
    }
    var user := NewUser(body.username, hashed.value);
    CallEffectsAppend([GenSalt, Hash(body.password, salt.value)], Save(user));
    assert [GenSalt, Hash(body.password, salt.value)] + [Save(user)] == RegisterCalls(body, salt, hash);
    trace := trace + [Call(Save(user))];
    var saved := save(user);
    if saved.Err? {
      trace := trace + [Reply(400, Message(saved.error.message))];
      return;
    }
    trace := trace + [Reply(201, SavedUser(saved.value))];
  }

  /** /register writes exactly one response, after all its calls, and never
      calls next(). */
  lemma RegisterRespondsOnce(body: Credentials, salt: Result<string, Failure>,
                             hash: (Value, string) -> Result<string, Failure>,
                             save: NewUser -> Result<StoredUser, Failure>)
    ensures var t := CallEffects(RegisterCalls(body, salt, hash)) + [RegisterReply(body, salt, hash, save)];
            Responses(t) == [RegisterReply(body, salt, hash, save)] && NextCount(t) == 0 &&
            Calls(t) == RegisterCalls(body, salt, hash)
  {
    HandlerTrace(RegisterCalls(body, salt, hash), RegisterReply(body, salt, hash, save));
  }

  /** A request checkUser refuses reaches neither bcrypt nor the database. */
  lemma RegisterGated(body: Credentials, salt: Result<string, Failure>,
                      hash: (Value, string) -> Result<string, Failure>,
                      save: NewUser -> Result<StoredUser, Failure>)
    requires CheckUser(body) != Continue
    ensures RegisterCalls(body, salt, hash) == []
    ensures RegisterReply(body, salt, hash, save) == Reply(400, CheckUser(body).body)
  {
  }

  /** What is saved is the request's username and the bcrypt hash of the
      request's password with the generated salt, never the password. */
  lemma RegisterStoresHash(body: Credentials, salt: Result<string, Failure>,
                           hash: (Value, string) -> Result<string, Failure>, user: NewUser)
    requires Save(user) in RegisterCalls(body, salt, hash)
    ensures CheckUser(body) == Continue && salt.Ok?
    ensures user.username == body.username && hash(body.password, salt.value) == Ok(user.password)
  {
  }

  /** 201 with the saved document exactly when every step resolves;
      otherwise 400 with a message. */
  lemma RegisterCreatedIffAllSucceed(body: Credentials, salt: Result<string, Failure>,
                                     hash: (Value, string) -> Result<string, Failure>,
                                     save: NewUser -> Result<StoredUser, Failure>)
    ensures RegisterReply(body, salt, hash, save).code == 201 <==> Registers(body, salt, hash, save)
    ensures Registers(body, salt, hash, save) ==>
              RegisterReply(body, salt, hash, save) ==
              Reply(201, SavedUser(save(NewUser(body.username, hash(body.password, salt.value).value)).value))
    ensures !Registers(body, salt, hash, save) ==>
              RegisterReply(body, salt, hash, save).code == 400 && RegisterReply(body, salt, hash, save).body.Message?
  {
  }

  /** A rejected step is answered with its own message, and no later step runs. */
  lemma RegisterFailureStops(body: Credentials, salt: Result<string, Failure>,
                             hash: (Value, string) -> Result<string, Failure>,
                             save: NewUser -> Result<StoredUser, Failure>)
    requires CheckUser(body) == Continue
    ensures salt.Err? ==>
              RegisterCalls(body, salt, hash) == [GenSalt] &&
              RegisterReply(body, salt, hash, save) == Reply(400, Message(salt.error.message))
    ensures salt.Ok? && hash(body.password, salt.value).Err? ==>
              |RegisterCalls(body, salt, hash)| == 2 &&
              RegisterReply(body, salt, hash, save) == Reply(400, Message(hash(body.password, salt.value).error.message))
  {
  }

  // ---------------------------------------------------------------------
  // /login
  // ---------------------------------------------------------------------

  /** The status the `catch` of /login answers with: 500 when the error
      says so, 400 otherwise. */
  function CatchStatus(f: Failure): (code: int)
    ensures code == 500 || code == 400
    ensures code == 500 <==> f.status == Some(500)
  {
    if f.status == Some(500) then 500 else 400
  }

  /** The 404 message for an unknown username. */
  function NotFoundMessage(username: Value): string {
    "User with username: " + TemplateString(username) + " not found"
  }

  /** The payload /login signs: the stored username, no role. */
  function LoginPayload(user: StoredUser): Claims {
    Claims(user.username, Undefined)
  }

  /** The calls /login makes, in order, up to the first one that rejects or
      decides the answer. */
  function LoginCalls(body: Credentials,
                      findOne: Value -> Result<Option<StoredUser>, Failure>,
                      compare: (Value, Value) -> Result<bool, Failure>): seq<OracleCall>
  {
    if CheckUser(body) != Continue then []
    else
      var found := findOne(body.username);
      if found.Err? || found.value.None? then [FindOne(body.username)]
      else
        var user := found.value.value;
        if compare(body.password, user.password) != Ok(true) then
          [FindOne(body.username), Compare(body.password, user.password)]
        else
          [FindOne(body.username), Compare(body.password, user.password), Sign(LoginPayload(user))]
  }

  /** The one response /login writes. */
  function LoginReply(body: Credentials,
                      findOne: Value -> Result<Option<StoredUser>, Failure>,
                      compare: (Value, Value) -> Result<bool, Failure>,
                      sign: Claims -> Result<string, Failure>): Effect
  {
    var gate := CheckUser(body);
    if gate.Respond? then Reply(gate.code, gate.body)
    else
      match findOne(body.username)
      case Err(f) => Reply(CatchStatus(f), Message(f.message))
      case Ok(None) => Reply(404, Message(NotFoundMessage(body.username)))
      case Ok(Some(user)) =>
        match compare(body.password, user.password)
        case Err(f) => Reply(CatchStatus(f), Message(f.message))
        case Ok(false) => Reply(400, Text(IncorrectPassword))
        case Ok(true) =>
          match sign(LoginPayload(user))
          case Err(f) => Reply(CatchStatus(f), Message(f.message))
          case Ok(token) => Reply(200, AccessToken(token))
  }

  /** POST /login: checkUser, then findOne, compare and sign, each awaited
      in turn; a rejection is caught and answered by CatchStatus. */
  method Login(body: Credentials,
               findOne: Value -> Result<Option<StoredUser>, Failure>,
               compare: (Value, Value) -> Result<bool, Failure>,
               sign: Claims -> Result<string, Failure>)
    returns (trace: seq<Effect>)
    ensures trace == CallEffects(LoginCalls(body, findOne, compare)) + [LoginReply(body, findOne, compare, sign)]
  {
    var gate := CheckUser(body);
    if gate.Respond? {
      trace := [Reply(gate.code, gate.body)];
      return;
    }
    trace := [Call(FindOne(body.username))];
    var found := findOne(body.username);
    if found.Err? {
      trace := trace + [Reply(CatchStatus(found.error), Message(found.error.message))];
      return;
    }
    if found.value.None? {
      trace := trace + [Reply(404, Message(NotFoundMessage(body.username)))];
      return;
    }
    var user := found.value.value;
    trace := trace + [Call(Compare(body.password, user.password))];
    var matched := compare(body.password, user.password);
    if matched.Err? {
      trace := trace + [Reply(CatchStatus(matched.error), Message(matched.error.message))];
      return;
    }
    if !matched.value {
      trace := trace + [Reply(400, Text(IncorrectPassword))];
      return;
    }
    var payload := LoginPayload(user);
    CallEffectsAppend([FindOne(body.username), Compare(body.password, user.password)], Sign(payload));
    assert [FindOne(body.username), Compare(body.password, user.password)] + [Sign(payload)]
        == LoginCalls(body, findOne, compare);
    trace := trace + [Call(Sign(payload))];
    var token := sign(payload);
    if token.Err? {
      trace := trace + [Reply(CatchStatus(token.error), Message(token.error.message))];
      return;
    }
    trace := trace + [Reply(200, AccessToken(token.value))];
  }

  /** /login writes exactly one response, after all its calls, and never
      calls next(). */
  lemma LoginRespondsOnce(body: Credentials,
                          findOne: Value -> Result<Option<StoredUser>, Failure>,
                          compare: (Value, Value) -> Result<bool, Failure>,
                          sign: Claims -> Result<string, Failure>)
    ensures var t := CallEffects(LoginCalls(body, findOne, compare)) + [LoginReply(body, findOne, compare, sign)];
            Responses(t) == [LoginReply(body, findOne, compare, sign)] && NextCount(t) == 0 &&
            Calls(t) == LoginCalls(body, findOne, compare)
  {
    HandlerTrace(LoginCalls(body, findOne, compare), LoginReply(body, findOne, compare, sign));
  }

  /** An unknown username is answered 404 with the username in the message,
      and no password is compared. */
  lemma LoginUnknownUser(body: Credentials,
                         findOne: Value -> Result<Option<StoredUser>, Failure>,
                         compare: (Value, Value) -> Result<bool, Failure>,
                         sign: Claims -> Result<string, Failure>)
    requires CheckUser(body) == Continue && findOne(body.username) == Ok(None)
    ensures LoginCalls(body, findOne, compare) == [FindOne(body.username)]
    ensures LoginReply(body, findOne, compare, sign) == Reply(404, Message(NotFoundMessage(body.username)))
  {
  }

  /** A token is handed out only for a found user whose stored hash matches
      the request's password, and it is the token jsonwebtoken signed for
      that user's payload. */
  lemma LoginTokenOnlyForMatchingPassword(body: Credentials,
                                          findOne: Value -> Result<Option<StoredUser>, Failure>,
                                          compare: (Value, Value) -> Result<bool, Failure>,
                                          sign: Claims -> Result<string, Failure>)
    requires LoginReply(body, findOne, compare, sign).body.AccessToken?
    ensures CheckUser(body) == Continue
    ensures findOne(body.username).Ok? && findOne(body.username).value.Some?
    ensures var user := findOne(body.username).value.value;
            compare(body.password, user.password) == Ok(true) &&
            sign(LoginPayload(user)) == Ok(LoginReply(body, findOne, compare, sign).body.token) &&
            LoginReply(body, findOne, compare, sign).code == 200
  {
  }

  /** A wrong password is answered 400 with the bare string and nothing is
      signed. */
  lemma LoginWrongPassword(body: Credentials,
                           findOne: Value -> Result<Option<StoredUser>, Failure>,
                           compare: (Value, Value) -> Result<bool, Failure>,
                           sign: Claims -> Result<string, Failure>, user: StoredUser)
    requires CheckUser(body) == Continue && findOne(body.username) == Ok(Some(user))
    requires compare(body.password, user.password) == Ok(false)
    ensures |LoginCalls(body, findOne, compare)| == 2
    ensures LoginReply(body, findOne, compare, sign) == Reply(400, Text(IncorrectPassword))
  {
  }

  /** A rejection of findOne, of compare or of sign is caught and answered
      500 when the error carries status 500 and 400 otherwise, with the
      error's message. */
  lemma LoginFailureStatus(body: Credentials,
                           findOne: Value -> Result<Option<StoredUser>, Failure>,
                           compare: (Value, Value) -> Result<bool, Failure>,
                           sign: Claims -> Result<string, Failure>, user: StoredUser)
    requires CheckUser(body) == Continue
    ensures findOne(body.username).Err? ==>
              LoginReply(body, findOne, compare, sign) ==
              Reply(if findOne(body.username).error.status == Some(500) then 500 else 400,
                    Message(findOne(body.username).error.message))
    ensures findOne(body.username) == Ok(Some(user)) && compare(body.password, user.password).Err? ==>
              LoginReply(body, findOne, compare, sign) ==
              Reply(if compare(body.password, user.password).error.status == Some(500) then 500 else 400,
                    Message(compare(body.password, user.password).error.message))
    ensures findOne(body.username) == Ok(Some(user)) && compare(body.password, user.password) == Ok(true) &&
            sign(LoginPayload(user)).Err? ==>
              LoginReply(body, findOne, compare, sign) ==
              Reply(if sign(LoginPayload(user)).error.status == Some(500) then 500 else 400,
                    Message(sign(LoginPayload(user)).error.message))
  {
  }

  /** A found user whose stored hash matches the request's password gets
      200 with the token sign returns, after exactly the lookup, the
      comparison and the signing. */
  lemma LoginMatchingPasswordGetsToken(body: Credentials,
                                       findOne: Value -> Result<Option<StoredUser>, Failure>,
                                       compare: (Value, Value) -> Result<bool, Failure>,
                                       sign: Claims -> Result<string, Failure>,
                                       user: StoredUser, token: string)
    requires CheckUser(body) == Continue && findOne(body.username) == Ok(Some(user))
    requires compare(body.password, user.password) == Ok(true)
    requires sign(LoginPayload(user)) == Ok(token)
    ensures LoginCalls(body, findOne, compare) ==
            [FindOne(body.username), Compare(body.password, user.password), Sign(LoginPayload(user))]
    ensures LoginReply(body, findOne, compare, sign) == Reply(200, AccessToken(token))
  {
  }

  /** Every payload /login signs lacks a role, so checkRole denies every
      token it issues whatever role a route demands. */
  lemma LoginTokensDeniedByRoleGate(body: Credentials,
                                    findOne: Value -> Result<Option<StoredUser>, Failure>,
                                    compare: (Value, Value) -> Result<bool, Failure>,
                                    payload: Claims, role: string)
    requires Sign(payload) in LoginCalls(body, findOne, compare)
    ensures payload.role == Undefined
    ensures CheckRole(role, Some(payload)) == Respond(403, Message(AccessDenied))
  {
  }
}
