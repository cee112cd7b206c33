// middleware/auth.js: reads the Authorization header, takes the second
// space-separated field as the token, and hands it to jwt.verify, whose
// callback sets req.user and calls next(). jwt.verify is a parameter here:
// any function from a token to a payload or an error.
//
// Two `return`s are missing in the source: after the 403 for a missing header
// (line 7) and after the 403 for a token that fails verification (line 14).
// AuthEffects and Authenticate follow the code as written; GuardedEffects is
// the middleware with both returns in place.

module Auth {
  import opened Api

  /** `req.headers["authorization"]`. */
  datatype Header = Absent | Present(value: string)

  /** `!bearerToken` is false: the header is present and not empty. */
  predicate HeaderTruthy(header: Header) {
    header.Present? && header.value != ""
  }

  const Unauthorized := "Unauthorized"

  // ---------------------------------------------------------------------
  // `split(" ")`
  // ---------------------------------------------------------------------

  /** `s.split(sep)` for a one-character separator: the fields between
      separators, empty ones included. */
  function Split(s: string, sep: char): (fields: seq<string>)
    ensures |fields| >= 1
    decreases |s|
  {
    if s == [] then [[]]
    else
      var rest := Split(s[1..], sep);
      if s[0] == sep then [[]] + rest else [[s[0]] + rest[0]] + rest[1..]
  }

  /** `fields.join(sep)`. */
  function Join(fields: seq<string>, sep: char): string
    requires |fields| >= 1
  {
    if |fields| == 1 then fields[0] else fields[0] + [sep] + Join(fields[1..], sep)
  }

  /** Joining the fields with the separator gives the string back. */
  lemma {:induction false} JoinSplit(s: string, sep: char)
    ensures Join(Split(s, sep), sep) == s
    decreases |s|
  {
    if s != [] {
      JoinSplit(s[1..], sep);
      var rest := Split(s[1..], sep);
      if s[0] != sep {
        if |rest| == 1 {
          assert [s[0]] + rest[0] == s;
        } else {
          assert Join(rest, sep) == rest[0] + [sep] + Join(rest[1..], sep);
          assert [s[0]] + rest[0] + [sep] + Join(rest[1..], sep) == s;
        }
      } else {
        assert [] + [sep] + Join(rest, sep) == s;
      }
    }
  }

  /** There is one more field than there are separators. */
  lemma {:induction false} SplitFieldCount(s: string, sep: char)
    ensures |Split(s, sep)| == multiset(s)[sep] + 1
    decreases |s|
  {
    if s != [] {
      SplitFieldCount(s[1..], sep);
      assert s == [s[0]] + s[1..];
      assert multiset(s) == multiset([s[0]]) + multiset(s[1..]);
    }
  }

  /** A string without the separator is one field. */
  lemma {:induction false} SplitWithoutSeparator(s: string, sep: char)
    requires sep !in s
    ensures Split(s, sep) == [s]
    decreases |s|
  {
    if s != [] {
      SplitWithoutSeparator(s[1..], sep);
      assert [s[0]] + s[1..] == s;
    }
  }

  /** A leading word without the separator is the first field. */
  lemma {:induction false} SplitLeadingField(a: string, rest: string, sep: char)
    requires sep !in a
    ensures Split(a + [sep] + rest, sep) == [a] + Split(rest, sep)
    decreases |a|
  {
    var s := a + [sep] + rest;
    if a == [] {
      assert s[1..] == rest;
    } else {
      assert s[1..] == a[1..] + [sep] + rest;
      SplitLeadingField(a[1..], rest, sep);
      assert [a[0]] + a[1..] == a;
    }
  }

  // ---------------------------------------------------------------------
  // The token
  // ---------------------------------------------------------------------

  /** `bearerToken.split(" ")[1]`; None is `undefined`. */
  function BearerToken(value: string): Option<string> {
    var fields := Split(value, ' ');
    if |fields| >= 2 then Some(fields[1]) else None
  }

  /** The token is undefined exactly when the header holds no space. */
  lemma BearerTokenUndefined(value: string)
    ensures BearerToken(value) == None <==> ' ' !in value
  {
    SplitFieldCount(value, ' ');
    assert ' ' in value <==> multiset(value)[' '] > 0;
  }

  /** The token is the second space-separated word, whatever the first is. */
  lemma BearerTokenIsSecondWord(scheme: string, token: string, rest: string)
    requires ' ' !in scheme && ' ' !in token
    requires rest == [] || rest[0] == ' '
    ensures BearerToken(scheme + " " + token + rest) == Some(token)
  {
    assert scheme + " " + token + rest == scheme + [' '] + (token + rest);
    SplitLeadingField(scheme, token + rest, ' ');
    if rest == [] {
      assert token + rest == token;
      SplitWithoutSeparator(token, ' ');
    } else {
      assert token + rest == token + [' '] + rest[1..];
      SplitLeadingField(token, rest[1..], ' ');
    }
  }

  // ---------------------------------------------------------------------
  // The middleware as written
  // ---------------------------------------------------------------------

  /** Everything `auth` does for a header, in order. */
  function AuthEffects(header: Header, verify: string -> Result<Claims, Failure>): seq<Effect> {
    // line 7: a 403 for a falsy header, without returning
    var forbidden := if HeaderTruthy(header) then [] else [SendStatus(403)];
    match header
    // line 9: `undefined.split` throws
    case Absent => forbidden + [Throw(TypeError)]
    case Present(value) =>
      match BearerToken(value)
      // line 11
      case None => forbidden + [Reply(401, Message(Unauthorized))]
      // lines 13-16: the callback sends 403 on an error, without returning
      case Some(token) =>
        forbidden + [Call(Verify(token))] +
        match verify(token)
        case Err(_) => [SendStatus(403), SetUser(None), Next]
        case Ok(claims) => [SetUser(Some(claims)), Next]
  }

  /** middleware/auth.js `auth`, step by step. */
  method Authenticate(header: Header, verify: string -> Result<Claims, Failure>)
    returns (trace: seq<Effect>)
    ensures trace == AuthEffects(header, verify)
  {
    trace := [];
    if !HeaderTruthy(header) {
      trace := trace + [SendStatus(403)];
    }
    if header.Absent? {
      trace := trace + [Throw(TypeError)];
      return;
    }
    var token := BearerToken(header.value);
    if token.None? {
      trace := trace + [Reply(401, Message(Unauthorized))];
      return;
    }
    trace := trace + [Call(Verify(token.value))];
    var decoded := verify(token.value);
    if decoded.Err? {
      trace := trace + [SendStatus(403)];
    }
    var user := if decoded.Ok? then Some(decoded.value) else None;
    trace := trace + [SetUser(user), Next];
  }

  /** Without a header: a 403, then `split` on undefined throws. */
  lemma AbsentHeaderThrowsAfterResponding(verify: string -> Result<Claims, Failure>)
    ensures AuthEffects(Absent, verify) == [SendStatus(403), Throw(TypeError)]
  {
  }

  /** An empty header is falsy too: a 403, then the 401 for the missing
      token, two response writes. */
  lemma EmptyHeaderRespondsTwice(verify: string -> Result<Claims, Failure>)
    ensures AuthEffects(Present(""), verify) == [SendStatus(403), Reply(401, Message(Unauthorized))]
  {
  }

  /** A header without a space: 401 and verify is not called. */
  lemma NoSpaceUnauthorized(value: string, verify: string -> Result<Claims, Failure>)
    requires value != "" && ' ' !in value
    ensures AuthEffects(Present(value), verify) == [Reply(401, Message(Unauthorized))]
  {
    BearerTokenUndefined(value);
  }

  /** verify is called, once, exactly when the header has a second field,
      and with that field. */
  lemma VerifyCalledWithToken(header: Header, verify: string -> Result<Claims, Failure>, token: string)
    ensures Call(Verify(token)) in AuthEffects(header, verify) <==>
            header.Present? && BearerToken(header.value) == Some(token)
  {
  }

  /** The first word, the scheme, is never checked. */
  lemma SchemeIgnored(scheme1: string, scheme2: string, rest: string,
                      verify: string -> Result<Claims, Failure>)
    requires ' ' !in scheme1 && ' ' !in scheme2
    ensures AuthEffects(Present(scheme1 + " " + rest), verify) ==
            AuthEffects(Present(scheme2 + " " + rest), verify)
  {
    SplitLeadingField(scheme1, rest, ' ');
    SplitLeadingField(scheme2, rest, ' ');
  }

  /** Two spaces after the scheme give the empty token, which is not
      `null` and so goes to verify. */
  lemma EmptyTokenVerified(scheme: string, rest: string, verify: string -> Result<Claims, Failure>)
    requires ' ' !in scheme
    ensures Call(Verify("")) in AuthEffects(Present(scheme + "  " + rest), verify)
  {
    assert scheme + "  " + rest == scheme + " " + "" + (" " + rest);
    BearerTokenIsSecondWord(scheme, "", " " + rest);
  }

  /** A token that fails verification: a 403, and then req.user is set to
      undefined and next() still runs. */
  lemma VerifyFailureRespondsAndContinues(value: string, verify: string -> Result<Claims, Failure>)
    requires BearerToken(value).Some? && verify(BearerToken(value).value).Err?
    ensures AuthEffects(Present(value), verify) ==
            [Call(Verify(BearerToken(value).value)), SendStatus(403), SetUser(None), Next]
  {
    BearerTokenUndefined(value);
  }

  /** A verified token: req.user is the payload, next() runs once and
      nothing is written. */
  lemma VerifiedContinues(value: string, verify: string -> Result<Claims, Failure>)
    requires BearerToken(value).Some? && verify(BearerToken(value).value).Ok?
    ensures var trace := AuthEffects(Present(value), verify);
            Responses(trace) == [] && NextCount(trace) == 1 &&
            SetUser(Some(verify(BearerToken(value).value).value)) in trace
  {
    BearerTokenUndefined(value);
    var token := BearerToken(value).value;
    var trace := AuthEffects(Present(value), verify);
    var setUser := SetUser(Some(verify(token).value));
    assert trace == [Call(Verify(token)), setUser] + [Next];
    TraceAppend([Call(Verify(token))], setUser);
    TraceAppend([Call(Verify(token)), setUser], Next);
  }

  // ---------------------------------------------------------------------
  // The middleware with the two returns in place
  // ---------------------------------------------------------------------

  /** `auth` with `return` before `res.sendStatus(403)` on lines 7 and 14. */
  function GuardedEffects(header: Header, verify: string -> Result<Claims, Failure>): seq<Effect> {
    if !HeaderTruthy(header) then [SendStatus(403)]
    else
      match BearerToken(header.value)
      case None => [Reply(401, Message(Unauthorized))]
      case Some(token) =>
        [Call(Verify(token))] +
        match verify(token)
        case Err(_) => [SendStatus(403)]
        case Ok(claims) => [SetUser(Some(claims)), Next]
  }

  /** With the returns, every request gets exactly one of a response or a
      next(), nothing throws, and next() only runs with a verified payload
      in req.user. */
  lemma GuardedSingleOutcome(header: Header, verify: string -> Result<Claims, Failure>)
    ensures var trace := GuardedEffects(header, verify);
            |Responses(trace)| + NextCount(trace) == 1 &&
            (forall e :: e in trace ==> !e.Throw?) &&
            (Next in trace ==>
               exists token :: BearerToken(header.value) == Some(token) && verify(token).Ok? &&
                               SetUser(Some(verify(token).value)) in trace)
  {
    var trace := GuardedEffects(header, verify);
    if HeaderTruthy(header) && BearerToken(header.value).Some? {
      var token := BearerToken(header.value).value;
      match verify(token)
      case Err(_) =>
        TraceAppend([Call(Verify(token))], SendStatus(403));
      case Ok(claims) =>
        assert trace == [Call(Verify(token)), SetUser(Some(claims))] + [Next];
        TraceAppend([Call(Verify(token))], SetUser(Some(claims)));
        TraceAppend([Call(Verify(token)), SetUser(Some(claims))], Next);
    }
  }

  /** The code as written breaks that: a token failing verification gets
      both a response and a next(), and a missing header throws. */
  lemma AsWrittenBreaksSingleOutcome(value: string, verify: string -> Result<Claims, Failure>)
    requires BearerToken(value).Some? && verify(BearerToken(value).value).Err?
    ensures var trace := AuthEffects(Present(value), verify);
            |Responses(trace)| == 1 && NextCount(trace) == 1
    ensures Throw(TypeError) in AuthEffects(Absent, verify)
  {
    VerifyFailureRespondsAndContinues(value, verify);
    var token := BearerToken(value).value;
    var t1 := [Call(Verify(token))] + [SendStatus(403)];
    var t2 := t1 + [SetUser(None)];
    assert AuthEffects(Present(value), verify) == t2 + [Next];
    TraceAppend([Call(Verify(token))], SendStatus(403));
    TraceAppend(t1, SetUser(None));
    TraceAppend(t2, Next);
  }
}
