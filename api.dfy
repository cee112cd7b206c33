// The vocabulary the middleware and the route handlers share: the JavaScript
// values a parsed request body holds, the token payload, the user record, and
// what a handler does to the response, to the request and to `next`.

module Api {

  datatype Option<T> = None | Some(value: T)

  datatype Result<T, E> = Ok(value: T) | Err(error: E)

  /** The integers a JavaScript number holds exactly, up to
      Number.MAX_SAFE_INTEGER in magnitude. */
  type SafeInteger = n: int | -0x1F_FFFF_FFFF_FFFF <= n <= 0x1F_FFFF_FFFF_FFFF

  /** A field of a JSON request body as the handlers read it; Undefined is a
      missing field. */
  datatype Value = Undefined | Null | Bool(b: bool) | Number(n: SafeInteger) | Str(s: string) | Object

  /** JavaScript truthiness, the test `!x` negates. */
  predicate Truthy(v: Value) {
    match v
    case Undefined => false
    case Null => false
    case Bool(b) => b
    case Number(n) => n != 0
    case Str(s) => s != ""
    case Object => true
  }

  predicate IsDigit(c: char) {
    '0' <= c <= '9'
  }

  function DigitChar(d: nat): (c: char)
    requires d < 10
    ensures IsDigit(c)
  {
    (48 + d) as char
  }

  function DigitValue(c: char): (d: nat)
    requires IsDigit(c)
    ensures d < 10
  {
    c as int - 48
  }

  /** The decimal digits of n, most significant first. */
  function NatToDecimal(n: nat): string
    decreases n
  {
    if n < 10 then [DigitChar(n)] else NatToDecimal(n / 10) + [DigitChar(n % 10)]
  }

  predicate AllDigits(s: string) {
    forall i :: 0 <= i < |s| ==> IsDigit(s[i])
  }

  /** The number a string of decimal digits denotes. */
  function DecimalValue(s: string): nat
    requires AllDigits(s)
  {
    if s == [] then 0 else DecimalValue(s[..|s| - 1]) * 10 + DigitValue(s[|s| - 1])
  }

  /** The digits of n are decimal digits without a leading zero, and they
      read back as n. */
  lemma {:induction false} NatToDecimalRoundTrip(n: nat)
    ensures |NatToDecimal(n)| >= 1 && AllDigits(NatToDecimal(n))
    ensures NatToDecimal(n)[0] == '0' ==> n == 0
    ensures DecimalValue(NatToDecimal(n)) == n
    decreases n
  {
    if n >= 10 {
      NatToDecimalRoundTrip(n / 10);
      var s := NatToDecimal(n);
      assert s[..|s| - 1] == NatToDecimal(n / 10);
    }
  }

  /** What a template literal `${v}` writes for v. */
  function TemplateString(v: Value): string {
    match v
    case Undefined => "undefined"
    case Null => "null"
    case Bool(b) => if b then "true" else "false"
    case Number(n) => if n < 0 then "-" + NatToDecimal(-n) else NatToDecimal(n)
    case Str(s) => s
    case Object => "[object Object]"
  }

  /** An optional minus sign followed by decimal digits. */
  predicate IsIntegerLiteral(s: string) {
    if |s| > 0 && s[0] == '-' then |s| > 1 && AllDigits(s[1..]) else |s| > 0 && AllDigits(s)
  }

  /** The integer an integer literal denotes. */
  function IntegerValue(s: string): int
    requires IsIntegerLiteral(s)
  {
    if |s| > 0 && s[0] == '-' then -(DecimalValue(s[1..]) as int) else DecimalValue(s)
  }

  /** A safe integer is written in plain decimal, never in exponent form,
      and the text reads back as the number. */
  lemma NumberTemplateRoundTrip(n: SafeInteger)
    ensures IsIntegerLiteral(TemplateString(Number(n)))
    ensures IntegerValue(TemplateString(Number(n))) == n
    ensures 'e' !in TemplateString(Number(n))
  {
    var s := TemplateString(Number(n));
    if n < 0 {
      NatToDecimalRoundTrip(-n);
      assert s[1..] == NatToDecimal(-n);
    } else {
      NatToDecimalRoundTrip(n);
    }
    assert AllDigits(s) || (s[0] == '-' && AllDigits(s[1..]));
  }

  /** An error a `catch` block receives: its `message` and its `status`. */
  datatype Failure = Failure(message: string, status: Option<int>)

  /** An exception that leaves a middleware uncaught. */
  datatype JsError = TypeError

  /** A decoded token payload; Undefined stands for a missing claim. */
  datatype Claims = Claims(username: Value, role: Value)

  /** The document `/register` builds and hands to `save`. */
  datatype NewUser = NewUser(username: Value, password: string)

  /** A user document as the database returns it. */
  datatype StoredUser = StoredUser(username: Value, password: Value)

  /** A JSON response body. */
  datatype Body =
    | Message(text: string)        // { message: text }
    | Text(text: string)           // a bare JSON string
    | AccessToken(token: string)   // { accessToken: token }
    | SavedUser(user: StoredUser)  // the saved document

  /** A call into the database, bcrypt or jsonwebtoken. */
  datatype OracleCall =
    | Verify(token: string)              // jwt.verify(token, secret, callback)
    | GenSalt                            // bcrypt.genSalt()
    | Hash(data: Value, salt: string)    // bcrypt.hash(data, salt)
    | Save(user: NewUser)                // user.save()
    | FindOne(username: Value)           // User.findOne({ username })
    | Compare(data: Value, hash: Value)  // bcrypt.compare(data, hash)
    | Sign(payload: Claims)              // jwt.sign(payload, secret)

  /** One observable step of a middleware or handler, in the order it happens. */
  datatype Effect =
    | SendStatus(code: int)          // res.sendStatus(code)
    | Reply(code: int, body: Body)   // res.status(code).json(body); res.json(body) is code 200
    | SetUser(user: Option<Claims>)  // req.user = ...; None is undefined
    | Next                           // next()
    | Call(call: OracleCall)
    | Throw(error: JsError)          // an exception escapes

  /** What a middleware without side calls decides. */
  datatype Outcome =
    | Continue                        // calls next() and writes nothing
    | Respond(code: int, body: Body)  // writes one response and does not call next()
    | Raise(error: JsError)           // throws before doing either

  predicate IsResponse(e: Effect) {
    e.SendStatus? || e.Reply?
  }

  /** The response writes of a trace, in order. */
  function Responses(trace: seq<Effect>): seq<Effect> {
    if trace == [] then []
    else (if IsResponse(trace[0]) then [trace[0]] else []) + Responses(trace[1..])
  }

  /** How many times a trace calls next(). */
  function NextCount(trace: seq<Effect>): nat {
    if trace == [] then 0
    else (if trace[0] == Next then 1 else 0) + NextCount(trace[1..])
  }

  /** The calls into the database, bcrypt and jsonwebtoken, in order. */
  function Calls(trace: seq<Effect>): seq<OracleCall> {
    if trace == [] then []
    else (if trace[0].Call? then [trace[0].call] else []) + Calls(trace[1..])
  }

  lemma {:induction false} ResponsesAppend(a: seq<Effect>, b: seq<Effect>)
    ensures Responses(a + b) == Responses(a) + Responses(b)
  {
    if a == [] {
      assert a + b == b;
    } else {
      var first := if IsResponse(a[0]) then [a[0]] else [];
      assert (a + b)[0] == a[0] && (a + b)[1..] == a[1..] + b;
      ResponsesAppend(a[1..], b);
      assert Responses(a + b) == first + Responses(a[1..] + b);
      assert Responses(a) == first + Responses(a[1..]);
    }
  }

  lemma {:induction false} NextCountAppend(a: seq<Effect>, b: seq<Effect>)
    ensures NextCount(a + b) == NextCount(a) + NextCount(b)
  {
    if a == [] {
      assert a + b == b;
    } else {
      assert (a + b)[1..] == a[1..] + b;
      NextCountAppend(a[1..], b);
    }
  }

  lemma {:induction false} CallsAppend(a: seq<Effect>, b: seq<Effect>)
    ensures Calls(a + b) == Calls(a) + Calls(b)
  {
    if a == [] {
      assert a + b == b;
    } else {
      var first := if a[0].Call? then [a[0].call] else [];
      assert (a + b)[0] == a[0] && (a + b)[1..] == a[1..] + b;
      CallsAppend(a[1..], b);
      assert Calls(a + b) == first + Calls(a[1..] + b);
      assert Calls(a) == first + Calls(a[1..]);
    }
  }

  /** The trace of a handler that makes the given calls one after another. */
  function CallEffects(calls: seq<OracleCall>): (t: seq<Effect>)
    ensures |t| == |calls|
  {
    if calls == [] then [] else [Call(calls[0])] + CallEffects(calls[1..])
  }

  /** Making one more call extends the trace by that call. */
  lemma {:induction false} CallEffectsAppend(calls: seq<OracleCall>, c: OracleCall)
    ensures CallEffects(calls + [c]) == CallEffects(calls) + [Call(c)]
  {
    if calls == [] {
      assert calls + [c] == [c];
    } else {
      assert (calls + [c])[1..] == calls[1..] + [c];
      CallEffectsAppend(calls[1..], c);
    }
  }

  /** A handler that makes its calls and then answers once writes exactly one
      response, last, never calls next(), and its calls are the ones made. */
  lemma {:induction false} HandlerTrace(calls: seq<OracleCall>, reply: Effect)
    requires IsResponse(reply)
    ensures Responses(CallEffects(calls) + [reply]) == [reply]
    ensures NextCount(CallEffects(calls) + [reply]) == 0
    ensures Calls(CallEffects(calls) + [reply]) == calls
  {
    if calls == [] {
      assert CallEffects(calls) + [reply] == [reply];
    } else {
      var t := CallEffects(calls) + [reply];
      assert t[0] == Call(calls[0]);
      assert t[1..] == CallEffects(calls[1..]) + [reply];
      HandlerTrace(calls[1..], reply);
      assert calls == [calls[0]] + calls[1..];
    }
  }

  /** Responses and next() calls of a trace, read one effect at a time. */
  lemma TraceAppend(a: seq<Effect>, e: Effect)
    ensures Responses(a + [e]) == Responses(a) + (if IsResponse(e) then [e] else [])
    ensures NextCount(a + [e]) == NextCount(a) + (if e == Next then 1 else 0)
    ensures Calls(a + [e]) == Calls(a) + (if e.Call? then [e.call] else [])
  {
    ResponsesAppend(a, [e]);
    NextCountAppend(a, [e]);
    CallsAppend(a, [e]);
  }
}
