# book-api: e-mail validation, authentication and the user routes

A Dafny model of the security core of book-api, an Express REST service for books.
The model covers four pieces:

- **`validateEmail`** (`email.dfy`, module `EmailValidation`). The e-mail regular
  expression is stated group by group as a specification predicate (`LinePattern`),
  with the `m` flag's line anchors on top (`RegexTest`). An executable recogniser
  (`Recognise`, `ValidateEmail`) scans left to right and is proved to accept exactly
  what the regular expression matches. Lemmas state what the grammar accepts and
  rejects.
- **`auth`** (`auth.dfy`, module `Auth`). The JWT middleware is a method
  (`Authenticate`) that records, in order, every effect it has on the response, on
  `req.user` and on `next`. It is proved equal to a specification function
  (`AuthEffects`). `jwt.verify` is a parameter: any function from a token to a payload
  or an error. `String.prototype.split` is modelled by `Split`, with `Join` as its
  inverse.
- **`checkRole`** (`check_role.dfy`, module `RoleGate`). A pure allow/deny decision
  on the captured role and `req.user`.
- **`routes/users.js`** (`users.dfy`, module `Users`):
  - `checkUser` is a pure function.
  - `/register` and `/login` are methods that record their calls into bcrypt, the
    database and jsonwebtoken, followed by the one response they write.
  - Each method is proved equal to a pair of specification functions: the calls made
    (`RegisterCalls`, `LoginCalls`) and the reply written (`RegisterReply`,
    `LoginReply`).
  - bcrypt, the database and jsonwebtoken are parameters. Each is a function to a
    result or to the error its promise rejects with.

The shared vocabulary lives in `api.dfy` (module `Api`):

- JavaScript values as a request body holds them, and their truthiness.
- Template-literal string conversion.
- Token payloads and user documents.
- The effect trace, and the functions `Responses`, `NextCount` and `Calls`, which
  count response writes, `next()` calls and external calls in a trace.

Two JavaScript behaviours of `validateEmail` that the proofs make explicit:

- The `[^.]` that closes the local part matches any character that is not a dot:
  a space, a second `@`, even a line terminator.
- Under the `m` flag, a match may therefore span two lines (`MatchSpansLines`)
  even though neither line is an address (`SpannedLinesRejected`).

## Model

| member | source | states |
|---|---|---|
| EmailValidation.LinePattern | utils/validate_email.js:2 | the regular expression between `^` and `$`, group by group: a local part not starting with a dot and closed by a non-dot character, `@`, a word label, then one or two dotted labels ending in a non-dot word character (a specification predicate; `RecogniseIsPattern` relates it to the recogniser) |
| EmailValidation.Recognise | utils/validate_email.js:2 | the scanning recogniser for one line: the `@` is tried at the end of the run of `[\w\-_.]` and one past it (its meaning is stated by `RecogniseIsPattern`) |
| EmailValidation.ValidateEmail | utils/validate_email.js:1-4 | `validateEmail`: some substring between a line start and a line end is recognised (its meaning is stated by `ValidateEmailIsRegexTest`) |
| EmailValidation.RecogniseIsPattern | utils/validate_email.js:2 | the scanning recogniser accepts a line exactly when the regular expression's three groups match it between `^` and `$` |
| EmailValidation.ValidateEmailIsRegexTest | utils/validate_email.js:1-4 | `validateEmail` is true exactly when some substring between a line start and a line end (the `m` flag) matches the pattern, which is what `regex.test` on a fresh regex answers |
| EmailValidation.SingleLineIsPattern | utils/validate_email.js:2-3 | on an input with no line terminator, `validateEmail` is the pattern over the whole input |
| EmailValidation.LaterLineAccepted | utils/validate_email.js:2-3 | under the `m` flag, any input whose later line is an address is accepted, whatever precedes it |
| EmailValidation.MatchSpansLines | utils/validate_email.js:2 | "x\n@bc.de" is accepted: the `[^.]` closing the local part matches the newline |
| EmailValidation.SpannedLinesRejected | utils/validate_email.js:2 | neither "x" nor "@bc.de" is accepted on its own |
| EmailValidation.LeadingDotRejected | utils/validate_email.js:2 | the lookahead `(?!\.)` rejects every line that starts with a dot |
| EmailValidation.AnyCharBeforeSeparator | utils/validate_email.js:2 | the character before the `@` may be anything except a dot |
| EmailValidation.TopLevelEndsInTwoWordChars | utils/validate_email.js:2 | group 3 starts with a dot and ends with two word characters |
| EmailValidation.TopLevelDots | utils/validate_email.js:2 | group 3 holds one or two dots, so at most two labels follow the domain label |
| EmailValidation.ShortestAddress | utils/validate_email.js:2 | every matched line has at least six characters |
| EmailValidation.LeadingDotExample | utils/validate_email.js:2 | ".a@bc.de" is rejected |
| EmailValidation.DotBeforeSeparatorExample | utils/validate_email.js:2 | "a.@bc.de" is rejected |
| EmailValidation.RepeatedDotsExample | utils/validate_email.js:2 | "a..b@cd.ef" is accepted |
| EmailValidation.SpaceBeforeSeparatorExample | utils/validate_email.js:2 | "a @bc.de" is accepted |
| EmailValidation.DoubleSeparatorExample | utils/validate_email.js:2 | "a@@bc.de" is accepted |
| EmailValidation.HyphenInDomainExample | utils/validate_email.js:2 | "a@my-site.com" is rejected: the domain label is `\w+` |
| EmailValidation.TwoLabelsExample | utils/validate_email.js:2 | "a@b.co.uk" is accepted |
| EmailValidation.ThreeLabelsExample | utils/validate_email.js:2 | "a@b.c.d.ef" is rejected |
| EmailValidation.ShortFinalLabelExample | utils/validate_email.js:2 | "a@b.c" is rejected |
| EmailValidation.TwoCharFinalLabelExample | utils/validate_email.js:2 | "a@b.cc" is accepted |
| Auth.Split | middleware/auth.js:9 | `String.prototype.split` with a one-character separator: the fields between separators, empty ones included, at least one field |
| Auth.BearerToken | middleware/auth.js:9 | `bearerToken.split(" ")[1]`, None standing for undefined (its properties are `BearerTokenUndefined` and `BearerTokenIsSecondWord`) |
| Auth.AuthEffects | middleware/auth.js:4-18 | the middleware as written, as the sequence of its effects: the 403 of line 7 without return, the throw of line 9, the 401 of line 11, the verify call of line 13 and the 403, `req.user` and `next()` of lines 14-16 |
| Auth.GuardedEffects | middleware/auth.js:4-18 | the middleware with a return after the 403 of line 7 and after the 403 of line 14 (the corrected definition `GuardedSingleOutcome` is about) |
| Auth.JoinSplit | middleware/auth.js:9 | joining the fields of `split(sep)` with sep gives back the string |
| Auth.SplitFieldCount | middleware/auth.js:9 | `split(sep)` yields one more field than there are separators |
| Auth.SplitWithoutSeparator | middleware/auth.js:9 | a string without the separator splits into itself alone |
| Auth.SplitLeadingField | middleware/auth.js:9 | a leading word without the separator is the first field, and the rest splits on its own |
| Auth.BearerTokenUndefined | middleware/auth.js:9-11 | `split(" ")[1]` is undefined exactly when the header holds no space |
| Auth.BearerTokenIsSecondWord | middleware/auth.js:9 | the token is the second space-separated word of the header |
| Auth.Authenticate | middleware/auth.js:4-18 | the middleware's effects, step by step, are those of `AuthEffects`: a 403 without returning for a falsy header, a throw for an absent one, 401 without a token, and after `jwt.verify` a 403 on error, then `req.user` and `next()` in every case |
| Auth.AbsentHeaderThrowsAfterResponding | middleware/auth.js:7-9 | without an authorization header: a 403, then `split` on undefined throws |
| Auth.EmptyHeaderRespondsTwice | middleware/auth.js:7-11 | an empty header gets a 403 and then a 401 |
| Auth.NoSpaceUnauthorized | middleware/auth.js:9-11 | a non-empty header without a space gets exactly one 401, and verify is not called |
| Auth.VerifyCalledWithToken | middleware/auth.js:9-13 | `jwt.verify` is called with a token exactly when the header is present and its second field is that token |
| Auth.SchemeIgnored | middleware/auth.js:9 | the first word of the header (the scheme) never changes the outcome |
| Auth.EmptyTokenVerified | middleware/auth.js:9-13 | two spaces after the scheme give the empty token, which is not `null` and goes to verify |
| Auth.VerifyFailureRespondsAndContinues | middleware/auth.js:13-16 | a token that fails verification gets a 403, then `req.user` is set to undefined and `next()` runs |
| Auth.VerifiedContinues | middleware/auth.js:13-16 | a verified token writes nothing, sets `req.user` to the payload and calls `next()` once |
| Auth.GuardedSingleOutcome | middleware/auth.js:4-18 | with returns on lines 7 and 14, every request gets exactly one of a response or `next()`, nothing throws, and `next()` runs only with a verified payload in `req.user` |
| Auth.AsWrittenBreaksSingleOutcome | middleware/auth.js:7-16 | as written, a failed verification gets both a response and `next()`, and a missing header throws |
| RoleGate.CheckRole | middleware/check_role.js:3-9 | `next()` exactly when `req.user.role` is strictly the captured role; otherwise 403 "Access denied"; a throw exactly when `req.user` is undefined |
| RoleGate.RoleComparisonIsCaseSensitive | middleware/check_role.js:5 | "Admin" is denied on an "admin" route; "admin" passes |
| RoleGate.DecidedByRoleAlone | middleware/check_role.js:5 | two payloads with the same role get the same decision |
| RoleGate.MissingRoleDenied | middleware/check_role.js:5-6 | a payload without a role is denied for every route role |
| RoleGate.UndefinedUserThrows | middleware/check_role.js:5 | an undefined `req.user` makes the middleware throw |
| Api.Truthy | middleware/auth.js:7 | JavaScript truthiness, the test `!x` of `auth` and of `checkUser` (routes/users.js:56-58) negate: undefined, null, false, 0 and "" are falsy |
| Api.TemplateString | routes/users.js:32 | what a template literal writes for a request-body value (its number case is stated by `NumberTemplateRoundTrip`) |
| Api.NatToDecimalRoundTrip | routes/users.js:32 | the decimal text of a natural number is digits without a leading zero and reads back as the number |
| Api.NumberTemplateRoundTrip | routes/users.js:32 | a safe integer is written as an integer literal, never in exponent form, and reads back as the number |
| Users.CheckUser | routes/users.js:55-61 | `next()` exactly when username and password are both truthy; otherwise one 400 with a message |
| Users.UsernameCheckedFirst | routes/users.js:56-57 | without a username the answer is "Username not provided", whatever the password |
| Users.PasswordCheckedSecond | routes/users.js:58-59 | with a username and no password the answer is "Password not provided" |
| Users.EmptyUsernameMissing | routes/users.js:56-57 | an empty-string username counts as missing |
| Users.Register | routes/users.js:8-23 | the handler's trace is the calls of `RegisterCalls` followed by the reply of `RegisterReply` |
| Users.RegisterRespondsOnce | routes/users.js:8-23 | /register writes exactly one response, last, never calls `next()`, and makes exactly the calls of `RegisterCalls` |
| Users.RegisterGated | routes/users.js:55-61 | a request `checkUser` refuses reaches neither bcrypt nor the database and gets the 400 of `checkUser` |
| Users.RegisterStoresHash | routes/users.js:10-18 | the saved document holds the request's username and the bcrypt hash of the request's password with the generated salt |
| Users.RegisterCreatedIffAllSucceed | routes/users.js:10-22 | 201 with the saved document exactly when salt, hash and save all resolve; otherwise 400 with a message |
| Users.RegisterFailureStops | routes/users.js:10-22 | a rejected genSalt or hash is answered with its own message and no later call is made |
| Users.CatchStatus | routes/users.js:45-51 | the catch answers 500 exactly when the error's status is 500, and 400 otherwise |
| Users.Login | routes/users.js:26-52 | the handler's trace is the calls of `LoginCalls` followed by the reply of `LoginReply` |
| Users.LoginRespondsOnce | routes/users.js:26-52 | /login writes exactly one response, last, never calls `next()`, and makes exactly the calls of `LoginCalls` |
| Users.LoginUnknownUser | routes/users.js:28-34 | an unknown username gets 404 with the username in the message, and no password is compared |
| Users.NotFoundMessage | routes/users.js:32 | the 404 message: "User with username: ", the template string of the requested username, " not found" |
| Users.LoginPayload | routes/users.js:37-40 | the payload /login signs: the stored username and no role claim |
| Users.LoginMatchingPasswordGetsToken | routes/users.js:36-41 | a found user whose stored hash matches the password, with `sign` returning t, gets 200 `{accessToken: t}` after exactly the lookup, the comparison and the signing |
| Users.LoginTokenOnlyForMatchingPassword | routes/users.js:28-41 | an access token is returned only for a found user whose stored hash matches the password, and it is the token signed for that user's payload, with status 200 |
| Users.LoginWrongPassword | routes/users.js:36-44 | a wrong password gets 400 with the bare string "Icorrect password" and nothing is signed |
| Users.LoginFailureStatus | routes/users.js:28-51 | a rejected lookup, a rejected comparison or a throwing `sign` is answered 500 when the error's status is 500 and 400 otherwise, with the error's message |
| Users.LoginTokensDeniedByRoleGate | routes/users.js:37-40 | every payload /login signs lacks a role, so `checkRole` denies it for every route role |

## Left out

- Strings are sequences of Unicode code points, while JavaScript strings are UTF-16 code units. Without the `u` flag, the `[^.]` before the `@` matches one code unit, so JavaScript rejects an address whose character before the `@` lies outside the Basic Multilingual Plane (as in "a\u{1F600}@bc.de"); the model accepts it. No other character class of the pattern accepts such a character.
- EmailValidation.AnyCharBeforeSeparator: "anything except a dot" holds in JavaScript only for characters of the Basic Multilingual Plane, for the reason above.
- Numbers in a request body are safe integers (at most Number.MAX_SAFE_INTEGER in magnitude). Larger integers, which JSON parsing rounds, non-integer numbers, NaN and arrays are not modelled.
- Api.TemplateString: for numbers of magnitude 10^21 or more JavaScript writes the exponent form ("1e+21"); such numbers are not safe integers, so the model never meets them, and Users.NotFoundMessage does not model the 404 message for them.
- Express itself is not modelled. This includes `ERR_HTTP_HEADERS_SENT` when a handler writes a second response (as `auth` can), and the timing of asynchronous callbacks.
- bcrypt, the database (Mongoose `findOne` and `save`) and jsonwebtoken are parameters, not implementations. Their cryptography, their network I/O and Mongoose's schema handling are not modelled.
- Users.RegisterStoresHash: the document is the object handed to `save`; what Mongoose keeps of it is not modelled, because it depends on the schema in models/user.js, which is not part of this model.
- `jwt.verify` yields a payload with a username and a role claim; string payloads and other claims are not modelled.
- `err.status == 500` uses loose equality; the model compares the status as an integer, so the string "500" is not modelled.
- RoleGate.CheckRole: the closure `checkRole(role)` is modelled as a function of the role and `req.user`.
- Users.LoginWrongPassword: the misspelt "Icorrect password" and its bare-string body are modelled as written.
- routes/books.js, server.js, middleware/middleware.js and the Mongoose models are not part of this model.

## Findings

| source | as written | input that shows it | evidently intended | confidence | as-written member | corrected member |
|---|---|---|---|---|---|---|
| middleware/auth.js:7 | a falsy header gets `res.sendStatus(403)` without `return`, and the middleware carries on | no authorization header: a 403, then `split` of undefined throws; the header "" gets a 403 and then a 401 | return after the 403 | not executed | Auth.AsWrittenBreaksSingleOutcome | Auth.GuardedSingleOutcome |
| middleware/auth.js:14 | the verify callback sends a 403 on error without `return`, then sets `req.user` and calls `next()` | "Bearer t" where verification of "t" fails: a 403, `req.user` undefined, then the route runs | return after the 403 | not executed | Auth.AsWrittenBreaksSingleOutcome | Auth.GuardedSingleOutcome |
