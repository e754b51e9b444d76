# Candidate portal: request decisions of the API handlers and the candidate form

This project models the decision logic of a small candidate-registration web
application: three serverless HTTP handlers (`/api/candidates`,
`/api/register`, `/api/login`) and the client-side candidate form that feeds
the first of them. The PostgreSQL tables are in-memory sequences of rows;
bcrypt and jsonwebtoken are functions passed to the handlers
(`hash`, `compare`, `sign`, `verify`); a store, hashing or signing failure is a
fault parameter, so every error path of the source is a reachable input.

Modules, one per source file plus shared pieces:

- `Store` (`store.dfy`): the `candidates` and `users` rows, the `WHERE`
  filter every existence check uses, and `ORDER BY created_at DESC`.
- `Http` (`http.dfy`), `Tokens` (`tokens.dfy`), `Options` (`options.dfy`):
  request and response shapes, the JWT claim and verification outcome.
- `CandidateApi` (`candidate_api.dfy`): `api/candidate.js`. Bearer-token
  extraction (`split(' ')[1]`), the token check that precedes verb dispatch,
  the catch block's name-to-status mapping, and class `CandidateService`
  whose `Handle` method may append one row.
- `RegisterApi` (`register_api.dfy`): `api/register.js`, class
  `UserService` whose `Handle` method may append one user with a hashed
  password, keeping usernames and emails unique.
- `LoginApi` (`login_api.dfy`): `api/login.js`, a pure function of the users
  table, since the handler only reads.
- `Regex` (`regex.dfy`): the fragment of ECMAScript regular expressions the
  form uses (start-anchored, bracket classes with `{min,max}` repeats, optional
  `$`), with `test` as a backtracking matcher.
- `CandidateForm` (`candidate_form.dfy`):
  `frontend/src/components/CandidateForm.js`. The three patterns, `validate`,
  `handleChange`, and the payload and reset of `handleSubmit`, as class
  `Component`.
- `Flows` (`flows.dfy`): register-then-login, login-then-authorise, and what the candidates handler answers to the form's submission as sent (401) and with the login token attached (201).

An expired token is not answered with 401. The catch block at
`api/candidate.js:64` maps only the exact error name `JsonWebTokenError` to
401 "Invalid token". jsonwebtoken names an expiry error `TokenExpiredError`,
so such a request gets 500 "Internal server error"
(`CandidateApi.ExpiredTokenIsServerError`).

The candidate form posts without an `Authorization` header, so the
candidates handler rejects every submission before looking at its fields;
see "## Findings".

## Model

| member | source | states |
|---|---|---|
| `Store.Where` | api/candidate.js:44-47 | the filtered rows are exactly the table rows satisfying the condition, and there are no more of them than rows |
| `Store.WhereUnique` | api/login.js:33-38 | when the filtered key is unique in the table, at most one row matches, so `rows[0]` is that row |
| `Store.InsertByCreated` | api/candidate.js:32 | inserting into a newest-first listing keeps it newest-first and adds exactly that row |
| `Store.NewestFirst` | api/candidate.js:32 | the GET listing is a permutation of the table (same multiset of rows) ordered by `created_at` descending |
| `Store.NewestFirstSize` | api/candidate.js:32-33 | the listing has exactly as many rows as the table |
| `CandidateApi.Split` | api/candidate.js:23 | `split(' ')` yields at least one piece and no piece contains the separator |
| `CandidateApi.SplitJoin` | api/candidate.js:23 | joining the pieces of `split(' ')` with spaces gives back the header |
| `CandidateApi.BearerToken` | api/candidate.js:23-24 | an extracted token exists only for a present header and is non-empty and space-free |
| `CandidateApi.BearerTokenOfHeader` | api/candidate.js:23 | for `scheme + " " + token + tail` with a space-free scheme and token and a tail that is empty or starts with a space, the token is extracted; the scheme word is not checked |
| `CandidateApi.BearerTokenShape` | api/candidate.js:23-26 | conversely, an extracted token is exactly the text after the first space up to the next space or the end, so a header without a space or with an empty second piece yields no token |
| `CandidateApi.Authorize` | api/candidate.js:23-28 | no token exactly when extraction fails; invalid, carrying `verify`'s error name, exactly when `verify` rejects the token; otherwise authorised with `verify`'s claim |
| `CandidateApi.Caught` | api/candidate.js:62-69 | the status is 401 "Invalid token" iff the thrown error's name is exactly `JsonWebTokenError`; every other name gives 500 "Internal server error" |
| `CandidateApi.ExpiredTokenIsServerError` | api/candidate.js:62-68 | a token `verify` rejects as `TokenExpiredError` is an invalid token whose caught response is 500 "Internal server error", not 401 |
| `CandidateApi.RollTaken` | api/candidate.js:44-51 | the duplicate check is true iff some existing row has the same roll number |
| `CandidateApi.CandidateService.Handle` | api/candidate.js:10-70 | OPTIONS gives 200 with no body before any token check; a missing token gives 401 "No token provided" and a rejected token the `Caught` status, both before the verb is examined; with a valid token GET lists the table newest first, POST answers 500 for an undefined body, 400 "All fields are required", 400 "Roll number already exists" or a store fault's `Caught` status in source order, and other verbs give 405; the table gains exactly the one reported row on 201 and is untouched otherwise; unique roll numbers and filled fields are preserved |
| `RegisterApi.UserExists` | api/register.js:33-40 | the conflict check is true iff some user has the same username or the same email |
| `RegisterApi.UserService.Handle` | api/register.js:10-60 | OPTIONS gives 200 empty, other non-POST verbs 405; an undefined body and any store or hash fault give 500, a missing field 400, a username-or-email conflict 400 "User already exists"; on success exactly one row is appended whose password is `hash(password, 10)`, and the 201 response carries only id, username and email; the table is unchanged otherwise and stays unique in usernames and emails |
| `LoginApi.Lookup` | api/login.js:33 | the lookup returns exactly the users with that username |
| `LoginApi.Handle` | api/login.js:11-55 | OPTIONS gives 200 empty and other non-POST verbs 405; for a POST, in source order: an undefined body gives 500, a missing or empty username or password 400 "Username and password are required", a lookup failure 500, an unknown username "Invalid credentials", a compare failure 500, a rejected password "Invalid credentials", a signing failure 500; a 200 happens only for a POST whose user exists and whose password `compare` accepts, and then carries `sign({userId}, "24h")` and the summary without the password; every 401 is the one "Invalid credentials" response; the users table is an input only |
| `LoginApi.LoginDecision` | api/login.js:33-50 | with unique usernames and no faults, an existing user gets the signed token iff the password matches and "Invalid credentials" otherwise |
| `LoginApi.UnknownUser` | api/login.js:33-36 | an unknown username in a well-formed POST whose lookup succeeds gets exactly the response a wrong password gets, whatever `compare` and `sign` would do |
| `Regex.MatchFixed` | frontend/src/components/CandidateForm.js:13 | a class repeated exactly n times consumes exactly the next n characters, all in the class |
| `Regex.MatchPlusToEnd` | frontend/src/components/CandidateForm.js:12 | `^[cls]+$` holds exactly of non-empty strings made of class characters |
| `Regex.MatchLiteral` | frontend/src/components/CandidateForm.js:14 | a literal pattern without `$` holds exactly of the strings it begins |
| `CandidateForm.NameRule` | frontend/src/components/CandidateForm.js:12-20 | a name passes iff it is non-empty and every character is an ASCII letter or an ECMAScript `\s` character |
| `CandidateForm.RollRule` | frontend/src/components/CandidateForm.js:13-23 | a roll number passes iff it has nine characters: two digits, two capitals A-Z, five digits |
| `CandidateForm.DriveRule` | frontend/src/components/CandidateForm.js:14-26 | a drive link passes iff it begins with `https://drive.google.com/`; the rest is free |
| `CandidateForm.With` | frontend/src/components/CandidateForm.js:32 | the edited field takes the new value and the other two fields are unchanged |
| `CandidateForm.NoErrorsIffValid` | frontend/src/components/CandidateForm.js:27-28 | the error map `validate` builds is empty iff all three patterns accept their fields |
| `CandidateForm.ValidFormPassesServerCheck` | frontend/src/components/CandidateForm.js:46-50 | a form that passes `validate` yields a payload that passes the server's required-field check, under the server's field names and with the values typed in |
| `CandidateForm.Component.Validate` | frontend/src/components/CandidateForm.js:16-29 | the error map has an entry for a field iff that field fails its own pattern, with that field's message; the result is true iff the map is empty iff the form is valid; the fields are not touched |
| `CandidateForm.Component.HandleChange` | frontend/src/components/CandidateForm.js:31-34 | only the named field changes and only that field's error is cleared |
| `CandidateForm.Component.HandleSubmit` | frontend/src/components/CandidateForm.js:36-56 | an invalid form sends nothing and keeps its fields; a valid one sends a POST of its renamed fields with no `Authorization` header and is reset to three empty strings once the server accepts it; the error map is rebuilt as `validate` builds it |
| `Flows.RegisteredUserCanLogIn` | api/login.js:33-50 | the row registration appends, `hash(password, 10)` under a fresh username, lets its owner log in and receive a token for its id, given that `compare` accepts a password against its own hash |
| `Flows.IssuedTokenAuthorizes` | api/candidate.js:23-28 | a token sent as `Bearer ${token}` that `verify` accepts authorises the candidates request with that claim |
| `Flows.LoginTokenAuthorizes` | api/login.js:38-50 | the token in a 200 login response, sent as `Bearer ${token}`, authorises the candidates endpoint with the claim of the user who logged in, given that `verify` accepts what `sign` issues |
| `Flows.SubmissionWithoutToken` | frontend/src/components/CandidateForm.js:53 | the form's submission as sent gets 401 "No token provided" from the candidates handler, whatever the form holds, and the table is unchanged |
| `Flows.SubmissionWithToken` | api/candidate.js:35-58 | the corrected submission of a valid form with a verified token and a fresh roll number gets 201, and the table gains exactly one row holding the typed values |

## Left out

- CORS headers and `console` logging: constant headers and output only.
- The pg connection pool, SQL text and SSL settings. Each table is a sequence of rows. Every query's failure is a fault input. `id` and `created_at` come from strictly increasing counters in the model, so `ORDER BY created_at DESC` has no ties.
- bcrypt and jsonwebtoken internals: hashing, salts, signatures, secrets and expiry clocks are not modelled. `hash`, `compare`, `sign` and `verify` are parameters, and a verification failure is only an error name.
- The race between the existence query and the insert in `api/candidate.js` and `api/register.js`: it needs concurrent requests, and the model handles one request at a time.
- JSON body fields that are not strings (numbers, booleans, objects): the body is a map from names to strings. Truthiness is modelled as "present and not empty".
- The store's unique constraints, if the database has any: a constraint violation on insert is an insert fault (500 in both handlers) rather than a distinct case.
- `frontend/src/CandidateList.js`, `frontend/src/LoginForm.js` and `frontend/src/RegisterForm.js`: rendering, `localStorage`, `alert` and axios calls are not part of this model.
- `handleSubmit`: the loading and success flags, the minimum spinner time, the timers and the choice of alert text in the catch block are UI state. The axios call's outcome is the `accepted` input. Against the candidates handler as written, the request `HandleSubmit` sends is always rejected (`Flows.SubmissionWithoutToken`), so `accepted` is then false.
- `CandidateForm.Component.HandleChange`: the source sets the cleared error to `undefined` and keeps the key. The model removes the key. No render or `validate` call can tell the two apart. Field names other than the three inputs are not modelled, because the form has only those inputs.
- `CandidateForm.Component.Validate`: each message is an `ErrorMessage` value whose `Text()` is the source's wording. The map holds that value rather than the string.
- The regular-expression matcher covers only what the three patterns use: start-anchored patterns and bracket classes with counted repeats. JavaScript compares UTF-16 code units, and the model compares characters. Because no pattern class matches a surrogate, the results are the same.

## Findings

| source | as written | input that shows it | evidently intended | confidence | as-written member | corrected member |
|---|---|---|---|---|---|---|
| frontend/src/components/CandidateForm.js:53 | the form posts its payload with no `Authorization` header, and `api/candidate.js:23-25` answers a request without a token with 401 before any field check | any form that passes `validate`, e.g. name "Ann", roll number "24CS10081", link "https://drive.google.com/x" | send the stored login token as `Authorization: Bearer ${token}`, as `frontend/src/CandidateList.js:20-21` does | not executed; high | `Flows.SubmissionWithoutToken` | `Flows.SubmissionWithToken` |
