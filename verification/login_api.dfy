/**
 * `api/login.js`: a read-only lookup of the user by name, a bcrypt
 * comparison, and a signed token whose only claim is the user id. The
 * handler never writes, so it is a function of the users table.
 */
module LoginApi {
  import opened Store
  import opened Http
  import opened Tokens

  /** `!username || !password` is false. */
  predicate FieldsPresent(body: Fields) {
    Present(body, "username") && Present(body, "password")
  }

  /** `SELECT * FROM users WHERE username = $1` */
  function Lookup(users: seq<User>, username: string): (found: seq<User>)
    ensures forall u :: u in found <==> u in users && u.username == username
  {
    Where(users, (u: User) => u.username == username)
  }

  /** Which of the store, comparison and signing calls throw. */
  datatype LoginFaults = LoginFaults(select: bool, compare: bool, sign: bool)

  /** The single answer for an unknown user and for a wrong password alike. */
  const InvalidCredentials := Error(401, "Invalid credentials")

  /**
   * `handler(req, res)` with `compare` standing for `bcrypt.compare` and
   * `sign` for `jwt.sign(claim, secret, { expiresIn })`.
   */
  function Handle(req: Request, users: seq<User>, compare: (string, string) -> bool,
                  sign: (Claim, string) -> string, faults: LoginFaults): (resp: Response)
    ensures req.verb == "OPTIONS" ==> resp == Preflight
    ensures req.verb !in {"OPTIONS", "POST"} ==> resp == MethodNotAllowed
    ensures resp.status == 200 && req.verb != "OPTIONS" ==>
              && req.verb == "POST" && req.body.Some? && FieldsPresent(req.body.value)
              && exists u :: u in users && u.username == req.body.value["username"]
                   && compare(req.body.value["password"], u.password)
                   && resp == Response(200, SignedIn(sign(Claim(u.id), Lifetime), Summary(u)))
    ensures resp.status in {200, 400, 401, 405, 500}
    ensures resp.status == 401 ==> resp == InvalidCredentials
    // POST: gates in source order; an undefined body throws on destructuring
    ensures req.verb == "POST" && req.body.None? ==> resp == InternalError
    ensures req.verb == "POST" && req.body.Some? ==>
              var body := req.body.value;
              if !FieldsPresent(body) then resp == Error(400, "Username and password are required")
              else if faults.select then resp == InternalError
              else if forall u :: u in users ==> u.username != body["username"] then resp == InvalidCredentials
              else if faults.compare then resp == InternalError
              else if forall u :: u in users && u.username == body["username"] ==> !compare(body["password"], u.password) then
                resp == InvalidCredentials
              else if forall u :: u in users && u.username == body["username"] ==> compare(body["password"], u.password) then
                if faults.sign then resp == InternalError else resp.status == 200
              else
                // only with two rows of one username: `rows[0]` decides
                resp == InvalidCredentials || (if faults.sign then resp == InternalError else resp.status == 200)
  {
    if req.verb == "OPTIONS" then Preflight
    else if req.verb != "POST" then MethodNotAllowed
    else if req.body.None? then InternalError
    else
      var body := req.body.value;
      if !FieldsPresent(body) then Error(400, "Username and password are required")
      else if faults.select then InternalError
      else
        var found := Lookup(users, body["username"]);
        if |found| == 0 then InvalidCredentials
        else
          var user := found[0];
          assert user in found;
          if faults.compare then InternalError
          else if !compare(body["password"], user.password) then InvalidCredentials
          else if faults.sign then InternalError
          else Response(200, SignedIn(sign(Claim(user.id), Lifetime), Summary(user)))
  }

  /** A well-formed POST that meets no store, comparison or signing failure. */
  ghost predicate Clean(req: Request, faults: LoginFaults) {
    req.verb == "POST" && req.body.Some? && FieldsPresent(req.body.value)
    && !faults.select && !faults.compare && !faults.sign
  }

  /**
   * With one row per username, login succeeds exactly when that user exists
   * and the password matches, and the token's claim is that user's id; in
   * every other case the same 401 is sent, whichever check failed.
   */
  lemma {:induction false} LoginDecision(req: Request, users: seq<User>, compare: (string, string) -> bool,
                                         sign: (Claim, string) -> string, faults: LoginFaults, i: nat)
    requires Clean(req, faults)
    requires forall j, k :: 0 <= j < k < |users| ==> users[j].username != users[k].username
    requires i < |users| && users[i].username == req.body.value["username"]
    ensures compare(req.body.value["password"], users[i].password) ==>
              Handle(req, users, compare, sign, faults)
                == Response(200, SignedIn(sign(Claim(users[i].id), Lifetime), Summary(users[i])))
    ensures !compare(req.body.value["password"], users[i].password) ==>
              Handle(req, users, compare, sign, faults) == InvalidCredentials
  {
    var name := req.body.value["username"];
    var found := Lookup(users, name);
    WhereUnique(users, (u: User) => u.username == name);
    assert users[i] in found;
    assert found == [found[0]];
  }

  /**
   * An unknown username gets the very response a wrong password gets, and
   * neither `compare` nor `sign` is reached, so their failures do not matter.
   */
  lemma UnknownUser(req: Request, users: seq<User>, compare: (string, string) -> bool,
                    sign: (Claim, string) -> string, faults: LoginFaults)
    requires req.verb == "POST" && req.body.Some? && FieldsPresent(req.body.value) && !faults.select
    requires forall j :: 0 <= j < |users| ==> users[j].username != req.body.value["username"]
    ensures Handle(req, users, compare, sign, faults) == InvalidCredentials
  {
    var name := req.body.value["username"];
    WhereNone(users, (u: User) => u.username == name);
  }
}
