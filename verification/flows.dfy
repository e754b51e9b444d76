/**
 * Properties that span more than one handler: a registered user can log
 * in, the token the login handler issues opens the candidates endpoint, and
 * what the candidates handler makes of the form's submission.
 */
module Flows {
  import opened Options
  import opened Store
  import opened Http
  import opened Tokens
  import CandidateApi
  import RegisterApi
  import LoginApi
  import CandidateForm

  /** The login request the login form sends. */
  function LoginRequest(username: string, password: string): Request {
    Request("POST", None, Some(map["username" := username, "password" := password]))
  }

  /**
   * The row the register handler appends lets its owner log in, provided
   * `compare` accepts a password against its own hash (bcrypt's promise).
   */
  lemma RegisteredUserCanLogIn(users: seq<User>, id: nat, username: string, password: string, email: string,
                               hash: (string, nat) -> string, compare: (string, string) -> bool,
                               sign: (Claim, string) -> string)
    requires username != "" && password != ""
    requires forall j, k :: 0 <= j < k < |users| ==> users[j].username != users[k].username
    requires forall i :: 0 <= i < |users| ==> users[i].username != username
    requires compare(password, hash(password, RegisterApi.SaltRounds))
    ensures var user := User(id, username, hash(password, RegisterApi.SaltRounds), email);
      LoginApi.Handle(LoginRequest(username, password), users + [user], compare, sign, LoginApi.LoginFaults(false, false, false))
        == Response(200, SignedIn(sign(Claim(id), Lifetime), UserSummary(id, username, email)))
  {
    var user := User(id, username, hash(password, RegisterApi.SaltRounds), email);
    var table := users + [user];
    var req := LoginRequest(username, password);
    assert req.body.value["username"] == username && req.body.value["password"] == password;
    assert forall j, k :: 0 <= j < k < |table| ==> table[j].username != table[k].username by {
      forall j, k | 0 <= j < k < |table| ensures table[j].username != table[k].username {
        assert table[j] == users[j];
        if k < |users| { assert table[k] == users[k]; } else { assert table[k] == user; }
      }
    }
    assert table[|users|] == user;
    LoginApi.LoginDecision(req, table, compare, sign, LoginApi.LoginFaults(false, false, false), |users|);
  }

  /**
   * The client sends the issued token as `Bearer ${token}`; if `jwt.verify`
   * accepts it, the candidates endpoint is authorised with that claim.
   */
  lemma IssuedTokenAuthorizes(token: string, claim: Claim, verify: string -> Verification)
    requires token != "" && ' ' !in token
    requires verify(token) == Verified(claim)
    ensures CandidateApi.Authorize(Some("Bearer " + token), verify) == CandidateApi.Authorized(claim)
  {
    CandidateApi.BearerTokenOfHeader("Bearer", token, "");
    assert "Bearer " + token == "Bearer" + " " + token + "";
  }

  /**
   * A token from a successful login opens the candidates endpoint for the
   * user who logged in, given that `verify` accepts what `sign` produced
   * within its lifetime and that a signed token, being three base64url
   * segments, holds no space.
   */
  lemma LoginTokenAuthorizes(req: Request, users: seq<User>, compare: (string, string) -> bool,
                             sign: (Claim, string) -> string, faults: LoginApi.LoginFaults,
                             verify: string -> Verification)
    requires forall c :: verify(sign(c, Lifetime)) == Verified(c)
    requires forall c :: sign(c, Lifetime) != "" && ' ' !in sign(c, Lifetime)
    requires req.verb != "OPTIONS"
    requires LoginApi.Handle(req, users, compare, sign, faults).status == 200
    ensures var resp := LoginApi.Handle(req, users, compare, sign, faults);
      && resp.body.SignedIn? && req.body.Some? && "username" in req.body.value
      && exists u :: u in users && u.username == req.body.value["username"] && resp.body.user == Summary(u)
           && CandidateApi.Authorize(Some("Bearer " + resp.body.token), verify) == CandidateApi.Authorized(Claim(u.id))
  {
    var resp := LoginApi.Handle(req, users, compare, sign, faults);
    var u :| u in users && u.username == req.body.value["username"]
             && compare(req.body.value["password"], u.password)
             && resp == Response(200, SignedIn(sign(Claim(u.id), Lifetime), Summary(u)));
    IssuedTokenAuthorizes(sign(Claim(u.id), Lifetime), Claim(u.id), verify);
  }

  /**
   * The form's submission, as sent, never reaches the field check: it has
   * no `Authorization` header, so the candidates handler answers 401 "No
   * token provided" whatever the form holds, and the table is unchanged.
   */
  method SubmissionWithoutToken(svc: CandidateApi.CandidateService, form: CandidateForm.FormData,
                                verify: string -> Verification, faults: CandidateApi.StoreFaults)
    returns (resp: Response)
    requires svc.Valid()
    modifies svc
    ensures svc.Valid()
    ensures resp == Error(401, "No token provided")
    ensures svc.rows == old(svc.rows)
  {
    resp := svc.Handle(CandidateForm.SubmitRequest(form), verify, faults);
  }

  /**
   * The same submission carrying the login token as `Bearer ${token}`: a
   * valid form with a fresh roll number is stored, with the values typed in.
   */
  method SubmissionWithToken(svc: CandidateApi.CandidateService, form: CandidateForm.FormData,
                             token: string, claim: Claim, verify: string -> Verification)
    returns (resp: Response)
    requires svc.Valid()
    requires CandidateForm.FormValid(form)
    requires token != "" && ' ' !in token && verify(token) == Verified(claim)
    requires !CandidateApi.RollTaken(svc.rows, form.rollNumber)
    modifies svc
    ensures svc.Valid()
    ensures resp.status == 201 && resp.body.CandidateRow?
    ensures svc.rows == old(svc.rows) + [resp.body.row]
    ensures resp.body.row.name == form.name && resp.body.row.rollNumber == form.rollNumber
    ensures resp.body.row.googleDriveLink == form.googleDriveLink
  {
    IssuedTokenAuthorizes(token, claim, verify);
    CandidateForm.ValidFormPassesServerCheck(form);
    resp := svc.Handle(CandidateForm.AuthorizedSubmitRequest(form, token), verify, CandidateApi.StoreFaults(None, None));
  }
}
