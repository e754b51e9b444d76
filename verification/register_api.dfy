/**
 * `api/register.js`: creates a user after a verb gate, a required-field
 * check and a username-or-email uniqueness check, storing the bcrypt hash
 * of the password. Every thrown error becomes 500.
 */
module RegisterApi {
  import opened Store
  import opened Http

  /** The bcrypt work factor, `saltRounds`. */
  const SaltRounds: nat := 10

  /** `!username || !password || !email` is false. */
  predicate FieldsPresent(body: Fields) {
    Present(body, "username") && Present(body, "password") && Present(body, "email")
  }

  /** `SELECT * FROM users WHERE username = $1 OR email = $2` returns a row. */
  function UserExists(users: seq<User>, username: string, email: string): (exists_: bool)
    ensures exists_ <==> exists i :: 0 <= i < |users| && (users[i].username == username || users[i].email == email)
  {
    var existing := Where(users, (u: User) => u.username == username || u.email == email);
    if |existing| > 0 then
      assert existing[0] in existing;
      true
    else
      assert forall i :: 0 <= i < |users| ==> users[i] !in existing;
      false
  }

  /** Which of the store and hashing calls throw. */
  datatype RegisterFaults = RegisterFaults(select: bool, hash: bool, insert: bool)

  /** The users table; `nextId` stands for the store's id sequence. */
  class UserService {
    var users: seq<User>
    var nextId: nat

    /** One row per username and one per email; ids come from the counter. */
    ghost predicate Valid()
      reads this
    {
      && (forall i, j :: 0 <= i < j < |users| ==>
            users[i].username != users[j].username
            && users[i].email != users[j].email
            && users[i].id < users[j].id)
      && (forall i :: 0 <= i < |users| ==> users[i].id < nextId)
    }

    constructor ()
      ensures Valid() && users == []
    {
      users, nextId := [], 0;
    }

    /**
     * `handler(req, res)` with `hash` standing for `bcrypt.hash`; the stored
     * row holds `hash(password, SaltRounds)` and the response only the summary.
     */
    method Handle(req: Request, hash: (string, nat) -> string, faults: RegisterFaults) returns (resp: Response)
      requires Valid()
      modifies this
      ensures Valid()
      ensures req.verb == "OPTIONS" ==> resp == Preflight
      ensures req.verb !in {"OPTIONS", "POST"} ==> resp == MethodNotAllowed
      ensures req.verb == "POST" ==>
                if req.body.None? then resp == InternalError
                else if !FieldsPresent(req.body.value) then
                  resp == Error(400, "Username, password, and email are required")
                else if faults.select then resp == InternalError
                else if UserExists(old(users), req.body.value["username"], req.body.value["email"]) then
                  resp == Error(400, "User already exists")
                else if faults.hash || faults.insert then resp == InternalError
                else
                  var b := req.body.value;
                  && users == old(users) + [User(old(nextId), b["username"], hash(b["password"], SaltRounds), b["email"])]
                  && resp == Response(201, Created("User created successfully", UserSummary(old(nextId), b["username"], b["email"])))
      ensures resp.status != 201 ==> users == old(users) && nextId == old(nextId)
    {
      if req.verb == "OPTIONS" {
        return Preflight;
      }
      if req.verb != "POST" {
        return MethodNotAllowed;
      }
      if req.body.None? {
        return InternalError;
      }
      var body := req.body.value;
      if !FieldsPresent(body) {
        return Error(400, "Username, password, and email are required");
      }
      if faults.select {
        return InternalError;
      }
      if UserExists(users, body["username"], body["email"]) {
        return Error(400, "User already exists");
      }
      if faults.hash {
        return InternalError;
      }
      var hashedPassword := hash(body["password"], SaltRounds);
      if faults.insert {
        return InternalError;
      }
      var user := User(nextId, body["username"], hashedPassword, body["email"]);
      users := users + [user];
      nextId := nextId + 1;
      return Response(201, Created("User created successfully", Summary(user)));
    }
  }
}
