/**
 * `api/candidate.js`: the candidates endpoint. A bearer token is extracted
 * and verified before the verb is dispatched; GET lists the table newest
 * first, POST validates the three fields, rejects a duplicate roll number and
 * inserts one row. Every thrown error is mapped to a status by its name.
 */
module CandidateApi {
  import opened Options
  import opened Store
  import opened Http
  import opened Tokens

  // ---------------------------------------------------------------------------
  // Token extraction: `req.headers.authorization?.split(' ')[1]`
  // ---------------------------------------------------------------------------

  /** `String.prototype.split` with a one-character separator. */
  function Split(s: string, sep: char): (pieces: seq<string>)
    ensures |pieces| >= 1
    ensures forall i :: 0 <= i < |pieces| ==> sep !in pieces[i]
  {
    if s == "" then [""]
    else
      var rest := Split(s[1..], sep);
      if s[0] == sep then [""] + rest else [[s[0]] + rest[0]] + rest[1..]
  }

  /** `Array.prototype.join` with a one-character separator. */
  function Join(pieces: seq<string>, sep: char): string
    requires |pieces| >= 1
  {
    if |pieces| == 1 then pieces[0] else pieces[0] + [sep] + Join(pieces[1..], sep)
  }

  /** Splitting loses nothing: joining the pieces gives the string back. */
  lemma {:induction false} SplitJoin(s: string, sep: char)
    ensures Join(Split(s, sep), sep) == s
  {
    if s != "" {
      var rest := Split(s[1..], sep);
      SplitJoin(s[1..], sep);
      assert s == [s[0]] + s[1..];
      if s[0] != sep && |rest| > 1 {
        var pieces := Split(s, sep);
        assert pieces[1..] == rest[1..];
        assert Join(rest, sep) == rest[0] + [sep] + Join(rest[1..], sep);
      }
    }
  }

  /** A separator-free prefix followed by a separator is exactly the first piece. */
  lemma {:induction false} SplitAfter(a: string, rest: string, sep: char)
    requires sep !in a
    ensures Split(a + [sep] + rest, sep) == [a] + Split(rest, sep)
  {
    if a == "" {
      assert ([sep] + rest)[1..] == rest;
    } else {
      SplitAfter(a[1..], rest, sep);
      assert (a + [sep] + rest)[1..] == a[1..] + [sep] + rest;
      assert [a[0]] + a[1..] == a;
    }
  }

  /** A separator-free string is a single piece. */
  lemma {:induction false} SplitWhole(a: string, sep: char)
    requires sep !in a
    ensures Split(a, sep) == [a]
  {
    if a != "" {
      SplitWhole(a[1..], sep);
      assert [a[0]] + a[1..] == a;
    }
  }

  /**
   * The second space-separated piece of the Authorization header, when that
   * piece exists and is not empty (an empty token is falsy and rejected).
   */
  function BearerToken(header: Option<string>): (token: Option<string>)
    ensures token.Some? ==> header.Some? && token.value != "" && ' ' !in token.value
  {
    if header.None? then None
    else
      var pieces := Split(header.value, ' ');
      if |pieces| >= 2 && pieces[1] != "" then Some(pieces[1]) else None
  }

  /**
   * The header the client sends, `Bearer ${token}`, yields the token; the
   * first word is not inspected, and anything after a further space is ignored.
   */
  lemma BearerTokenOfHeader(scheme: string, token: string, tail: string)
    requires ' ' !in scheme && ' ' !in token && token != ""
    requires tail == "" || tail[0] == ' '
    ensures BearerToken(Some(scheme + " " + token + tail)) == Some(token)
  {
    var h := scheme + " " + token + tail;
    assert h == scheme + [' '] + (token + tail);
    SplitAfter(scheme, token + tail, ' ');
    if tail == "" {
      assert token + tail == token;
      SplitWhole(token, ' ');
    } else {
      assert token + tail == token + [' '] + tail[1..];
      SplitAfter(token, tail[1..], ' ');
    }
  }

  /**
   * Conversely, an extracted token is the text between the first space and
   * the next space (or the end of the header).
   */
  lemma BearerTokenShape(header: string, token: string)
    requires BearerToken(Some(header)) == Some(token)
    ensures var scheme := Split(header, ' ')[0];
      && ' ' !in scheme
      && |scheme| + 1 + |token| <= |header|
      && header == scheme + " " + token + header[|scheme| + 1 + |token|..]
      && (|header| == |scheme| + 1 + |token| || header[|scheme| + 1 + |token|] == ' ')
  {
    var pieces := Split(header, ' ');
    SplitJoin(header, ' ');
    assert header == pieces[0] + [' '] + Join(pieces[1..], ' ');
    if |pieces| == 2 {
      assert Join(pieces[1..], ' ') == token;
    } else {
      assert Join(pieces[1..], ' ') == token + [' '] + Join(pieces[2..], ' ');
    }
  }

  // ---------------------------------------------------------------------------
  // Access guard and error mapping
  // ---------------------------------------------------------------------------

  /** The outcome of the token check that precedes dispatch. */
  datatype Guard = NoToken | Invalid(errorName: string) | Authorized(claim: Claim)

  /**
   * Extract the bearer token and pass it to `jwt.verify`. The contract only
   * ties each outcome to extraction and to `verify`; what extraction accepts
   * is stated by `BearerTokenOfHeader` and `BearerTokenShape`.
   */
  function Authorize(header: Option<string>, verify: string -> Verification): (g: Guard)
    ensures g == NoToken <==> BearerToken(header).None?
    ensures g.Invalid? <==> BearerToken(header).Some? && verify(BearerToken(header).value).Rejected?
    ensures g.Invalid? ==> g.errorName == verify(BearerToken(header).value).errorName
    ensures g.Authorized? ==> verify(BearerToken(header).value) == Verified(g.claim)
  {
    match BearerToken(header)
    case None => NoToken
    case Some(token) =>
      match verify(token)
      case Rejected(name) => Invalid(name)
      case Verified(claim) => Authorized(claim)
  }

  /** The `catch` block: only the exact name `JsonWebTokenError` is a 401. */
  function Caught(errorName: string): (r: Response)
    ensures r.status == 401 <==> errorName == JsonWebTokenError
    ensures r.status == 401 ==> r == Error(401, "Invalid token")
    ensures r.status != 401 ==> r == InternalError
  {
    if errorName == JsonWebTokenError then Error(401, "Invalid token") else InternalError
  }

  /**
   * A token `jwt.verify` rejects as expired is not answered with 401: the
   * catch block compares the error's exact name, and the expiry error has
   * its own, so the client gets 500 "Internal server error".
   */
  lemma ExpiredTokenIsServerError(header: Option<string>, verify: string -> Verification)
    requires BearerToken(header).Some?
    requires verify(BearerToken(header).value) == Rejected(TokenExpiredError)
    ensures Authorize(header, verify).Invalid?
    ensures Caught(Authorize(header, verify).errorName) == InternalError
  {
  }

  /** Destructuring an undefined `req.body` throws a `TypeError`. */
  const TypeError := "TypeError"

  /** `!name || !roll_number || !google_drive_link` is false. */
  predicate FieldsPresent(body: Fields) {
    Present(body, "name") && Present(body, "roll_number") && Present(body, "google_drive_link")
  }

  /** A failing store query throws an error; each field names it, when it fails. */
  datatype StoreFaults = StoreFaults(select: Option<string>, insert: Option<string>)

  /** Whether a row with this roll number exists: `SELECT ... WHERE roll_number = $1`. */
  function RollTaken(rows: seq<Candidate>, rollNumber: string): (taken: bool)
    ensures taken <==> exists i :: 0 <= i < |rows| && rows[i].rollNumber == rollNumber
  {
    var existing := Where(rows, (c: Candidate) => c.rollNumber == rollNumber);
    if |existing| > 0 then
      assert existing[0] in existing;
      true
    else
      assert forall i :: 0 <= i < |rows| ==> rows[i] !in existing;
      false
  }

  // ---------------------------------------------------------------------------
  // The handler over the candidates table
  // ---------------------------------------------------------------------------

  /**
   * The candidates table. `nextId` and `clock` stand for the store's id
   * sequence and `created_at` default, both strictly increasing.
   */
  class CandidateService {
    var rows: seq<Candidate>
    var nextId: nat
    var clock: nat

    /** Roll numbers are unique, every field is filled, ids and timestamps come from the counters. */
    ghost predicate Valid()
      reads this
    {
      && (forall i, j :: 0 <= i < j < |rows| ==>
            rows[i].rollNumber != rows[j].rollNumber
            && rows[i].id < rows[j].id
            && rows[i].createdAt < rows[j].createdAt)
      && (forall i :: 0 <= i < |rows| ==>
            rows[i].id < nextId && rows[i].createdAt < clock
            && rows[i].name != "" && rows[i].rollNumber != "" && rows[i].googleDriveLink != "")
    }

    constructor ()
      ensures Valid() && rows == []
    {
      rows, nextId, clock := [], 0, 0;
    }

    /** The row an INSERT adds: the three fields, and the store-assigned id and timestamp. */
    function NewRow(body: Fields): Candidate
      reads this
      requires FieldsPresent(body)
    {
      Candidate(nextId, body["name"], body["roll_number"], body["google_drive_link"], clock)
    }

    /** `handler(req, res)`: the response, and at most one appended row. */
    method Handle(req: Request, verify: string -> Verification, faults: StoreFaults) returns (resp: Response)
      requires Valid()
      modifies this
      ensures Valid()
      // preflight: no token check, no store access
      ensures req.verb == "OPTIONS" ==> resp == Preflight
      // the token is checked before the verb is looked at
      ensures req.verb != "OPTIONS" && Authorize(req.authorization, verify) == NoToken ==>
                resp == Error(401, "No token provided")
      ensures req.verb != "OPTIONS" && Authorize(req.authorization, verify).Invalid? ==>
                resp == Caught(Authorize(req.authorization, verify).errorName)
      ensures Authorize(req.authorization, verify).Authorized? && req.verb !in {"OPTIONS", "GET", "POST"} ==>
                resp == MethodNotAllowed
      // GET: the whole table, newest first
      ensures Authorize(req.authorization, verify).Authorized? && req.verb == "GET" ==>
                resp == if faults.select.Some? then Caught(faults.select.value)
                        else Response(200, CandidateRows(NewestFirst(old(rows))))
      // POST: gates in source order
      ensures Authorize(req.authorization, verify).Authorized? && req.verb == "POST" ==>
                if req.body.None? then resp == Caught(TypeError)
                else if !FieldsPresent(req.body.value) then resp == Error(400, "All fields are required")
                else if faults.select.Some? then resp == Caught(faults.select.value)
                else if RollTaken(old(rows), req.body.value["roll_number"]) then
                  resp == Error(400, "Roll number already exists")
                else if faults.insert.Some? then resp == Caught(faults.insert.value)
                else resp == Response(201, CandidateRow(old(NewRow(req.body.value))))
      // the table changes only by the one insert a 201 reports
      ensures resp.status == 201 ==> resp.body.CandidateRow? && rows == old(rows) + [resp.body.row]
      ensures resp.status != 201 ==> rows == old(rows) && nextId == old(nextId) && clock == old(clock)
    {
      if req.verb == "OPTIONS" {
        return Preflight;
      }
      var token := BearerToken(req.authorization);
      if token.None? {
        return Error(401, "No token provided");
      }
      var decoded := verify(token.value);
      if decoded.Rejected? {
        return Caught(decoded.errorName);
      }
      if req.verb == "GET" {
        if faults.select.Some? {
          return Caught(faults.select.value);
        }
        return Response(200, CandidateRows(NewestFirst(rows)));
      } else if req.verb == "POST" {
        if req.body.None? {
          return Caught(TypeError);
        }
        var body := req.body.value;
        if !FieldsPresent(body) {
          return Error(400, "All fields are required");
        }
        if faults.select.Some? {
          return Caught(faults.select.value);
        }
        if RollTaken(rows, body["roll_number"]) {
          return Error(400, "Roll number already exists");
        }
        if faults.insert.Some? {
          return Caught(faults.insert.value);
        }
        var row := NewRow(body);
        rows := rows + [row];
        nextId := nextId + 1;
        clock := clock + 1;
        return Response(201, CandidateRow(row));
      } else {
        return MethodNotAllowed;
      }
    }
  }
}
