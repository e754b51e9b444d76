/**
 * The two PostgreSQL tables the handlers use, as in-memory sequences of rows,
 * and the two query shapes they issue: a `WHERE` filter and
 * `ORDER BY created_at DESC`.
 */
module Store {

  /** A row of `candidates`; `id` and `created_at` are assigned by the store. */
  datatype Candidate = Candidate(
    id: nat,
    name: string,
    rollNumber: string,
    googleDriveLink: string,
    createdAt: nat)

  /** A row of `users`; `password` holds the bcrypt hash, never the plaintext. */
  datatype User = User(id: nat, username: string, password: string, email: string)

  /** The public view of a user: the columns `RETURNING id, username, email` yields. */
  datatype UserSummary = UserSummary(id: nat, username: string, email: string)

  function Summary(u: User): UserSummary {
    UserSummary(u.id, u.username, u.email)
  }

  /** `SELECT * FROM t WHERE cond`: the rows satisfying `cond`, in table order. */
  function Where<T(!new)>(rows: seq<T>, cond: T -> bool): (r: seq<T>)
    ensures |r| <= |rows|
    ensures forall x :: x in r <==> x in rows && cond(x)
  {
    if rows == [] then []
    else (if cond(rows[0]) then [rows[0]] else []) + Where(rows[1..], cond)
  }

  /** At most one row matches when the filtered key is unique in the table. */
  lemma {:induction false} WhereUnique<T(!new)>(rows: seq<T>, cond: T -> bool)
    requires forall i, j :: 0 <= i < j < |rows| && cond(rows[i]) ==> !cond(rows[j])
    ensures |Where(rows, cond)| <= 1
  {
    if rows != [] {
      WhereUnique(rows[1..], cond);
      if cond(rows[0]) {
        WhereNone(rows[1..], cond);
      }
    }
  }

  lemma {:induction false} WhereNone<T(!new)>(rows: seq<T>, cond: T -> bool)
    requires forall i :: 0 <= i < |rows| ==> !cond(rows[i])
    ensures Where(rows, cond) == []
  {
    if rows != [] {
      WhereNone(rows[1..], cond);
    }
  }

  /** Newest first: no row is followed by a strictly newer one. */
  ghost predicate NewestFirstOrder(rows: seq<Candidate>) {
    forall i, j :: 0 <= i < j < |rows| ==> rows[j].createdAt <= rows[i].createdAt
  }

  /** Every row of a permutation of `s` plus `c` is bounded as `s` and `c` are. */
  lemma BoundedAfterInsert(rest: seq<Candidate>, c: Candidate, s: seq<Candidate>, top: nat)
    requires multiset(rest) == multiset(s) + multiset{c}
    requires c.createdAt <= top
    requires forall i :: 0 <= i < |s| ==> s[i].createdAt <= top
    ensures forall i :: 0 <= i < |rest| ==> rest[i].createdAt <= top
  {
    forall i | 0 <= i < |rest| ensures rest[i].createdAt <= top {
      var x := rest[i];
      assert x in multiset(rest);
      if x != c {
        assert x in multiset(s);
        var k :| 0 <= k < |s| && s[k] == x;
      }
    }
  }

  /** A row no older than any row of an ordered listing may go in front of it. */
  lemma PrependNewest(c: Candidate, s: seq<Candidate>)
    requires NewestFirstOrder(s)
    requires forall i :: 0 <= i < |s| ==> s[i].createdAt <= c.createdAt
    ensures NewestFirstOrder([c] + s)
  {
    forall i, j | 0 <= i < j < |[c] + s| ensures ([c] + s)[j].createdAt <= ([c] + s)[i].createdAt {
      if i > 0 {
        assert ([c] + s)[i] == s[i - 1];
      }
      assert ([c] + s)[j] == s[j - 1];
    }
  }

  function InsertByCreated(c: Candidate, sorted: seq<Candidate>): (r: seq<Candidate>)
    requires NewestFirstOrder(sorted)
    ensures NewestFirstOrder(r)
    ensures multiset(r) == multiset(sorted) + multiset{c}
  {
    if sorted == [] || sorted[0].createdAt <= c.createdAt then
      PrependNewest(c, sorted);
      [c] + sorted
    else
      var rest := InsertByCreated(c, sorted[1..]);
      assert multiset(sorted) == multiset{sorted[0]} + multiset(sorted[1..]) by {
        assert sorted == [sorted[0]] + sorted[1..];
      }
      BoundedAfterInsert(rest, c, sorted[1..], sorted[0].createdAt);
      PrependNewest(sorted[0], rest);
      [sorted[0]] + rest
  }

  /** `SELECT * FROM candidates ORDER BY created_at DESC`: every row, newest first. */
  function NewestFirst(rows: seq<Candidate>): (r: seq<Candidate>)
    ensures NewestFirstOrder(r)
    ensures multiset(r) == multiset(rows)
  {
    if rows == [] then []
    else
      assert rows == [rows[0]] + rows[1..];
      InsertByCreated(rows[0], NewestFirst(rows[1..]))
  }

  /** The listing has exactly as many rows as the table. */
  lemma NewestFirstSize(rows: seq<Candidate>)
    ensures |NewestFirst(rows)| == |rows|
  {
    assert |multiset(NewestFirst(rows))| == |multiset(rows)|;
  }
}
