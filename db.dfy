/** backend/db.py: the users table with its constraints (unique username,
    role 'tenant' or 'landlord', AUTOINCREMENT ids), the `status` default of
    the tickets table, and `ensure_user`. SQLite is replaced by an in-memory
    sequence of rows and an id counter. */
module Db {
  import opened Wrappers

  /** `datetime.utcnow().isoformat()`; these strings order like the times. */
  type Timestamp = nat

  const Roles: set<string> := {"tenant", "landlord"}

  /** `status TEXT DEFAULT 'open'` of the tickets table. */
  const DefaultTicketStatus: string := "open"

  /** A users row, with the columns the code reads and writes. */
  datatype User = User(
    id: int,
    username: string,
    password: Option<string>,     // a password hash; NULL for rows made by `ensure_user`
    role: string,
    landlordId: Option<int>,
    tenantHouseId: Option<int>,
    createdAt: Option<Timestamp>)

  /** The constraint an INSERT violates. */
  datatype IntegrityError = RoleCheckFailed | UsernameTaken

  /** The DDL as an invariant: ids grow with insertion order and stay below
      the counter, usernames are unique, roles are checked. */
  ghost predicate UsersValid(rows: seq<User>, nextId: int) {
    && nextId >= 1
    && (forall i :: 0 <= i < |rows| ==> 1 <= rows[i].id < nextId && rows[i].role in Roles)
    && (forall i, j :: 0 <= i < j < |rows| ==> rows[i].id < rows[j].id && rows[i].username != rows[j].username)
  }

  /** `SELECT ... FROM users WHERE username=?` followed by `fetchone()`. */
  function FindByName(rows: seq<User>, name: string): (r: Option<User>)
    ensures r.None? <==> forall i :: 0 <= i < |rows| ==> rows[i].username != name
    ensures r.Some? ==> r.value in rows && r.value.username == name
  {
    if rows == [] then None
    else if rows[0].username == name then Some(rows[0])
    else FindByName(rows[1..], name)
  }

  /** With unique usernames the row found is the only one with that name. */
  lemma {:induction false} FindByNameUnique(rows: seq<User>, nextId: int, i: nat)
    requires UsersValid(rows, nextId) && i < |rows|
    ensures FindByName(rows, rows[i].username) == Some(rows[i])
  {
    if i > 0 {
      assert rows[0].username != rows[i].username;
      assert UsersValid(rows[1..], nextId);
      FindByNameUnique(rows[1..], nextId, i - 1);
    }
  }

  /** The constraint check SQLite applies to an INSERT into users. */
  function InsertCheck(rows: seq<User>, username: string, role: string): Option<IntegrityError> {
    if role !in Roles then Some(RoleCheckFailed)
    else if FindByName(rows, username).Some? then Some(UsernameTaken)
    else None
  }

  /** `ensure_user` on the table `rows` with counter `nextId`: the new rows,
      the new counter and the returned id (a failing INSERT raises). */
  function EnsureUserSpec(rows: seq<User>, nextId: int, username: string, role: string, now: Timestamp)
    : (seq<User>, int, Result<int, IntegrityError>)
  {
    match FindByName(rows, username)
    case Some(u) => (rows, nextId, Success(u.id))
    case None =>
      if role !in Roles then (rows, nextId, Failure(RoleCheckFailed))
      else (rows + [User(nextId, username, None, role, None, None, Some(now))], nextId + 1, Success(nextId))
  }

  class UserTable {
    var rows: seq<User>
    var nextId: int

    ghost predicate Valid()
      reads this
    {
      UsersValid(rows, nextId)
    }

    constructor ()
      ensures rows == [] && nextId == 1 && Valid()
    {
      rows := [];
      nextId := 1;
    }

    /** An INSERT of one users row: refused by the constraints, or appended
        with the next AUTOINCREMENT id. */
    method Insert(username: string, password: Option<string>, role: string,
                  landlordId: Option<int>, tenantHouseId: Option<int>, createdAt: Option<Timestamp>)
      returns (r: Result<int, IntegrityError>)
      requires Valid()
      modifies this
      ensures Valid()
      ensures InsertCheck(old(rows), username, role).Some? ==>
        r == Failure(InsertCheck(old(rows), username, role).value) && rows == old(rows) && nextId == old(nextId)
      ensures InsertCheck(old(rows), username, role).None? ==>
        && r == Success(old(nextId))
        && rows == old(rows) + [User(old(nextId), username, password, role, landlordId, tenantHouseId, createdAt)]
        && nextId == old(nextId) + 1
    {
      var check := InsertCheck(rows, username, role);
      if check.Some? {
        return Failure(check.value);
      }
      rows := rows + [User(nextId, username, password, role, landlordId, tenantHouseId, createdAt)];
      r := Success(nextId);
      nextId := nextId + 1;
    }

    /** `ensure_user`: the id of the row with that username, or the id of a
        row inserted with (username, role, now). */
    method EnsureUser(username: string, role: string, now: Timestamp) returns (r: Result<int, IntegrityError>)
      requires Valid()
      modifies this
      ensures Valid()
      ensures (rows, nextId, r) == EnsureUserSpec(old(rows), old(nextId), username, role, now)
    {
      var found := FindByName(rows, username);
      if found.Some? {
        return Success(found.value.id);
      }
      r := Insert(username, None, role, None, None, Some(now));
    }
  }

  lemma FindByNameAppend(rows: seq<User>, u: User, name: string)
    ensures FindByName(rows + [u], name) ==
      if FindByName(rows, name).Some? then FindByName(rows, name)
      else if u.username == name then Some(u) else None
  {
    if rows != [] {
      assert (rows + [u])[1..] == rows[1..] + [u];
      FindByNameAppend(rows[1..], u, name);
    }
  }

  /** `ensure_user` is get-or-create: a second call with the same username,
      whatever role it passes, returns the same id and adds no row; the first
      adds at most one row and changes no existing row or role. */
  lemma EnsureUserIdempotent(rows: seq<User>, nextId: int, username: string, role: string, role2: string,
                             now: Timestamp, now2: Timestamp)
    ensures var (rows1, next1, id1) := EnsureUserSpec(rows, nextId, username, role, now);
      && |rows| <= |rows1| <= |rows| + 1
      && rows1[..|rows|] == rows
      && (id1.Success? ==> EnsureUserSpec(rows1, next1, username, role2, now2) == (rows1, next1, id1))
  {
    var (rows1, next1, id1) := EnsureUserSpec(rows, nextId, username, role, now);
    if FindByName(rows, username).None? && role in Roles {
      FindByNameAppend(rows, User(nextId, username, None, role, None, None, Some(now)), username);
    }
  }

  /** An existing username is returned as it is: its row, and so its role,
      stay untouched. */
  lemma EnsureUserKeepsExisting(rows: seq<User>, nextId: int, i: nat, role: string, now: Timestamp)
    requires UsersValid(rows, nextId) && i < |rows|
    ensures EnsureUserSpec(rows, nextId, rows[i].username, role, now) == (rows, nextId, Success(rows[i].id))
  {
    FindByNameUnique(rows, nextId, i);
  }
}
