/** backend/users.py: registration and login over the users table.
    `hash_pw` (SHA-256 of the password, hex-encoded) is the parameter `hash`. */
module Users {
  import opened Wrappers
  import opened Db

  datatype Login = UserNotFound | InvalidPassword | LoggedIn(user: User)

  /** The message `login_user` returns beside False. */
  function LoginMessage(l: Login): string {
    match l
    case UserNotFound => "\U{274C} User not found."
    case InvalidPassword => "\U{274C} Invalid password."
    case LoggedIn(_) => ""
  }

  /** Python truthiness of an optional string. */
  predicate Truthy(s: Option<string>) {
    s.Some? && s.value != ""
  }

  /** `SELECT id FROM users WHERE username=? AND role='landlord'`, first row. */
  function FindLandlord(rows: seq<User>, name: string): (r: Option<User>)
    ensures r.None? <==> forall i :: 0 <= i < |rows| ==> !(rows[i].username == name && rows[i].role == "landlord")
    ensures r.Some? ==> r.value in rows && r.value.username == name && r.value.role == "landlord"
  {
    if rows == [] then None
    else if rows[0].username == name && rows[0].role == "landlord" then Some(rows[0])
    else FindLandlord(rows[1..], name)
  }

  /** `login_user`: unknown name, wrong password (a row without a password
      never matches), or the row. */
  function LoginUser(rows: seq<User>, username: string, password: string, hash: string -> string): (r: Login)
    ensures r == UserNotFound <==> forall i :: 0 <= i < |rows| ==> rows[i].username != username
    ensures r.LoggedIn? ==> r.user in rows && r.user.username == username && r.user.password == Some(hash(password))
    ensures r == InvalidPassword ==> exists i :: 0 <= i < |rows| && rows[i].username == username
                                                && rows[i].password != Some(hash(password))
  {
    match FindByName(rows, username)
    case None => UserNotFound
    case Some(u) =>
      if u.password != Some(hash(password)) then InvalidPassword else LoggedIn(u)
  }

  /** `get_user_id_by_name`. */
  function GetUserIdByName(rows: seq<User>, username: string): (r: Option<int>)
    ensures r.None? <==> forall i :: 0 <= i < |rows| ==> rows[i].username != username
    ensures r.Some? ==> exists i :: 0 <= i < |rows| && rows[i].username == username && rows[i].id == r.value
  {
    match FindByName(rows, username)
    case None => None
    case Some(u) => Some(u.id)
  }

  /** A row appended under a new username with the hash of `password` logs
      in with that password. */
  lemma {:induction false} LoginAfterInsert(rows: seq<User>, u: User, password: string, hash: string -> string)
    requires forall i :: 0 <= i < |rows| ==> rows[i].username != u.username
    requires u.password == Some(hash(password))
    ensures LoginUser(rows + [u], u.username, password, hash) == LoggedIn(u)
  {
    FindByNameAppend(rows, u, u.username);
  }

  /** Rows made by `ensure_user` have no password and never log in. */
  lemma EnsuredUserCannotLogIn(rows: seq<User>, nextId: int, i: nat, password: string, hash: string -> string)
    requires UsersValid(rows, nextId) && i < |rows| && rows[i].password.None?
    ensures LoginUser(rows, rows[i].username, password, hash) == InvalidPassword
  {
    FindByNameUnique(rows, nextId, i);
  }

  /** `register_user`. A tenant naming a landlord gets that landlord's id
      or, when no landlord has that name, `(False, "Landlord not found.")`;
      the INSERT stores the password's hash and may fail on the constraints. */
  method RegisterUser(db: UserTable, username: string, password: string, role: string,
                      landlordUsername: Option<string>, houseId: Option<int>, hash: string -> string)
    returns (ok: bool, msg: string)
    requires db.Valid()
    modifies db
    ensures db.Valid()
    ensures var tenantNamesLandlord := role == "tenant" && Truthy(landlordUsername);
      && (tenantNamesLandlord && FindLandlord(old(db.rows), landlordUsername.value).None? ==>
            !ok && msg == "Landlord not found." && db.rows == old(db.rows) && db.nextId == old(db.nextId))
      && (ok <==> !(tenantNamesLandlord && FindLandlord(old(db.rows), landlordUsername.value).None?)
                  && InsertCheck(old(db.rows), username, role).None?)
      && (ok ==> msg == "Registered successfully!"
                 && db.rows == old(db.rows) + [User(old(db.nextId), username, Some(hash(password)), role,
                      if tenantNamesLandlord then Some(FindLandlord(old(db.rows), landlordUsername.value).value.id) else None,
                      houseId, None)]
                 && db.nextId == old(db.nextId) + 1)
      && (!ok ==> db.rows == old(db.rows) && db.nextId == old(db.nextId))
      && (!ok && msg != "Landlord not found." ==> |msg| >= 7 && msg[..7] == "Error: ")
    ensures ok ==> LoginUser(db.rows, username, password, hash) == LoggedIn(db.rows[|db.rows| - 1])
  {
    var landlordId: Option<int> := None;
    if role == "tenant" && Truthy(landlordUsername) {
      var row := FindLandlord(db.rows, landlordUsername.value);
      if row.None? {
        return false, "Landlord not found.";
      }
      landlordId := Some(row.value.id);
    }
    var before := db.rows;
    var r := db.Insert(username, Some(hash(password)), role, landlordId, houseId, None);
    if r.Failure? {
      var detail := if r.error == UsernameTaken then "UNIQUE constraint failed: users.username"
                    else "CHECK constraint failed: role IN ('tenant','landlord')";
      return false, "Error: " + detail;
    }
    LoginAfterInsert(before, db.rows[|db.rows| - 1], password, hash);
    return true, "Registered successfully!";
  }
}
