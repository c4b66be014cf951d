/** User registration (`register_user`): password policy first, then a
    unique username, then a unique e-mail address, checked only when one is
    given; an empty address is stored as no address. */
module Users {
  import opened Common
  import Password

  /** One row of the `User` table. */
  datatype User = User(id: int, username: string, hashedPassword: string, email: Option<string>, isActive: bool)

  /** The registration request body. */
  datatype UserCreate = UserCreate(username: string, password: string, email: Option<string>)

  /** The `User` table, rows in storage order. */
  type UserTable = seq<User>

  predicate UsernameTaken(db: UserTable, username: string)
  {
    exists k :: 0 <= k < |db| && db[k].username == username
  }

  predicate EmailTaken(db: UserTable, email: string)
  {
    exists k :: 0 <= k < |db| && db[k].email == Some(email)
  }

  /** The unique index on `username`. */
  predicate UniqueUsernames(db: UserTable)
  {
    forall a, b :: 0 <= a < b < |db| ==> db[a].username != db[b].username
  }

  /** The unique index on `email`, which admits any number of NULLs. */
  predicate UniqueEmails(db: UserTable)
  {
    forall a, b :: 0 <= a < b < |db| && db[a].email.Some? ==> db[a].email != db[b].email
  }

  const UsernameTakenError := HttpError(400, "Nom d'utilisateur déjà enregistré")
  const EmailTakenError := HttpError(400, "Adresse e-mail déjà enregistrée")

  /** `register_user`. `hashed` is the bcrypt digest of the password and
      `newId` the primary key the database assigns; both come from outside the
      model. Every refusal leaves the table unchanged; a registration appends
      one active user and keeps usernames and e-mail addresses unique. */
  method RegisterUser(db: UserTable, user: UserCreate, hashed: string, newId: int)
    returns (db': UserTable, r: Result<User, HttpError>)
    ensures r.Err? ==> db' == db
    ensures Password.FirstFailure(user.password).Some? ==>
              r == Err(Password.RuleError(Password.FirstFailure(user.password).value))
    ensures Password.Strong(user.password) && UsernameTaken(db, user.username) ==> r == Err(UsernameTakenError)
    ensures (Password.Strong(user.password) && !UsernameTaken(db, user.username)
             && Truthy(user.email) && EmailTaken(db, user.email.value)) ==> r == Err(EmailTakenError)
    ensures r.Ok? <==> Password.Strong(user.password) && !UsernameTaken(db, user.username)
                       && !(Truthy(user.email) && EmailTaken(db, user.email.value))
    ensures r.Ok? ==>
              && r.value == User(newId, user.username, hashed, if Truthy(user.email) then user.email else None, true)
              && db' == db + [r.value]
    ensures UniqueUsernames(db) && UniqueEmails(db) ==> UniqueUsernames(db') && UniqueEmails(db')
  {
    var failed := Password.ValidatePasswordStrength(user.password);
    if failed.Some? {
      return db, Err(Password.RuleError(failed.value));
    }
    var byUsername := First(db, (u: User) => u.username == user.username);
    if byUsername.Some? {
      return db, Err(UsernameTakenError);
    }
    if Truthy(user.email) {
      var byEmail := First(db, (u: User) => u.email == user.email);
      if byEmail.Some? {
        return db, Err(EmailTakenError);
      }
    }
    var emailToSave := if Truthy(user.email) then user.email else None;
    var created := User(newId, user.username, hashed, emailToSave, true);
    db' := db + [created];
    r := Ok(created);
    assert forall k :: 0 <= k < |db| ==> db'[k] == db[k];
  }
}
