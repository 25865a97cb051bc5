/** createUser: a SELECT that refuses an email already in use, then an
    INSERT of the five supplied properties whose answer leaves the password
    out. */
module UserPost {
  import opened Util
  import opened Sql
  import opened Postgres

  datatype NewUser = NewUser(email: string, username: string, password: string, role: string, phone_number: string)

  /** The properties the insert returns: every stored one but the
      password. */
  datatype PublicUser = PublicUser(id: Value, email: Value, username: Value, role: Value, phone_number: Value, created_at: Value)

  datatype UserCreated = Created(user: PublicUser) | CreateError(error: string)

  const EmailExists := "Email already exists"

  /** Whether some stored user has the email: "WHERE email = $1" selects a
      row. */
  predicate EmailTaken(rows: Rows, email: string)
  {
    exists id :: id in rows && Matches(id, rows[id], "email", Text(email))
  }

  /** No two stored users share an email. */
  ghost predicate UniqueEmails(rows: Rows)
  {
    forall a, b :: a in rows && b in rows && "email" in rows[a] && "email" in rows[b] && rows[a]["email"] == rows[b]["email"] ==> a == b
  }

  /** The row the INSERT stores; created_at is the column's default, the
      time of the insert. */
  function UserRow(u: NewUser, now: int): Row
  {
    map["email" := Text(u.email), "username" := Text(u.username), "password" := Text(u.password),
        "role" := Text(u.role), "phone_number" := Text(u.phone_number), "created_at" := Time(now)]
  }

  /** "RETURNING _id, email, username, role, phone_number, created_at". */
  function Public(row: Row): PublicUser
  {
    PublicUser(Cell(row, "_id"), Cell(row, "email"), Cell(row, "username"), Cell(row, "role"),
               Cell(row, "phone_number"), Cell(row, "created_at"))
  }

  /** The answer carries the stored id and the supplied properties, and
      two users that differ only in their password get the same answer:
      nothing of the password leaves the function. */
  lemma PublicHidesPassword(u: NewUser, password: string, now: int, id: Id)
    ensures var user := Public(UserRow(u, now)["_id" := Text(id)]);
            user == PublicUser(Text(id), Text(u.email), Text(u.username), Text(u.role), Text(u.phone_number), Time(now))
    ensures Public(UserRow(u, now)["_id" := Text(id)]) == Public(UserRow(u.(password := password), now)["_id" := Text(id)])
  {
  }

  /** Adding a user whose email is not taken keeps emails unique. */
  lemma InsertKeepsEmailsUnique(rows: Rows, id: Id, row: Row, email: string)
    requires UniqueEmails(rows) && !EmailTaken(rows, email)
    requires "email" in row && row["email"] == Text(email)
    ensures UniqueEmails(rows[id := row])
  {
    var rows' := rows[id := row];
    forall a, b | a in rows' && b in rows' && "email" in rows'[a] && "email" in rows'[b] && rows'[a]["email"] == rows'[b]["email"]
      ensures a == b
    {
      if a == id && b != id {
        assert Matches(b, rows[b], "email", Text(email));
      } else if a != id && b == id {
        assert Matches(a, rows[a], "email", Text(email));
      }
    }
  }

  /** createUser. checkError and insertError are the messages of the
      SELECT and the INSERT when they throw. */
  method CreateUser(db: Database, u: NewUser, now: int, checkError: Option<string>, insertError: Option<string>)
    returns (r: UserCreated)
    requires db.Valid()
    modifies db
    ensures db.Valid()
    ensures r.CreateError? ==> db.tables == old(db.tables)
    ensures checkError.Some? ==> r == CreateError(checkError.value)
    ensures checkError.None? && EmailTaken(old(db.Rows(Users)), u.email) ==> r == CreateError(EmailExists)
    ensures checkError.None? && !EmailTaken(old(db.Rows(Users)), u.email) && insertError.Some? ==>
              r == CreateError(insertError.value)
    ensures r.Created? <==> checkError.None? && !EmailTaken(old(db.Rows(Users)), u.email) && insertError.None?
    ensures r.Created? ==>
              var id := SerialId(old(db.nextId));
              && r.user == Public(UserRow(u, now)["_id" := Text(id)])
              && db.tables == old(db.tables)[Users := old(db.Rows(Users))[id := UserRow(u, now)["_id" := Text(id)]]]
    ensures r.Created? && UniqueEmails(old(db.Rows(Users))) ==> UniqueEmails(db.Rows(Users))
  {
    if checkError.Some? {
      return CreateError(checkError.value);
    }
    var users := db.Rows(Users);
    if EmailTaken(users, u.email) {
      return CreateError(EmailExists);
    }
    if insertError.Some? {
      return CreateError(insertError.value);
    }
    var id, stored := db.Insert(Users, UserRow(u, now));
    if UniqueEmails(users) {
      InsertKeepsEmailsUnique(users, id, stored, u.email);
    }
    r := Created(Public(stored));
  }
}
