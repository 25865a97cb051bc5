/** updateUser: a SET list of the supplied profile properties, run as one
    UPDATE of every user with the given email, answering the profile of the
    first updated row. */
module UserPut {
  import opened Util
  import opened Sql
  import opened Postgres
  import opened UserPost

  /** The update's input; None is a property left undefined. */
  datatype ProfileChanges = ProfileChanges(username: Option<string>, phone_number: Option<string>)

  /** "RETURNING email, username, phone_number, role". */
  datatype Profile = Profile(email: Value, username: Value, phone_number: Value, role: Value)

  /** The answer: the profile, an error message, or the object wrapping the
      exception the query threw. */
  datatype ProfileOutcome = UpdatedProfile(profile: Profile) | ProfileError(error: string) | Threw

  const NoUpdates := "No updates provided"
  const UserNotFound := "user not found or no changes made"

  /** The properties the builder tests, in its order, each when truthy. */
  function Candidates(u: ProfileChanges): (cs: seq<Candidate>)
    ensures |cs| == 2
  {
    [Candidate(u.username.Some? && u.username.value != "", "username", if u.username.Some? then Text(u.username.value) else Null),
     Candidate(u.phone_number.Some? && u.phone_number.value != "", "phone_number",
               if u.phone_number.Some? then Text(u.phone_number.value) else Null)]
  }

  /** The assignments the update makes, in order. */
  function Included(u: ProfileChanges): seq<(string, Value)>
  {
    Pushed(Candidates(u))
  }

  /** The value the change gives a column, if it gives one. */
  function Supplied(u: ProfileChanges, column: string): Option<Value>
  {
    if column == "username" && u.username.Some? && u.username.value != "" then Some(Text(u.username.value))
    else if column == "phone_number" && u.phone_number.Some? && u.phone_number.value != "" then Some(Text(u.phone_number.value))
    else None
  }

  /** Each column is assigned last exactly the value the change supplies;
      in particular the email, role and password are never assigned. */
  lemma IncludedSupplies(u: ProfileChanges, column: string)
    ensures LastValue(Included(u), column) == Supplied(u, column)
  {
    var cs := Candidates(u);
    assert DistinctColumns(cs);
    if column == "username" {
      PushedColumn(cs, 0);
    } else if column == "phone_number" {
      PushedColumn(cs, 1);
    } else {
      forall k | 0 <= k < 2 ensures cs[k].column != column {
        assert k == 0 || k == 1;
      }
      PushedAbsent(cs, column);
    }
  }

  /** There is nothing to update exactly when neither property is a
      non-empty string; the values are never a non-number. */
  lemma IncludedEmpty(u: ProfileChanges)
    ensures Included(u) == [] <==>
              (u.username.None? || u.username.value == "") && (u.phone_number.None? || u.phone_number.value == "")
    ensures !HasNotANumber(Included(u))
  {
    var cs := Candidates(u);
    PushedEmpty(cs);
    if !cs[0].applies && !cs[1].applies {
      forall k | 0 <= k < 2 ensures !cs[k].applies {
        assert k == 0 || k == 1;
      }
    }
    PushedNoNotANumber(cs);
  }

  /** The rows the update writes: every user with the email, with the
      supplied properties applied. */
  function Edited(rows: Rows, mail: string, u: ProfileChanges): (r: Rows)
    ensures r.Keys <= rows.Keys
    ensures forall id :: id in rows ==> (id in r <==> Matches(id, rows[id], "email", Text(mail)))
  {
    map id | id in rows && Matches(id, rows[id], "email", Text(mail)) :: Override(rows[id], Included(u))
  }

  /** A user the update writes takes the supplied properties and keeps
      every other column, its email among them. */
  lemma EditedColumns(rows: Rows, mail: string, u: ProfileChanges, id: Id, column: string)
    requires id in Edited(rows, mail, u)
    ensures Supplied(u, column).Some? ==>
              column in Edited(rows, mail, u)[id] && Edited(rows, mail, u)[id][column] == Supplied(u, column).value
    ensures Supplied(u, column).None? ==>
              (column in Edited(rows, mail, u)[id] <==> column in rows[id])
              && (column in rows[id] ==> Edited(rows, mail, u)[id][column] == rows[id][column])
  {
    IncludedSupplies(u, column);
    OverrideAt(rows[id], Included(u), column);
  }

  /** The update leaves every email where it was, so unique emails stay
      unique. */
  lemma EditKeepsEmailsUnique(rows: Rows, mail: string, u: ProfileChanges)
    requires UniqueEmails(rows)
    ensures UniqueEmails(rows + Edited(rows, mail, u))
  {
    var rows' := rows + Edited(rows, mail, u);
    forall id | id in rows'
      ensures ("email" in rows'[id] <==> "email" in rows[id]) && ("email" in rows[id] ==> rows'[id]["email"] == rows[id]["email"])
    {
      if id in Edited(rows, mail, u) {
        EditedColumns(rows, mail, u, id, "email");
      }
    }
  }

  /** With unique emails the update writes at most one user, so the
      profile it answers is that of the one user with the email. */
  lemma UniqueEmailEditsOne(rows: Rows, mail: string, u: ProfileChanges, a: Id, b: Id)
    requires UniqueEmails(rows)
    requires a in Edited(rows, mail, u) && b in Edited(rows, mail, u)
    ensures a == b
  {
  }

  function ProfileOf(row: Row): Profile
  {
    Profile(Cell(row, "email"), Cell(row, "username"), Cell(row, "phone_number"), Cell(row, "role"))
  }

  /** The SET list built for a change, with the email bound after it,
      meets the query's needs, binds no non-number, and updates exactly
      the users Edited describes. */
  lemma BoundProfileUpdate(users: Rows, mail: string, u: ProfileChanges, fields: seq<Assign>, values: seq<Value>)
    requires |values| == |fields| && Consecutive(fields) && Zip(fields, values) == Included(u)
    ensures forall i :: 0 <= i < |fields| ==> 1 <= fields[i].param <= |values + [Text(mail)]|
    ensures !BindsNotANumber(fields, values + [Text(mail)])
    ensures Updated(users, fields, "email", Text(mail), values + [Text(mail)]) == Edited(users, mail, u)
  {
    IncludedEmpty(u);
    UpdatedWithPushed(users, fields, values, "email", Text(mail));
    BindsPushedNotANumber(fields, values, Text(mail));
  }

  /** updateUser. fault makes the UPDATE statement throw. */
  method UpdateUser(db: Database, mail: string, u: ProfileChanges, fault: bool) returns (r: ProfileOutcome)
    requires db.Valid()
    modifies db
    ensures db.Valid() && db.nextId == old(db.nextId)
    ensures Included(u) == [] ==> r == ProfileError(NoUpdates) && db.tables == old(db.tables)
    ensures Included(u) != [] && fault ==> r == Threw && db.tables == old(db.tables)
    ensures Included(u) != [] && !fault ==>
              && db.tables == old(db.tables)[Users := old(db.Rows(Users)) + Edited(old(db.Rows(Users)), mail, u)]
              && (Edited(old(db.Rows(Users)), mail, u) == map[] ==> r == ProfileError(UserNotFound))
              && (Edited(old(db.Rows(Users)), mail, u) != map[] ==> r.UpdatedProfile?)
              && (r.UpdatedProfile? ==>
                    exists id :: id in Edited(old(db.Rows(Users)), mail, u) && r.profile == ProfileOf(Edited(old(db.Rows(Users)), mail, u)[id]))
  {
    var cs := Candidates(u);
    var fields, values := BuildSet(cs);
    if |fields| == 0 {
      return ProfileError(NoUpdates);
    }
    IncludedEmpty(u);
    var users := db.Rows(Users);
    BoundProfileUpdate(users, mail, u, fields, values);
    var result := db.Update(Users, fields, "email", |fields| + 1, values + [Text(mail)], fault);
    if result.None? {
      return Threw;
    }
    if result.value == map[] {
      assert users + map[] == users;
      return ProfileError(UserNotFound);
    }
    var id :| id in result.value;
    r := UpdatedProfile(ProfileOf(result.value[id]));
  }
}
