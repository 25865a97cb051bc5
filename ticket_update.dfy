/** The durable ticket update: a SET list built from the supplied fields in
    a fixed order, run in a transaction that is rolled back when no row
    matches or the statement fails. */
module TicketUpdate {
  import opened Util
  import opened Sql
  import opened Postgres

  /** The update's input; None is a property that is not supplied
      (undefined). user_id Some(Null) is an explicit null. */
  datatype Changes = Changes(ticket_id: Id, user_id: Option<Value>, is_paid: Option<bool>,
                             seat_number: Option<Value>, created_at: Option<int>)

  datatype Outcome = Updated(row: Row) | Failed(error: string)

  const NoFields := "No fields to update"
  const NotFound := "Ticket not found"
  const UpdateFailed := "Failed to update ticket"

  /** The properties the builder tests, in its order: is_paid,
      seat_number, user_id and created_at, each whenever supplied. */
  function Candidates(c: Changes): (cs: seq<Candidate>)
    ensures |cs| == 4
  {
    [Candidate(c.is_paid.Some?, "is_paid", if c.is_paid.Some? then Bool(c.is_paid.value) else Null),
     Candidate(c.seat_number.Some?, "seat_number", if c.seat_number.Some? then c.seat_number.value else Null),
     Candidate(c.user_id.Some?, "user_id", if c.user_id.Some? then c.user_id.value else Null),
     Candidate(c.created_at.Some?, "created_at", if c.created_at.Some? then Time(c.created_at.value) else Null)]
  }

  /** The assignments the update makes, in order. */
  function Included(c: Changes): seq<(string, Value)>
  {
    Pushed(Candidates(c))
  }

  /** The value the change gives a column, if it gives one. */
  function Supplied(c: Changes, column: string): Option<Value>
  {
    if column == "is_paid" && c.is_paid.Some? then Some(Bool(c.is_paid.value))
    else if column == "seat_number" then c.seat_number
    else if column == "user_id" then c.user_id
    else if column == "created_at" && c.created_at.Some? then Some(Time(c.created_at.value))
    else None
  }

  /** Each column is assigned last exactly the value the change supplies. */
  lemma IncludedSupplies(c: Changes, column: string)
    ensures LastValue(Included(c), column) == Supplied(c, column)
  {
    var cs := Candidates(c);
    assert DistinctColumns(cs);
    if column == "is_paid" {
      PushedColumn(cs, 0);
    } else if column == "seat_number" {
      PushedColumn(cs, 1);
    } else if column == "user_id" {
      PushedColumn(cs, 2);
    } else if column == "created_at" {
      PushedColumn(cs, 3);
    } else {
      forall k | 0 <= k < 4 ensures cs[k].column != column {
        assert k == 0 || k == 1 || k == 2 || k == 3;
      }
      PushedAbsent(cs, column);
    }
  }

  /** The row a successful update leaves. */
  function Applied(row: Row, c: Changes): Row
  {
    Override(row, Included(c))
  }

  /** A supplied column takes the supplied value (a null user_id clears the
      owner); a column the change does not supply keeps what it had. */
  lemma AppliedColumns(row: Row, c: Changes, column: string)
    ensures Supplied(c, column).Some? ==>
              column in Applied(row, c) && Applied(row, c)[column] == Supplied(c, column).value
    ensures Supplied(c, column).None? ==>
              (column in Applied(row, c) <==> column in row) && (column in row ==> Applied(row, c)[column] == row[column])
  {
    IncludedSupplies(c, column);
    OverrideAt(row, Included(c), column);
  }

  /** The tables after the update: the ticket row is rewritten when the
      update commits, and nothing changes otherwise. */
  function Committed(ts: Tables, c: Changes, fault: bool): Tables
  {
    var rows := RowsOf(ts, Tickets);
    if Included(c) == [] || fault || HasNotANumber(Included(c)) || c.ticket_id !in rows then ts
    else ts[Tickets := rows[c.ticket_id := Applied(rows[c.ticket_id], c)]]
  }

  /** updateTicket. fault stands for the statement failing for a reason
      outside the model. */
  method UpdateTicket(db: Database, c: Changes, fault: bool) returns (r: Outcome)
    requires db.Valid()
    modifies db
    ensures db.Valid() && db.nextId == old(db.nextId)
    ensures Included(c) == [] ==> r == Failed(NoFields)
    ensures Included(c) != [] && (fault || HasNotANumber(Included(c))) ==> r == Failed(UpdateFailed)
    ensures Included(c) != [] && !fault && !HasNotANumber(Included(c)) ==>
              if c.ticket_id in old(db.Rows(Tickets)) then r == Updated(Applied(old(db.Rows(Tickets))[c.ticket_id], c))
              else r == Failed(NotFound)
    ensures db.tables == Committed(old(db.tables), c, fault)
  {
    var fields, values := BuildSet(Candidates(c));
    if |fields| == 0 {
      return Failed(NoFields);
    }
    var key := Text(c.ticket_id);
    var before := db.Rows(Tickets);
    UpdatedById(before, fields, values, c.ticket_id);
    BindsPushedNotANumber(fields, values, key);
    var saved := db.tables;
    var result := db.Update(Tickets, fields, "_id", |fields| + 1, values + [key], fault);
    if result.None? {
      db.Rollback(saved);
      return Failed(UpdateFailed);
    }
    if |result.value| == 0 {
      db.Rollback(saved);
      return Failed(NotFound);
    }
    var row := result.value[c.ticket_id];
    assert result.value == map[c.ticket_id := row];
    MergeOne(before, c.ticket_id, row);
    r := Updated(row);
  }

  /** No fields are assigned exactly when nothing is supplied. */
  lemma IncludedEmpty(c: Changes)
    ensures Included(c) == [] <==> c.is_paid.None? && c.seat_number.None? && c.user_id.None? && c.created_at.None?
  {
    var cs := Candidates(c);
    PushedEmpty(cs);
    if !cs[0].applies && !cs[1].applies && !cs[2].applies && !cs[3].applies {
      forall k | 0 <= k < 4 ensures !cs[k].applies {
        assert k == 0 || k == 1 || k == 2 || k == 3;
      }
    }
  }
}
