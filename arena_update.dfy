/** updateArena: a SET list of the supplied properties, run as one UPDATE
    of the arena with the given id. The title and address are written only
    when non-empty, the capacity whenever supplied. */
module ArenaUpdate {
  import opened Util
  import opened Sql
  import opened Postgres

  /** The update's input; None is a property left undefined. */
  datatype ArenaChanges = ArenaChanges(arena_id: Id, title: Option<string>, address: Option<string>, capacity: Option<int>)

  datatype ArenaOutcome = UpdatedArena(row: Row) | ArenaError(error: string)

  const NoFields := "No fields to update"
  const ArenaNotFound := "Arena not found"
  const ArenaUpdateFailed := "Failed to update arena"

  /** The properties the builder tests, in its order. */
  function Candidates(c: ArenaChanges): (cs: seq<Candidate>)
    ensures |cs| == 3
  {
    [Candidate(c.title.Some? && c.title.value != "", "title", if c.title.Some? then Text(c.title.value) else Null),
     Candidate(c.address.Some? && c.address.value != "", "address", if c.address.Some? then Text(c.address.value) else Null),
     Candidate(c.capacity.Some?, "capacity", if c.capacity.Some? then Num(c.capacity.value) else Null)]
  }

  /** The assignments the update makes, in order. */
  function Included(c: ArenaChanges): seq<(string, Value)>
  {
    Pushed(Candidates(c))
  }

  /** The value the change gives a column, if it gives one. */
  function Supplied(c: ArenaChanges, column: string): Option<Value>
  {
    if column == "title" && c.title.Some? && c.title.value != "" then Some(Text(c.title.value))
    else if column == "address" && c.address.Some? && c.address.value != "" then Some(Text(c.address.value))
    else if column == "capacity" && c.capacity.Some? then Some(Num(c.capacity.value))
    else None
  }

  /** Each column is assigned last exactly the value the change supplies:
      an empty title or address is never written, a capacity (zero
      included) always is. */
  lemma IncludedSupplies(c: ArenaChanges, column: string)
    ensures LastValue(Included(c), column) == Supplied(c, column)
  {
    var cs := Candidates(c);
    assert DistinctColumns(cs);
    if column == "title" {
      PushedColumn(cs, 0);
    } else if column == "address" {
      PushedColumn(cs, 1);
    } else if column == "capacity" {
      PushedColumn(cs, 2);
    } else {
      forall k | 0 <= k < 3 ensures cs[k].column != column {
        assert k == 0 || k == 1 || k == 2;
      }
      PushedAbsent(cs, column);
    }
  }

  /** There is nothing to update exactly when no usable property is
      supplied; the values are never a non-number. */
  lemma IncludedEmpty(c: ArenaChanges)
    ensures Included(c) == [] <==>
              (c.title.None? || c.title.value == "") && (c.address.None? || c.address.value == "") && c.capacity.None?
    ensures !HasNotANumber(Included(c))
  {
    var cs := Candidates(c);
    PushedEmpty(cs);
    if !cs[0].applies && !cs[1].applies && !cs[2].applies {
      forall k | 0 <= k < 3 ensures !cs[k].applies {
        assert k == 0 || k == 1 || k == 2;
      }
    }
    PushedNoNotANumber(cs);
  }

  /** The row a successful update leaves. */
  function Applied(row: Row, c: ArenaChanges): Row
  {
    Override(row, Included(c))
  }

  /** A supplied column takes the supplied value; any other column keeps
      what it had. */
  lemma AppliedColumns(row: Row, c: ArenaChanges, column: string)
    ensures Supplied(c, column).Some? ==>
              column in Applied(row, c) && Applied(row, c)[column] == Supplied(c, column).value
    ensures Supplied(c, column).None? ==>
              (column in Applied(row, c) <==> column in row) && (column in row ==> Applied(row, c)[column] == row[column])
  {
    IncludedSupplies(c, column);
    OverrideAt(row, Included(c), column);
  }

  /** updateArena. fault makes the UPDATE statement fail. */
  method UpdateArena(db: Database, c: ArenaChanges, fault: bool) returns (r: ArenaOutcome)
    requires db.Valid()
    modifies db
    ensures db.Valid() && db.nextId == old(db.nextId)
    ensures Included(c) == [] ==> r == ArenaError(NoFields) && db.tables == old(db.tables)
    ensures Included(c) != [] && fault ==> r == ArenaError(ArenaUpdateFailed) && db.tables == old(db.tables)
    ensures Included(c) != [] && !fault && c.arena_id !in old(db.Rows(Arenas)) ==>
              r == ArenaError(ArenaNotFound) && db.tables == old(db.tables)
    ensures Included(c) != [] && !fault && c.arena_id in old(db.Rows(Arenas)) ==>
              && r == UpdatedArena(Applied(old(db.Rows(Arenas))[c.arena_id], c))
              && db.tables == old(db.tables)[Arenas := old(db.Rows(Arenas))[c.arena_id := r.row]]
  {
    var fields, values := BuildSet(Candidates(c));
    if |fields| == 0 {
      return ArenaError(NoFields);
    }
    IncludedEmpty(c);
    var result := db.UpdateRow(Arenas, fields, values, c.arena_id, fault);
    if result.None? {
      return ArenaError(ArenaUpdateFailed);
    }
    if result.value.None? {
      return ArenaError(ArenaNotFound);
    }
    r := UpdatedArena(result.value.value);
  }
}
