/** The durable region update: a SET list built from the supplied fields,
    run in a transaction together with the ticket adjustment a capacity
    change calls for. The adjustment measures the change against the row
    the UPDATE returns, which already holds the new capacity, so it always
    finds no change. */
module RegionUpdate {
  import opened Util
  import opened Sql
  import opened Postgres
  import opened SeatTickets

  /** The update's input; None is a property that is not supplied. Prices
      and capacities are whole numbers. */
  datatype RegionChanges = RegionChanges(region_id: Id, region_name: Option<string>,
                                         region_price: Option<int>, region_capacity: Option<int>)

  datatype RegionOutcome = UpdatedRegion(row: Row) | RegionError(error: string)

  const NoFields := "No fields to update"
  const RegionNotFound := "Region not found"
  const TicketsFailed := "Failed to create additional tickets."
  const RegionUpdateFailed := "Failed to update region"

  /** The properties the builder tests, in its order: region_name when
      it is a non-empty string, region_price and region_capacity whenever
      supplied. */
  function Candidates(c: RegionChanges): (cs: seq<Candidate>)
    ensures |cs| == 3
  {
    [Candidate(c.region_name.Some? && c.region_name.value != "", "region_name",
               if c.region_name.Some? then Text(c.region_name.value) else Null),
     Candidate(c.region_price.Some?, "region_price", if c.region_price.Some? then Num(c.region_price.value) else Null),
     Candidate(c.region_capacity.Some?, "region_capacity", if c.region_capacity.Some? then Num(c.region_capacity.value) else Null)]
  }

  /** The assignments the update makes, in order. */
  function Included(c: RegionChanges): seq<(string, Value)>
  {
    Pushed(Candidates(c))
  }

  /** The value the change gives a column, if it gives one. */
  function Supplied(c: RegionChanges, column: string): Option<Value>
  {
    if column == "region_name" && c.region_name.Some? && c.region_name.value != "" then Some(Text(c.region_name.value))
    else if column == "region_price" && c.region_price.Some? then Some(Num(c.region_price.value))
    else if column == "region_capacity" && c.region_capacity.Some? then Some(Num(c.region_capacity.value))
    else None
  }

  /** Each column is assigned last exactly the value the change supplies:
      an empty name is never written, a price or capacity always is. */
  lemma IncludedSupplies(c: RegionChanges, column: string)
    ensures LastValue(Included(c), column) == Supplied(c, column)
  {
    var cs := Candidates(c);
    assert DistinctColumns(cs);
    if column == "region_name" {
      PushedColumn(cs, 0);
    } else if column == "region_price" {
      PushedColumn(cs, 1);
    } else if column == "region_capacity" {
      PushedColumn(cs, 2);
    } else {
      forall k | 0 <= k < 3 ensures cs[k].column != column {
        assert k == 0 || k == 1 || k == 2;
      }
      PushedAbsent(cs, column);
    }
  }

  /** There is nothing to update exactly when no usable field is supplied;
      the values are whole numbers and text, never a non-number. */
  lemma IncludedEmpty(c: RegionChanges)
    ensures Included(c) == [] <==>
              (c.region_name.None? || c.region_name.value == "") && c.region_price.None? && c.region_capacity.None?
    ensures !HasNotANumber(Included(c))
  {
    var cs := Candidates(c);
    PushedEmpty(cs);
    if !cs[0].applies && !cs[1].applies && !cs[2].applies {
      forall k | 0 <= k < 3 ensures !cs[k].applies {
        assert k == 0 || k == 1 || k == 2;
      }
    }
    PushedNoNotANumber(Candidates(c));
  }

  /** The row a successful update leaves. */
  function Applied(row: Row, c: RegionChanges): Row
  {
    Override(row, Included(c))
  }

  /** A supplied column takes the supplied value; any other column keeps
      what it had. */
  lemma AppliedColumns(row: Row, c: RegionChanges, column: string)
    ensures Supplied(c, column).Some? ==>
              column in Applied(row, c) && Applied(row, c)[column] == Supplied(c, column).value
    ensures Supplied(c, column).None? ==>
              (column in Applied(row, c) <==> column in row) && (column in row ==> Applied(row, c)[column] == row[column])
  {
    IncludedSupplies(c, column);
    OverrideAt(row, Included(c), column);
  }

  /** The capacity difference: the requested capacity minus the row's. A
      row without a numeric capacity gives NaN in JavaScript, which is
      neither above nor below zero, so it counts as no difference here. */
  function CapacityDifference(requested: int, row: Row): int
  {
    if "region_capacity" in row && row["region_capacity"].Num? then requested - row["region_capacity"].n else 0
  }

  /** The seat count the row holds, 0 when it holds none. */
  function Capacity(row: Row): int
  {
    if "region_capacity" in row && row["region_capacity"].Num? then row["region_capacity"].n else 0
  }

  /** Measured against the row the UPDATE returns, a supplied capacity
      always differs from itself by zero: the adjustment never adds or
      removes a seat. */
  lemma CapacityDifferenceAlwaysZero(row: Row, c: RegionChanges)
    requires c.region_capacity.Some?
    ensures CapacityDifference(c.region_capacity.value, Applied(row, c)) == 0
  {
    AppliedColumns(row, c, "region_capacity");
  }

  /** The ticket adjustment for a capacity change: seats updated+1 ..
      updated+d are added when the difference d is positive (failAt
      numbers the insert that fails, from 1, 0 for none), seats above the
      requested capacity are deleted when it is negative (deleteFault makes
      that statement fail). It answers the error to report, if any; the
      caller rolls back on one. */
  method AdjustTickets(db: Database, activity: Value, region: Id, requested: int, updated: Row, failAt: nat, deleteFault: bool)
    returns (err: Option<string>)
    requires db.Valid()
    modifies db
    ensures db.Valid() && db.nextId >= old(db.nextId)
    ensures CapacityDifference(requested, updated) == 0 ==>
              err.None? && db.tables == old(db.tables) && db.nextId == old(db.nextId)
    ensures CapacityDifference(requested, updated) > 0 ==>
              && (err.None? <==> failAt == 0 || failAt > CapacityDifference(requested, updated))
              && (err.Some? ==> err.value == TicketsFailed)
    ensures CapacityDifference(requested, updated) > 0 && err.None? ==>
              db.tables == old(db.tables)[Tickets := old(db.Rows(Tickets)) +
                             NewSeats(old(db.nextId), CapacityDifference(requested, updated), activity, Text(region), Capacity(updated) + 1)]
    ensures CapacityDifference(requested, updated) < 0 ==>
              (err.None? <==> !deleteFault) && (err.Some? ==> err.value == DeleteExcessFailed)
    ensures CapacityDifference(requested, updated) < 0 && err.None? ==>
              db.tables == old(db.tables)[Tickets := Kept(old(db.Rows(Tickets)), region, requested)]
  {
    var d := CapacityDifference(requested, updated);
    err := None;
    if d > 0 {
      var ok := CreateSeats(db, activity, Text(region), Capacity(updated) + 1, d, failAt);
      if !ok {
        err := Some(TicketsFailed);
      }
    } else if d < 0 {
      var deleted := DeleteExcessTickets(db, region, requested, deleteFault);
      if deleted.DeleteError? {
        err := Some(deleted.error);
      }
    }
  }

  /** The activity a region row belongs to; a missing column binds null. */
  function ActivityOf(row: Row): Value
  {
    if "activity_id" in row then row["activity_id"] else Null
  }

  /** The capacity step of updateRegion, run on the row the UPDATE
      returned: with a capacity supplied it adjusts the tickets by the
      difference, which is zero, so it never changes the store. */
  method AdjustForCapacity(db: Database, c: RegionChanges, row: Row, updated: Row, failAt: nat, deleteFault: bool)
    requires db.Valid() && updated == Applied(row, c)
    modifies db
    ensures db.Valid() && db.tables == old(db.tables) && db.nextId == old(db.nextId)
  {
    if c.region_capacity.Some? {
      CapacityDifferenceAlwaysZero(row, c);
      var err := AdjustTickets(db, ActivityOf(updated), c.region_id, c.region_capacity.value, updated, failAt, deleteFault);
      if err.Some? {
        // The rollback and error reply of a failed adjustment: never
        // reached, as the difference is zero.
        assert false;
      }
    }
  }

  /** updateRegion. fault makes the UPDATE statement fail; failAt and
      deleteFault are the ticket adjustment's failures, which it never
      reaches. */
  method UpdateRegion(db: Database, c: RegionChanges, fault: bool, failAt: nat, deleteFault: bool) returns (r: RegionOutcome)
    requires db.Valid()
    modifies db
    ensures db.Valid()
    ensures Included(c) == [] ==> r == RegionError(NoFields) && db.tables == old(db.tables)
    ensures Included(c) != [] && fault ==> r == RegionError(RegionUpdateFailed) && db.tables == old(db.tables)
    ensures Included(c) != [] && !fault && c.region_id !in old(db.Rows(Regions)) ==>
              r == RegionError(RegionNotFound) && db.tables == old(db.tables)
    ensures Included(c) != [] && !fault && c.region_id in old(db.Rows(Regions)) ==>
              && r == UpdatedRegion(Applied(old(db.Rows(Regions))[c.region_id], c))
              && db.tables == old(db.tables)[Regions := old(db.Rows(Regions))[c.region_id := r.row]]
    ensures db.Rows(Tickets) == old(db.Rows(Tickets))
  {
    var fields, values := BuildSet(Candidates(c));
    if |fields| == 0 {
      return RegionError(NoFields);
    }
    IncludedEmpty(c);
    var saved, before := db.tables, db.Rows(Regions);
    var result := db.UpdateRow(Regions, fields, values, c.region_id, fault);
    if result.None? {
      db.Rollback(saved);
      return RegionError(RegionUpdateFailed);
    }
    if result.value.None? {
      db.Rollback(saved);
      return RegionError(RegionNotFound);
    }
    var updated := result.value.value;
    AdjustForCapacity(db, c, before[c.region_id], updated, failAt, deleteFault);
    assert db.tables == saved[Regions := before[c.region_id := updated]];
    r := UpdatedRegion(updated);
  }
}
