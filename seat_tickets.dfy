/** Seat tickets in the relational store: the unowned, unpaid row that
    createTicket inserts for one seat, the loop that inserts a run of
    consecutive seats for a region, and deleteExcessTickets, which removes a
    region's seats above a capacity. */
module SeatTickets {
  import opened Util
  import opened Sql
  import opened Postgres

  /** The row createTicket inserts for a seat nobody holds: user_id null,
      is_paid false. */
  function SeatRow(activity: Value, region: Value, seat: int): Row
  {
    map["user_id" := Null, "activity_id" := activity, "region_id" := region,
        "seat_number" := Num(seat), "is_paid" := Bool(false)]
  }

  /** A seat row as stored under its serial id. */
  function Stored(activity: Value, region: Value, seat: int, id: Id): Row
  {
    SeatRow(activity, region, seat)["_id" := Text(id)]
  }

  /** The rows a run of count seat inserts produces when the sequence
      stands at next: the k-th insert (from 0) is seat first+k under the
      id next+k. */
  function SeatRows(next: nat, count: nat, activity: Value, region: Value, first: int): (rows: seq<Row>)
    ensures |rows| == count
  {
    seq(count, k requires 0 <= k < count => Stored(activity, region, first + k, SerialId(next + k)))
  }

  /** The rows such a run stores, by id. */
  function NewSeats(next: nat, count: nat, activity: Value, region: Value, first: int): Rows
  {
    Inserted(next, SeatRows(next, count, activity, region, first))
  }

  /** The seat numbers stored in a set of rows. */
  function SeatNumbers(rows: Rows): set<Value>
  {
    set id | id in rows && "seat_number" in rows[id] :: rows[id]["seat_number"]
  }

  /** A run of inserts stores nothing under an id it was not given. */
  lemma NewSeatsOnly(next: nat, count: nat, activity: Value, region: Value, first: int)
    ensures forall id :: id in NewSeats(next, count, activity, region, first) ==>
              exists m :: next <= m < next + count && id == SerialId(m)
  {
    InsertedOnly(next, SeatRows(next, count, activity, region, first));
  }

  /** The sequence hands out distinct ids, so a run stores one row per
      insert. */
  lemma NewSeatsCount(next: nat, count: nat, activity: Value, region: Value, first: int)
    ensures |NewSeats(next, count, activity, region, first)| == count
  {
    InsertedCount(next, SeatRows(next, count, activity, region, first));
  }

  /** The k-th insert's id holds seat first+k of the given region and
      activity, unowned and unpaid. */
  lemma NewSeatsAt(next: nat, count: nat, activity: Value, region: Value, first: int, k: nat)
    requires k < count
    ensures SerialId(next + k) in NewSeats(next, count, activity, region, first)
    ensures NewSeats(next, count, activity, region, first)[SerialId(next + k)] == Stored(activity, region, first + k, SerialId(next + k))
  {
    InsertedAt(next, SeatRows(next, count, activity, region, first), k);
  }

  /** The created rows hold every seat number first..first+count-1 and no
      other. */
  lemma NewSeatsNumbers(next: nat, count: nat, activity: Value, region: Value, first: int)
    ensures SeatNumbers(NewSeats(next, count, activity, region, first)) == set k | first <= k < first + count :: Num(k)
  {
    var ns := NewSeats(next, count, activity, region, first);
    NewSeatsOnly(next, count, activity, region, first);
    forall m | next <= m < next + count
      ensures SerialId(m) in ns && "seat_number" in ns[SerialId(m)] && ns[SerialId(m)]["seat_number"] == Num(first + (m - next))
    {
      NewSeatsAt(next, count, activity, region, first, m - next);
      StoredSeatNumber(activity, region, first + (m - next), SerialId(m));
    }
    RunSeatNumbers(ns, next, count, first);
  }

  /** Rows stored under the ids next..next+count-1 only, the one under
      next+k numbered first+k, hold exactly the seat numbers
      first..first+count-1. */
  lemma RunSeatNumbers(ns: Rows, next: nat, count: nat, first: int)
    requires forall id :: id in ns ==> exists m :: next <= m < next + count && id == SerialId(m)
    requires forall m :: next <= m < next + count ==>
               SerialId(m) in ns && "seat_number" in ns[SerialId(m)] && ns[SerialId(m)]["seat_number"] == Num(first + (m - next))
    ensures SeatNumbers(ns) == set k | first <= k < first + count :: Num(k)
  {
    var seats := set k | first <= k < first + count :: Num(k);
    forall v | v in SeatNumbers(ns)
      ensures v in seats
    {
      var id :| id in ns && "seat_number" in ns[id] && ns[id]["seat_number"] == v;
      var m :| next <= m < next + count && id == SerialId(m);
      assert v == Num(first + (m - next));
    }
    forall v | v in seats
      ensures v in SeatNumbers(ns)
    {
      var j :| first <= j < first + count && v == Num(j);
      var m := next + (j - first);
      assert SerialId(m) in ns && ns[SerialId(m)]["seat_number"] == v;
    }
  }

  /** A stored seat row carries its seat number. */
  lemma StoredSeatNumber(activity: Value, region: Value, seat: int, id: Id)
    ensures "seat_number" in Stored(activity, region, seat, id) && Stored(activity, region, seat, id)["seat_number"] == Num(seat)
  {
  }

  /** One more insert extends the run by its row. */
  lemma AppendSeat(next: nat, i: nat, activity: Value, region: Value, first: int)
    ensures SeatRows(next, i + 1, activity, region, first)
            == SeatRows(next, i, activity, region, first) + [Stored(activity, region, first + i, SerialId(next + i))]
  {
  }

  /** The rows of a region above a capacity: "region_id = $1 AND
      seat_number > $2". A missing or null seat number compares as unknown
      and is not selected. */
  predicate Excess(region: Id, max: int, row: Row)
  {
    && "region_id" in row && row["region_id"] == Text(region)
    && "seat_number" in row && row["seat_number"].Num? && row["seat_number"].n > max
  }

  /** The rows a deleteExcessTickets leaves: every ticket of another
      region, and every seat of the region numbered at most max, exactly as
      it was. */
  function Kept(rows: Rows, region: Id, max: int): (r: Rows)
    ensures r.Keys <= rows.Keys
    ensures forall id :: id in rows ==> (id in r <==> !Excess(region, max, rows[id]))
    ensures forall id :: id in r ==> r[id] == rows[id]
  {
    map id | id in rows && !Excess(region, max, rows[id]) :: rows[id]
  }

  /** The number of rows the filter selects is the number of rows that go. */
  lemma KeptCount(rows: Rows, region: Id, max: int)
    ensures |set id | id in rows && Excess(region, max, rows[id])| == |rows| - |Kept(rows, region, max)|
  {
    var doomed := set id | id in rows && Excess(region, max, rows[id]);
    var kept := Kept(rows, region, max);
    assert kept.Keys == rows.Keys - doomed;
    assert rows.Keys == kept.Keys + doomed;
    assert |rows.Keys| == |kept.Keys| + |doomed|;
  }

  datatype Deleted = DeletedCount(n: nat) | DeleteError(error: string)

  const DeleteExcessFailed := "Failed to delete excess tickets."

  /** deleteExcessTickets. fault stands for the statement failing. */
  method DeleteExcessTickets(db: Database, region: Id, max: int, fault: bool) returns (r: Deleted)
    requires db.Valid()
    modifies db
    ensures db.Valid() && db.nextId == old(db.nextId)
    ensures fault ==> r == DeleteError(DeleteExcessFailed) && db.tables == old(db.tables)
    ensures !fault ==>
              && db.tables == old(db.tables)[Tickets := Kept(old(db.Rows(Tickets)), region, max)]
              && r.DeletedCount? && r.n + |db.Rows(Tickets)| == |old(db.Rows(Tickets))|
  {
    var rows := db.Rows(Tickets);
    var doomed := (id: Id, row: Row) => Excess(region, max, row);
    var count := db.Delete(Tickets, doomed, fault);
    if count.None? {
      return DeleteError(DeleteExcessFailed);
    }
    assert (map id | id in rows && !doomed(id, rows[id]) :: rows[id]) == Kept(rows, region, max);
    assert (set id | id in rows && doomed(id, rows[id])) == set id | id in rows && Excess(region, max, rows[id]);
    KeptCount(rows, region, max);
    r := DeletedCount(count.value);
  }

  /** A run of createTicket calls for seats first..first+count-1 of one
      region, stopping at the first one that fails. failAt numbers the
      insert that fails, from 1, and 0 means none does. The inserts made
      before a failure stay; callers that run in a transaction roll them
      back. */
  method CreateSeats(db: Database, activity: Value, region: Value, first: int, count: nat, failAt: nat) returns (ok: bool)
    requires db.Valid()
    modifies db
    ensures db.Valid()
    ensures ok <==> failAt == 0 || failAt > count
    ensures var made := if ok then count else failAt - 1;
            && db.nextId == old(db.nextId) + made
            && db.tables == old(db.tables)[Tickets := old(db.Rows(Tickets)) + NewSeats(old(db.nextId), made, activity, region, first)]
  {
    ghost var t0, r0, n0 := db.tables, db.Rows(Tickets), db.nextId;
    var i := 0;
    ghost var rows: seq<Row> := [];
    assert r0 + Inserted(n0, rows) == t0[Tickets];
    ok := true;
    while i < count && ok
      invariant 0 <= i <= count
      invariant if ok then failAt == 0 || failAt > i else i + 1 == failAt && i < count
      invariant db.Valid() && db.nextId == n0 + i
      invariant rows == SeatRows(n0, i, activity, region, first)
      invariant db.tables == t0[Tickets := r0 + Inserted(n0, rows)]
      decreases count - i, ok
    {
      if i + 1 == failAt {
        ok := false;
      } else {
        rows := InsertSeat(db, activity, region, first, i, t0, r0, n0, rows);
        i := i + 1;
      }
    }
    assert i == if ok then count else failAt - 1;
  }

  /** One createTicket call of the loop: seat first+i goes in under the
      next id and extends the run by its row. */
  method InsertSeat(db: Database, activity: Value, region: Value, first: int, i: nat,
                    ghost t0: Tables, ghost r0: Rows, ghost n0: nat, ghost rows: seq<Row>)
    returns (ghost extended: seq<Row>)
    requires db.Valid() && db.nextId == n0 + i
    requires rows == SeatRows(n0, i, activity, region, first)
    requires db.tables == t0[Tickets := r0 + Inserted(n0, rows)]
    modifies db
    ensures db.Valid() && db.nextId == n0 + i + 1
    ensures extended == SeatRows(n0, i + 1, activity, region, first)
    ensures db.tables == t0[Tickets := r0 + Inserted(n0, extended)]
  {
    var id, stored := db.InsertInRun(Tickets, SeatRow(activity, region, first + i), t0, r0, n0, rows);
    assert id == SerialId(n0 + i);
    assert stored == Stored(activity, region, first + i, id);
    AppendSeat(n0, i, activity, region, first);
    extended := rows + [stored];
  }
}
