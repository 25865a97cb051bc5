/** The Redis ticket CRUD routes: create, get, put and delete of a ticket
    hash, the listing of a region's free seats, and the migration of every
    hash into the durable ticket rows. The Redis commands of a request are
    numbered from 1 in the order the handler issues them; failAt names the
    one that throws (0 or a larger number: none). */
module TicketCrud {
  import opened Util
  import opened Sql
  import opened Postgres
  import TicketIndex
  import TicketUpdate

  const CreatedOk := "Ticket created successfully."
  const CreateFailed := "Failed to create ticket."
  const NotFound := "Ticket not found."
  const ReadFailed := "Failed to read ticket."
  const UpdatedOk := "Ticket updated successfully."
  const UpdateFailed := "Failed to update ticket."
  const DeletedOk := "Ticket deleted successfully."
  const DeleteFailed := "Failed to delete ticket."
  const RegionFailed := "Failed to fetch tickets by region."
  const MigratedOk := "Migration completed successfully."
  const MigrateFailed := "Failed to migrate tickets."

  /** What a route sends. */
  datatype Response =
    | Message(status: int, text: string)
    | Created(text: string, ticket_id: string)
    | Found(ticket: TicketIndex.Ticket, reserverTime: Option<string>)
    | Listed(ids: seq<string>)

  /** The ticket a create request describes. */
  datatype NewTicket = NewTicket(user_id: Option<string>, status: string, activity_id: string,
                                 region_id: string, seat_number: string, reserver_time: string)

  /** The request body as a ticket under the generated id. */
  function AsTicket(b: NewTicket, uuid: string): TicketIndex.Ticket
  {
    TicketIndex.Ticket(uuid, b.user_id, b.status, b.activity_id, b.region_id, b.seat_number)
  }

  /** The seven fields the create route writes; a falsy holder is "". */
  function CreatedHash(b: NewTicket, uuid: string): (h: TicketIndex.Hash)
    ensures TicketIndex.WellFormed(h)
    ensures TicketIndex.IndexKey(h) == TicketIndex.RegionStatusKey(Some(b.region_id), Some(b.status))
  {
    TicketIndex.TicketHash(AsTicket(b, uuid))["reserver_time" := b.reserver_time]
  }

  /** The keyspace after a create: the hash written over whatever was under
      the key, and the id added to its region-status set. */
  function CreatedState(ix: TicketIndex.Index, b: NewTicket, uuid: string): TicketIndex.Index
  {
    TicketIndex.Index(ix.hashes[uuid := TicketIndex.Existing(ix, uuid) + CreatedHash(b, uuid)],
                      TicketIndex.AddMember(ix.sets, TicketIndex.RegionStatusKey(Some(b.region_id), Some(b.status)), uuid))
  }

  /** Creating under a fresh id keeps the index consistent. */
  lemma CreateFreshKeepsIndexed(ix: TicketIndex.Index, b: NewTicket, uuid: string)
    requires TicketIndex.Indexed(ix) && uuid !in ix.hashes
    ensures TicketIndex.Indexed(CreatedState(ix, b, uuid))
  {
    var h := CreatedHash(b, uuid);
    assert TicketIndex.Existing(ix, uuid) + h == h;
    TicketIndex.StorePreservesIndexed(ix, uuid, h);
  }

  /** Reading a created ticket back gives the request's fields under the new
      id, with a falsy holder read as null. */
  lemma ReadBackCreatedTicket(ix: TicketIndex.Index, b: NewTicket, uuid: string)
    requires uuid !in ix.hashes
    ensures var h := CreatedState(ix, b, uuid).hashes[uuid];
            && TicketIndex.ViewOf(h) == AsTicket(b, uuid).(user_id := if TicketIndex.Truthy(b.user_id) then b.user_id else None)
            && TicketIndex.Get(h, "reserver_time") == Some(b.reserver_time)
  {
    var h := CreatedState(ix, b, uuid).hashes[uuid];
    assert h == CreatedHash(b, uuid);
  }

  /** The keyspace after a put: the supplied fields override the stored
      ones, and no set changes. */
  function Put(ix: TicketIndex.Index, id: string, updates: TicketIndex.Hash): TicketIndex.Index
    requires id in ix.hashes
  {
    ix.(hashes := ix.hashes[id := ix.hashes[id] + updates])
  }

  /** A put overrides exactly the supplied fields, keeps the others, and
      leaves the sets and every other ticket alone. */
  lemma PutEffect(ix: TicketIndex.Index, id: string, updates: TicketIndex.Hash)
    requires id in ix.hashes
    ensures var h, r := ix.hashes[id], Put(ix, id, updates);
            && r.sets == ix.sets && r.hashes.Keys == ix.hashes.Keys
            && r.hashes[id].Keys == h.Keys + updates.Keys
            && (forall f :: f in updates ==> r.hashes[id][f] == updates[f])
            && (forall f :: f in h && f !in updates ==> r.hashes[id][f] == h[f])
            && (forall j :: j in ix.hashes && j != id ==> r.hashes[j] == ix.hashes[j])
  {
  }

  /** A put that changes the status leaves the id in its old set, so the
      index no longer matches (region ids without colons). */
  lemma PutStatusChangeBreaksIndex(ix: TicketIndex.Index, id: string, updates: TicketIndex.Hash)
    requires TicketIndex.AllWellFormed(ix) && TicketIndex.Indexed(ix) && id in ix.hashes
    requires "status" in updates && updates["status"] != ix.hashes[id]["status"]
    requires TicketIndex.NoColon(ix.hashes[id]["region_id"])
    requires "region_id" in updates ==> TicketIndex.NoColon(updates["region_id"])
    ensures !TicketIndex.Indexed(Put(ix, id, updates))
  {
    var h := ix.hashes[id];
    var r := Put(ix, id, updates);
    var h' := r.hashes[id];
    var oldKey := TicketIndex.IndexKey(h);
    assert id in TicketIndex.Members(ix.sets, oldKey);
    assert oldKey in r.sets && id in r.sets[oldKey];
    TicketIndex.RegionStatusKeyInjective(TicketIndex.Get(h', "region_id"), TicketIndex.Get(h', "status"),
                                         TicketIndex.Get(h, "region_id"), TicketIndex.Get(h, "status"));
    assert TicketIndex.IndexKey(h') != oldKey;
  }

  /** The durable update the migration makes from a hash: the seat number
      as Number() of the stored one, and is_paid true for a paid ticket. */
  function MigrationChanges(h: TicketIndex.Hash): (c: TicketUpdate.Changes)
    ensures c.is_paid == Some(true) <==> TicketIndex.Get(h, "status") == Some("paid")
    ensures c.is_paid != Some(true) ==> c.is_paid.None?
    ensures c.user_id.None? && c.created_at.None? && c.seat_number.Some?
  {
    TicketUpdate.Changes(if "ticket_id" in h then h["ticket_id"] else "", None,
                         if TicketIndex.Get(h, "status") == Some("paid") then Some(true) else None,
                         Some(JsNumber(TicketIndex.Get(h, "seat_number"))), None)
  }

  /** A migrated paid ticket whose row exists and whose seat number is
      numeric ends up with is_paid true; any other ticket keeps its is_paid. */
  lemma MigrationSetsPaid(ts: Tables, h: TicketIndex.Hash)
    requires TicketIndex.Truthy(TicketIndex.Get(h, "ticket_id")) && h["ticket_id"] in RowsOf(ts, Tickets)
    requires JsNumber(TicketIndex.Get(h, "seat_number")) != NotANumber
    ensures var row, row' := RowsOf(ts, Tickets)[h["ticket_id"]],
                             RowsOf(TicketUpdate.Committed(ts, MigrationChanges(h), false), Tickets)[h["ticket_id"]];
            Column(row', "is_paid") == (if TicketIndex.Get(h, "status") == Some("paid") then Some(Bool(true)) else Column(row, "is_paid"))
  {
    var c := MigrationChanges(h);
    TicketUpdate.IncludedEmpty(c);
    PushedNoNotANumber(TicketUpdate.Candidates(c));
    TicketUpdate.AppliedColumns(RowsOf(ts, Tickets)[h["ticket_id"]], c, "is_paid");
  }

  /** The state of a migration: the tables, and whether a Redis error has
      ended it. */
  datatype Run = Run(ts: Tables, stopped: bool)

  /** One iteration of the migration over the hash h; fails: its HGETALL
      throws; dbFault: the durable update fails (it reports an error, which
      the loop ignores). A hash without a truthy ticket_id is skipped. */
  function MigrateOne(r: Run, h: TicketIndex.Hash, fails: bool, dbFault: bool): (r': Run)
    ensures r.stopped ==> r' == r
  {
    if r.stopped then r
    else if fails then r.(stopped := true)
    else if !TicketIndex.Truthy(TicketIndex.Get(h, "ticket_id")) then r
    else Run(TicketUpdate.Committed(r.ts, MigrationChanges(h), dbFault), false)
  }

  /** The migration over the keys in the order given. */
  function MigrateOf(r: Run, hashes: map<string, TicketIndex.Hash>, ids: seq<string>,
                     fails: nat -> bool, dbFault: nat -> bool): Run
    decreases |ids|
  {
    if ids == [] then r
    else
      var n := |ids| - 1;
      var h := if ids[n] in hashes then hashes[ids[n]] else map[];
      MigrateOne(MigrateOf(r, hashes, ids[..n], fails, dbFault), h, fails(n), dbFault(n))
  }

  lemma MigrateStep(r: Run, hashes: map<string, TicketIndex.Hash>, ids: seq<string>, i: nat,
                    fails: nat -> bool, dbFault: nat -> bool)
    requires i < |ids|
    ensures MigrateOf(r, hashes, ids[..i + 1], fails, dbFault)
            == MigrateOne(MigrateOf(r, hashes, ids[..i], fails, dbFault),
                          if ids[i] in hashes then hashes[ids[i]] else map[], fails(i), dbFault(i))
  {
    assert ids[..i + 1][..i] == ids[..i];
  }

  /** Once stopped, the rest of the keys change nothing. */
  lemma {:induction false} MigrateStoppedStays(r: Run, hashes: map<string, TicketIndex.Hash>, ids: seq<string>, i: nat,
                                               fails: nat -> bool, dbFault: nat -> bool)
    requires i <= |ids| && MigrateOf(r, hashes, ids[..i], fails, dbFault).stopped
    ensures MigrateOf(r, hashes, ids, fails, dbFault) == MigrateOf(r, hashes, ids[..i], fails, dbFault)
    decreases |ids| - i
  {
    if i < |ids| {
      MigrateStep(r, hashes, ids, i, fails, dbFault);
      MigrateStoppedStays(r, hashes, ids, i + 1, fails, dbFault);
    } else {
      assert ids[..i] == ids;
    }
  }

  /** A column of a row, if present. */
  function Column(row: Row, c: string): Option<Value>
  {
    if c in row then Some(row[c]) else None
  }

  /** What the migration may do to the tables: the same tables and rows,
      every owner kept, and is_paid only ever set to true. */
  ghost predicate OwnersKept(ts: Tables, ts': Tables)
  {
    && ts'.Keys == ts.Keys
    && (forall t :: t in ts && t != Tickets ==> ts'[t] == ts[t])
    && RowsOf(ts', Tickets).Keys == RowsOf(ts, Tickets).Keys
    && forall id :: id in RowsOf(ts, Tickets) ==>
         var row, row' := RowsOf(ts, Tickets)[id], RowsOf(ts', Tickets)[id];
         && Column(row', "user_id") == Column(row, "user_id")
         && (Column(row', "is_paid") != Column(row, "is_paid") ==> Column(row', "is_paid") == Some(Bool(true)))
  }

  lemma OwnersKeptTransitive(a: Tables, b: Tables, c: Tables)
    requires OwnersKept(a, b) && OwnersKept(b, c)
    ensures OwnersKept(a, c)
  {
  }

  /** Rewriting one ticket row with its owner kept, and is_paid kept or
      set to true, keeps owners. */
  lemma RewriteKeepsOwners(ts: Tables, id: Id, row': Row)
    requires id in RowsOf(ts, Tickets)
    requires Column(row', "user_id") == Column(RowsOf(ts, Tickets)[id], "user_id")
    requires Column(row', "is_paid") != Column(RowsOf(ts, Tickets)[id], "is_paid") ==> Column(row', "is_paid") == Some(Bool(true))
    ensures OwnersKept(ts, ts[Tickets := RowsOf(ts, Tickets)[id := row']])
  {
  }

  /** One durable migration update keeps owners and never unpays. */
  lemma MigrationUpdateKeepsOwners(ts: Tables, h: TicketIndex.Hash, dbFault: bool)
    ensures OwnersKept(ts, TicketUpdate.Committed(ts, MigrationChanges(h), dbFault))
  {
    var c := MigrationChanges(h);
    var ts' := TicketUpdate.Committed(ts, c, dbFault);
    var rows := RowsOf(ts, Tickets);
    if ts' != ts {
      var row := rows[c.ticket_id];
      var row' := TicketUpdate.Applied(row, c);
      TicketUpdate.AppliedColumns(row, c, "user_id");
      TicketUpdate.AppliedColumns(row, c, "is_paid");
      assert Column(row', "user_id") == Column(row, "user_id");
      assert ts' == ts[Tickets := rows[c.ticket_id := row']];
      RewriteKeepsOwners(ts, c.ticket_id, row');
    }
  }

  /** One iteration keeps owners and never unpays. */
  lemma MigrateOneKeepsOwners(r: Run, h: TicketIndex.Hash, fails: bool, dbFault: bool)
    ensures OwnersKept(r.ts, MigrateOne(r, h, fails, dbFault).ts)
  {
    if !r.stopped && !fails && TicketIndex.Truthy(TicketIndex.Get(h, "ticket_id")) {
      MigrationUpdateKeepsOwners(r.ts, h, dbFault);
    }
  }

  /** The whole migration keeps every owner and every row, and changes
      is_paid only to true. */
  lemma {:induction false} MigrateKeepsOwners(r: Run, hashes: map<string, TicketIndex.Hash>, ids: seq<string>,
                                              fails: nat -> bool, dbFault: nat -> bool)
    ensures OwnersKept(r.ts, MigrateOf(r, hashes, ids, fails, dbFault).ts)
    decreases |ids|
  {
    if ids == [] {
    } else {
      var n := |ids| - 1;
      MigrateKeepsOwners(r, hashes, ids[..n], fails, dbFault);
      var q := MigrateOf(r, hashes, ids[..n], fails, dbFault);
      var h := if ids[n] in hashes then hashes[ids[n]] else map[];
      var last := MigrateOne(q, h, fails(n), dbFault(n));
      assert MigrateOf(r, hashes, ids, fails, dbFault) == last;
      MigrateOneKeepsOwners(q, h, fails(n), dbFault(n));
      OwnersKeptTransitive(r.ts, q.ts, last.ts);
    }
  }

  class CrudRoutes {
    const redis: TicketIndex.TicketStore
    const db: Database

    ghost predicate Valid()
      reads this, redis, db
    {
      redis.Valid() && db.Valid()
    }

    constructor (redis: TicketIndex.TicketStore, db: Database)
      requires redis.Valid() && db.Valid()
      ensures Valid() && this.redis == redis && this.db == db
    {
      this.redis := redis;
      this.db := db;
    }

    /** POST /tickets: HSET (1), then SADD (2), under the generated id
        uuid. A failed SADD leaves the hash written but unindexed. */
    method CreateTicket(b: NewTicket, uuid: string, failAt: nat) returns (r: Response)
      requires Valid()
      modifies redis
      ensures Valid()
      ensures failAt == 1 ==> r == Message(500, CreateFailed) && redis.State() == old(redis.State())
      ensures failAt == 2 ==> r == Message(500, CreateFailed)
                              && redis.hashes == CreatedState(old(redis.State()), b, uuid).hashes
                              && redis.sets == old(redis.sets)
      ensures failAt != 1 && failAt != 2 ==>
                r == Created(CreatedOk, uuid) && redis.State() == CreatedState(old(redis.State()), b, uuid)
    {
      if failAt == 1 {
        return Message(500, CreateFailed);
      }
      redis.HSet(uuid, CreatedHash(b, uuid));
      if failAt == 2 {
        return Message(500, CreateFailed);
      }
      redis.SAdd(TicketIndex.RegionStatusKey(Some(b.region_id), Some(b.status)), uuid);
      r := Created(CreatedOk, uuid);
    }

    /** GET /tickets/:id: HGETALL (1). The reserver time is passed on as
        stored; its conversion to a Date is not modelled. */
    method GetTicket(id: string, failAt: nat) returns (r: Response)
      requires Valid()
      ensures failAt == 1 ==> r == Message(500, ReadFailed)
      ensures failAt != 1 && id !in redis.hashes ==> r == Message(404, NotFound)
      ensures failAt != 1 && id in redis.hashes ==>
                && r.Found? && r.ticket == TicketIndex.ViewOf(redis.hashes[id])
                && r.reserverTime == TicketIndex.Get(redis.hashes[id], "reserver_time")
                && (r.ticket.user_id.None? <==> redis.hashes[id]["user_id"] == "")
    {
      if failAt == 1 {
        return Message(500, ReadFailed);
      }
      var data := redis.HGetAll(id);
      if |data| == 0 {
        return Message(404, NotFound);
      }
      assert id in redis.hashes;
      r := Found(TicketIndex.ViewOf(data), TicketIndex.Get(data, "reserver_time"));
    }

    /** PUT /tickets/:id: HGETALL (1), then HSET (2) of the stored fields
        overridden by the supplied ones. No set is touched. */
    method PutTicket(id: string, updates: TicketIndex.Hash, failAt: nat) returns (r: Response)
      requires Valid()
      modifies redis
      ensures Valid()
      ensures failAt == 1 ==> r == Message(500, UpdateFailed) && redis.State() == old(redis.State())
      ensures failAt != 1 && id !in old(redis.hashes) ==> r == Message(404, NotFound) && redis.State() == old(redis.State())
      ensures failAt == 2 ==> r == Message(500, UpdateFailed) || r == Message(404, NotFound)
      ensures failAt == 2 ==> redis.State() == old(redis.State())
      ensures failAt != 1 && failAt != 2 && id in old(redis.hashes) ==>
                r == Message(200, UpdatedOk) && redis.State() == Put(old(redis.State()), id, updates)
    {
      if failAt == 1 {
        return Message(500, UpdateFailed);
      }
      var existing := redis.HGetAll(id);
      if |existing| == 0 {
        return Message(404, NotFound);
      }
      assert id in redis.hashes;
      if failAt == 2 {
        return Message(500, UpdateFailed);
      }
      assert existing + (existing + updates) == existing + updates;
      redis.HSet(id, existing + updates);
      r := Message(200, UpdatedOk);
    }

    /** DELETE /tickets/:id: HGETALL (1), DEL (2), SREM (3) from the set of
        the stored region and status. */
    method DeleteTicket(id: string, failAt: nat) returns (r: Response)
      requires Valid()
      modifies redis
      ensures Valid()
      ensures failAt == 1 || failAt == 2 ==>
                redis.State() == old(redis.State()) && (r == Message(500, DeleteFailed) || r == Message(404, NotFound))
      ensures failAt != 1 && id !in old(redis.hashes) ==> r == Message(404, NotFound) && redis.State() == old(redis.State())
      ensures failAt == 3 && id in old(redis.hashes) ==>
                r == Message(500, DeleteFailed) && redis.hashes == old(redis.hashes) - {id} && redis.sets == old(redis.sets)
      ensures failAt != 1 && failAt != 2 && failAt != 3 && id in old(redis.hashes) ==>
                r == Message(200, DeletedOk) && redis.State() == TicketIndex.Delete(old(redis.State()), id)
    {
      if failAt == 1 {
        return Message(500, DeleteFailed);
      }
      var ticket := redis.HGetAll(id);
      if |ticket| == 0 {
        return Message(404, NotFound);
      }
      assert id in redis.hashes;
      var key := TicketIndex.RegionStatusKey(TicketIndex.Get(ticket, "region_id"), TicketIndex.Get(ticket, "status"));
      if failAt == 2 {
        return Message(500, DeleteFailed);
      }
      redis.Del(id);
      if failAt == 3 {
        return Message(500, DeleteFailed);
      }
      redis.SRem(key, id);
      r := Message(200, DeletedOk);
    }

    /** GET /regions/:id/tickets: SMEMBERS (1) of the region's "empty" set. */
    method RegionTickets(region: string, failAt: nat) returns (r: Response)
      ensures failAt == 1 ==> r == Message(500, RegionFailed)
      ensures failAt != 1 ==>
                && r.Listed?
                && (forall x :: x in r.ids <==> x in TicketIndex.EmptySeats(redis.State(), region))
                && (forall i, j :: 0 <= i < j < |r.ids| ==> r.ids[i] != r.ids[j])
    {
      if failAt == 1 {
        return Message(500, RegionFailed);
      }
      var ids := redis.ReadRegion(region);
      r := Listed(ids);
    }

    /** One iteration of the migration. */
    method MigrateKey(key: string, fails: bool, dbFault: bool) returns (stopped: bool)
      requires Valid()
      modifies db
      ensures Valid()
      ensures Run(db.tables, stopped) == MigrateOne(Run(old(db.tables), false), redis.HGetAll(key), fails, dbFault)
    {
      if fails {
        return true;
      }
      var ticket := redis.HGetAll(key);
      if TicketIndex.Truthy(TicketIndex.Get(ticket, "ticket_id")) {
        var _ := TicketUpdate.UpdateTicket(db, MigrationChanges(ticket), dbFault);
      }
      stopped := false;
    }

    /** POST /migrate: KEYS ticket:*, then per key HGETALL and the durable
        update. keysFail: KEYS throws; fails(i): the i-th HGETALL throws. */
    method Migrate(keysFail: bool, fails: nat -> bool, dbFault: nat -> bool) returns (r: Response, keys: seq<string>)
      requires Valid()
      modifies db
      ensures Valid()
      ensures keysFail ==> r == Message(500, MigrateFailed) && keys == [] && db.tables == old(db.tables)
      ensures !keysFail ==> (forall x :: x in keys <==> x in redis.hashes)
                            && (forall i, j :: 0 <= i < j < |keys| ==> keys[i] != keys[j])
      ensures var run := MigrateOf(Run(old(db.tables), false), redis.hashes, keys, fails, dbFault);
              && db.tables == run.ts
              && (!keysFail ==> r == (if run.stopped then Message(500, MigrateFailed) else Message(200, MigratedOk)))
    {
      if keysFail {
        return Message(500, MigrateFailed), [];
      }
      keys := redis.TicketKeys();
      ghost var r0 := Run(db.tables, false);
      var i := 0;
      while i < |keys|
        invariant db.Valid() && 0 <= i <= |keys|
        invariant MigrateOf(r0, redis.hashes, keys[..i], fails, dbFault) == Run(db.tables, false)
      {
        MigrateStep(r0, redis.hashes, keys, i, fails, dbFault);
        var stopped := MigrateKey(keys[i], fails(i), dbFault(i));
        if stopped {
          MigrateStoppedStays(r0, redis.hashes, keys, i + 1, fails, dbFault);
          return Message(500, MigrateFailed), keys;
        }
        i := i + 1;
      }
      assert keys[..i] == keys;
      r := Message(200, MigratedOk);
    }
  }
}
