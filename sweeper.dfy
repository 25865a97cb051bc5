/** The expiry sweeper: a pass over every ticket hash that puts holds which
    have stayed "reserved" for more than an hour back to "empty", in Redis
    and in the durable ticket row. It takes no lock, and any error ends the
    pass quietly. */
module Sweeper {
  import opened Util
  import opened Postgres
  import Sql
  import TicketIndex
  import TicketUpdate
  import Reservation

  /** Sixty minutes, in milliseconds. */
  const HoldLimit := 3600000

  /** A record the sweeper resets: it has a holder field, is "reserved",
      and its reserver time parses and lies more than an hour back. An
      unparseable time is NaN, and NaN is never more than an hour. */
  predicate Expired(h: TicketIndex.Hash, now: nat)
  {
    && TicketIndex.Get(h, "user_id").Some?
    && TicketIndex.Get(h, "status") == Some("reserved")
    && "reserver_time" in h && ParseNat(h["reserver_time"]).Some?
    && now - ParseNat(h["reserver_time"]).value > HoldLimit
  }

  /** The hold-record update of a reset: status "empty" and a null holder. */
  const ResetChanges := TicketIndex.Updates(None, None, Some("empty"), None, None, None)

  /** The durable update of a reset: no owner, not paid. */
  function DurableReset(id: Id): TicketUpdate.Changes
  {
    TicketUpdate.Changes(id, Some(Sql.Null), Some(false), None, None)
  }

  /** The state of a pass: the index, the tables, and whether an error has
      ended the pass. */
  datatype Pass = Pass(ix: TicketIndex.Index, ts: Tables, stopped: bool)

  /** The number, within the hold update, of the Redis command that throws
      when the iteration's failAt-th command does: the iteration's first
      command is its HGETALL, the update's commands follow. */
  function UpdateFailAt(failAt: nat): nat
  {
    if failAt >= 2 then failAt - 1 else 0
  }

  /** One iteration over the key of ticket id. failAt: the number of the
      Redis command of this iteration that throws (1 the HGETALL, 2 to 5
      the update's read, HSET, SREM and SADD; 0 for none), which ends the
      pass with whatever the update had written; dbFault: the durable
      update fails (it reports an error instead of throwing, and the
      sweeper goes on). */
  function Visit(p: Pass, id: Id, now: nat, failAt: nat, dbFault: bool): (r: Pass)
    requires TicketIndex.AllWellFormed(p.ix)
    ensures TicketIndex.AllWellFormed(r.ix)
    ensures p.stopped ==> r == p
    ensures r.ts != p.ts ==> !r.stopped
  {
    if p.stopped then p
    else if failAt == 1 then p.(stopped := true)
    else
      var h := TicketIndex.Existing(p.ix, id);
      if !Expired(h, now) then p
      else
        var target := h["ticket_id"];
        var k := UpdateFailAt(failAt);
        if target !in p.ix.hashes then p.(stopped := true)
        else if TicketIndex.HoldThrows(p.ix, target, ResetChanges, None, k) then
          Pass(TicketIndex.HoldPartial(p.ix, target, ResetChanges, None, k), p.ts, true)
        else Pass(TicketIndex.HoldUpdate(p.ix, target, ResetChanges, None),
                  TicketUpdate.Committed(p.ts, DurableReset(target), dbFault), false)
  }

  /** The pass over the keys in the order given. */
  function SweepOf(p: Pass, ids: seq<Id>, now: nat, failAt: nat -> nat, dbFault: nat -> bool): (r: Pass)
    requires TicketIndex.AllWellFormed(p.ix)
    ensures TicketIndex.AllWellFormed(r.ix)
    decreases |ids|
  {
    if ids == [] then p
    else
      var n := |ids| - 1;
      Visit(SweepOf(p, ids[..n], now, failAt, dbFault), ids[n], now, failAt(n), dbFault(n))
  }

  /** Once an error has ended the pass, the remaining keys change nothing. */
  lemma {:induction false} StoppedStays(p: Pass, ids: seq<Id>, i: nat, now: nat, failAt: nat -> nat, dbFault: nat -> bool)
    requires TicketIndex.AllWellFormed(p.ix) && i <= |ids|
    requires SweepOf(p, ids[..i], now, failAt, dbFault).stopped
    ensures SweepOf(p, ids, now, failAt, dbFault) == SweepOf(p, ids[..i], now, failAt, dbFault)
    decreases |ids| - i
  {
    if i < |ids| {
      var q := SweepOf(p, ids[..i + 1], now, failAt, dbFault);
      assert ids[..i + 1][..i] == ids[..i];
      StoppedStays(p, ids, i + 1, now, failAt, dbFault);
    } else {
      assert ids[..i] == ids;
    }
  }

  /** The pass over one more key is one more visit. */
  lemma SweepStep(p: Pass, ids: seq<Id>, i: nat, now: nat, failAt: nat -> nat, dbFault: nat -> bool)
    requires TicketIndex.AllWellFormed(p.ix) && i < |ids|
    ensures SweepOf(p, ids[..i + 1], now, failAt, dbFault)
            == Visit(SweepOf(p, ids[..i], now, failAt, dbFault), ids[i], now, failAt(i), dbFault(i))
  {
    assert ids[..i + 1][..i] == ids[..i];
  }

  /** refundExpiredTickets: KEYS ticket:*, then one HGETALL per key and, for
      an expired hold, the index update and the durable update. keysFail:
      the KEYS command throws; failAt(i): which Redis command of the i-th
      iteration throws (see Visit). */
  method RefundExpiredTickets(redis: TicketIndex.TicketStore, db: Database, now: nat,
                              keysFail: bool, failAt: nat -> nat, dbFault: nat -> bool)
    returns (keys: seq<Id>)
    requires redis.Valid() && db.Valid()
    modifies redis, db
    ensures redis.Valid() && db.Valid()
    ensures keysFail ==> keys == [] && redis.State() == old(redis.State()) && db.tables == old(db.tables)
    ensures !keysFail ==> (forall x :: x in keys <==> x in old(redis.hashes))
                          && (forall i, j :: 0 <= i < j < |keys| ==> keys[i] != keys[j])
    ensures var r := SweepOf(Pass(old(redis.State()), old(db.tables), false), keys, now, failAt, dbFault);
            redis.State() == r.ix && db.tables == r.ts
  {
    if keysFail {
      return [];
    }
    keys := redis.TicketKeys();
    ghost var p0 := Pass(redis.State(), db.tables, false);
    var i := 0;
    while i < |keys|
      invariant redis.Valid() && db.Valid()
      invariant 0 <= i <= |keys|
      invariant SweepOf(p0, keys[..i], now, failAt, dbFault) == Pass(redis.State(), db.tables, false)
    {
      SweepStep(p0, keys, i, now, failAt, dbFault);
      var stopped := VisitKey(redis, db, keys[i], now, failAt(i), dbFault(i));
      if stopped {
        StoppedStays(p0, keys, i + 1, now, failAt, dbFault);
        return;
      }
      i := i + 1;
    }
    assert keys[..i] == keys;
  }

  /** One iteration of the pass. */
  method VisitKey(redis: TicketIndex.TicketStore, db: Database, id: Id, now: nat, failAt: nat, dbFault: bool)
    returns (stopped: bool)
    requires redis.Valid() && db.Valid()
    modifies redis, db
    ensures redis.Valid() && db.Valid()
    ensures Pass(redis.State(), db.tables, stopped) == Visit(Pass(old(redis.State()), old(db.tables), false), id, now, failAt, dbFault)
  {
    if failAt == 1 {
      return true;
    }
    var h := redis.HGetAll(id);
    if TicketIndex.Get(h, "user_id").None? {
      return false;
    }
    if TicketIndex.Get(h, "status") == Some("reserved") {
      var reserved := if "reserver_time" in h then ParseNat(h["reserver_time"]) else None;
      if reserved.Some? && now - reserved.value > HoldLimit {
        var target := h["ticket_id"];
        var ok := redis.UpdateHold(target, ResetChanges, None, UpdateFailAt(failAt));
        if !ok {
          return true;
        }
        var _ := TicketUpdate.UpdateTicket(db, DurableReset(target), dbFault);
      }
    }
    stopped := false;
  }

  /** Each ticket names itself in its ticket_id field, as createTicket
      writes it. */
  ghost predicate SelfNamed(ix: TicketIndex.Index)
    requires TicketIndex.AllWellFormed(ix)
  {
    forall id :: id in ix.hashes ==> ix.hashes[id]["ticket_id"] == id
  }

  /** A reset hash: the merge of the reset into the stored hash. */
  function ResetHash(h: TicketIndex.Hash): (r: TicketIndex.Hash)
    requires TicketIndex.WellFormed(h)
    ensures TicketIndex.WellFormed(r) && r.Keys == h.Keys
    ensures r["status"] == "empty"
    ensures forall f :: f in h && f != "status" ==> r[f] == h[f]
  {
    h + TicketIndex.TicketHash(TicketIndex.Merge(TicketIndex.ViewOf(h), ResetChanges))
  }

  /** A reset rewrites that one hash. */
  lemma ResetUpdate(ix: TicketIndex.Index, id: Id)
    requires TicketIndex.AllWellFormed(ix) && id in ix.hashes
    ensures TicketIndex.HoldUpdate(ix, id, ResetChanges, None).hashes == ix.hashes[id := ResetHash(ix.hashes[id])]
  {
  }

  /** The index after resetting each listed expired record. */
  ghost predicate ResetUpTo(ix: TicketIndex.Index, ix': TicketIndex.Index, done: seq<Id>, now: nat)
    requires TicketIndex.AllWellFormed(ix)
  {
    && ix'.hashes.Keys == ix.hashes.Keys
    && forall j :: j in ix.hashes ==> ix'.hashes[j] == AfterPass(ix.hashes[j], j in done, now)
  }

  /** A record after the pass: reset when it was visited and expired, as it
      was otherwise. */
  function AfterPass(h: TicketIndex.Hash, visited: bool, now: nat): TicketIndex.Hash
    requires TicketIndex.WellFormed(h)
  {
    if visited && Expired(h, now) then ResetHash(h) else h
  }

  /** One visit without error to a key not yet visited extends the reset
      to that key. */
  lemma VisitResets(ix: TicketIndex.Index, q: Pass, init: seq<Id>, id: Id, now: nat, dbFault: bool)
    requires TicketIndex.AllWellFormed(ix) && SelfNamed(ix) && TicketIndex.AllWellFormed(q.ix)
    requires !q.stopped && ResetUpTo(ix, q.ix, init, now) && id !in init
    ensures var r := Visit(q, id, now, 0, dbFault);
            !r.stopped && ResetUpTo(ix, r.ix, init + [id], now)
  {
    var h := TicketIndex.Existing(q.ix, id);
    if Expired(h, now) {
      assert id in q.ix.hashes && h == ix.hashes[id];
      ResetUpdate(q.ix, id);
      ResetOne(ix, q.ix, Visit(q, id, now, 0, dbFault).ix, init, id, now);
    } else {
      assert id in ix.hashes ==> h == ix.hashes[id];
      KeepOne(ix, q.ix, init, id, now);
    }
  }

  /** Resetting an expired, unvisited record extends the reset. */
  lemma ResetOne(ix: TicketIndex.Index, ix1: TicketIndex.Index, ix2: TicketIndex.Index, init: seq<Id>, id: Id, now: nat)
    requires TicketIndex.AllWellFormed(ix) && ResetUpTo(ix, ix1, init, now) && id !in init
    requires id in ix.hashes && Expired(ix.hashes[id], now)
    requires ix2.hashes == ix1.hashes[id := ResetHash(ix.hashes[id])]
    ensures ResetUpTo(ix, ix2, init + [id], now)
  {
    var ids := init + [id];
    forall j | j in ix.hashes
      ensures ix2.hashes[j] == AfterPass(ix.hashes[j], j in ids, now)
    {
      if j == id {
        assert j in ids && AfterPass(ix.hashes[j], true, now) == ResetHash(ix.hashes[j]);
      } else {
        assert (j in ids) == (j in init);
        assert ix2.hashes[j] == ix1.hashes[j];
      }
    }
  }

  /** Visiting a record that is not expired extends the reset unchanged. */
  lemma KeepOne(ix: TicketIndex.Index, ix1: TicketIndex.Index, init: seq<Id>, id: Id, now: nat)
    requires TicketIndex.AllWellFormed(ix) && ResetUpTo(ix, ix1, init, now) && id !in init
    requires id in ix.hashes ==> !Expired(ix.hashes[id], now)
    ensures ResetUpTo(ix, ix1, init + [id], now)
  {
    var ids := init + [id];
    forall j | j in ix.hashes
      ensures ix1.hashes[j] == AfterPass(ix.hashes[j], j in ids, now)
    {
      if j != id {
        assert (j in ids) == (j in init);
      }
    }
  }

  /** A pass without errors over distinct keys resets exactly the expired
      records it visits: they become "empty" with every other field kept,
      and every other record is left as it was. */
  lemma {:induction false} SweepResetsExpired(ix: TicketIndex.Index, ts: Tables, ids: seq<Id>, now: nat,
                                              failAt: nat -> nat, dbFault: nat -> bool)
    requires TicketIndex.AllWellFormed(ix) && SelfNamed(ix)
    requires forall i, j :: 0 <= i < j < |ids| ==> ids[i] != ids[j]
    requires forall i :: 0 <= i < |ids| ==> failAt(i) == 0
    ensures var r := SweepOf(Pass(ix, ts, false), ids, now, failAt, dbFault);
            !r.stopped && ResetUpTo(ix, r.ix, ids, now)
    decreases |ids|
  {
    if ids != [] {
      var n := |ids| - 1;
      var init := ids[..n];
      SweepResetsExpired(ix, ts, init, now, failAt, dbFault);
      var q := SweepOf(Pass(ix, ts, false), init, now, failAt, dbFault);
      assert ids == init + [ids[n]];
      VisitResets(ix, q, init, ids[n], now, dbFault(n));
    }
  }

  /** A pass keeps the index consistent unless an iteration's SREM or SADD
      throws (its fourth or fifth command): an error anywhere else leaves
      the sets matching the hashes. */
  lemma {:induction false} SweepKeepsIndexed(p: Pass, ids: seq<Id>, now: nat, failAt: nat -> nat, dbFault: nat -> bool)
    requires TicketIndex.AllWellFormed(p.ix) && TicketIndex.Indexed(p.ix)
    requires forall i :: 0 <= i < |ids| ==> failAt(i) != 4 && failAt(i) != 5
    ensures TicketIndex.Indexed(SweepOf(p, ids, now, failAt, dbFault).ix)
    decreases |ids|
  {
    if ids != [] {
      var n := |ids| - 1;
      SweepKeepsIndexed(p, ids[..n], now, failAt, dbFault);
      var q := SweepOf(p, ids[..n], now, failAt, dbFault);
      var h := TicketIndex.Existing(q.ix, ids[n]);
      if !q.stopped && failAt(n) != 1 && Expired(h, now) && h["ticket_id"] in q.ix.hashes {
        TicketIndex.HoldUpdatePreservesIndexed(q.ix, h["ticket_id"], ResetChanges, None);
        TicketIndex.HoldPartialIndexed(q.ix, h["ticket_id"], ResetChanges, None, UpdateFailAt(failAt(n)));
      }
    }
  }

  /** An iteration whose SREM throws leaves the index broken: the reset
      record reads "empty" but its id is still listed under "reserved" and
      missing from its region's free seats. */
  lemma ThrownAtSremBreaksIndex(ix: TicketIndex.Index, ts: Tables, id: Id, now: nat, dbFault: bool)
    requires TicketIndex.AllWellFormed(ix) && TicketIndex.Indexed(ix) && SelfNamed(ix)
    requires id in ix.hashes && Expired(ix.hashes[id], now)
    ensures var r := Visit(Pass(ix, ts, false), id, now, 4, dbFault);
            && r.stopped && r.ts == ts
            && r.ix.hashes[id]["status"] == "empty"
            && id !in TicketIndex.EmptySeats(r.ix, ix.hashes[id]["region_id"])
            && !TicketIndex.Indexed(r.ix)
  {
    var h := ix.hashes[id];
    var h' := TicketIndex.Rewritten(h, ResetChanges);
    var region := h["region_id"];
    assert h'["region_id"] == region && h'["status"] == "empty";
    TicketIndex.KeyLayout(region, "reserved", |region|);
    TicketIndex.KeyLayout(region, "empty", |region|);
    assert TicketIndex.IndexKey(h) != TicketIndex.IndexKey(h');
    assert TicketIndex.Moves(ix, id, ResetChanges);
    TicketIndex.HoldPartialIndexed(ix, id, ResetChanges, None, 3);
  }

  /** After a pass without errors over every key, nothing is expired any
      more. */
  lemma NoneExpiredAfterSweep(ix: TicketIndex.Index, ix': TicketIndex.Index, ids: seq<Id>, now: nat)
    requires TicketIndex.AllWellFormed(ix) && ResetUpTo(ix, ix', ids, now)
    requires forall x :: x in ix.hashes ==> x in ids
    ensures forall id :: !Expired(TicketIndex.Existing(ix', id), now)
  {
  }

  /** A pass over an index where nothing is expired changes nothing. */
  lemma {:induction false} SweepOfQuiet(p: Pass, ids: seq<Id>, now: nat, failAt: nat -> nat, dbFault: nat -> bool)
    requires TicketIndex.AllWellFormed(p.ix) && forall id :: !Expired(TicketIndex.Existing(p.ix, id), now)
    ensures SweepOf(p, ids, now, failAt, dbFault).ix == p.ix && SweepOf(p, ids, now, failAt, dbFault).ts == p.ts
    decreases |ids|
  {
    if ids != [] {
      SweepOfQuiet(p, ids[..|ids| - 1], now, failAt, dbFault);
    }
  }

  /** A second pass at the same clock, after a first one without errors,
      changes nothing. */
  lemma SecondSweepChangesNothing(ix: TicketIndex.Index, ts: Tables, ids: seq<Id>, ids2: seq<Id>, now: nat,
                                  failAt: nat -> nat, failAt2: nat -> nat, dbFault: nat -> bool, dbFault2: nat -> bool)
    requires TicketIndex.AllWellFormed(ix) && SelfNamed(ix)
    requires forall i, j :: 0 <= i < j < |ids| ==> ids[i] != ids[j]
    requires forall x :: x in ids <==> x in ix.hashes
    requires forall i :: 0 <= i < |ids| ==> failAt(i) == 0
    ensures var r := SweepOf(Pass(ix, ts, false), ids, now, failAt, dbFault);
            var r2 := SweepOf(r, ids2, now, failAt2, dbFault2);
            r2.ix == r.ix && r2.ts == r.ts
  {
    SweepResetsExpired(ix, ts, ids, now, failAt, dbFault);
    var r := SweepOf(Pass(ix, ts, false), ids, now, failAt, dbFault);
    NoneExpiredAfterSweep(ix, r.ix, ids, now);
    SweepOfQuiet(r, ids2, now, failAt2, dbFault2);
  }

  /** A hold that reserve stored at time t expires exactly when more than an
      hour has passed since t. */
  lemma ReservedHoldExpires(ix: TicketIndex.Index, id: string, user: string, env: Reservation.Env, now: nat)
    requires TicketIndex.AllWellFormed(ix) && id in ix.hashes && user != ""
    ensures Expired(Reservation.HoldAfter(Reservation.Reserve, ix, id, user, env).hashes[id], now)
            <==> now - env.now > HoldLimit
  {
    Reservation.StepEffect(Reservation.Reserve, ix, id, user, env);
    ParseNatToString(env.now);
  }

  /** Only "reserved" records are ever reset: the pass never touches a hash
      whose status is "empty" or "paid". */
  lemma OnlyReservedReset(ix: TicketIndex.Index, ix': TicketIndex.Index, ids: seq<Id>, now: nat, id: Id)
    requires TicketIndex.AllWellFormed(ix) && ResetUpTo(ix, ix', ids, now)
    requires id in ix.hashes && ix.hashes[id]["status"] != "reserved"
    ensures ix'.hashes[id] == ix.hashes[id]
  {
  }
}
