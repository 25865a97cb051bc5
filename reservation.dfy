/** The reservation routes: reserve one ticket, reserve the first free seat
    of a region, buy a reserved ticket and refund a bought one. Each step
    takes the ticket's lock, reads the hold record in Redis, checks its
    status and holder, rewrites the hold record and then the durable row,
    and releases the lock on the way out. */
module Reservation {
  import opened Util
  import opened Sql
  import opened Postgres
  import TicketIndex
  import TicketUpdate
  import Redlock

  /** A response the handler sends: status code and message. */
  datatype Reply = Reply(status: int, body: string)

  /** What reserveTicketFromId's promise settles to: false, the (truthy)
      response object, or nothing because a lock call never settles. */
  datatype Returned = False | Res | Pending

  /** The lock operations a handler performs, in order. */
  datatype LockStep = Acquired(key: string) | Released(key: string)

  /** Everything outside the stores that a request sees: the random lock
      token, the clock (ms), the lock servers' behaviour during acquire and
      release (see Redlock.Execute), the rendering of the clock that buy
      stores, and where Redis or Postgres fail: readFails makes the first
      HGETALL throw, writeFailAt numbers the command of the hold update
      that throws (as TicketIndex.TicketStore.UpdateHold counts them, 0 for
      none; a handler whose write is a single command throws at 1). */
  datatype Env = Env(token: string, now: nat, displayTime: string,
                     acquire: nat -> Redlock.Attempt, release: nat -> Redlock.Attempt, fuel: nat,
                     rollback: Redlock.Attempt, readFails: bool, writeFailAt: nat, dbFault: bool)

  const MissingParams := "Missing ticket_id or user_id"
  const NotAvailable := "Ticket is not available for reservation"
  const Reserved := "Ticket reserved successfully"
  const AlreadyLocked := "Resource is already locked"
  const NotPurchasable := "Ticket is not available for purchase"
  const Purchased := "Ticket purchased successfully"
  const NotRefundable := "Ticket is not eligible for a refund"
  const Refunded := "Ticket refunded successfully"
  const NoneAvailable := "No tickets available for reservation"
  const RedisFailure := "Redis command failed"
  const NotIterable := "ticketIdList is not iterable"

  /** The lock the routes take for a ticket: "lock:ticket:<id>". */
  function LockKey(id: string): string
  {
    "lock:" + TicketIndex.RedisKey(id)
  }

  /** Lock keys of different tickets differ. */
  lemma LockKeyInjective(a: string, b: string)
    ensures LockKey(a) == LockKey(b) ==> a == b
  {
    if LockKey(a) == LockKey(b) {
      assert TicketIndex.RedisKey(a) == LockKey(a)[5..];
      TicketIndex.RedisKeyInjective(a, b);
    }
  }

  /** The lock's time to live, 5000 ms. */
  const LockTtl := 5000.0

  /** The routes' Redlock: retryCount 10, retryDelay 200 ms. */
  const RouteLockSettings := Redlock.Customize(Redlock.PartialSettings(None, Some(10), Some(200), None, None))

  /** The retry count the routes' lock calls run with (they pass no
      per-call settings). */
  const RouteRetries := Redlock.Merge(RouteLockSettings, Redlock.NoSettings).retryCount

  /** The lock stores after a route's acquire of the ticket's lock. */
  function AcquiredStores(stores: seq<Redlock.Store>, id: string, env: Env): seq<Redlock.Store>
  {
    Redlock.AcquireStores(stores, [LockKey(id)], env.token, LockTtl.Floor, RouteRetries, env.acquire, env.fuel, env.rollback)
  }

  /** The lock stores after a route acquired the ticket's lock and then
      released it in its finally block. */
  function ReleasedStores(stores: seq<Redlock.Store>, id: string, env: Env): seq<Redlock.Store>
  {
    Redlock.AcquiredThenReleased(stores, [LockKey(id)], env.token, LockTtl.Floor, RouteRetries, env.acquire, env.release, env.fuel)
  }

  /** The ISO rendering of the clock that reserve stores as reserver_time;
      the model writes the millisecond count in decimal. */
  function IsoTime(now: nat): string
  {
    NatToString(now)
  }

  /** The three guarded steps. */
  datatype Step = Reserve | Buy | Refund

  /** Whether the hold record allows the step for this user: reserve needs
      "empty"; buy needs "reserved" and refund "paid", both held by the
      caller. An absent record has no fields and allows nothing. */
  predicate Allows(step: Step, h: TicketIndex.Hash, user: string)
  {
    match step
    case Reserve => TicketIndex.Get(h, "status") == Some("empty")
    case Buy => TicketIndex.Get(h, "status") == Some("reserved") && TicketIndex.Get(h, "user_id") == Some(user)
    case Refund => TicketIndex.Get(h, "status") == Some("paid") && TicketIndex.Get(h, "user_id") == Some(user)
  }

  /** The hold-record update of a step (user_id None is null). */
  function HoldChanges(step: Step, user: string): TicketIndex.Updates
  {
    match step
    case Reserve => TicketIndex.Updates(None, Some(user), Some("reserved"), None, None, None)
    case Buy => TicketIndex.Updates(None, None, Some("paid"), None, None, None)
    case Refund => TicketIndex.Updates(None, None, Some("empty"), None, None, None)
  }

  /** The reserver_time a step stores. */
  function HoldTime(step: Step, env: Env): string
  {
    match step
    case Reserve => IsoTime(env.now)
    case Buy => env.displayTime
    case Refund => "null"
  }

  /** The durable update of a step; the seat number is Number() of the
      stored one. */
  function DurableChanges(step: Step, id: string, user: string, h: TicketIndex.Hash, env: Env): TicketUpdate.Changes
  {
    var seat := JsNumber(TicketIndex.Get(h, "seat_number"));
    match step
    case Reserve => TicketUpdate.Changes(id, Some(Text(user)), Some(false), Some(seat), None)
    case Buy => TicketUpdate.Changes(id, Some(Text(user)), Some(true), Some(seat), Some(env.now))
    case Refund => TicketUpdate.Changes(id, Some(Null), Some(false), None, None)
  }

  /** The reply a failed check gives inside the lock, and the success reply. */
  function Refusal(step: Step): string
  {
    match step
    case Reserve => NotAvailable
    case Buy => NotPurchasable
    case Refund => NotRefundable
  }

  function Success(step: Step): string
  {
    match step
    case Reserve => Reserved
    case Buy => Purchased
    case Refund => Refunded
  }

  /** The reply the catch block sends for a thrown error: reserve tells an
      error named "LockError" apart (423), everything else is a 500 carrying
      the error's message. */
  function CatchReply(step: Step, name: string, message: string): Reply
  {
    if step == Reserve && name == "LockError" then Reply(423, AlreadyLocked) else Reply(500, message)
  }

  /** The message of a lock error as the catch block sees it. */
  function Message(e: Redlock.LockError): string
  {
    match e
    case NonIntegerDuration => "Duration must be an integer value in milliseconds."
    case ExecutionError(m, _) => m
  }

  /** The lock the routes use throws ExecutionError, never an error named
      "LockError", so the 423 branch is unreachable: lock contention is
      answered with 500. */
  lemma LockContentionAnswers500(step: Step, e: Redlock.LockError)
    ensures CatchReply(step, e.Name(), Message(e)) == Reply(500, Message(e))
  {
  }

  /** Whether the hold update of a step that passed its check throws part
      way, and the hold records it leaves behind in any case. */
  predicate WriteThrows(step: Step, ix: TicketIndex.Index, id: string, user: string, env: Env)
    requires TicketIndex.AllWellFormed(ix) && id in ix.hashes
  {
    TicketIndex.HoldThrows(ix, id, HoldChanges(step, user), Some(HoldTime(step, env)), env.writeFailAt)
  }

  function PartialAfter(step: Step, ix: TicketIndex.Index, id: string, user: string, env: Env): TicketIndex.Index
    requires TicketIndex.AllWellFormed(ix) && id in ix.hashes
  {
    TicketIndex.HoldPartial(ix, id, HoldChanges(step, user), Some(HoldTime(step, env)), env.writeFailAt)
  }

  /** The hold records went from ix to ix' through a step that passed its
      check and whose hold update then threw part way. */
  ghost predicate ThrewPartWay(step: Step, ix: TicketIndex.Index, id: string, user: string, env: Env, ix': TicketIndex.Index)
  {
    && TicketIndex.AllWellFormed(ix) && id in ix.hashes && Allows(step, ix.hashes[id], user)
    && WriteThrows(step, ix, id, user, env) && ix' == PartialAfter(step, ix, id, user, env)
  }

  /** A reserve whose update throws at the SREM leaves the ticket reserved
      in its hash but still listed among its region's free seats (the index
      key moves from "empty" to "reserved"), and the index no longer
      matches the hashes. */
  lemma ReserveThrownAtSremLeavesFreeSeat(ix: TicketIndex.Index, id: string, user: string, env: Env)
    requires TicketIndex.AllWellFormed(ix) && TicketIndex.Indexed(ix) && id in ix.hashes
    requires Allows(Reserve, ix.hashes[id], user) && user != "" && env.writeFailAt == 3
    ensures var ix' := PartialAfter(Reserve, ix, id, user, env);
            && ThrewPartWay(Reserve, ix, id, user, env, ix')
            && ix'.hashes[id]["status"] == "reserved"
            && id in TicketIndex.EmptySeats(ix', ix.hashes[id]["region_id"])
            && !TicketIndex.Indexed(ix')
  {
    var u := HoldChanges(Reserve, user);
    var h := ix.hashes[id];
    var h' := TicketIndex.Rewritten(h, u);
    assert h'["status"] == "reserved";
    var region := h["region_id"];
    assert h'["region_id"] == region;
    TicketIndex.KeyLayout(region, "empty", |region|);
    TicketIndex.KeyLayout(region, "reserved", |region|);
    assert TicketIndex.IndexKey(h) != TicketIndex.IndexKey(h');
    assert TicketIndex.Moves(ix, id, u);
    TicketIndex.HoldPartialIndexed(ix, id, u, Some(HoldTime(Reserve, env)), env.writeFailAt);
  }

  /** How the guarded part ends before the lock is released. */
  datatype Body = Normal(ret: Returned, replies: seq<Reply>) | Throws(message: string)

  /** The Redis and Postgres effects of a step that passed its check. */
  function HoldAfter(step: Step, ix: TicketIndex.Index, id: string, user: string, env: Env): TicketIndex.Index
    requires TicketIndex.AllWellFormed(ix) && id in ix.hashes
  {
    TicketIndex.HoldUpdate(ix, id, HoldChanges(step, user), Some(HoldTime(step, env)))
  }

  /** A candidate of the region scan: an id from the Redis set, or a ticket
      row from the fallback query, which the scan uses as if it were an id. */
  datatype Candidate = IdOf(id: string) | RowObject

  /** The id text a candidate gives the key template. */
  function KeyText(c: Candidate): string
  {
    if c.IdOf? then c.id else "[object Object]"
  }

  /** A candidate's truthiness: a row object is always truthy. */
  predicate CandidateTruthy(c: Candidate)
  {
    c.RowObject? || c.id != ""
  }

  /** A candidate's attempt answered false: its id or the user is falsy,
      or the hold record read without error and did not allow a reserve. */
  ghost predicate Declined(c: Candidate, user: string, e: Env, ix: TicketIndex.Index)
  {
    || !CandidateTruthy(c) || user == ""
    || (!e.readFails && !Allows(Reserve, TicketIndex.Existing(ix, KeyText(c)), user))
  }

  /** The unpaid tickets of a region, as listTicketsByRegion(region, false)
      selects them. */
  function UnpaidInRegion(rows: Rows, region: string): set<Id>
  {
    set id | id in rows && "region_id" in rows[id] && rows[id]["region_id"] == Text(region)
                        && "is_paid" in rows[id] && rows[id]["is_paid"] == Bool(false)
  }

  /** The forms the guarded part ends in. */
  predicate Shaped(step: Step, b: Body)
  {
    || b.Throws?
    || b == Normal(Res, [Reply(200, Success(step))])
    || (step == Reserve && b == Normal(False, [Reply(400, NotAvailable)]))
  }

  /** How the handler ends once the lock release has settled: a release that
      never settles leaves the handler pending after what the guarded part
      sent; a release that throws adds the catch block's reply and makes the
      result the response object; otherwise a throw of the guarded part is
      answered by the catch block. */
  function Settle(step: Step, b: Body, released: Redlock.Result): (r: (Returned, seq<Reply>))
    requires Shaped(step, b)
    ensures forall i :: 0 <= i < |r.1| ==> r.1[i].status != 404
    ensures r.0 == False ==> r.1 == [Reply(400, NotAvailable)] && b == Normal(False, [Reply(400, NotAvailable)])
    ensures step != Reserve ==> r.0 != False
    ensures Reply(200, Success(step)) in r.1 <==> b == Normal(Res, [Reply(200, Success(step))])
    ensures released.Thrown? ==> r.0 == Res && |r.1| > 0 && r.1[|r.1| - 1].status == 500
  {
    var done := if b.Normal? then b.replies else [];
    match released
    case NeverReturns => (Pending, done)
    case Thrown(e) => (Res, done + [CatchReply(step, e.Name(), Message(e))])
    case Done(_) => if b.Throws? then (Res, [CatchReply(step, "Error", b.message)]) else (b.ret, b.replies)
  }

  class TicketRoutes {
    const redis: TicketIndex.TicketStore
    const redlock: Redlock.Redlock
    const db: Database

    ghost predicate Valid()
      reads this, redis, db
    {
      redis.Valid() && db.Valid() && redlock.Valid() && redlock.settings == RouteLockSettings
    }

    constructor (redis: TicketIndex.TicketStore, redlock: Redlock.Redlock, db: Database)
      requires redis.Valid() && db.Valid() && redlock.Valid() && redlock.settings == RouteLockSettings
      ensures Valid() && this.redis == redis && this.redlock == redlock && this.db == db
    {
      this.redis := redis;
      this.redlock := redlock;
      this.db := db;
    }

    /** The part that runs while the lock is held: read the hold record,
        check it, then write the hold record and the durable row. */
    method Guarded(step: Step, id: string, user: string, env: Env) returns (b: Body)
      requires Valid()
      modifies redis, db
      ensures Valid() && Shaped(step, b)
      ensures env.readFails ==> b == Throws(RedisFailure)
      ensures !env.readFails && !Allows(step, old(redis.HGetAll(id)), user) ==>
                b == (if step == Reserve then Normal(False, [Reply(400, NotAvailable)]) else Throws(Refusal(step)))
      ensures !env.readFails && Allows(step, old(redis.HGetAll(id)), user) ==>
                && id in old(redis.hashes)
                && redis.State() == PartialAfter(step, old(redis.State()), id, user, env)
                && (WriteThrows(step, old(redis.State()), id, user, env) ==>
                      b == Throws(RedisFailure) && db.tables == old(db.tables))
                && (!WriteThrows(step, old(redis.State()), id, user, env) ==>
                      && b == Normal(Res, [Reply(200, Success(step))])
                      && redis.State() == HoldAfter(step, old(redis.State()), id, user, env)
                      && db.tables == TicketUpdate.Committed(old(db.tables),
                                                             DurableChanges(step, id, user, old(redis.HGetAll(id)), env), env.dbFault))
      ensures b != Normal(Res, [Reply(200, Success(step))]) ==>
                && db.tables == old(db.tables)
                && (redis.State() == old(redis.State()) || ThrewPartWay(step, old(redis.State()), id, user, env, redis.State()))
    {
      if env.readFails {
        return Throws(RedisFailure);
      }
      var h := redis.HGetAll(id);
      if !Allows(step, h, user) {
        if step == Reserve {
          return Normal(False, [Reply(400, NotAvailable)]);
        }
        return Throws(Refusal(step));
      }
      assert id in redis.hashes;
      var ok := redis.UpdateHold(id, HoldChanges(step, user), Some(HoldTime(step, env)), env.writeFailAt);
      if !ok {
        return Throws(RedisFailure);
      }
      // updateTicket answers an error object instead of throwing; the
      // handler ignores what it answers.
      var _ := TicketUpdate.UpdateTicket(db, DurableChanges(step, id, user, h, env), env.dbFault);
      b := Normal(Res, [Reply(200, Success(step))]);
    }

    /** Lock, run the guarded part, release in finally, answer from catch.
        A release that throws replaces whatever the guarded part did. */
    method Locked(step: Step, id: string, user: string, env: Env)
      returns (ret: Returned, replies: seq<Reply>, steps: seq<LockStep>)
      requires Valid()
      modifies redis, db, redlock.clients
      ensures Valid()
      ensures steps == [] || steps == [Acquired(LockKey(id)), Released(LockKey(id))]
      ensures forall i :: 0 <= i < |replies| ==> replies[i].status != 404
      ensures steps == [] ==> redis.State() == old(redis.State()) && db.tables == old(db.tables)
      ensures steps == [] ==> ret == Pending || (ret == Res && |replies| == 1 && replies[0].status == 500)
      ensures ret == False ==> replies == [Reply(400, NotAvailable)] && step == Reserve
                               && redis.State() == old(redis.State()) && db.tables == old(db.tables)
      ensures step != Reserve ==> ret != False
      ensures Reply(200, Success(step)) in replies ==>
                && steps != []
                && id in old(redis.hashes) && Allows(step, old(redis.HGetAll(id)), user)
                && redis.State() == HoldAfter(step, old(redis.State()), id, user, env)
                && db.tables == TicketUpdate.Committed(old(db.tables),
                                                       DurableChanges(step, id, user, old(redis.HGetAll(id)), env), env.dbFault)
      ensures Reply(200, Success(step)) !in replies ==>
                && db.tables == old(db.tables)
                && (redis.State() == old(redis.State()) || ThrewPartWay(step, old(redis.State()), id, user, env, redis.State()))
      ensures ret == False ==> !env.readFails && !Allows(step, old(redis.HGetAll(id)), user)
      ensures steps == [] ==> redlock.Stores() == AcquiredStores(old(redlock.Stores()), id, env)
      ensures steps != [] ==> redlock.Stores() == ReleasedStores(old(redlock.Stores()), id, env)
    {
      steps := [];
      var lock, acquired := redlock.Acquire([LockKey(id)], LockTtl, Redlock.NoSettings, env.token, env.now,
                                            env.acquire, env.fuel, env.rollback);
      if lock == null {
        if acquired.Thrown? {
          return Res, [CatchReply(step, acquired.error.Name(), Message(acquired.error))], steps;
        }
        return Pending, [], steps;
      }
      ret, replies := GuardedThenRelease(step, id, user, env, lock);
      steps := [Acquired(LockKey(id)), Released(LockKey(id))];
    }

    /** The try block and its finally, once the lock is held: the guarded
        part, then the release, then the answer. */
    method GuardedThenRelease(step: Step, id: string, user: string, env: Env, lock: Redlock.Lock)
      returns (ret: Returned, replies: seq<Reply>)
      requires Valid() && lock.resources == [LockKey(id)] && lock.value == env.token
      modifies redis, db, redlock.clients, lock
      ensures Valid()
      ensures lock.expiration == 0
      ensures redlock.Stores() == Redlock.Exec(old(redlock.Stores()), Redlock.ReleaseScript, [LockKey(id)], env.token, 0,
                                               RouteRetries, env.release, env.fuel).0
      ensures ret == False ==> !env.readFails && !Allows(step, old(redis.HGetAll(id)), user)
      ensures forall i :: 0 <= i < |replies| ==> replies[i].status != 404
      ensures ret == False ==> replies == [Reply(400, NotAvailable)] && step == Reserve
                               && redis.State() == old(redis.State()) && db.tables == old(db.tables)
      ensures step != Reserve ==> ret != False
      ensures Reply(200, Success(step)) in replies ==>
                && id in old(redis.hashes) && Allows(step, old(redis.HGetAll(id)), user)
                && redis.State() == HoldAfter(step, old(redis.State()), id, user, env)
                && db.tables == TicketUpdate.Committed(old(db.tables),
                                                       DurableChanges(step, id, user, old(redis.HGetAll(id)), env), env.dbFault)
      ensures Reply(200, Success(step)) !in replies ==>
                && db.tables == old(db.tables)
                && (redis.State() == old(redis.State()) || ThrewPartWay(step, old(redis.State()), id, user, env, redis.State()))
    {
      var b := Guarded(step, id, user, env);
      var released := redlock.Release(lock, Redlock.NoSettings, env.release, env.fuel);
      ret, replies := Settle(step, b, released).0, Settle(step, b, released).1;
    }

    /** reserveTicketFromId: a falsy id or user is refused before any lock is
        taken. */
    method ReserveFromId(id: string, idTruthy: bool, user: string, env: Env)
      returns (ret: Returned, replies: seq<Reply>, steps: seq<LockStep>)
      requires Valid()
      modifies redis, db, redlock.clients
      ensures Valid()
      ensures !idTruthy || user == "" ==>
                && ret == False && replies == [Reply(400, MissingParams)] && steps == []
                && redis.State() == old(redis.State()) && db.tables == old(db.tables)
                && redlock.Stores() == old(redlock.Stores())
      ensures steps == [] || steps == [Acquired(LockKey(id)), Released(LockKey(id))]
      ensures forall i :: 0 <= i < |replies| ==> replies[i].status != 404
      ensures ret == False ==> redis.State() == old(redis.State()) && db.tables == old(db.tables)
      ensures ret == False ==>
                || (replies == [Reply(400, MissingParams)] && (!idTruthy || user == ""))
                || (replies == [Reply(400, NotAvailable)] && !env.readFails && !Allows(Reserve, old(redis.HGetAll(id)), user))
      ensures Reply(200, Reserved) in replies ==>
                && steps != []
                && id in old(redis.hashes) && old(redis.hashes)[id]["status"] == "empty"
                && redis.State() == HoldAfter(Reserve, old(redis.State()), id, user, env)
                && db.tables == TicketUpdate.Committed(old(db.tables),
                                                       DurableChanges(Reserve, id, user, old(redis.HGetAll(id)), env), env.dbFault)
      ensures Reply(200, Reserved) !in replies ==>
                && db.tables == old(db.tables)
                && (redis.State() == old(redis.State()) || ThrewPartWay(Reserve, old(redis.State()), id, user, env, redis.State()))
      ensures idTruthy && user != "" && steps == [] ==> redlock.Stores() == AcquiredStores(old(redlock.Stores()), id, env)
      ensures steps != [] ==> redlock.Stores() == ReleasedStores(old(redlock.Stores()), id, env)
    {
      if !idTruthy || user == "" {
        return False, [Reply(400, MissingParams)], [];
      }
      ret, replies, steps := Locked(Reserve, id, user, env);
    }

    /** POST /buyTicket. */
    method BuyTicket(id: string, idTruthy: bool, user: string, env: Env)
      returns (replies: seq<Reply>, steps: seq<LockStep>)
      requires Valid()
      modifies redis, db, redlock.clients
      ensures Valid()
      ensures !idTruthy || user == "" ==>
                && replies == [Reply(400, MissingParams)] && steps == []
                && redis.State() == old(redis.State()) && db.tables == old(db.tables)
                && redlock.Stores() == old(redlock.Stores())
      ensures steps == [] || steps == [Acquired(LockKey(id)), Released(LockKey(id))]
      ensures Reply(200, Purchased) in replies ==>
                && steps != []
                && id in old(redis.hashes) && old(redis.hashes)[id]["status"] == "reserved"
                && old(redis.hashes)[id]["user_id"] == user
                && redis.State() == HoldAfter(Buy, old(redis.State()), id, user, env)
                && db.tables == TicketUpdate.Committed(old(db.tables),
                                                       DurableChanges(Buy, id, user, old(redis.HGetAll(id)), env), env.dbFault)
      ensures Reply(200, Purchased) !in replies ==>
                && db.tables == old(db.tables)
                && (redis.State() == old(redis.State()) || ThrewPartWay(Buy, old(redis.State()), id, user, env, redis.State()))
      ensures idTruthy && user != "" && steps == [] ==> redlock.Stores() == AcquiredStores(old(redlock.Stores()), id, env)
      ensures steps != [] ==> redlock.Stores() == ReleasedStores(old(redlock.Stores()), id, env)
    {
      if !idTruthy || user == "" {
        return [Reply(400, MissingParams)], [];
      }
      var _, rs, ss := Locked(Buy, id, user, env);
      replies, steps := rs, ss;
    }

    /** POST /refundTicket. */
    method RefundTicket(id: string, idTruthy: bool, user: string, env: Env)
      returns (replies: seq<Reply>, steps: seq<LockStep>)
      requires Valid()
      modifies redis, db, redlock.clients
      ensures Valid()
      ensures !idTruthy || user == "" ==>
                && replies == [Reply(400, MissingParams)] && steps == []
                && redis.State() == old(redis.State()) && db.tables == old(db.tables)
                && redlock.Stores() == old(redlock.Stores())
      ensures steps == [] || steps == [Acquired(LockKey(id)), Released(LockKey(id))]
      ensures Reply(200, Refunded) in replies ==>
                && steps != []
                && id in old(redis.hashes) && old(redis.hashes)[id]["status"] == "paid"
                && old(redis.hashes)[id]["user_id"] == user
                && redis.State() == HoldAfter(Refund, old(redis.State()), id, user, env)
                && db.tables == TicketUpdate.Committed(old(db.tables),
                                                       DurableChanges(Refund, id, user, old(redis.HGetAll(id)), env), env.dbFault)
      ensures Reply(200, Refunded) !in replies ==>
                && db.tables == old(db.tables)
                && (redis.State() == old(redis.State()) || ThrewPartWay(Refund, old(redis.State()), id, user, env, redis.State()))
      ensures idTruthy && user != "" && steps == [] ==> redlock.Stores() == AcquiredStores(old(redlock.Stores()), id, env)
      ensures steps != [] ==> redlock.Stores() == ReleasedStores(old(redlock.Stores()), id, env)
    {
      if !idTruthy || user == "" {
        return [Reply(400, MissingParams)], [];
      }
      var _, rs, ss := Locked(Refund, id, user, env);
      replies, steps := rs, ss;
    }

    /** POST /reserveTicket: the region's free seats from Redis, or, when
        there are none, the region's unpaid rows from Postgres, tried in
        order until one attempt returns something truthy or a second
        attempt replies on the response a refused one already sent. */
    method ReserveInRegion(region: string, user: string, env: Env, tries: nat -> Env, listFails: bool)
      returns (replies: seq<Reply>, late: seq<Reply>, candidates: seq<Candidate>, results: seq<Returned>)
      requires Valid()
      modifies redis, db, redlock.clients
      ensures Valid()
      ensures env.readFails ==> replies == [Reply(500, RedisFailure)] && late == [] && results == []
                                && redis.State() == old(redis.State()) && db.tables == old(db.tables)
      ensures !env.readFails && TicketIndex.EmptySeats(old(redis.State()), region) != {} ==>
                && (forall c :: c in candidates <==> c.IdOf? && c.id in TicketIndex.EmptySeats(old(redis.State()), region))
                && |candidates| == |TicketIndex.EmptySeats(old(redis.State()), region)|
      ensures !env.readFails && TicketIndex.EmptySeats(old(redis.State()), region) == {} && listFails ==>
                replies == [Reply(500, NotIterable)] && late == [] && results == [] && db.tables == old(db.tables)
      ensures !env.readFails && TicketIndex.EmptySeats(old(redis.State()), region) == {} && !listFails ==>
                candidates == seq(|UnpaidInRegion(old(db.Rows(Tickets)), region)|, _ => RowObject)
      ensures |results| <= |candidates| && |results| <= 2
      ensures |results| == 2 <==> |results| > 0 && results[0] == False && |candidates| >= 2
      ensures forall j :: 0 <= j < |results| - 1 ==> results[j] == False
      ensures (forall j :: 0 <= j < |results| ==> results[j] == False) ==>
                redis.State() == old(redis.State()) && db.tables == old(db.tables)
      ensures Reply(404, NoneAvailable) in replies <==>
                !env.readFails && !(listFails && TicketIndex.EmptySeats(old(redis.State()), region) == {})
                && |candidates| == 0
      ensures |results| == 2 ==> replies == [Reply(400, MissingParams)] || replies == [Reply(400, NotAvailable)]
      ensures forall j :: 0 <= j < |results| && results[j] == False ==>
                Declined(candidates[j], user, tries(j), old(redis.State()))
      ensures Reply(200, Reserved) in replies ==> |results| == 1
      ensures Reply(200, Reserved) in late ==> |results| == 2
      ensures Reply(200, Reserved) in replies || Reply(200, Reserved) in late ==>
                && |results| > 0
                && var last, e := KeyText(candidates[|results| - 1]), tries(|results| - 1);
                && CandidateTruthy(candidates[|results| - 1])
                && last in old(redis.hashes) && old(redis.hashes)[last]["status"] == "empty"
                && redis.State() == HoldAfter(Reserve, old(redis.State()), last, user, e)
                && db.tables == TicketUpdate.Committed(old(db.tables),
                                                       DurableChanges(Reserve, last, user, old(redis.HGetAll(last)), e), e.dbFault)
      ensures Reply(200, Reserved) !in replies && Reply(200, Reserved) !in late ==>
                && db.tables == old(db.tables)
                && (|| redis.State() == old(redis.State())
                    || (|results| > 0 && ThrewPartWay(Reserve, old(redis.State()), KeyText(candidates[|results| - 1]), user,
                                                      tries(|results| - 1), redis.State())))
    {
      if env.readFails {
        return [Reply(500, RedisFailure)], [], [], [];
      }
      var listed;
      candidates, listed := Candidates(region, listFails);
      if !listed {
        return [Reply(500, NotIterable)], [], candidates, [];
      }
      replies, late, results := TryInOrder(candidates, user, tries);
    }

    /** The list the scan walks: the region's free seats, or, when there are
        none, the region's unpaid rows; listed is false when that fallback
        query fails and the loop has nothing to iterate. */
    method Candidates(region: string, listFails: bool) returns (candidates: seq<Candidate>, listed: bool)
      ensures listed <==> !(TicketIndex.EmptySeats(redis.State(), region) == {} && listFails)
      ensures TicketIndex.EmptySeats(redis.State(), region) != {} ==>
                && (forall c :: c in candidates <==> c.IdOf? && c.id in TicketIndex.EmptySeats(redis.State(), region))
                && |candidates| == |TicketIndex.EmptySeats(redis.State(), region)|
      ensures TicketIndex.EmptySeats(redis.State(), region) == {} && !listFails ==>
                candidates == seq(|UnpaidInRegion(db.Rows(Tickets), region)|, _ => RowObject)
    {
      var ids := redis.ReadRegion(region);
      candidates, listed := seq(|ids|, i requires 0 <= i < |ids| => IdOf(ids[i])), true;
      if |ids| == 0 {
        if listFails {
          return candidates, false;
        }
        candidates := seq(|UnpaidInRegion(db.Rows(Tickets), region)|, _ => RowObject);
      } else {
        forall c ensures c in candidates <==> c.IdOf? && c.id in ids {
          if c.IdOf? && c.id in ids {
            var k :| 0 <= k < |ids| && ids[k] == c.id;
            assert candidates[k] == c;
          }
        }
        IdsCount(ids, TicketIndex.EmptySeats(redis.State(), region));
      }
    }

    /** The scan's loop: reserveTicketFromId on each candidate in turn,
        stopping at the first truthy result, then 404 if none was. Every
        false result has already answered its 400, so after one the
        response is sent: the next attempt still takes its lock, reads and
        writes, but its first reply throws ERR_HTTP_HEADERS_SENT, the
        catch block's reply throws again, and so does the route's catch,
        which ends the handler. The loop therefore runs at most twice and is
        written out that way. replies is what reaches the client; late is
        what the handler tries to answer after that: the second attempt's
        replies, or the 404 after a single refused candidate. */
    method TryInOrder(candidates: seq<Candidate>, user: string, tries: nat -> Env)
      returns (replies: seq<Reply>, late: seq<Reply>, results: seq<Returned>)
      requires Valid()
      modifies redis, db, redlock.clients
      ensures Valid()
      ensures |results| <= |candidates| && |results| <= 2
      ensures |candidates| > 0 ==> |results| > 0
      ensures |results| == 2 <==> |results| > 0 && results[0] == False && |candidates| >= 2
      ensures forall j :: 0 <= j < |results| - 1 ==> results[j] == False
      ensures (forall j :: 0 <= j < |results| ==> results[j] == False) ==>
                redis.State() == old(redis.State()) && db.tables == old(db.tables)
      ensures Reply(404, NoneAvailable) in replies <==> |candidates| == 0
      ensures |candidates| == 0 ==> replies == [Reply(404, NoneAvailable)] && late == []
      ensures |candidates| == 1 && results == [False] ==> late == [Reply(404, NoneAvailable)]
      ensures late != [] ==> results[0] == False
      ensures |results| == 2 ==> replies == [Reply(400, MissingParams)] || replies == [Reply(400, NotAvailable)]
      ensures forall j :: 0 <= j < |results| && results[j] == False ==>
                Declined(candidates[j], user, tries(j), old(redis.State()))
      ensures Reply(200, Reserved) in replies ==> |results| == 1
      ensures Reply(200, Reserved) in late ==> |results| == 2
      ensures Reply(200, Reserved) in replies || Reply(200, Reserved) in late ==>
                && |results| > 0
                && var last, e := KeyText(candidates[|results| - 1]), tries(|results| - 1);
                && CandidateTruthy(candidates[|results| - 1])
                && last in old(redis.hashes) && old(redis.hashes)[last]["status"] == "empty"
                && redis.State() == HoldAfter(Reserve, old(redis.State()), last, user, e)
                && db.tables == TicketUpdate.Committed(old(db.tables),
                                                       DurableChanges(Reserve, last, user, old(redis.HGetAll(last)), e), e.dbFault)
      ensures Reply(200, Reserved) !in replies && Reply(200, Reserved) !in late ==>
                && db.tables == old(db.tables)
                && (|| redis.State() == old(redis.State())
                    || (|results| > 0 && ThrewPartWay(Reserve, old(redis.State()), KeyText(candidates[|results| - 1]), user,
                                                      tries(|results| - 1), redis.State())))
    {
      replies, late, results := [], [], [];
      if |candidates| == 0 {
        replies := [Reply(404, NoneAvailable)];
        return;
      }
      var r, rs, _ := ReserveFromId(KeyText(candidates[0]), CandidateTruthy(candidates[0]), user, tries(0));
      replies, results := rs, [r];
      if r != False {
        assert results[0] != False;
        return;
      }
      if |candidates| == 1 {
        late := [Reply(404, NoneAvailable)];
        return;
      }
      var r1, rs1, _ := ReserveFromId(KeyText(candidates[1]), CandidateTruthy(candidates[1]), user, tries(1));
      late, results := rs1, [r, r1];
      if r1 != False {
        assert results[1] != False;
      }
    }
  }

  /** Distinct ids that are exactly the members of a set number as many as
      the set. */
  lemma IdsCount(ids: seq<string>, s: set<string>)
    requires forall x :: x in ids <==> x in s
    requires forall i, j :: 0 <= i < j < |ids| ==> ids[i] != ids[j]
    ensures |ids| == |s|
  {
    if ids != [] {
      var last := ids[|ids| - 1];
      var init := ids[..|ids| - 1];
      assert forall x :: x in init <==> x in s - {last};
      IdsCount(init, s - {last});
    }
  }

  /** The status each step leaves behind. */
  function Target(step: Step): string
  {
    match step
    case Reserve => "reserved"
    case Buy => "paid"
    case Refund => "empty"
  }

  /** A step sets the status and the reserver time; reserve makes the
      caller the holder, buy and refund leave the holder as it was (refund
      passes a null holder, which the update ignores); the ticket's other
      fields, and every other ticket, are kept. */
  lemma StepEffect(step: Step, ix: TicketIndex.Index, id: string, user: string, env: Env)
    requires TicketIndex.AllWellFormed(ix) && id in ix.hashes && user != ""
    ensures var h, h' := ix.hashes[id], HoldAfter(step, ix, id, user, env).hashes[id];
            && h'["status"] == Target(step)
            && h'["reserver_time"] == HoldTime(step, env)
            && h'["user_id"] == (if step == Reserve then user else h["user_id"])
            && h'["ticket_id"] == h["ticket_id"] && h'["region_id"] == h["region_id"]
            && h'["activity_id"] == h["activity_id"] && h'["seat_number"] == h["seat_number"]
    ensures forall j :: j != id ==>
              (j in HoldAfter(step, ix, id, user, env).hashes <==> j in ix.hashes)
              && (j in ix.hashes ==> HoldAfter(step, ix, id, user, env).hashes[j] == ix.hashes[j])
  {
  }

  /** From "empty", reserve, buy and refund by the same user bring the
      ticket back to "empty", each step allowed by the previous one; buying
      or refunding as anyone else is refused at every point. The holder
      survives the refund. */
  lemma HoldCycle(ix: TicketIndex.Index, id: string, user: string, other: string, e1: Env, e2: Env, e3: Env)
    requires TicketIndex.AllWellFormed(ix) && TicketIndex.Indexed(ix) && id in ix.hashes
    requires Allows(Reserve, ix.hashes[id], user) && user != "" && other != user
    ensures var ix1 := HoldAfter(Reserve, ix, id, user, e1);
            var ix2 := HoldAfter(Buy, ix1, id, user, e2);
            var ix3 := HoldAfter(Refund, ix2, id, user, e3);
            && Allows(Buy, ix1.hashes[id], user) && !Allows(Buy, ix1.hashes[id], other)
            && !Allows(Refund, ix1.hashes[id], user)
            && Allows(Refund, ix2.hashes[id], user) && !Allows(Refund, ix2.hashes[id], other)
            && !Allows(Buy, ix2.hashes[id], user) && !Allows(Reserve, ix2.hashes[id], other)
            && Allows(Reserve, ix3.hashes[id], other) && ix3.hashes[id]["user_id"] == user
            && TicketIndex.Indexed(ix3)
  {
    var ix1 := HoldAfter(Reserve, ix, id, user, e1);
    StepEffect(Reserve, ix, id, user, e1);
    TicketIndex.HoldUpdatePreservesIndexed(ix, id, HoldChanges(Reserve, user), Some(HoldTime(Reserve, e1)));
    var ix2 := HoldAfter(Buy, ix1, id, user, e2);
    StepEffect(Buy, ix1, id, user, e2);
    TicketIndex.HoldUpdatePreservesIndexed(ix1, id, HoldChanges(Buy, user), Some(HoldTime(Buy, e2)));
    StepEffect(Refund, ix2, id, user, e3);
    TicketIndex.HoldUpdatePreservesIndexed(ix2, id, HoldChanges(Refund, user), Some(HoldTime(Refund, e3)));
  }
}
