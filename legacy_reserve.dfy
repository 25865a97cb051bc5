/** The older reserve-only handler: lock "lock:ticket:<id>" for ten
    seconds, read the hash, refuse unless its status is "empty", and
    otherwise write it back with status "reserved", the holder and the time.
    It rewrites the hash alone and never touches the index sets. */
module LegacyReserve {
  import opened Util
  import TicketIndex
  import Redlock
  import opened Reservation

  const Required := "ticket_id and user_id are required"
  const Unavailable := "Ticket is not available"
  const ReservedOk := "Ticket reserved successfully"
  const LockBusy := "Could not acquire lock, please try again"
  const InternalError := "Internal Server Error"

  /** This handler's Redlock: retryCount 5, retryDelay 200 ms. */
  const LegacyLockSettings := Redlock.Customize(Redlock.PartialSettings(None, Some(5), Some(200), None, None))

  /** The lock's time to live, 10 seconds. */
  const LegacyLockTtl := 10000.0

  /** The retry count this handler's lock calls run with. */
  const LegacyRetries := Redlock.Merge(LegacyLockSettings, Redlock.NoSettings).retryCount

  /** The catch block: 423 for an error named "LockError", 500 otherwise. */
  function LegacyCatch(name: string): (r: Reply)
    ensures r.status == 423 <==> name == "LockError"
    ensures r.status != 423 ==> r == Reply(500, InternalError)
  {
    if name == "LockError" then Reply(423, LockBusy) else Reply(500, InternalError)
  }

  /** The lock throws errors named "Error" or "ExecutionError", so the 423
      branch is never taken. */
  lemma LegacyLockContentionAnswers500(e: Redlock.LockError)
    ensures LegacyCatch(e.Name()) == Reply(500, InternalError)
  {
  }

  /** The availability test: HGETALL answers an object even for an absent key, and an
      object is truthy, so only the status decides. */
  predicate Available(h: TicketIndex.Hash)
  {
    TicketIndex.Get(h, "status") == Some("empty")
  }

  /** The HMSET argument: every stored field, then status, holder and time. */
  function Reserving(h: TicketIndex.Hash, user: string, time: string): (r: TicketIndex.Hash)
    ensures r.Keys == h.Keys + {"status", "user_id", "reserver_time"}
    ensures r["status"] == "reserved" && r["user_id"] == user && r["reserver_time"] == time
    ensures forall f :: f in h && f != "status" && f != "user_id" && f != "reserver_time" ==> r[f] == h[f]
  {
    h["status" := "reserved"]["user_id" := user]["reserver_time" := time]
  }

  /** The keyspace after a successful reserve: the hash rewritten, the sets
      as they were. */
  function LegacyReserved(ix: TicketIndex.Index, id: string, user: string, time: string): TicketIndex.Index
  {
    var h := TicketIndex.Existing(ix, id);
    ix.(hashes := ix.hashes[id := h + Reserving(h, user, time)])
  }

  /** The rewritten hash holds the caller as "reserved" at the given time;
      every other field and every other ticket is kept, and no index set
      changes. */
  lemma LegacyReserveEffect(ix: TicketIndex.Index, id: string, user: string, time: string)
    requires id in ix.hashes
    ensures var h, r := ix.hashes[id], LegacyReserved(ix, id, user, time);
            && r.sets == ix.sets && r.hashes.Keys == ix.hashes.Keys
            && r.hashes[id]["status"] == "reserved" && r.hashes[id]["user_id"] == user
            && r.hashes[id]["reserver_time"] == time
            && (forall f :: f in h && f != "status" && f != "user_id" && f != "reserver_time" ==> r.hashes[id][f] == h[f])
            && (forall j :: j in ix.hashes && j != id ==> r.hashes[j] == ix.hashes[j])
  {
  }

  /** Since the sets are left alone, the reserved ticket is still listed
      among its region's free seats and the index no longer matches the
      hashes. */
  lemma LegacyReserveLeavesIndexStale(ix: TicketIndex.Index, id: string, user: string, time: string)
    requires TicketIndex.AllWellFormed(ix) && TicketIndex.Indexed(ix)
    requires id in ix.hashes && Available(ix.hashes[id])
    ensures id in TicketIndex.EmptySeats(LegacyReserved(ix, id, user, time), ix.hashes[id]["region_id"])
    ensures !TicketIndex.Indexed(LegacyReserved(ix, id, user, time))
  {
    var h := ix.hashes[id];
    var r := LegacyReserved(ix, id, user, time);
    var emptyKey := TicketIndex.RegionStatusKey(Some(h["region_id"]), Some("empty"));
    assert TicketIndex.IndexKey(h) == emptyKey;
    assert id in TicketIndex.Members(ix.sets, emptyKey);
    assert emptyKey in r.sets && id in r.sets[emptyKey];
    var newKey := TicketIndex.IndexKey(r.hashes[id]);
    assert newKey == TicketIndex.RegionStatusKey(Some(h["region_id"]), Some("reserved"));
    assert |newKey| != |emptyKey|;
  }

  class LegacyRoute {
    const redis: TicketIndex.TicketStore
    const redlock: Redlock.Redlock

    ghost predicate Valid()
      reads this, redis
    {
      redis.Valid() && redlock.Valid() && redlock.settings == LegacyLockSettings
    }

    constructor (redis: TicketIndex.TicketStore, redlock: Redlock.Redlock)
      requires redis.Valid() && redlock.Valid() && redlock.settings == LegacyLockSettings
      ensures Valid() && this.redis == redis && this.redlock == redlock
    {
      this.redis := redis;
      this.redlock := redlock;
    }

    /** The inner try: HGETALL, the status check, HMSET. It answers what it
        sent and whether it threw. env.readFails makes HGETALL throw, and
        env.writeFailAt == 1 the HMSET. */
    method Inner(id: string, user: string, env: Env) returns (sent: seq<Reply>, threw: bool)
      requires Valid()
      modifies redis
      ensures Valid()
      ensures env.readFails ==> threw && sent == [] && redis.State() == old(redis.State())
      ensures !env.readFails && !Available(old(redis.HGetAll(id))) ==>
                !threw && sent == [Reply(400, Unavailable)] && redis.State() == old(redis.State())
      ensures !env.readFails && Available(old(redis.HGetAll(id))) && env.writeFailAt == 1 ==>
                threw && sent == [] && redis.State() == old(redis.State())
      ensures !env.readFails && Available(old(redis.HGetAll(id))) && env.writeFailAt != 1 ==>
                && !threw && sent == [Reply(200, ReservedOk)] && id in old(redis.hashes)
                && redis.State() == LegacyReserved(old(redis.State()), id, user, IsoTime(env.now))
    {
      sent, threw := [], false;
      if env.readFails {
        return [], true;
      }
      var h := redis.HGetAll(id);
      if !Available(h) {
        return [Reply(400, Unavailable)], false;
      }
      if env.writeFailAt == 1 {
        return [], true;
      }
      redis.HSet(id, Reserving(h, user, IsoTime(env.now)));
      sent := [Reply(200, ReservedOk)];
    }

    /** POST /reserveTicket. The durable store and the display time of env
        play no part. */
    method ReserveTicket(id: string, idTruthy: bool, user: string, env: Env)
      returns (replies: seq<Reply>, steps: seq<LockStep>)
      requires Valid()
      modifies redis, redlock.clients
      ensures Valid()
      ensures !idTruthy || user == "" ==>
                && replies == [Reply(400, Required)] && steps == []
                && redis.State() == old(redis.State()) && redlock.Stores() == old(redlock.Stores())
      ensures steps == [] || steps == [Acquired(LockKey(id)), Released(LockKey(id))]
      ensures forall i :: 0 <= i < |replies| ==> replies[i].status != 423
      ensures idTruthy && user != "" && steps == [] ==>
                redis.State() == old(redis.State()) && (replies == [] || replies == [Reply(500, InternalError)])
      ensures Reply(400, Unavailable) in replies ==> !Available(old(redis.HGetAll(id))) && redis.State() == old(redis.State())
      ensures Reply(200, ReservedOk) in replies ==>
                && steps != [] && id in old(redis.hashes) && Available(old(redis.hashes)[id])
                && redis.State() == LegacyReserved(old(redis.State()), id, user, IsoTime(env.now))
      ensures redis.State() != old(redis.State()) ==>
                && steps != [] && id in old(redis.hashes) && Available(old(redis.hashes)[id])
                && redis.State() == LegacyReserved(old(redis.State()), id, user, IsoTime(env.now))
      ensures idTruthy && user != "" && steps == [] ==>
                redlock.Stores() == Redlock.AcquireStores(old(redlock.Stores()), [LockKey(id)], env.token, LegacyLockTtl.Floor,
                                                          LegacyRetries, env.acquire, env.fuel, env.rollback)
      ensures steps != [] ==>
                redlock.Stores() == Redlock.AcquiredThenReleased(old(redlock.Stores()), [LockKey(id)], env.token, LegacyLockTtl.Floor,
                                                                 LegacyRetries, env.acquire, env.release, env.fuel)
    {
      if !idTruthy || user == "" {
        return [Reply(400, Required)], [];
      }
      steps := [];
      var lock, acquired := redlock.Acquire([LockKey(id)], LegacyLockTtl, Redlock.NoSettings, env.token, env.now,
                                            env.acquire, env.fuel, env.rollback);
      if lock == null {
        if acquired.Thrown? {
          return [LegacyCatch(acquired.error.Name())], steps;
        }
        return [], steps;
      }
      steps := [Acquired(LockKey(id))];
      var sent, threw := Inner(id, user, env);
      var released := redlock.Release(lock, Redlock.NoSettings, env.release, env.fuel);
      steps := steps + [Released(LockKey(id))];
      replies := LegacySettle(sent, threw, released);
    }
  }

  /** How the handler ends once the release has settled: a release that
      never settles leaves what was sent; one that throws adds the catch
      block's reply; otherwise a throw of the inner try is answered by the
      catch block. */
  function LegacySettle(sent: seq<Reply>, threw: bool, released: Redlock.Result): (r: seq<Reply>)
    requires sent == [] || sent == [Reply(400, Unavailable)] || sent == [Reply(200, ReservedOk)]
    ensures forall i :: 0 <= i < |r| ==> r[i].status != 423
    ensures Reply(200, ReservedOk) in r <==> sent == [Reply(200, ReservedOk)] && !(threw && released.Done?)
    ensures Reply(400, Unavailable) in r <==> sent == [Reply(400, Unavailable)] && !(threw && released.Done?)
    ensures released.Thrown? ==> |r| > 0 && r[|r| - 1] == Reply(500, InternalError)
  {
    match released
    case NeverReturns => sent
    case Thrown(e) => sent + [LegacyCatch(e.Name())]
    case Done(_) => if threw then [LegacyCatch("Error")] else sent
  }
}
