/** The seat-booking variant: a seat's status is a plain Redis string under
    "seat:<ticket>:<seat>", guarded by the lock "seat_lock:<ticket>:<seat>".
    A booking refuses a seat that reads "booked" and otherwise sets it to
    "booked". */
module SeatBooking {
  import opened Util
  import Redlock
  import TicketIndex
  import Reservation

  /** The Redis string keys. */
  type Strings = map<string, string>

  const Booked := "booked"
  const BookingFailed := "Failed to acquire lock or complete booking."

  /** This module's Redlock: retryCount 3, retryDelay 200 ms. */
  const SeatLockSettings := Redlock.Customize(Redlock.PartialSettings(None, Some(3), Some(200), None, None))

  /** The lock's time to live, 5000 ms. */
  const SeatLockTtl := 5000.0

  /** The retry count this module's lock calls run with. */
  const SeatRetries := Redlock.Merge(SeatLockSettings, Redlock.NoSettings).retryCount

  function SeatKey(ticket: string, seat: string): string
  {
    "seat:" + ticket + ":" + seat
  }

  function SeatLockKey(ticket: string, seat: string): string
  {
    "seat_lock:" + ticket + ":" + seat
  }

  function AlreadyBooked(ticket: string, seat: string): string
  {
    "Seat " + seat + " for ticket " + ticket + " is already booked."
  }

  function BookedBy(seat: string, user: string): string
  {
    "Seat " + seat + " successfully booked by user " + user + "."
  }

  /** What bookSeat's promise settles to, or Pending when a lock call never
      settles. */
  datatype Answer = Answer(success: bool, message: string) | Pending

  /** GET: the string under a key, null when there is none. */
  function Lookup(m: Strings, key: string): Option<string>
  {
    if key in m then Some(m[key]) else None
  }

  /** Whether a booking may take the seat: anything but "booked", including
      no value at all. */
  predicate Free(m: Strings, ticket: string, seat: string)
  {
    Lookup(m, SeatKey(ticket, seat)) != Some(Booked)
  }

  /** The layout of a lock key: the ticket id from position 10, then a
      colon, then the seat id. */
  lemma LockKeyLayout(t: string, s: string, i: nat)
    requires i <= |t|
    ensures var k := SeatLockKey(t, s);
            && k[10 + i] == (if i < |t| then t[i] else ':')
            && k[10..10 + |t|] == t && k[10 + |t| + 1..] == s
  {
  }

  /** Different seats never share a lock, as long as ticket ids contain no
      colon. */
  lemma SeatLockKeyInjective(t1: string, s1: string, t2: string, s2: string)
    requires TicketIndex.NoColon(t1) && TicketIndex.NoColon(t2)
    ensures SeatLockKey(t1, s1) == SeatLockKey(t2, s2) ==> t1 == t2 && s1 == s2
  {
    if SeatLockKey(t1, s1) == SeatLockKey(t2, s2) {
      if |t1| < |t2| {
        LockKeyLayout(t1, s1, |t1|);
        LockKeyLayout(t2, s2, |t1|);
        assert false;
      } else if |t2| < |t1| {
        LockKeyLayout(t1, s1, |t2|);
        LockKeyLayout(t2, s2, |t2|);
        assert false;
      }
      LockKeyLayout(t1, s1, 0);
      LockKeyLayout(t2, s2, 0);
    }
  }

  /** Without that condition two seats can share a lock: ticket "a:b" seat
      "c" and ticket "a" seat "b:c" both lock "seat_lock:a:b:c" (and both
      use the seat key "seat:a:b:c"). */
  lemma ColonIdsShareLock()
    ensures SeatLockKey("a:b", "c") == SeatLockKey("a", "b:c")
    ensures SeatKey("a:b", "c") == SeatKey("a", "b:c")
  {
  }

  /** What bookSeat settles to once the release has settled: the inner
      try's return value after a clean release, the catch block's failure
      when either threw, nothing when the release never settles. */
  function Settle(ret: Option<Answer>, released: Redlock.Result): (a: Answer)
    requires ret.Some? ==> ret.value.Answer?
    ensures a.Answer? && a.success ==> released.Done? && ret == Some(a)
    ensures a == Pending <==> released.NeverReturns?
    ensures a.Answer? && (ret.None? || released.Thrown?) ==> a == Answer(false, BookingFailed)
  {
    match released
    case NeverReturns => Pending
    case Thrown(_) => Answer(false, BookingFailed)
    case Done(_) => if ret.Some? then ret.value else Answer(false, BookingFailed)
  }

  /** Whether the release that follows a taken seat lock reaches its
      quorum, starting from the lock servers' state before the acquire. */
  ghost predicate ReleaseReached(stores: seq<Redlock.Store>, ticket: string, seat: string, env: Reservation.Env)
  {
    var held := Redlock.Exec(stores, Redlock.AcquireScript, [SeatLockKey(ticket, seat)], env.token,
                             SeatLockTtl.Floor, SeatRetries, env.acquire, env.fuel).0;
    Redlock.Exec(held, Redlock.ReleaseScript, [SeatLockKey(ticket, seat)], env.token,
                 0, SeatRetries, env.release, env.fuel).1.Quorum?
  }

  /** The Redis string store. */
  class SeatStore {
    var strings: Strings

    constructor ()
      ensures strings == map[]
    {
      strings := map[];
    }

    function Get(key: string): Option<string>
      reads this
    {
      Lookup(strings, key)
    }

    method Set(key: string, v: string)
      modifies this
      ensures strings == old(strings)[key := v]
    {
      strings := strings[key := v];
    }
  }

  class SeatBooker {
    const redis: SeatStore
    const redlock: Redlock.Redlock

    ghost predicate Valid()
      reads this
    {
      redlock.Valid() && redlock.settings == SeatLockSettings
    }

    constructor (redis: SeatStore, redlock: Redlock.Redlock)
      requires redlock.Valid() && redlock.settings == SeatLockSettings
      ensures Valid() && this.redis == redis && this.redlock == redlock
    {
      this.redis := redis;
      this.redlock := redlock;
    }

    /** The inner try: GET, the availability test, SET. It answers its return value, or
        None when it threw. env.readFails makes GET throw, and
        env.writeFailAt == 1 the SET. */
    method Inner(user: string, ticket: string, seat: string, env: Reservation.Env) returns (ret: Option<Answer>)
      modifies redis
      ensures ret.Some? ==> ret.value == Answer(true, BookedBy(seat, user)) || ret.value == Answer(false, AlreadyBooked(ticket, seat))
      ensures ret == Some(Answer(true, BookedBy(seat, user))) <==> !env.readFails && env.writeFailAt != 1 && old(Free(redis.strings, ticket, seat))
      ensures ret == Some(Answer(false, AlreadyBooked(ticket, seat))) <==> !env.readFails && !old(Free(redis.strings, ticket, seat))
      ensures redis.strings == (if ret == Some(Answer(true, BookedBy(seat, user))) then old(redis.strings)[SeatKey(ticket, seat) := Booked]
                                else old(redis.strings))
    {
      if env.readFails {
        return None;
      }
      var status := redis.Get(SeatKey(ticket, seat));
      if status == Some(Booked) {
        return Some(Answer(false, AlreadyBooked(ticket, seat)));
      }
      if env.writeFailAt == 1 {
        return None;
      }
      redis.Set(SeatKey(ticket, seat), Booked);
      // performPostBookingOperations only waits.
      ret := Some(Answer(true, BookedBy(seat, user)));
    }

    /** bookSeat. A release that throws turns even a completed booking into
        a reported failure, though the seat stays booked. */
    method BookSeat(user: string, ticket: string, seat: string, env: Reservation.Env) returns (a: Answer, steps: seq<Reservation.LockStep>)
      requires Valid()
      modifies redis, redlock.clients
      ensures Valid()
      ensures steps == [] || steps == [Reservation.Acquired(SeatLockKey(ticket, seat)), Reservation.Released(SeatLockKey(ticket, seat))]
      ensures steps == [] ==> redis.strings == old(redis.strings) && (a == Pending || a == Answer(false, BookingFailed))
      ensures a.Answer? && a.success ==>
                && steps != [] && old(Free(redis.strings, ticket, seat)) && ReleaseReached(old(redlock.Stores()), ticket, seat, env)
                && a.message == BookedBy(seat, user)
                && redis.strings == old(redis.strings)[SeatKey(ticket, seat) := Booked]
      ensures steps != [] && !env.readFails && env.writeFailAt != 1 && old(Free(redis.strings, ticket, seat))
              && ReleaseReached(old(redlock.Stores()), ticket, seat, env) ==>
                a == Answer(true, BookedBy(seat, user))
      ensures !old(Free(redis.strings, ticket, seat)) ==>
                redis.strings == old(redis.strings) && (a == Pending || !a.success)
      ensures redis.strings != old(redis.strings) ==>
                steps != [] && redis.strings == old(redis.strings)[SeatKey(ticket, seat) := Booked]
      ensures a.Answer? && !a.success ==> a.message == BookingFailed || a.message == AlreadyBooked(ticket, seat)
      ensures steps == [] ==>
                redlock.Stores() == Redlock.AcquireStores(old(redlock.Stores()), [SeatLockKey(ticket, seat)], env.token,
                                                          SeatLockTtl.Floor, SeatRetries, env.acquire, env.fuel, env.rollback)
      ensures steps != [] ==>
                redlock.Stores() == Redlock.AcquiredThenReleased(old(redlock.Stores()), [SeatLockKey(ticket, seat)], env.token,
                                                                 SeatLockTtl.Floor, SeatRetries, env.acquire, env.release, env.fuel)
    {
      steps := [];
      var lock, acquired := redlock.Acquire([SeatLockKey(ticket, seat)], SeatLockTtl, Redlock.NoSettings, env.token, env.now,
                                            env.acquire, env.fuel, env.rollback);
      if lock == null {
        a := if acquired.Thrown? then Answer(false, BookingFailed) else Pending;
        return;
      }
      steps := [Reservation.Acquired(SeatLockKey(ticket, seat))];
      var ret := Inner(user, ticket, seat, env);
      var released := redlock.Release(lock, Redlock.NoSettings, env.release, env.fuel);
      steps := steps + [Reservation.Released(SeatLockKey(ticket, seat))];
      a := Settle(ret, released);
    }

    /** Two bookings of the same seat, one after the other: at most one of
        them succeeds. */
    method BookTwice(u1: string, u2: string, ticket: string, seat: string, e1: Reservation.Env, e2: Reservation.Env)
      returns (a1: Answer, a2: Answer)
      requires Valid()
      modifies redis, redlock.clients
      ensures Valid()
      ensures !(a1.Answer? && a1.success && a2.Answer? && a2.success)
    {
      var s1;
      a1, s1 := BookSeat(u1, ticket, seat, e1);
      assert a1.Answer? && a1.success ==> !Free(redis.strings, ticket, seat);
      var s2;
      a2, s2 := BookSeat(u2, ticket, seat, e2);
    }
  }
}
