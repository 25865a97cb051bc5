/** The Redlock distributed lock manager: the three store scripts (acquire,
    extend, release) run on each lock store, the per-store vote, the quorum
    count of one attempt, the bounded retry loop, and the lock operations
    built on them. Time is integer milliseconds; each attempt's clock and
    the set of stores that fail to answer are supplied by the environment. */
module Redlock {
  import opened Util

  type Key = string
  type Token = string

  /** What SET key value PX ttl leaves in a store. */
  datatype Entry = Entry(value: Token, expiresAt: int)

  type Store = map<Key, Entry>

  /** The value GET returns at time now; an entry is gone once it expires. */
  function Lookup(m: Store, key: Key, now: int): Option<Token>
  {
    if key in m && now < m[key].expiresAt then Some(m[key].value) else None
  }

  predicate AnyLive(m: Store, keys: seq<Key>, now: int)
  {
    exists i :: 0 <= i < |keys| && Lookup(m, keys[i], now).Some?
  }

  predicate AllHeld(m: Store, keys: seq<Key>, value: Token, now: int)
  {
    forall i :: 0 <= i < |keys| ==> Lookup(m, keys[i], now) == Some(value)
  }

  /** SET on each key in turn with the same entry. */
  function SetAll(m: Store, keys: seq<Key>, e: Entry): (r: Store)
    decreases |keys|
  {
    if keys == [] then m else SetAll(m, keys[..|keys| - 1], e)[keys[|keys| - 1] := e]
  }

  /** Every listed key ends up with the entry, every other key is untouched. */
  lemma {:induction false} SetAllEffect(m: Store, keys: seq<Key>, e: Entry)
    ensures var r := SetAll(m, keys, e);
            && (forall k :: k in keys ==> k in r && r[k] == e)
            && (forall k :: k !in keys ==> (k in r <==> k in m) && (k in m ==> r[k] == m[k]))
    decreases |keys|
  {
    if keys != [] {
      var init := keys[..|keys| - 1];
      SetAllEffect(m, init, e);
      forall k | k in keys ensures k in init || k == keys[|keys| - 1] {
        var i :| 0 <= i < |keys| && keys[i] == k;
        if i < |keys| - 1 { assert init[i] == k; }
      }
    }
  }

  datatype Script = AcquireScript | ExtendScript | ReleaseScript

  /** A store's answer: the script's integer result, or an error (the store
      could not be reached, or Redis refused a SET). */
  datatype Reply = Count(n: int) | Failed

  /** The release script as a left fold over KEYS: delete each key that
      still holds this value, counting the deletions. */
  function ReleaseFold(m: Store, keys: seq<Key>, value: Token, now: int): (r: (Store, nat))
    decreases |keys|
  {
    if keys == [] then (m, 0)
    else
      var prev := ReleaseFold(m, keys[..|keys| - 1], value, now);
      var k := keys[|keys| - 1];
      if Lookup(prev.0, k, now) == Some(value) then (prev.0 - {k}, prev.1 + 1) else prev
  }

  /** The acquire script: refuse (0) if any key is live, else set them all. */
  function AcquireOn(m: Store, keys: seq<Key>, value: Token, ttl: int, now: int): (Store, Reply)
  {
    if AnyLive(m, keys, now) then (m, Count(0))
    else if |keys| > 0 && ttl <= 0 then (m, Failed)
    else (SetAll(m, keys, Entry(value, now + ttl)), Count(|keys|))
  }

  /** The extend script: refuse (0) unless every key holds the value, else
      set them all again. */
  function ExtendOn(m: Store, keys: seq<Key>, value: Token, ttl: int, now: int): (Store, Reply)
  {
    if !AllHeld(m, keys, value, now) then (m, Count(0))
    else if |keys| > 0 && ttl <= 0 then (m, Failed)
    else (SetAll(m, keys, Entry(value, now + ttl)), Count(|keys|))
  }

  /** The effect of one script on one store, and its result. A SET with a
      non-positive PX is an error that Redis raises before writing. */
  function RunScript(script: Script, m: Store, keys: seq<Key>, value: Token, ttl: int, now: int): (Store, Reply)
  {
    match script
    case AcquireScript => AcquireOn(m, keys, value, ttl, now)
    case ExtendScript => ExtendOn(m, keys, value, ttl, now)
    case ReleaseScript =>
      var r := ReleaseFold(m, keys, value, now);
      (r.0, Count(r.1))
  }

  /** Acquire is all-or-nothing on a store: it either writes every key with
      the caller's value and answers the key count, or writes nothing. */
  lemma AcquireAllOrNothing(m: Store, keys: seq<Key>, value: Token, ttl: int, now: int)
    requires |keys| > 0
    ensures var (m', reply) := RunScript(AcquireScript, m, keys, value, ttl, now);
            && (reply == Count(|keys|) <==> !AnyLive(m, keys, now) && ttl > 0)
            && (reply == Count(|keys|) ==> AllHeld(m', keys, value, now))
            && (reply != Count(|keys|) ==> m' == m)
  {
    var (m', reply) := RunScript(AcquireScript, m, keys, value, ttl, now);
    SetAllEffect(m, keys, Entry(value, now + ttl));
    if reply == Count(|keys|) {
      forall i | 0 <= i < |keys| ensures Lookup(m', keys[i], now) == Some(value) {
        assert keys[i] in keys;
      }
    }
  }

  /** Extend refreshes the keys only when every one of them is held, live,
      by the caller's value; otherwise the store is unchanged. */
  lemma ExtendOnlyIfAllHeld(m: Store, keys: seq<Key>, value: Token, ttl: int, now: int)
    requires |keys| > 0
    ensures var (m', reply) := RunScript(ExtendScript, m, keys, value, ttl, now);
            && (reply == Count(|keys|) <==> AllHeld(m, keys, value, now) && ttl > 0)
            && (reply == Count(|keys|) ==> forall k :: k in keys ==> k in m' && m'[k] == Entry(value, now + ttl))
            && (reply != Count(|keys|) ==> m' == m)
  {
    SetAllEffect(m, keys, Entry(value, now + ttl));
  }

  /** Release deletes exactly the listed keys that hold the caller's value;
      every other entry, including keys held by another value, survives. */
  lemma {:induction false} ReleaseOnlyOwn(m: Store, keys: seq<Key>, value: Token, now: int)
    ensures var m' := ReleaseFold(m, keys, value, now).0;
            && m'.Keys <= m.Keys
            && (forall k :: k in keys && Lookup(m, k, now) == Some(value) ==> k !in m')
            && (forall k :: k in m && (k !in keys || Lookup(m, k, now) != Some(value)) ==> k in m' && m'[k] == m[k])
    decreases |keys|
  {
    if keys != [] {
      var init := keys[..|keys| - 1];
      ReleaseOnlyOwn(m, init, value, now);
      forall k | k in keys
        ensures k in init || k == keys[|keys| - 1]
      {
        var i :| 0 <= i < |keys| && keys[i] == k;
        if i < |keys| - 1 { assert init[i] == k; }
      }
    }
  }

  /** On distinct keys, release answers how many of them it deleted. */
  lemma {:induction false} ReleaseCount(m: Store, keys: seq<Key>, value: Token, now: int)
    requires forall i, j :: 0 <= i < j < |keys| ==> keys[i] != keys[j]
    ensures ReleaseFold(m, keys, value, now).1 == |set k | k in keys && Lookup(m, k, now) == Some(value)|
    decreases |keys|
  {
    if keys != [] {
      var init := keys[..|keys| - 1];
      var last := keys[|keys| - 1];
      ReleaseCount(m, init, value, now);
      ReleaseOnlyOwn(m, init, value, now);
      var prev := ReleaseFold(m, init, value, now);
      var owned := set k | k in init && Lookup(m, k, now) == Some(value);
      var owned' := set k | k in keys && Lookup(m, k, now) == Some(value);
      assert last !in init by {
        forall i | 0 <= i < |init| ensures init[i] != last { assert keys[i] == init[i]; }
      }
      assert Lookup(prev.0, last, now) == Lookup(m, last, now);
      forall k | k in keys ensures k in init || k == last {
        var i :| 0 <= i < |keys| && keys[i] == k;
        if i < |keys| - 1 { assert init[i] == k; }
      }
      if Lookup(m, last, now) == Some(value) {
        assert owned' == owned + {last};
      } else {
        assert owned' == owned;
      }
    }
  }

  /** One lock store (a Redis instance as the lock scripts see it). */
  class LockServer {
    var entries: Store

    constructor ()
      ensures entries == map[]
    {
      entries := map[];
    }

    method Acquire(keys: seq<Key>, value: Token, ttl: int, now: int) returns (reply: Reply)
      modifies this
      ensures (entries, reply) == AcquireOn(old(entries), keys, value, ttl, now)
    {
      for i := 0 to |keys|
        invariant forall j :: 0 <= j < i ==> Lookup(entries, keys[j], now).None?
      {
        if Lookup(entries, keys[i], now).Some? {
          return Count(0);
        }
      }
      if |keys| > 0 && ttl <= 0 {
        return Failed;
      }
      SetKeys(keys, Entry(value, now + ttl));
      reply := Count(|keys|);
    }

    method Extend(keys: seq<Key>, value: Token, ttl: int, now: int) returns (reply: Reply)
      modifies this
      ensures (entries, reply) == ExtendOn(old(entries), keys, value, ttl, now)
    {
      for i := 0 to |keys|
        invariant forall j :: 0 <= j < i ==> Lookup(entries, keys[j], now) == Some(value)
      {
        if Lookup(entries, keys[i], now) != Some(value) {
          return Count(0);
        }
      }
      if |keys| > 0 && ttl <= 0 {
        return Failed;
      }
      SetKeys(keys, Entry(value, now + ttl));
      reply := Count(|keys|);
    }

    /** The SET loop the acquire and extend scripts share. */
    method SetKeys(keys: seq<Key>, e: Entry)
      modifies this
      ensures entries == SetAll(old(entries), keys, e)
    {
      ghost var m0 := entries;
      for i := 0 to |keys|
        invariant entries == SetAll(m0, keys[..i], e)
      {
        assert keys[..i + 1][..i] == keys[..i];
        entries := entries[keys[i] := e];
      }
      assert keys[..|keys|] == keys;
    }

    method Release(keys: seq<Key>, value: Token, now: int) returns (reply: Reply)
      modifies this
      ensures (entries, reply) == RunScript(ReleaseScript, old(entries), keys, value, 0, now)
    {
      ghost var m0 := entries;
      var count := 0;
      for i := 0 to |keys|
        invariant (entries, count) == ReleaseFold(m0, keys[..i], value, now)
      {
        assert keys[..i + 1][..i] == keys[..i];
        if Lookup(entries, keys[i], now) == Some(value) {
          entries := entries - {keys[i]};
          count := count + 1;
        }
      }
      assert keys[..|keys|] == keys;
      reply := Count(count);
    }

    method Eval(script: Script, keys: seq<Key>, value: Token, ttl: int, now: int) returns (reply: Reply)
      modifies this
      ensures (entries, reply) == RunScript(script, old(entries), keys, value, ttl, now)
    {
      match script
      case AcquireScript => reply := Acquire(keys, value, ttl, now);
      case ExtendScript => reply := Extend(keys, value, ttl, now);
      case ReleaseScript => reply := Release(keys, value, now);
    }
  }

  /** The environment of one attempt: its clock and the stores (by index)
      whose call fails before the script runs. */
  datatype Attempt = Attempt(now: int, down: set<nat>)

  /** The statistics an attempt records. */
  datatype Stats = Stats(membershipSize: nat, quorumSize: nat, votesFor: set<nat>, votesAgainst: set<nat>)

  datatype Vote = For | Against | Undecided

  /** A store votes for exactly when its result equals the number of keys;
      any other result, and any error, is a vote against. */
  predicate VotesFor(reply: Reply, keyCount: nat)
  {
    reply == Count(keyCount)
  }

  function QuorumSize(n: nat): nat
  {
    n / 2 + 1
  }

  function ReplyOf(stores: seq<Store>, i: nat, script: Script, keys: seq<Key>, value: Token, ttl: int, at: Attempt): Reply
    requires i < |stores|
  {
    if i in at.down then Failed else RunScript(script, stores[i], keys, value, ttl, at.now).1
  }

  function StoreAfter(stores: seq<Store>, i: nat, script: Script, keys: seq<Key>, value: Token, ttl: int, at: Attempt): Store
    requires i < |stores|
  {
    if i in at.down then stores[i] else RunScript(script, stores[i], keys, value, ttl, at.now).0
  }

  lemma {:induction false} SplitCount(n: nat, p: nat -> bool)
    ensures |set i: nat | i < n && p(i)| + |set i: nat | i < n && !p(i)| == n
  {
    if n > 0 {
      SplitCount(n - 1, p);
      var yes := set i: nat | i < n - 1 && p(i);
      var no := set i: nat | i < n - 1 && !p(i);
      if p(n - 1) {
        assert (set i: nat | i < n && p(i)) == yes + {n - 1};
        assert (set i: nat | i < n && !p(i)) == no;
      } else {
        assert (set i: nat | i < n && p(i)) == yes;
        assert (set i: nat | i < n && !p(i)) == no + {n - 1};
      }
    }
  }

  /** Every store's vote is counted once, on one side. */
  predicate Tallied(st: Stats)
  {
    && st.quorumSize == QuorumSize(st.membershipSize)
    && st.votesFor !! st.votesAgainst
    && |st.votesFor| + |st.votesAgainst| == st.membershipSize
  }

  /** Each store's answer in one attempt. */
  function Replies(stores: seq<Store>, script: Script, keys: seq<Key>, value: Token, ttl: int, at: Attempt): (r: seq<Reply>)
    ensures |r| == |stores|
  {
    seq(|stores|, i requires 0 <= i < |stores| => ReplyOf(stores, i, script, keys, value, ttl, at))
  }

  /** The indices below i whose answer is a vote for, and against. */
  function ForUpTo(replies: seq<Reply>, keyCount: nat, i: nat): set<nat>
    requires i <= |replies|
  {
    set j: nat | j < i && VotesFor(replies[j], keyCount)
  }

  function AgainstUpTo(replies: seq<Reply>, keyCount: nat, i: nat): set<nat>
    requires i <= |replies|
  {
    set j: nat | j < i && !VotesFor(replies[j], keyCount)
  }

  lemma UpToStep(replies: seq<Reply>, keyCount: nat, i: nat)
    requires i < |replies|
    ensures i !in ForUpTo(replies, keyCount, i) && i !in AgainstUpTo(replies, keyCount, i)
    ensures VotesFor(replies[i], keyCount) ==>
      ForUpTo(replies, keyCount, i + 1) == ForUpTo(replies, keyCount, i) + {i}
      && AgainstUpTo(replies, keyCount, i + 1) == AgainstUpTo(replies, keyCount, i)
    ensures !VotesFor(replies[i], keyCount) ==>
      ForUpTo(replies, keyCount, i + 1) == ForUpTo(replies, keyCount, i)
      && AgainstUpTo(replies, keyCount, i + 1) == AgainstUpTo(replies, keyCount, i) + {i}
  {
  }

  /** The statistics of an attempt from the stores' answers: every store
      votes, for exactly when its answer is the number of keys. */
  function TallyOf(replies: seq<Reply>, keyCount: nat): (st: Stats)
    ensures st.membershipSize == |replies| && Tallied(st)
  {
    var n := |replies|;
    var p := (i: nat) => i < n && VotesFor(replies[i], keyCount);
    SplitCount(n, p);
    assert ForUpTo(replies, keyCount, n) == set i: nat | i < n && p(i);
    assert AgainstUpTo(replies, keyCount, n) == set i: nat | i < n && !p(i);
    Stats(n, QuorumSize(n), ForUpTo(replies, keyCount, n), AgainstUpTo(replies, keyCount, n))
  }

  /** Store i votes for exactly when its answer is the number of keys, and
      against otherwise; no other index votes. */
  lemma TallyOfVotes(replies: seq<Reply>, keyCount: nat, i: nat)
    ensures i in TallyOf(replies, keyCount).votesFor <==> i < |replies| && VotesFor(replies[i], keyCount)
    ensures i in TallyOf(replies, keyCount).votesAgainst <==> i < |replies| && !VotesFor(replies[i], keyCount)
  {
  }

  /** One attempt: the script runs on every reachable store, and each store's
      vote is counted. */
  function AttemptOn(stores: seq<Store>, script: Script, keys: seq<Key>, value: Token, ttl: int, at: Attempt): (r: (seq<Store>, Stats))
    ensures |r.0| == |stores| && r.1.membershipSize == |stores| && Tallied(r.1)
  {
    (seq(|stores|, i requires 0 <= i < |stores| => StoreAfter(stores, i, script, keys, value, ttl, at)),
     TallyOf(Replies(stores, script, keys, value, ttl, at), |keys|))
  }

  /** The outcome an attempt resolves to: the first side to reach the quorum.
      When neither side reaches it the attempt never resolves. */
  function Decide(st: Stats): Vote
  {
    if |st.votesFor| >= st.quorumSize then For
    else if |st.votesAgainst| >= st.quorumSize then Against
    else Undecided
  }

  /** The tally loop: votes are counted in arrival order and the first side
      to reach the quorum decides. */
  method Tally(replies: seq<Reply>, keyCount: nat) returns (vote: Vote, stats: Stats)
    ensures stats == TallyOf(replies, keyCount)
    ensures vote == Decide(stats)
  {
    var n := |replies|;
    var quorum := QuorumSize(n);
    var votesFor: set<nat> := {};
    var votesAgainst: set<nat> := {};
    var decided: Option<Vote> := None;
    for i := 0 to n
      invariant votesFor == ForUpTo(replies, keyCount, i)
      invariant votesAgainst == AgainstUpTo(replies, keyCount, i)
      invariant |votesFor| + |votesAgainst| == i
      invariant decided == (if |votesFor| >= quorum then Some(For)
                            else if |votesAgainst| >= quorum then Some(Against) else None)
    {
      UpToStep(replies, keyCount, i);
      if VotesFor(replies[i], keyCount) {
        votesFor := votesFor + {i};
        if |votesFor| == quorum && decided == None {
          decided := Some(For);
        }
      } else {
        votesAgainst := votesAgainst + {i};
        if |votesAgainst| == quorum && decided == None {
          decided := Some(Against);
        }
      }
    }
    stats := Stats(n, quorum, votesFor, votesAgainst);
    vote := if decided.Some? then decided.value else Undecided;
  }

  /** The two sides can never both reach the quorum. */
  lemma QuorumExclusive(st: Stats)
    requires Tallied(st)
    ensures !(|st.votesFor| >= st.quorumSize && |st.votesAgainst| >= st.quorumSize)
  {
  }

  /** With an odd number of stores, an attempt always resolves; an
      unresolved attempt needs an even split. */
  lemma UndecidedNeedsEvenSplit(st: Stats)
    requires Tallied(st)
    ensures Decide(st) == Undecided ==> st.membershipSize % 2 == 0 && |st.votesFor| == |st.votesAgainst|
  {
  }

  /** Settings of a Redlock instance (driftFactor is a real number here). */
  datatype Settings = Settings(driftFactor: real, retryCount: int, retryDelay: int, retryJitter: int, automaticExtensionThreshold: int)

  /** Settings supplied by a caller; None stands for a missing or non-number
      property. */
  datatype PartialSettings = PartialSettings(driftFactor: Option<real>, retryCount: Option<int>, retryDelay: Option<int>, retryJitter: Option<int>, automaticExtensionThreshold: Option<int>)

  const NoSettings := PartialSettings(None, None, None, None, None)

  const DefaultSettings := Settings(0.01, 10, 200, 100, 500)

  function Pick<T>(given: Option<T>, fallback: T): T
  {
    if given.Some? then given.value else fallback
  }

  /** The constructor's settings: each number the caller gave, else the
      library default. */
  function Customize(given: PartialSettings): (s: Settings)
    ensures given == NoSettings ==> s == DefaultSettings
  {
    Settings(Pick(given.driftFactor, DefaultSettings.driftFactor),
             Pick(given.retryCount, DefaultSettings.retryCount),
             Pick(given.retryDelay, DefaultSettings.retryDelay),
             Pick(given.retryJitter, DefaultSettings.retryJitter),
             Pick(given.automaticExtensionThreshold, DefaultSettings.automaticExtensionThreshold))
  }

  /** Per-call settings override the instance's, property by property. */
  function Merge(base: Settings, over: PartialSettings): (s: Settings)
    ensures over == NoSettings ==> s == base
  {
    Settings(Pick(over.driftFactor, base.driftFactor),
             Pick(over.retryCount, base.retryCount),
             Pick(over.retryDelay, base.retryDelay),
             Pick(over.retryJitter, base.retryJitter),
             Pick(over.automaticExtensionThreshold, base.automaticExtensionThreshold))
  }

  /** The attempt budget: retryCount + 1, or unbounded (None) for -1. */
  function MaxAttempts(retryCount: int): Option<int>
  {
    if retryCount == -1 then None else Some(retryCount + 1)
  }

  /** How the retry loop ends. Hung: an attempt never resolved (even split),
      so the call never returns. Unfinished: an unbounded loop was still
      retrying when the model stopped observing it (after fuel attempts). */
  datatype Outcome =
    | Quorum(attempts: seq<Stats>)
    | Exhausted(attempts: seq<Stats>)
    | Hung(attempts: seq<Stats>)
    | Unfinished(attempts: seq<Stats>)

  function Budget(max: Option<int>, fuel: nat): int
  {
    if max.Some? then max.value else fuel
  }

  /** One attempt as the retry loop sees it: from the stores' contents and
      the attempt's number to the new contents and the attempt's statistics. */
  type Step = (seq<Store>, nat) -> (seq<Store>, Stats)

  /** The attempt the loop makes: the script on every store, under the
      conditions the schedule gives the k-th attempt. */
  function AttemptStep(script: Script, keys: seq<Key>, value: Token, ttl: int, schedule: nat -> Attempt): Step
  {
    (s: seq<Store>, k: nat) => AttemptOn(s, script, keys, value, ttl, schedule(k))
  }

  /** The retry loop from attempt |done| on, over the stores' contents. */
  function ExecFrom(stores: seq<Store>, step: Step, max: Option<int>, fuel: nat, done: seq<Stats>): (seq<Store>, Outcome)
    requires max.None? ==> |done| <= fuel
    requires |done| == 0 || |done| < Budget(max, fuel) || max.None?
    decreases Budget(max, fuel) - |done|
  {
    if max.None? && |done| == fuel then (stores, Unfinished(done))
    else
      var (stores', st) := step(stores, |done|);
      var vote := Decide(st);
      if vote == Undecided then (stores', Hung(done))
      else if vote == For then (stores', Quorum(done + [st]))
      else if max.Some? && |done| + 1 >= max.value then (stores', Exhausted(done + [st]))
      else ExecFrom(stores', step, max, fuel, done + [st])
  }

  function Exec(stores: seq<Store>, script: Script, keys: seq<Key>, value: Token, ttl: int,
                retryCount: int, schedule: nat -> Attempt, fuel: nat): (seq<Store>, Outcome)
  {
    ExecFrom(stores, AttemptStep(script, keys, value, ttl, schedule), MaxAttempts(retryCount), fuel, [])
  }

  /** The number of attempts a finite budget allows: the first attempt is
      always made. */
  function Cap(max: int): nat
  {
    if max < 1 then 1 else max
  }

  /** The loop makes at most retryCount + 1 attempts (at least one), and
      gives up with exactly that many; only retryCount == -1 is unbounded,
      and only then can the loop still be running. Earlier attempts are kept
      as they were. */
  lemma {:induction false} AttemptBound(stores: seq<Store>, step: Step, max: Option<int>, fuel: nat, done: seq<Stats>)
    requires max.None? ==> |done| <= fuel
    requires |done| == 0 || |done| < Budget(max, fuel) || max.None?
    ensures var out := ExecFrom(stores, step, max, fuel, done).1;
            && |done| <= |out.attempts|
            && out.attempts[..|done|] == done
            && (out.Quorum? || out.Exhausted? ==> |out.attempts| > |done|)
            && (max.Some? ==> |out.attempts| <= Cap(max.value))
            && (out.Exhausted? ==> max.Some? && |out.attempts| == Cap(max.value))
            && (out.Unfinished? ==> max.None? && |out.attempts| == fuel)
    decreases Budget(max, fuel) - |done|
  {
    if max.None? && |done| == fuel {
    } else {
      var (stores', st) := step(stores, |done|);
      var vote := Decide(st);
      if vote == Undecided {
      } else if vote == For {
      } else if max.Some? && |done| + 1 >= max.value {
      } else {
        AttemptBound(stores', step, max, fuel, done + [st]);
        var out := ExecFrom(stores', step, max, fuel, done + [st]).1;
        assert out.attempts[..|done|] == (done + [st])[..|done|];
      }
    }
  }

  /** The loop ends on the attempt that decided it: a quorum on one decided
      for, an exhausted budget on one decided against. */
  lemma {:induction false} LastAttemptDecides(stores: seq<Store>, step: Step, max: Option<int>, fuel: nat, done: seq<Stats>)
    requires max.None? ==> |done| <= fuel
    requires |done| == 0 || |done| < Budget(max, fuel) || max.None?
    ensures var out := ExecFrom(stores, step, max, fuel, done).1;
            && (out.Quorum? ==> |out.attempts| > 0 && Decide(out.attempts[|out.attempts| - 1]) == For)
            && (out.Exhausted? ==> |out.attempts| > 0 && Decide(out.attempts[|out.attempts| - 1]) == Against)
    decreases Budget(max, fuel) - |done|
  {
    if !(max.None? && |done| == fuel) {
      var (stores', st) := step(stores, |done|);
      var vote := Decide(st);
      if vote == Against && !(max.Some? && |done| + 1 >= max.value) {
        LastAttemptDecides(stores', step, max, fuel, done + [st]);
      }
    }
  }

  /** Only a refused attempt is retried: every attempt the loop records
      from |done| on, save the last, was decided against. */
  lemma {:induction false} RetryOnlyAfterRefusal(stores: seq<Store>, step: Step, max: Option<int>, fuel: nat, done: seq<Stats>, i: nat)
    requires max.None? ==> |done| <= fuel
    requires |done| == 0 || |done| < Budget(max, fuel) || max.None?
    ensures var out := ExecFrom(stores, step, max, fuel, done).1;
            |done| <= i < |out.attempts| - 1 ==> Decide(out.attempts[i]) == Against
    decreases Budget(max, fuel) - |done|
  {
    if !(max.None? && |done| == fuel) {
      var (stores', st) := step(stores, |done|);
      var vote := Decide(st);
      if vote == Against && !(max.Some? && |done| + 1 >= max.value) {
        if i == |done| {
          AttemptBound(stores', step, max, fuel, done + [st]);
          var out := ExecFrom(stores', step, max, fuel, done + [st]).1;
          assert out.attempts[..|done| + 1] == done + [st];
        } else {
          RetryOnlyAfterRefusal(stores', step, max, fuel, done + [st], i);
        }
      }
    }
  }

  /** The retry loop never adds or drops a store. */
  lemma {:induction false} ExecFromLength(stores: seq<Store>, script: Script, keys: seq<Key>, value: Token, ttl: int,
                                          schedule: nat -> Attempt, max: Option<int>, fuel: nat, done: seq<Stats>)
    requires max.None? ==> |done| <= fuel
    requires |done| == 0 || |done| < Budget(max, fuel) || max.None?
    ensures |ExecFrom(stores, AttemptStep(script, keys, value, ttl, schedule), max, fuel, done).0| == |stores|
    decreases Budget(max, fuel) - |done|
  {
    if !(max.None? && |done| == fuel) {
      var (stores', st) := AttemptOn(stores, script, keys, value, ttl, schedule(|done|));
      if Decide(st) == Against && !(max.Some? && |done| + 1 >= max.value) {
        ExecFromLength(stores', script, keys, value, ttl, schedule, max, fuel, done + [st]);
      }
    }
  }

  /** With a single lock store, a release loop that ends in a quorum has
      deleted the lock's key from that store: the deciding attempt reached
      the store and the script answered one deletion. */
  lemma {:induction false} SingleStoreReleaseDeletes(stores: seq<Store>, k: Key, value: Token, schedule: nat -> Attempt,
                                                     max: Option<int>, fuel: nat, done: seq<Stats>)
    requires |stores| == 1
    requires max.None? ==> |done| <= fuel
    requires |done| == 0 || |done| < Budget(max, fuel) || max.None?
    ensures var (stores', out) := ExecFrom(stores, AttemptStep(ReleaseScript, [k], value, 0, schedule), max, fuel, done);
            out.Quorum? ==> |stores'| == 1 && k !in stores'[0]
    decreases Budget(max, fuel) - |done|
  {
    if !(max.None? && |done| == fuel) {
      var at := schedule(|done|);
      var (s1, st) := AttemptOn(stores, ReleaseScript, [k], value, 0, at);
      assert AttemptStep(ReleaseScript, [k], value, 0, schedule)(stores, |done|) == (s1, st);
      if Decide(st) == For {
        var replies := Replies(stores, ReleaseScript, [k], value, 0, at);
        assert st == TallyOf(replies, 1);
        assert |st.votesFor| >= 1;
        var i :| i in st.votesFor;
        TallyOfVotes(replies, 1, i);
        assert i == 0 && replies[0] == Count(1);
        assert 0 !in at.down;
        assert [k][..0] == [];
        var rf := ReleaseFold(stores[0], [k], value, at.now);
        assert ReleaseFold(stores[0], [], value, at.now) == (stores[0], 0);
        assert rf.1 == 1;
        assert rf.0 == stores[0] - {k};
        assert s1[0] == rf.0;
      } else if Decide(st) == Against && !(max.Some? && |done| + 1 >= max.value) {
        SingleStoreReleaseDeletes(s1, k, value, schedule, max, fuel, done + [st]);
      }
    }
  }

  /** The stores after a lock was acquired by the retry loop and then
      released by it, under the same retry count. */
  function AcquiredThenReleased(stores: seq<Store>, keys: seq<Key>, value: Token, ttl: int, retryCount: int,
                                acquire: nat -> Attempt, release: nat -> Attempt, fuel: nat): seq<Store>
  {
    var held := Exec(stores, AcquireScript, keys, value, ttl, retryCount, acquire, fuel).0;
    Exec(held, ReleaseScript, keys, value, 0, retryCount, release, fuel).0
  }

  /** With a single lock store, acquiring a one-key lock and releasing it
      with a release that reaches its quorum leaves the key absent, so the
      next acquire of that key can succeed. */
  lemma AcquireReleaseFreesKey(stores: seq<Store>, k: Key, value: Token, ttl: int, retryCount: int,
                               acquire: nat -> Attempt, release: nat -> Attempt, fuel: nat)
    requires |stores| == 1
    ensures var held := Exec(stores, AcquireScript, [k], value, ttl, retryCount, acquire, fuel).0;
            Exec(held, ReleaseScript, [k], value, 0, retryCount, release, fuel).1.Quorum? ==>
              var r := AcquiredThenReleased(stores, [k], value, ttl, retryCount, acquire, release, fuel);
              |r| == 1 && k !in r[0]
  {
    var max := MaxAttempts(retryCount);
    ExecFromLength(stores, AcquireScript, [k], value, ttl, acquire, max, fuel, []);
    var held := Exec(stores, AcquireScript, [k], value, ttl, retryCount, acquire, fuel).0;
    SingleStoreReleaseDeletes(held, k, value, release, max, fuel, []);
  }

  /** The stores after acquire: the acquire attempts and, when they ran out
      without a quorum, one best-effort release without retries. */
  function AcquireStores(stores: seq<Store>, keys: seq<Key>, value: Token, ttl: int, retryCount: int,
                         schedule: nat -> Attempt, fuel: nat, rollback: Attempt): (r: seq<Store>)
    ensures |r| == |stores|
  {
    ExecFromLength(stores, AcquireScript, keys, value, ttl, schedule, MaxAttempts(retryCount), fuel, []);
    var (stores', out) := Exec(stores, AcquireScript, keys, value, ttl, retryCount, schedule, fuel);
    ExecFromLength(stores', ReleaseScript, keys, value, 0, _ => rollback, MaxAttempts(0), 0, []);
    if out.Exhausted? then Exec(stores', ReleaseScript, keys, value, 0, 0, _ => rollback, 0).0 else stores'
  }

  /** A lock that was acquired (or extended) on the listed resources. */
  class Lock {
    const resources: seq<Key>
    const value: Token
    const attempts: seq<Stats>
    var expiration: int

    constructor (resources: seq<Key>, value: Token, attempts: seq<Stats>, expiration: int)
      ensures this.resources == resources && this.value == value
      ensures this.attempts == attempts && this.expiration == expiration
    {
      this.resources := resources;
      this.value := value;
      this.attempts := attempts;
      this.expiration := expiration;
    }
  }

  /** Errors the lock operations throw, with the name JavaScript gives them. */
  datatype LockError =
    | NonIntegerDuration
    | ExecutionError(message: string, attempts: seq<Stats>)
  {
    function Name(): string
    {
      match this
      case NonIntegerDuration => "Error"
      case ExecutionError(_, _) => "ExecutionError"
    }
  }

  const QuorumFailure := "The operation was unable to achieve a quorum during its retry window."
  const AlreadyExpired := "Cannot extend an already-expired lock."

  /** How a lock operation returns: normally, by throwing, or not at all. */
  datatype Result = Done(attempts: seq<Stats>) | Thrown(error: LockError) | NeverReturns

  /** Math.round, as floor(x + 1/2). */
  function Round(x: real): int
  {
    (x + 0.5).Floor
  }

  /** The expiry a fresh lock records: the start time plus the duration,
      less the clock drift allowance (2 ms plus driftFactor of the duration). */
  function LockExpiry(start: int, duration: int, driftFactor: real): int
  {
    start + duration - (Round(driftFactor * duration as real) + 2)
  }

  ghost function StoresOf(cs: seq<LockServer>): (r: seq<Store>)
    reads set i | 0 <= i < |cs| :: cs[i]
    ensures |r| == |cs| && forall i :: 0 <= i < |cs| ==> r[i] == cs[i].entries
  {
    if cs == [] then [] else StoresOf(cs[..|cs| - 1]) + [cs[|cs| - 1].entries]
  }

  /** The clients in order of first appearance, without repeats. */
  function Dedup(cs: seq<LockServer>): (r: seq<LockServer>)
    ensures forall i :: 0 <= i < |r| ==> r[i] in cs
    ensures forall i :: 0 <= i < |cs| ==> cs[i] in r
    ensures forall i, j :: 0 <= i < j < |r| ==> r[i] != r[j]
  {
    if cs == [] then []
    else
      var init := cs[..|cs| - 1];
      var r := Dedup(init);
      assert forall i :: 0 <= i < |cs| - 1 ==> cs[i] == init[i];
      if cs[|cs| - 1] in init then r else r + [cs[|cs| - 1]]
  }

  class Redlock {
    const clients: seq<LockServer>
    const settings: Settings

    ghost predicate Valid()
    {
      |clients| > 0 && forall i, j :: 0 <= i < j < |clients| ==> clients[i] != clients[j]
    }

    ghost function Stores(): seq<Store>
      reads clients
    {
      StoresOf(clients)
    }

    constructor Init(clients: seq<LockServer>, settings: Settings)
      requires |clients| > 0 && forall i, j :: 0 <= i < j < |clients| ==> clients[i] != clients[j]
      ensures Valid() && this.clients == clients && this.settings == settings
    {
      this.clients := clients;
      this.settings := settings;
    }

    /** new Redlock(clients, settings): duplicate clients collapse into one,
        and an empty client list is refused. */
    static method Create(cs: seq<LockServer>, given: PartialSettings) returns (r: Redlock?)
      ensures r == null <==> cs == []
      ensures r != null ==> fresh(r) && r.Valid() && r.clients == Dedup(cs) && r.settings == Customize(given)
    {
      if cs == [] {
        return null;
      }
      var unique := Dedup(cs);
      assert cs[0] in unique;
      r := new Redlock.Init(unique, Customize(given));
    }

    /** One attempt: the script is sent to every client in order. */
    method RunAll(script: Script, keys: seq<Key>, value: Token, ttl: int, at: Attempt)
      returns (replies: seq<Reply>)
      requires Valid()
      modifies clients
      ensures Stores() == AttemptOn(old(Stores()), script, keys, value, ttl, at).0
      ensures replies == Replies(old(Stores()), script, keys, value, ttl, at)
    {
      ghost var s0 := Stores();
      replies := [];
      for i := 0 to |clients|
        invariant |replies| == i
        invariant forall j :: 0 <= j < i ==> replies[j] == ReplyOf(s0, j, script, keys, value, ttl, at)
        invariant forall j :: 0 <= j < i ==> clients[j].entries == StoreAfter(s0, j, script, keys, value, ttl, at)
        invariant forall j :: i <= j < |clients| ==> clients[j].entries == s0[j]
      {
        var reply := Failed;
        if i !in at.down {
          reply := clients[i].Eval(script, keys, value, ttl, at.now);
        }
        replies := replies + [reply];
      }
    }

    /** One attempt (_attemptOperation): the answers are tallied as they
        arrive, and the attempt resolves when one side first reaches the
        quorum. */
    method AttemptOperation(script: Script, keys: seq<Key>, value: Token, ttl: int, at: Attempt)
      returns (vote: Vote, stats: Stats)
      requires Valid()
      modifies clients
      ensures (Stores(), stats) == AttemptOn(old(Stores()), script, keys, value, ttl, at)
      ensures vote == Decide(stats)
    {
      var replies := RunAll(script, keys, value, ttl, at);
      vote, stats := Tally(replies, |keys|);
    }

    /** The retry loop (_execute): attempt, record the statistics, stop on a
        quorum in favour, otherwise retry while the budget allows. The delay
        between attempts is the schedule's business. */
    method Execute(script: Script, keys: seq<Key>, value: Token, ttl: int, s: Settings,
                   schedule: nat -> Attempt, fuel: nat) returns (out: Outcome)
      requires Valid()
      modifies clients
      ensures (Stores(), out) == Exec(old(Stores()), script, keys, value, ttl, s.retryCount, schedule, fuel)
    {
      var max := MaxAttempts(s.retryCount);
      var attempts: seq<Stats> := [];
      ghost var step := AttemptStep(script, keys, value, ttl, schedule);
      ghost var goal := Exec(Stores(), script, keys, value, ttl, s.retryCount, schedule, fuel);
      while true
        invariant max.None? ==> |attempts| <= fuel
        invariant |attempts| == 0 || |attempts| < Budget(max, fuel) || max.None?
        invariant ExecFrom(Stores(), step, max, fuel, attempts) == goal
        decreases Budget(max, fuel) - |attempts|
      {
        if max.None? && |attempts| == fuel {
          return Unfinished(attempts);
        }
        var vote, stats := AttemptOperation(script, keys, value, ttl, schedule(|attempts|));
        if vote == Undecided {
          return Hung(attempts);
        }
        attempts := attempts + [stats];
        if vote == For {
          return Quorum(attempts);
        }
        if max.Some? && |attempts| >= max.value {
          return Exhausted(attempts);
        }
      }
    }

    /** acquire(resources, duration, settings). The token is the random value
        the caller was given; start is the clock when the call begins. */
    method Acquire(resources: seq<Key>, duration: real, opts: PartialSettings, value: Token, start: int,
                   schedule: nat -> Attempt, fuel: nat, rollback: Attempt)
      returns (lock: Lock?, r: Result)
      requires Valid()
      modifies clients
      ensures r.Done? <==> lock != null
      ensures duration != duration.Floor as real ==> r == Thrown(NonIntegerDuration) && Stores() == old(Stores())
      ensures duration == duration.Floor as real ==>
        Stores() == AcquireStores(old(Stores()), resources, value, duration.Floor, Merge(settings, opts).retryCount, schedule, fuel, rollback)
      ensures lock != null ==>
        && fresh(lock)
        && var (stores', out) := Exec(old(Stores()), AcquireScript, resources, value, duration.Floor, Merge(settings, opts).retryCount, schedule, fuel);
        && out.Quorum? && Stores() == stores' && r == Done(out.attempts)
        && lock.resources == resources && lock.value == value && lock.attempts == out.attempts
        && lock.expiration == LockExpiry(start, duration.Floor, Pick(opts.driftFactor, settings.driftFactor))
      ensures r.Thrown? && r.error.ExecutionError? ==>
        && var (stores', out) := Exec(old(Stores()), AcquireScript, resources, value, duration.Floor, Merge(settings, opts).retryCount, schedule, fuel);
        && out.Exhausted? && r.error == ExecutionError(QuorumFailure, out.attempts)
        && Stores() == Exec(stores', ReleaseScript, resources, value, 0, 0, _ => rollback, 0).0
    {
      if duration != duration.Floor as real {
        return null, Thrown(NonIntegerDuration);
      }
      var d := duration.Floor;
      var out := Execute(AcquireScript, resources, value, d, Merge(settings, opts), schedule, fuel);
      match out
      case Quorum(attempts) =>
        lock := new Lock(resources, value, attempts, LockExpiry(start, d, Pick(opts.driftFactor, settings.driftFactor)));
        r := Done(attempts);
      case Exhausted(attempts) =>
        // Best-effort release of partial state on a minority, with no retries.
        var cleanup := Execute(ReleaseScript, resources, value, 0, Merge(settings, PartialSettings(None, Some(0), None, None, None)), _ => rollback, 0);
        lock := null;
        r := if cleanup.Hung? then NeverReturns else Thrown(ExecutionError(QuorumFailure, attempts));
      case Hung(_) =>
        lock, r := null, NeverReturns;
      case Unfinished(_) =>
        lock, r := null, NeverReturns;
    }

    /** release(lock): the lock is invalidated first, then the release script
        runs with the usual retries. */
    method Release(lock: Lock, opts: PartialSettings, schedule: nat -> Attempt, fuel: nat) returns (r: Result)
      requires Valid()
      modifies lock, clients
      ensures lock.expiration == 0
      ensures var (stores', out) := Exec(old(Stores()), ReleaseScript, lock.resources, lock.value, 0, Merge(settings, opts).retryCount, schedule, fuel);
              && Stores() == stores'
              && r == (match out
                       case Quorum(a) => Done(a)
                       case Exhausted(a) => Thrown(ExecutionError(QuorumFailure, a))
                       case _ => NeverReturns)
    {
      lock.expiration := 0;
      var out := Execute(ReleaseScript, lock.resources, lock.value, 0, Merge(settings, opts), schedule, fuel);
      r := match out
           case Quorum(a) => Done(a)
           case Exhausted(a) => Thrown(ExecutionError(QuorumFailure, a))
           case _ => NeverReturns;
    }

    /** extend(lock, duration): refused without touching a store when the
        duration is not an integer or the lock has already expired; on
        success the old lock is invalidated and a new one with the same
        value and resources is returned. */
    method Extend(existing: Lock, duration: real, opts: PartialSettings, now: int, schedule: nat -> Attempt, fuel: nat)
      returns (lock: Lock?, r: Result)
      requires Valid()
      modifies existing, clients
      ensures r.Done? <==> lock != null
      ensures duration != duration.Floor as real ==>
        r == Thrown(NonIntegerDuration) && Stores() == old(Stores()) && existing.expiration == old(existing.expiration)
      ensures duration == duration.Floor as real && old(existing.expiration) < now ==>
        r == Thrown(ExecutionError(AlreadyExpired, [])) && Stores() == old(Stores()) && existing.expiration == old(existing.expiration)
      ensures duration == duration.Floor as real && old(existing.expiration) >= now ==>
        var (stores', out) := Exec(old(Stores()), ExtendScript, existing.resources, existing.value, duration.Floor,
                                   Merge(settings, opts).retryCount, schedule, fuel);
        && Stores() == stores'
        && r == (match out
                 case Quorum(a) => Done(a)
                 case Exhausted(a) => Thrown(ExecutionError(QuorumFailure, a))
                 case _ => NeverReturns)
      ensures lock != null ==>
        && fresh(lock) && existing.expiration == 0
        && lock.resources == existing.resources && lock.value == existing.value
        && lock.expiration == LockExpiry(now, duration.Floor, Pick(opts.driftFactor, settings.driftFactor))
      ensures lock == null ==> existing.expiration == old(existing.expiration)
    {
      if duration != duration.Floor as real {
        return null, Thrown(NonIntegerDuration);
      }
      var d := duration.Floor;
      if existing.expiration < now {
        return null, Thrown(ExecutionError(AlreadyExpired, []));
      }
      var out := Execute(ExtendScript, existing.resources, existing.value, d, Merge(settings, opts), schedule, fuel);
      match out
      case Quorum(attempts) =>
        existing.expiration := 0;
        lock := new Lock(existing.resources, existing.value, attempts, LockExpiry(now, d, Pick(opts.driftFactor, settings.driftFactor)));
        r := Done(attempts);
      case Exhausted(attempts) =>
        lock, r := null, Thrown(ExecutionError(QuorumFailure, attempts));
      case Hung(_) =>
        lock, r := null, NeverReturns;
      case Unfinished(_) =>
        lock, r := null, NeverReturns;
    }
  }
}
