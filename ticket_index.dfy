/** The fast availability index in Redis: one hash per ticket under
    "ticket:<id>", and one set of ticket ids per (region, status) under
    "region:<region>:status:<status>". Create, update and delete keep the
    two in step; readRegion lists the "empty" set of a region. */
module TicketIndex {
  import opened Util

  type Id = string

  /** A Redis hash: field name to value. */
  type Hash = map<string, string>

  const TicketKeyPrefix := "ticket:"

  /** The key of a ticket's hash. */
  function RedisKey(id: Id): string
  {
    TicketKeyPrefix + id
  }

  /** Distinct tickets never share a hash key. */
  lemma RedisKeyInjective(a: Id, b: Id)
    ensures RedisKey(a) == RedisKey(b) ==> a == b
  {
    if RedisKey(a) == RedisKey(b) {
      assert a == RedisKey(a)[|TicketKeyPrefix|..];
      assert b == RedisKey(b)[|TicketKeyPrefix|..];
    }
  }

  /** How a template literal renders a possibly missing string. */
  function Render(v: Option<string>): string
  {
    if v.Some? then v.value else "undefined"
  }

  /** The key of the (region, status) index set. */
  function RegionStatusKey(region: Option<string>, status: Option<string>): string
  {
    "region:" + Render(region) + ":status:" + Render(status)
  }

  predicate NoColon(s: string)
  {
    forall i :: 0 <= i < |s| ==> s[i] != ':'
  }

  /** The layout of an index key: the region id from position 7, then the
      separator, then the status. */
  lemma KeyLayout(a: string, st: string, i: nat)
    requires i <= |a|
    ensures var k := "region:" + a + ":status:" + st;
            && k[7 + i] == (if i < |a| then a[i] else ':')
            && k[7..7 + |a|] == a && k[7 + |a| + 8..] == st
  {
  }

  /** The layouts of two index keys at the same position. */
  lemma KeyLayouts(a: string, s1: string, b: string, s2: string, i: nat)
    requires i <= |a| && i <= |b|
    ensures var k1 := "region:" + a + ":status:" + s1;
            var k2 := "region:" + b + ":status:" + s2;
            && k1[7 + i] == (if i < |a| then a[i] else ':') && k1[7..7 + |a|] == a && k1[7 + |a| + 8..] == s1
            && k2[7 + i] == (if i < |b| then b[i] else ':') && k2[7..7 + |b|] == b && k2[7 + |b| + 8..] == s2
  {
    KeyLayout(a, s1, i);
    KeyLayout(b, s2, i);
  }

  /** Index keys tell regions and statuses apart as long as region ids
      contain no colon. */
  lemma RegionStatusKeyInjective(r1: Option<string>, s1: Option<string>, r2: Option<string>, s2: Option<string>)
    requires NoColon(Render(r1)) && NoColon(Render(r2))
    ensures RegionStatusKey(r1, s1) == RegionStatusKey(r2, s2) ==> Render(r1) == Render(r2) && Render(s1) == Render(s2)
  {
    var a, b := Render(r1), Render(r2);
    if RegionStatusKey(r1, s1) == RegionStatusKey(r2, s2) {
      var shorter := if |a| < |b| then |a| else |b|;
      KeyLayouts(a, Render(s1), b, Render(s2), shorter);
      assert |a| == |b|;
      KeyLayouts(a, Render(s1), b, Render(s2), 0);
    }
  }

  /** The six fields every stored ticket hash carries. */
  predicate WellFormed(h: Hash)
  {
    "ticket_id" in h && "user_id" in h && "status" in h && "activity_id" in h && "region_id" in h && "seat_number" in h
  }

  /** A ticket as the index functions take and return it; user_id None is
      null. */
  datatype Ticket = Ticket(ticket_id: string, user_id: Option<string>, status: string, activity_id: string, region_id: string, seat_number: string)

  /** JavaScript truthiness of a possibly missing or null string. */
  predicate Truthy(v: Option<string>)
  {
    v.Some? && v.value != ""
  }

  /** The six fields createTicket writes; a null or empty holder is "". */
  function TicketHash(t: Ticket): (h: Hash)
    ensures WellFormed(h)
  {
    map["ticket_id" := t.ticket_id, "user_id" := if Truthy(t.user_id) then t.user_id.value else "",
        "status" := t.status, "activity_id" := t.activity_id, "region_id" := t.region_id,
        "seat_number" := t.seat_number]
  }

  /** readTicket's mapping of a stored hash; an empty holder reads as null. */
  function ViewOf(h: Hash): (t: Ticket)
    requires WellFormed(h)
    ensures t.user_id.None? <==> h["user_id"] == ""
    ensures t.user_id.Some? ==> t.user_id.value == h["user_id"]
  {
    Ticket(h["ticket_id"], if h["user_id"] != "" then Some(h["user_id"]) else None, h["status"],
           h["activity_id"], h["region_id"], h["seat_number"])
  }

  /** Writing a ticket and reading it back gives the ticket, with an empty
      holder turned into null. */
  lemma ReadBackCreated(t: Ticket)
    ensures ViewOf(TicketHash(t)) == t.(user_id := if Truthy(t.user_id) then t.user_id else None)
  {
  }

  function Get(h: Hash, f: string): Option<string>
  {
    if f in h then Some(h[f]) else None
  }

  /** The index set a stored hash belongs in. */
  function IndexKey(h: Hash): string
  {
    RegionStatusKey(Get(h, "region_id"), Get(h, "status"))
  }

  /** The contents of the Redis keyspace the index uses. */
  datatype Index = Index(hashes: map<Id, Hash>, sets: map<string, set<Id>>)

  function Members(sets: map<string, set<Id>>, k: string): set<Id>
  {
    if k in sets then sets[k] else {}
  }

  function Existing(ix: Index, id: Id): Hash
  {
    if id in ix.hashes then ix.hashes[id] else map[]
  }

  ghost predicate AllWellFormed(ix: Index)
  {
    forall id :: id in ix.hashes ==> WellFormed(ix.hashes[id])
  }

  /** Each stored id is in the set of its own region and status, and every
      set member is a stored id whose region and status match that set. */
  ghost predicate Indexed(ix: Index)
  {
    && (forall id :: id in ix.hashes ==> id in Members(ix.sets, IndexKey(ix.hashes[id])))
    && (forall k, id :: k in ix.sets && id in ix.sets[k] ==> id in ix.hashes && IndexKey(ix.hashes[id]) == k)
  }

  function AddMember(sets: map<string, set<Id>>, k: string, id: Id): map<string, set<Id>>
  {
    sets[k := Members(sets, k) + {id}]
  }

  function RemoveMember(sets: map<string, set<Id>>, k: string, id: Id): map<string, set<Id>>
  {
    sets[k := Members(sets, k) - {id}]
  }

  /** createTicket: HSET of the six fields over whatever the hash held, then
      SADD to the set of the ticket's region and status. */
  function Create(ix: Index, t: Ticket): Index
  {
    Index(ix.hashes[t.ticket_id := Existing(ix, t.ticket_id) + TicketHash(t)],
          AddMember(ix.sets, RegionStatusKey(Some(t.region_id), Some(t.status)), t.ticket_id))
  }

  /** readTicket: null for an absent hash. */
  function Read(ix: Index, id: Id): (r: Option<Ticket>)
    requires AllWellFormed(ix)
    ensures r.None? <==> id !in ix.hashes
  {
    if id in ix.hashes then Some(ViewOf(ix.hashes[id])) else None
  }

  /** A partial update; None is a property that is absent (or null, for
      user_id, which the merge treats alike). */
  datatype Updates = Updates(ticket_id: Option<string>, user_id: Option<string>, status: Option<string>,
                             activity_id: Option<string>, region_id: Option<string>, seat_number: Option<string>)

  function Pick(given: Option<string>, fallback: string): string
  {
    if given.Some? then given.value else fallback
  }

  /** The merged ticket: supplied properties override, the holder changes
      only to a truthy one. */
  function Merge(existing: Ticket, u: Updates): Ticket
  {
    Ticket(Pick(u.ticket_id, existing.ticket_id),
           if Truthy(u.user_id) then u.user_id else existing.user_id,
           Pick(u.status, existing.status), Pick(u.activity_id, existing.activity_id),
           Pick(u.region_id, existing.region_id), Pick(u.seat_number, existing.seat_number))
  }

  /** updateTicket: None when the ticket is absent (it throws); otherwise
      the six fields are rewritten from the merge and, when the index key
      changed, the id moves from the old set to the new one. */
  function Update(ix: Index, id: Id, u: Updates): (r: Option<Index>)
    requires AllWellFormed(ix)
    ensures r.None? <==> id !in ix.hashes
  {
    if id !in ix.hashes then None
    else
      var h := ix.hashes[id];
      var h' := h + TicketHash(Merge(ViewOf(h), u));
      var oldKey := IndexKey(h);
      var newKey := IndexKey(h');
      Some(Index(ix.hashes[id := h'],
                 if oldKey != newKey then AddMember(RemoveMember(ix.sets, oldKey, id), newKey, id) else ix.sets))
  }

  /** deleteTicket: DEL of the hash and SREM from its current set; an absent
      ticket is left alone. */
  function Delete(ix: Index, id: Id): (r: Index)
    ensures id !in r.hashes
  {
    if id !in ix.hashes then ix
    else Index(ix.hashes - {id}, RemoveMember(ix.sets, IndexKey(ix.hashes[id]), id))
  }

  /** readRegion: the members of the region's "empty" set. */
  function EmptySeats(ix: Index, region: string): set<Id>
  {
    Members(ix.sets, RegionStatusKey(Some(region), Some("empty")))
  }

  /** Creating a ticket whose id is new, or whose region and status are
      unchanged, keeps the index consistent. */
  lemma CreatePreservesIndexed(ix: Index, t: Ticket)
    requires Indexed(ix)
    requires t.ticket_id in ix.hashes ==> IndexKey(ix.hashes[t.ticket_id]) == RegionStatusKey(Some(t.region_id), Some(t.status))
    ensures Indexed(Create(ix, t))
  {
    var h := Existing(ix, t.ticket_id) + TicketHash(t);
    assert IndexKey(h) == RegionStatusKey(Some(t.region_id), Some(t.status));
    StorePreservesIndexed(ix, t.ticket_id, h);
  }

  /** Storing a hash under an id and adding the id to the set of the
      hash's region and status keeps the index consistent, when the id was
      new or already belonged to that set. */
  lemma StorePreservesIndexed(ix: Index, id: Id, h: Hash)
    requires Indexed(ix)
    requires id in ix.hashes ==> IndexKey(ix.hashes[id]) == IndexKey(h)
    ensures Indexed(Index(ix.hashes[id := h], AddMember(ix.sets, IndexKey(h), id)))
  {
    var ix' := Index(ix.hashes[id := h], AddMember(ix.sets, IndexKey(h), id));
    forall k, j | k in ix'.sets && j in ix'.sets[k]
      ensures j in ix'.hashes && IndexKey(ix'.hashes[j]) == k
    {
      if j != id {
        assert k in ix.sets && j in ix.sets[k];
      }
    }
  }

  /** createTicket does not remove the id from the set it was in, so
      re-creating a stored ticket under another region or status leaves it
      in two sets. */
  lemma CreateOverStoredTicketBreaksIndex(ix: Index, t: Ticket)
    requires Indexed(ix) && t.ticket_id in ix.hashes
    requires IndexKey(ix.hashes[t.ticket_id]) != RegionStatusKey(Some(t.region_id), Some(t.status))
    ensures !Indexed(Create(ix, t))
  {
    var ix' := Create(ix, t);
    var oldKey := IndexKey(ix.hashes[t.ticket_id]);
    assert t.ticket_id in Members(ix.sets, oldKey);
    assert oldKey in ix'.sets && t.ticket_id in ix'.sets[oldKey];
    assert IndexKey(ix'.hashes[t.ticket_id]) != oldKey;
  }

  lemma UpdatePreservesIndexed(ix: Index, id: Id, u: Updates)
    requires AllWellFormed(ix) && Indexed(ix) && id in ix.hashes
    ensures AllWellFormed(Update(ix, id, u).value) && Indexed(Update(ix, id, u).value)
  {
    var ix' := Update(ix, id, u).value;
    var h := ix.hashes[id];
    var oldKey := IndexKey(h);
    var newKey := IndexKey(ix'.hashes[id]);
    forall k, j | k in ix'.sets && j in ix'.sets[k]
      ensures j in ix'.hashes && IndexKey(ix'.hashes[j]) == k
    {
      if j != id {
        assert k in ix.sets && j in ix.sets[k];
      }
    }
    forall j | j in ix'.hashes ensures j in Members(ix'.sets, IndexKey(ix'.hashes[j])) {
      if j != id {
        assert j in Members(ix.sets, IndexKey(ix.hashes[j]));
        if IndexKey(ix.hashes[j]) == oldKey {
          assert j != id;
        }
      }
    }
  }

  lemma DeletePreservesIndexed(ix: Index, id: Id)
    requires Indexed(ix)
    ensures Indexed(Delete(ix, id))
  {
  }

  /** Update keeps every field it is not given, and a falsy user_id never
      clears the holder. */
  lemma UpdateKeepsUnsuppliedFields(ix: Index, id: Id, u: Updates)
    requires AllWellFormed(ix) && id in ix.hashes
    ensures var h, h' := ix.hashes[id], Update(ix, id, u).value.hashes[id];
            && h'.Keys == h.Keys
            && (forall f :: f in h && f !in TicketHash(ViewOf(h)) ==> h'[f] == h[f])
            && (u.status.None? ==> h'["status"] == h["status"])
            && (u.region_id.None? ==> h'["region_id"] == h["region_id"])
            && (u.seat_number.None? ==> h'["seat_number"] == h["seat_number"])
            && (!Truthy(u.user_id) ==> h'["user_id"] == h["user_id"])
            && (Truthy(u.user_id) ==> h'["user_id"] == u.user_id.value)
  {
  }

  /** Re-indexing: when region or status changes the id leaves the old set
      and joins the new one; otherwise no set is touched. */
  lemma UpdateMovesBetweenSets(ix: Index, id: Id, u: Updates)
    requires AllWellFormed(ix) && Indexed(ix) && id in ix.hashes
    ensures var ix' := Update(ix, id, u).value;
            var oldKey, newKey := IndexKey(ix.hashes[id]), IndexKey(ix'.hashes[id]);
            && (oldKey == newKey ==> ix'.sets == ix.sets)
            && (oldKey != newKey ==> id !in Members(ix'.sets, oldKey) && id in Members(ix'.sets, newKey))
            && (forall k :: k != oldKey && k != newKey ==> Members(ix'.sets, k) == Members(ix.sets, k))
  {
  }

  /** With colon-free region ids, readRegion lists exactly the stored
      tickets of that region whose status is "empty". */
  lemma EmptySeatsExact(ix: Index, region: string, id: Id)
    requires AllWellFormed(ix) && Indexed(ix) && NoColon(region)
    requires forall j :: j in ix.hashes ==> NoColon(ix.hashes[j]["region_id"])
    ensures id in EmptySeats(ix, region) <==>
            id in ix.hashes && ix.hashes[id]["region_id"] == region && ix.hashes[id]["status"] == "empty"
  {
    var k := RegionStatusKey(Some(region), Some("empty"));
    if id in EmptySeats(ix, region) {
      assert k in ix.sets && id in ix.sets[k];
      var h := ix.hashes[id];
      RegionStatusKeyInjective(Get(h, "region_id"), Get(h, "status"), Some(region), Some("empty"));
    }
  }

  /** The members of a set in some order, each once: the order in which
      Redis answers SMEMBERS or KEYS is not specified. */
  method Enumerate(s: set<Id>) returns (xs: seq<Id>)
    ensures forall x :: x in xs <==> x in s
    ensures |xs| == |s|
    ensures forall i, j :: 0 <= i < j < |xs| ==> xs[i] != xs[j]
  {
    xs := [];
    var rest := s;
    while rest != {}
      invariant rest <= s
      invariant forall x :: x in xs <==> x in s && x !in rest
      invariant |xs| + |rest| == |s|
      invariant forall i, j :: 0 <= i < j < |xs| ==> xs[i] != xs[j]
      decreases |rest|
    {
      var x :| x in rest;
      xs := xs + [x];
      rest := rest - {x};
    }
  }

  /** The Redis instance holding the ticket hashes and index sets. */
  class TicketStore {
    var hashes: map<Id, Hash>
    var sets: map<string, set<Id>>

    function State(): Index
      reads this
    {
      Index(hashes, sets)
    }

    ghost predicate Valid()
      reads this
    {
      AllWellFormed(State())
    }

    constructor ()
      ensures Valid() && hashes == map[] && sets == map[]
    {
      hashes := map[];
      sets := map[];
    }

    /** HGETALL: the hash, or no fields at all. */
    function HGetAll(id: Id): Hash
      reads this
    {
      Existing(State(), id)
    }

    /** HSET of some fields into a ticket's hash. */
    method HSet(id: Id, fields: Hash)
      requires Valid() && WellFormed(Existing(State(), id) + fields)
      modifies this
      ensures Valid()
      ensures hashes == old(hashes)[id := Existing(old(State()), id) + fields] && sets == old(sets)
    {
      hashes := hashes[id := Existing(State(), id) + fields];
    }

    /** DEL of a ticket's hash. */
    method Del(id: Id)
      requires Valid()
      modifies this
      ensures Valid() && hashes == old(hashes) - {id} && sets == old(sets)
    {
      hashes := hashes - {id};
    }

    method SAdd(k: string, id: Id)
      modifies this
      ensures sets == AddMember(old(sets), k, id) && hashes == old(hashes)
    {
      sets := AddMember(sets, k, id);
    }

    method SRem(k: string, id: Id)
      modifies this
      ensures sets == RemoveMember(old(sets), k, id) && hashes == old(hashes)
    {
      sets := RemoveMember(sets, k, id);
    }

    /** SMEMBERS: the set, in some order. */
    method SMembers(k: string) returns (ids: seq<Id>)
      ensures forall x :: x in ids <==> x in Members(sets, k)
      ensures forall i, j :: 0 <= i < j < |ids| ==> ids[i] != ids[j]
    {
      ids := Enumerate(Members(sets, k));
    }

    /** KEYS ticket:*: every stored ticket, in some order. */
    method TicketKeys() returns (ids: seq<Id>)
      ensures forall x :: x in ids <==> x in hashes
      ensures forall i, j :: 0 <= i < j < |ids| ==> ids[i] != ids[j]
    {
      ids := Enumerate(hashes.Keys);
    }

    method CreateTicket(t: Ticket)
      requires Valid()
      modifies this
      ensures Valid() && State() == Create(old(State()), t)
    {
      HSet(t.ticket_id, TicketHash(t));
      SAdd(RegionStatusKey(Some(t.region_id), Some(t.status)), t.ticket_id);
    }

    function ReadTicket(id: Id): (r: Option<Ticket>)
      reads this
      requires Valid()
      ensures r.None? <==> id !in hashes
      ensures r.Some? ==> r.value == ViewOf(hashes[id])
    {
      Read(State(), id)
    }

    /** updateTicket. failAt numbers its commands as HoldThrows does; ok is
        false when the call throws, because the ticket is absent or a
        command failed, and the commands before the failing one stay done. */
    method UpdateTicket(id: Id, u: Updates, failAt: nat) returns (ok: bool)
      requires Valid()
      modifies this
      ensures Valid()
      ensures id !in old(hashes) ==> !ok && State() == old(State())
      ensures id in old(hashes) ==>
                && ok == !HoldThrows(old(State()), id, u, None, failAt)
                && State() == HoldPartial(old(State()), id, u, None, failAt)
    {
      if failAt == 1 {
        return false;
      }
      var existing := ReadTicket(id);
      if existing.None? {
        return false;
      }
      var h := hashes[id];
      var updated := Merge(existing.value, u);
      var oldKey := RegionStatusKey(Some(existing.value.region_id), Some(existing.value.status));
      var newKey := RegionStatusKey(Some(updated.region_id), Some(updated.status));
      assert oldKey == IndexKey(h);
      if failAt == 2 {
        return false;
      }
      HSet(id, TicketHash(updated));
      assert hashes[id] == Rewritten(h, u);
      assert newKey == IndexKey(hashes[id]);
      if oldKey != newKey {
        if failAt == 3 {
          return false;
        }
        SRem(oldKey, id);
        if failAt == 4 {
          return false;
        }
        SAdd(newKey, id);
      }
      ok := true;
    }

    method DeleteTicket(id: Id)
      requires Valid()
      modifies this
      ensures Valid() && State() == Delete(old(State()), id)
    {
      var ticket := ReadTicket(id);
      if ticket.None? {
        return;
      }
      var key := RegionStatusKey(Some(ticket.value.region_id), Some(ticket.value.status));
      assert key == IndexKey(hashes[id]);
      Del(id);
      SRem(key, id);
    }

    method ReadRegion(region: string) returns (ids: seq<Id>)
      ensures forall x :: x in ids <==> x in EmptySeats(State(), region)
      ensures forall i, j :: 0 <= i < j < |ids| ==> ids[i] != ids[j]
    {
      ids := SMembers(RegionStatusKey(Some(region), Some("empty")));
    }

    /** The hold-record update the reservation routes and the sweeper use:
        updateTicket's re-indexing update, then an HSET of reserver_time
        when one is given. failAt numbers the commands as HoldThrows does. */
    method UpdateHold(id: Id, u: Updates, reserverTime: Option<string>, failAt: nat) returns (ok: bool)
      requires Valid()
      modifies this
      ensures Valid()
      ensures id !in old(hashes) ==> !ok && State() == old(State())
      ensures id in old(hashes) ==>
                && ok == !HoldThrows(old(State()), id, u, reserverTime, failAt)
                && State() == HoldPartial(old(State()), id, u, reserverTime, failAt)
    {
      ok := UpdateTicket(id, u, failAt);
      if ok && reserverTime.Some? {
        if failAt == 5 {
          return false;
        }
        ghost var ix := State();
        var stamped := hashes[id]["reserver_time" := reserverTime.value];
        assert Existing(ix, id) + map["reserver_time" := reserverTime.value] == stamped;
        HSet(id, map["reserver_time" := reserverTime.value]);
        assert State() == ix.(hashes := ix.hashes[id := stamped]);
      }
    }
  }

  /** The state after the hold-record update of an existing ticket. */
  function HoldUpdate(ix: Index, id: Id, u: Updates, reserverTime: Option<string>): (r: Index)
    requires AllWellFormed(ix) && id in ix.hashes
    ensures AllWellFormed(r)
  {
    var ix' := Update(ix, id, u).value;
    if reserverTime.Some? then ix'.(hashes := ix'.hashes[id := ix'.hashes[id]["reserver_time" := reserverTime.value]])
    else ix'
  }

  /** The hold-record update keeps the index consistent, and the reserver
      time leaves the index key alone. */
  lemma HoldUpdatePreservesIndexed(ix: Index, id: Id, u: Updates, reserverTime: Option<string>)
    requires AllWellFormed(ix) && Indexed(ix) && id in ix.hashes
    ensures Indexed(HoldUpdate(ix, id, u, reserverTime))
  {
    UpdatePreservesIndexed(ix, id, u);
    var ix' := Update(ix, id, u).value;
    var r := HoldUpdate(ix, id, u, reserverTime);
    assert forall j :: j in r.hashes ==> IndexKey(r.hashes[j]) == IndexKey(ix'.hashes[j]);
  }

  /** The hash updateTicket's HSET leaves: the stored fields, overwritten
      by the six fields of the merged ticket. */
  function Rewritten(h: Hash, u: Updates): Hash
    requires WellFormed(h)
  {
    h + TicketHash(Merge(ViewOf(h), u))
  }

  /** Whether the update changes the ticket's index key, so that updateTicket
      also issues SREM and SADD. */
  predicate Moves(ix: Index, id: Id, u: Updates)
    requires AllWellFormed(ix) && id in ix.hashes
  {
    IndexKey(ix.hashes[id]) != IndexKey(Rewritten(ix.hashes[id], u))
  }

  /** Whether the hold update of a stored ticket throws when its command
      number failAt throws. The commands, in the order they are issued: 1
      readTicket's HGETALL, 2 the HSET of the six fields, 3 the SREM and 4
      the SADD (issued only when the index key changes), 5 the HSET of the
      reserver time (issued only when one is given). 0, or a command that is
      not issued, is a run without failure. */
  predicate HoldThrows(ix: Index, id: Id, u: Updates, reserverTime: Option<string>, failAt: nat)
    requires AllWellFormed(ix) && id in ix.hashes
  {
    || failAt == 1 || failAt == 2
    || (Moves(ix, id, u) && (failAt == 3 || failAt == 4))
    || (reserverTime.Some? && failAt == 5)
  }

  /** The keyspace the hold update leaves: what the commands before the
      failing one wrote, or the whole update when none fails. */
  function HoldPartial(ix: Index, id: Id, u: Updates, reserverTime: Option<string>, failAt: nat): (r: Index)
    requires AllWellFormed(ix) && id in ix.hashes
    ensures AllWellFormed(r)
    ensures !HoldThrows(ix, id, u, reserverTime, failAt) ==> r == HoldUpdate(ix, id, u, reserverTime)
  {
    var h := ix.hashes[id];
    if failAt == 1 || failAt == 2 then ix
    else if Moves(ix, id, u) && failAt == 3 then Index(ix.hashes[id := Rewritten(h, u)], ix.sets)
    else if Moves(ix, id, u) && failAt == 4 then Index(ix.hashes[id := Rewritten(h, u)], RemoveMember(ix.sets, IndexKey(h), id))
    else if reserverTime.Some? && failAt == 5 then Update(ix, id, u).value
    else HoldUpdate(ix, id, u, reserverTime)
  }

  /** A hold update that throws between the HSET and the set move leaves the
      index inconsistent: after a failed SREM the id is still in its old set
      while its hash names the new one, after a failed SADD it is in no set.
      Failing at any other command keeps the index consistent. */
  lemma HoldPartialIndexed(ix: Index, id: Id, u: Updates, reserverTime: Option<string>, failAt: nat)
    requires AllWellFormed(ix) && Indexed(ix) && id in ix.hashes
    ensures Indexed(HoldPartial(ix, id, u, reserverTime, failAt)) <==> !(Moves(ix, id, u) && (failAt == 3 || failAt == 4))
  {
    var h := ix.hashes[id];
    var oldKey, newKey := IndexKey(h), IndexKey(Rewritten(h, u));
    var r := HoldPartial(ix, id, u, reserverTime, failAt);
    if Moves(ix, id, u) && failAt == 3 {
      assert id in Members(ix.sets, oldKey);
      assert oldKey in r.sets && id in r.sets[oldKey] && IndexKey(r.hashes[id]) != oldKey;
    } else if Moves(ix, id, u) && failAt == 4 {
      assert id !in Members(ix.sets, newKey);
      assert id in r.hashes && IndexKey(r.hashes[id]) == newKey && id !in Members(r.sets, newKey);
    } else if failAt == 1 || failAt == 2 {
    } else if reserverTime.Some? && failAt == 5 {
      UpdatePreservesIndexed(ix, id, u);
    } else {
      HoldUpdatePreservesIndexed(ix, id, u, reserverTime);
    }
  }
}
