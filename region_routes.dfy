/** The host routes on one region of an activity: POST /:activity_id adds a
    region and generates its seat tickets, PATCH /:region_id updates a
    region, DELETE /:region_id removes a region with its tickets. The
    clock, the date parser, the token's claims and every database failure
    are parameters. */
module RegionRoutes {
  import opened Util
  import opened Sql
  import opened Postgres
  import opened SeatTickets
  import opened ActivityPost
  import opened Http
  import AR = ActivityRoutes
  import RU = RegionUpdate
  import RD = RegionDelete

  const RegionRequired := "region_name, region_price, and region_capacity are required."
  const RegionNotPositive := "region_price and region_capacity must be positive values."
  const OnlyCreatorAdds := "Only the creator can add regions."
  const AfterStart := "Cannot add regions after the activity has started."
  const RegionCreateFailed := "Failed to create region"
  const RegionAdded := "Region and tickets added successfully"

  /** The validations of POST /:activity_id, in the handler's order, on the
      request body and the looked-up activity. */
  function AddRejection(req: AR.RegionField, decoded: Object, activity: Object, now: int,
                        parse: string -> Option<int>): (r: Option<Reply>)
    ensures r.Some? ==> r.value.Fail? && (r.value.status == 400 || r.value.status == 403)
  {
    if req.region_name.None? || req.region_name.value == "" || req.region_price.None? || req.region_price.value == 0
       || req.region_capacity.None? || req.region_capacity.value == 0
    then Some(Fail(400, RegionRequired))
    else if req.region_price.value <= 0 || req.region_capacity.value <= 0 then Some(Fail(400, RegionNotPositive))
    else if !StrictEquals(Prop(activity, "creator_id"), Prop(decoded, "_id")) then Some(Fail(403, OnlyCreatorAdds))
    else if AtOrBefore(DateOf(Prop(activity, "start_time"), parse), Some(now)) then Some(Fail(400, AfterStart))
    else None
  }

  /** An accepted addition has a non-empty name and a positive price and
      capacity, comes from the activity's creator, and, when the start
      time is a valid date, comes before it. */
  lemma AddAccepted(req: AR.RegionField, decoded: Object, activity: Object, now: int, parse: string -> Option<int>)
    requires AddRejection(req, decoded, activity, now, parse).None?
    ensures AR.WellFormed(req)
    ensures Prop(activity, "creator_id") == Prop(decoded, "_id")
    ensures var start := DateOf(Prop(activity, "start_time"), parse); start.Some? ==> now < start.value
  {
  }

  /** The converse: a well-formed addition by the creator is refused only
      once the activity has started, and then with 400. */
  lemma AddRefusedOnlyAfterStart(req: AR.RegionField, decoded: Object, activity: Object, now: int,
                                 parse: string -> Option<int>)
    requires AR.WellFormed(req) && StrictEquals(Prop(activity, "creator_id"), Prop(decoded, "_id"))
    ensures AddRejection(req, decoded, activity, now, parse) ==
              if AtOrBefore(DateOf(Prop(activity, "start_time"), parse), Some(now)) then Some(Fail(400, AfterStart)) else None
  {
  }

  /** The `!activity` test never fires, and for an activity that does not
      exist a token without a user id passes both the creator check
      (undefined equals undefined) and the start check (an Invalid Date),
      so the region insert is attempted. */
  lemma AddMissingActivityWithoutUser(req: AR.RegionField, decoded: Object, rows: Rows, key: Id, fault: bool, now: int,
                                      parse: string -> Option<int>)
    requires fault || key !in rows
    requires "_id" !in decoded && AR.WellFormed(req)
    ensures AddRejection(req, decoded, ActivityById(rows, Some(Text(key)), fault), now, parse).None?
  {
    LookupMissing(rows, Some(Text(key)), fault, ActivityMissing, ActivityFetchFailed, "creator_id");
    LookupMissing(rows, Some(Text(key)), fault, ActivityMissing, ActivityFetchFailed, "start_time");
  }

  /** What createRegion answers: the stored row, or an {error} object. */
  datatype RegionCreated = RegionCreated(row: Row) | RegionError(error: string)

  /** createRegion: one insert of the region tagged with its activity.
      fault makes the insert fail, which is also how a foreign key the
      database refuses shows up. */
  method CreateRegion(db: Database, activity: Value, r: RegionInput, fault: bool) returns (created: RegionCreated)
    requires db.Valid()
    modifies db
    ensures db.Valid()
    ensures fault ==> created == RegionError(RegionCreateFailed) && db.tables == old(db.tables) && db.nextId == old(db.nextId)
    ensures !fault ==>
              var id := SerialId(old(db.nextId));
              && id !in old(db.Rows(Regions)) && db.nextId == old(db.nextId) + 1
              && created == RegionCreated(RegionRow(activity, r)["_id" := Text(id)])
              && db.tables == old(db.tables)[Regions := old(db.Rows(Regions))[id := created.row]]
  {
    if fault {
      return RegionError(RegionCreateFailed);
    }
    var id, row := db.Insert(Regions, RegionRow(activity, r));
    created := RegionCreated(row);
  }

  /** The region an accepted request inserts; the validations have made every
      property present. */
  function AddInput(req: AR.RegionField): RegionInput
  {
    RegionInput(if req.region_name.Some? then req.region_name.value else "",
                if req.region_price.Some? then req.region_price.value else 0,
                if req.region_capacity.Some? then req.region_capacity.value else 0)
  }

  /** The effect of an accepted addition whose region insert succeeds, from
      tables t0 and sequence value n0: the region goes in under n0, then
      one ticket per seat from 1 up, under n0+1 onwards, until the insert
      numbered ticketFailAt (from 1; 0 for none) fails. The tickets made
      before a failure stay, and the reply is then 500. */
  ghost predicate Added(t0: Tables, n0: nat, t1: Tables, n1: nat, activityId: Id, r: RegionInput, ticketFailAt: nat,
                        reply: Reply)
    requires r.region_capacity > 0
  {
    var rid := SerialId(n0);
    var row := RegionRow(Text(activityId), r)["_id" := Text(rid)];
    var ok := ticketFailAt == 0 || ticketFailAt > r.region_capacity;
    var made: nat := if ok then r.region_capacity else ticketFailAt - 1;
    && reply == (if ok then Done(201, RegionAdded, [row]) else Fail(500, AR.InternalError))
    && n1 == n0 + 1 + made
    && t1 == t0[Regions := RowsOf(t0, Regions)[rid := row]][Tickets := RowsOf(t0, Tickets) + NewSeats(n0 + 1, made, Text(activityId), Text(rid), 1)]
  }

  /** A seat ticket as generated: of the given activity and region, with
      no owner, unpaid. */
  predicate Unclaimed(row: Row, activity: Value, region: Value)
  {
    && "activity_id" in row && row["activity_id"] == activity
    && "region_id" in row && row["region_id"] == region
    && "user_id" in row && row["user_id"] == Null
    && "is_paid" in row && row["is_paid"] == Bool(false)
  }

  /** The tickets a complete addition generates for its new region: one
      per seat, numbered 1 to the capacity. */
  lemma AddedTickets(n0: nat, activityId: Id, capacity: nat)
    ensures var seats := NewSeats(n0 + 1, capacity, Text(activityId), Text(SerialId(n0)), 1);
            |seats| == capacity && SeatNumbers(seats) == (set k | 1 <= k < 1 + capacity :: Num(k))
  {
    NewSeatsCount(n0 + 1, capacity, Text(activityId), Text(SerialId(n0)), 1);
    NewSeatsNumbers(n0 + 1, capacity, Text(activityId), Text(SerialId(n0)), 1);
  }

  /** Every ticket generated for the new region belongs to it and to its
      activity, and is unowned and unpaid. */
  lemma AddedTicketsUnclaimed(n0: nat, activityId: Id, capacity: nat, id: Id)
    requires id in NewSeats(n0 + 1, capacity, Text(activityId), Text(SerialId(n0)), 1)
    ensures Unclaimed(NewSeats(n0 + 1, capacity, Text(activityId), Text(SerialId(n0)), 1)[id], Text(activityId), Text(SerialId(n0)))
  {
    NewSeatsOnly(n0 + 1, capacity, Text(activityId), Text(SerialId(n0)), 1);
    var m :| n0 + 1 <= m < n0 + 1 + capacity && id == SerialId(m);
    NewSeatsAt(n0 + 1, capacity, Text(activityId), Text(SerialId(n0)), 1, m - (n0 + 1));
    StoredUnclaimed(Text(activityId), Text(SerialId(n0)), m - n0, id);
  }

  /** A stored seat row is unclaimed. */
  lemma StoredUnclaimed(activity: Value, region: Value, seat: int, id: Id)
    ensures Unclaimed(Stored(activity, region, seat, id), activity, region)
  {
  }

  /** POST /:activity_id. lookupFault makes getActivityById throw,
      regionFault the region insert; ticketFailAt numbers the ticket insert
      that fails, from 1, and 0 means none does. */
  method AddRegionRoute(db: Database, activityId: Id, req: AR.RegionField, decoded: Object, now: int,
                        parse: string -> Option<int>, lookupFault: bool, regionFault: bool, ticketFailAt: nat)
    returns (reply: Reply)
    requires db.Valid()
    modifies db
    ensures db.Valid()
    ensures var activity := ActivityById(old(db.Rows(Activities)), Some(Text(activityId)), lookupFault);
            var rejection := AddRejection(req, decoded, activity, now, parse);
            rejection.Some? ==> reply == rejection.value && db.tables == old(db.tables) && db.nextId == old(db.nextId)
    ensures var activity := ActivityById(old(db.Rows(Activities)), Some(Text(activityId)), lookupFault);
            AddRejection(req, decoded, activity, now, parse).None? && regionFault ==>
              reply == Fail(400, RegionCreateFailed) && db.tables == old(db.tables) && db.nextId == old(db.nextId)
    ensures var activity := ActivityById(old(db.Rows(Activities)), Some(Text(activityId)), lookupFault);
            AddRejection(req, decoded, activity, now, parse).None? && !regionFault ==>
              AddInput(req).region_capacity > 0
              && Added(old(db.tables), old(db.nextId), db.tables, db.nextId, activityId, AddInput(req), ticketFailAt, reply)
  {
    var activity := ActivityById(db.Rows(Activities), Some(Text(activityId)), lookupFault);
    var rejection := AddRejection(req, decoded, activity, now, parse);
    if rejection.Some? {
      return rejection.value;
    }
    var input := RegionInput(req.region_name.value, req.region_price.value, req.region_capacity.value);
    var created := CreateRegion(db, Text(activityId), input, regionFault);
    if created.RegionError? {
      return Fail(400, created.error);
    }
    ghost var t1, n1 := db.tables, db.nextId;
    var ok := CreateSeats(db, Text(activityId), Cell(created.row, "_id"), 1, input.region_capacity, ticketFailAt);
    if !ok {
      reply := Fail(500, AR.InternalError);
    } else {
      reply := Done(201, RegionAdded, [created.row]);
    }
    assert RowsOf(t1, Tickets) == old(db.Rows(Tickets));
  }

  const PriceNotPositive := "region_price must be a positive value."
  const CapacityNotPositive := "region_capacity must be a positive value."
  const NameNotString := "region_name must be a valid string."
  const OnlyCreatorUpdates := "Only the creator can update the region."
  const UpdateAfterOnSale := "Updates to regions are only allowed before the on-sale date."
  const RegionUpdated := "Region and tickets updated successfully"

  /** The body of PATCH /:region_id; None is a property left undefined.
      The name may be any JSON value; prices and capacities are whole
      numbers. */
  datatype RegionPatch = RegionPatch(region_name: Option<Value>, region_price: Option<int>, region_capacity: Option<int>)

  /** The activity a region's checks read: getRegionById, then
      getActivityById of whatever the answer's activity_id is. */
  function OwnerOf(regions: Rows, activities: Rows, regionId: Id, regionFault: bool, activityFault: bool): Object
  {
    ActivityById(activities, Prop(RegionById(regions, Some(Text(regionId)), regionFault), "activity_id"), activityFault)
  }

  /** For a stored region whose activity is stored, the validations read that
      activity's row. */
  lemma OwnerOfStored(regions: Rows, activities: Rows, regionId: Id, activityId: Id, column: string)
    requires regionId in regions && "activity_id" in regions[regionId] && regions[regionId]["activity_id"] == Text(activityId)
    requires activityId in activities
    ensures Prop(OwnerOf(regions, activities, regionId, false, false), column) == Prop(activities[activityId], column)
  {
    LookupFound(regions, regionId, false, RegionMissing, RegionFetchFailed, "activity_id");
    LookupFound(activities, activityId, false, ActivityMissing, ActivityFetchFailed, column);
  }

  /** The validations of PATCH /:region_id, in the handler's order. The
      creator check is loose equality. */
  function PatchRejection(req: RegionPatch, decoded: Object, activity: Object, now: int,
                          parse: string -> Option<int>): (r: Option<Reply>)
    ensures r.Some? ==> r.value.Fail? && (r.value.status == 400 || r.value.status == 403)
  {
    if req.region_price.Some? && req.region_price.value <= 0 then Some(Fail(400, PriceNotPositive))
    else if req.region_capacity.Some? && req.region_capacity.value <= 0 then Some(Fail(400, CapacityNotPositive))
    else if req.region_name.Some? && !req.region_name.value.Text? then Some(Fail(400, NameNotString))
    else if !LooseEquals(Prop(activity, "creator_id"), Prop(decoded, "_id")) then Some(Fail(403, OnlyCreatorUpdates))
    else if AtOrBefore(DateOf(Prop(activity, "on_sale_date"), parse), Some(now)) then Some(Fail(400, UpdateAfterOnSale))
    else None
  }

  /** A patch with values the validations accept: a supplied price or capacity
      is positive and a supplied name is a string. */
  predicate ValidPatch(req: RegionPatch)
  {
    (req.region_price.None? || req.region_price.value > 0)
    && (req.region_capacity.None? || req.region_capacity.value > 0)
    && (req.region_name.None? || req.region_name.value.Text?)
  }

  /** An accepted patch has valid values, comes from someone loosely equal
      to the creator, and, when the on-sale date is a valid date, comes
      before it. */
  lemma PatchAccepted(req: RegionPatch, decoded: Object, activity: Object, now: int, parse: string -> Option<int>)
    requires PatchRejection(req, decoded, activity, now, parse).None?
    ensures ValidPatch(req)
    ensures LooseEquals(Prop(activity, "creator_id"), Prop(decoded, "_id"))
    ensures var onSale := DateOf(Prop(activity, "on_sale_date"), parse); onSale.Some? ==> now < onSale.value
  {
  }

  /** Once the on-sale date has passed, every valid patch is refused: 403
      to anyone but the creator, 400 to the creator. */
  lemma PatchRefusedOnSale(req: RegionPatch, decoded: Object, activity: Object, now: int, parse: string -> Option<int>)
    requires ValidPatch(req)
    requires AtOrBefore(DateOf(Prop(activity, "on_sale_date"), parse), Some(now))
    ensures PatchRejection(req, decoded, activity, now, parse) ==
              if LooseEquals(Prop(activity, "creator_id"), Prop(decoded, "_id")) then Some(Fail(400, UpdateAfterOnSale))
              else Some(Fail(403, OnlyCreatorUpdates))
  {
  }

  /** The update handed to updateRegion: the region id and each supplied
      property. */
  function PatchChanges(id: Id, req: RegionPatch): RU.RegionChanges
  {
    RU.RegionChanges(id, if req.region_name.Some? && req.region_name.value.Text? then Some(req.region_name.value.s) else None,
                     req.region_price, req.region_capacity)
  }

  /** The UPDATE assigns a column last exactly the value the patch
      supplies for it: a non-empty name, a price, a capacity; nothing else
      is ever assigned. */
  lemma PatchSupplies(id: Id, req: RegionPatch, column: string)
    requires ValidPatch(req)
    ensures LastValue(RU.Included(PatchChanges(id, req)), column) ==
              if column == "region_name" && req.region_name.Some? && req.region_name.value != Text("")
              then req.region_name
              else if column == "region_price" && req.region_price.Some? then Some(Num(req.region_price.value))
              else if column == "region_capacity" && req.region_capacity.Some? then Some(Num(req.region_capacity.value))
              else None
  {
    RU.IncludedSupplies(PatchChanges(id, req), column);
  }

  /** Loose and strict equality part ways: an activity whose creator is
      stored as a number lets a token carrying the number as a string
      update its regions but not delete them. */
  lemma UpdateLooserThanDelete(req: RegionPatch, decoded: Object, activity: Object, now: int,
                               parse: string -> Option<int>, n: nat)
    requires ValidPatch(req) && !AtOrBefore(DateOf(Prop(activity, "on_sale_date"), parse), Some(now))
    requires Prop(activity, "creator_id") == Some(Num(n)) && Prop(decoded, "_id") == Some(Text(NatToString(n)))
    ensures PatchRejection(req, decoded, activity, now, parse).None?
    ensures DeleteRejection(decoded, activity, now, parse) == Some(Fail(403, OnlyCreatorDeletes))
  {
    LooseWeakerThanStrict(Prop(activity, "creator_id"), Prop(decoded, "_id"), n);
  }

  /** For a region that does not exist, the activity lookup gets an
      undefined id and answers an object without a creator, so a token
      without a user id passes both checks and the request reaches
      updateRegion. */
  lemma PatchMissingRegionWithoutUser(req: RegionPatch, decoded: Object, regions: Rows, activities: Rows, regionId: Id,
                                      regionFault: bool, activityFault: bool, now: int, parse: string -> Option<int>)
    requires regionFault || regionId !in regions
    requires "_id" !in decoded && ValidPatch(req)
    ensures PatchRejection(req, decoded, OwnerOf(regions, activities, regionId, regionFault, activityFault), now, parse).None?
  {
    var key := Prop(RegionById(regions, Some(Text(regionId)), regionFault), "activity_id");
    LookupMissing(regions, Some(Text(regionId)), regionFault, RegionMissing, RegionFetchFailed, "activity_id");
    LookupMissing(activities, key, activityFault, ActivityMissing, ActivityFetchFailed, "creator_id");
    LookupMissing(activities, key, activityFault, ActivityMissing, ActivityFetchFailed, "on_sale_date");
  }

  /** PATCH /:region_id. regionLookupFault and activityLookupFault make the
      two lookups throw; updateFault, ticketFailAt and deleteFault are the
      failures of updateRegion. */
  method UpdateRegionRoute(db: Database, regionId: Id, req: RegionPatch, decoded: Object, now: int,
                           parse: string -> Option<int>, regionLookupFault: bool, activityLookupFault: bool,
                           updateFault: bool, ticketFailAt: nat, deleteFault: bool) returns (reply: Reply)
    requires db.Valid()
    modifies db
    ensures db.Valid()
    ensures var activity := OwnerOf(old(db.Rows(Regions)), old(db.Rows(Activities)), regionId, regionLookupFault, activityLookupFault);
            var rejection := PatchRejection(req, decoded, activity, now, parse);
            rejection.Some? ==> reply == rejection.value && db.tables == old(db.tables)
    ensures var activity := OwnerOf(old(db.Rows(Regions)), old(db.Rows(Activities)), regionId, regionLookupFault, activityLookupFault);
            var c := PatchChanges(regionId, req);
            PatchRejection(req, decoded, activity, now, parse).None? ==>
              && (RU.Included(c) == [] ==> reply == Fail(400, RU.NoFields) && db.tables == old(db.tables))
              && (RU.Included(c) != [] && updateFault ==> reply == Fail(400, RU.RegionUpdateFailed) && db.tables == old(db.tables))
              && (RU.Included(c) != [] && !updateFault && regionId !in old(db.Rows(Regions)) ==>
                    reply == Fail(400, RU.RegionNotFound) && db.tables == old(db.tables))
              && (RU.Included(c) != [] && !updateFault && regionId in old(db.Rows(Regions)) ==>
                    var row := RU.Applied(old(db.Rows(Regions))[regionId], c);
                    reply == Done(200, RegionUpdated, [row])
                    && db.tables == old(db.tables)[Regions := old(db.Rows(Regions))[regionId := row]])
  {
    var activity := OwnerOf(db.Rows(Regions), db.Rows(Activities), regionId, regionLookupFault, activityLookupFault);
    var rejection := PatchRejection(req, decoded, activity, now, parse);
    if rejection.Some? {
      return rejection.value;
    }
    var updated := RU.UpdateRegion(db, PatchChanges(regionId, req), updateFault, ticketFailAt, deleteFault);
    if updated.RegionError? {
      return Fail(400, updated.error);
    }
    reply := Done(200, RegionUpdated, [updated.row]);
  }

  const OnlyCreatorDeletes := "Only the creator can delete the region."
  const DeleteAfterOnSale := "Regions can only be deleted before the activity goes on sale."

  /** The validations of DELETE /:region_id, in the handler's order. The
      creator check is strict equality. */
  function DeleteRejection(decoded: Object, activity: Object, now: int, parse: string -> Option<int>): (r: Option<Reply>)
    ensures r.Some? ==> r.value.Fail? && (r.value.status == 400 || r.value.status == 403)
  {
    if !StrictEquals(Prop(activity, "creator_id"), Prop(decoded, "_id")) then Some(Fail(403, OnlyCreatorDeletes))
    else if AtOrBefore(DateOf(Prop(activity, "on_sale_date"), parse), Some(now)) then Some(Fail(400, DeleteAfterOnSale))
    else None
  }

  /** A delete is accepted exactly when it comes from the creator and the
      on-sale date has not passed (or is not a valid date). */
  lemma DeleteAccepted(decoded: Object, activity: Object, now: int, parse: string -> Option<int>)
    ensures DeleteRejection(decoded, activity, now, parse).None? <==>
              StrictEquals(Prop(activity, "creator_id"), Prop(decoded, "_id"))
              && (DateOf(Prop(activity, "on_sale_date"), parse).None? || now < DateOf(Prop(activity, "on_sale_date"), parse).value)
  {
  }

  /** The `!activity` test never fires: for a region whose activity cannot
      be found, a token with a user id gets 403, never 404. */
  lemma DeleteMissingActivityForbidden(decoded: Object, regions: Rows, activities: Rows, regionId: Id,
                                       regionFault: bool, activityFault: bool, now: int, parse: string -> Option<int>)
    requires activityFault || SelectById(activities, Prop(RegionById(regions, Some(Text(regionId)), regionFault), "activity_id")).None?
    requires "_id" in decoded
    ensures DeleteRejection(decoded, OwnerOf(regions, activities, regionId, regionFault, activityFault), now, parse)
              == Some(Fail(403, OnlyCreatorDeletes))
  {
    var key := Prop(RegionById(regions, Some(Text(regionId)), regionFault), "activity_id");
    LookupMissing(activities, key, activityFault, ActivityMissing, ActivityFetchFailed, "creator_id");
  }

  /** DELETE /:region_id. regionLookupFault and activityLookupFault make the
      two lookups throw; ticketsFault and regionFault the two deletes. */
  method DeleteRegionRoute(db: Database, regionId: Id, decoded: Object, now: int, parse: string -> Option<int>,
                           regionLookupFault: bool, activityLookupFault: bool, ticketsFault: bool, regionFault: bool)
    returns (reply: Reply)
    requires db.Valid()
    modifies db
    ensures db.Valid() && db.nextId == old(db.nextId)
    ensures var activity := OwnerOf(old(db.Rows(Regions)), old(db.Rows(Activities)), regionId, regionLookupFault, activityLookupFault);
            var rejection := DeleteRejection(decoded, activity, now, parse);
            && (rejection.Some? ==> reply == rejection.value && db.tables == old(db.tables))
            && (rejection.None? && ticketsFault ==> reply == Fail(400, RD.RegionAndTicketsFailed) && db.tables == old(db.tables))
            && (rejection.None? && !ticketsFault && regionFault ==>
                  reply == Fail(400, RD.RegionDeleteFailed) && db.tables == old(db.tables))
            && (rejection.None? && !ticketsFault && !regionFault && regionId !in old(db.Rows(Regions)) ==>
                  reply == Fail(400, RD.RegionNotFound) && db.tables == old(db.tables))
            && (rejection.None? && !ticketsFault && !regionFault && regionId in old(db.Rows(Regions)) ==>
                  reply == Done(200, RD.RegionAndTicketsDeleted, [old(db.Rows(Regions))[regionId]])
                  && db.tables == old(db.tables)[Tickets := RD.OtherRegions(old(db.Rows(Tickets)), regionId)]
                                                [Regions := old(db.Rows(Regions)) - {regionId}])
  {
    var activity := OwnerOf(db.Rows(Regions), db.Rows(Activities), regionId, regionLookupFault, activityLookupFault);
    var rejection := DeleteRejection(decoded, activity, now, parse);
    if rejection.Some? {
      return rejection.value;
    }
    var deleted := RD.DeleteRegionAndTickets(db, regionId, ticketsFault, regionFault);
    if deleted.DeleteFailed? {
      return Fail(400, deleted.error);
    }
    reply := Done(200, RD.RegionAndTicketsDeleted, [deleted.region]);
  }
}
