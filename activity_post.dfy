/** Creating activities: createActivityWithRegions inserts an activity and
    then each of its regions, in input order and tagged with the new
    activity's id, in one transaction that any failure rolls back; and the
    single-insert createActivity, which stores null for a missing content
    or image. */
module ActivityPost {
  import opened Util
  import opened Sql
  import opened Postgres

  /** The bound values of the activity insert. A property the caller leaves
      undefined binds null. */
  datatype ActivityInput = ActivityInput(on_sale_date: Value, start_time: Value, end_time: Value, title: Value,
                                         content: Value, cover_img: Value, price_level_img: Value,
                                         arena_id: Value, creator_id: Value)

  /** One region of the request; prices and capacities are whole numbers. */
  datatype RegionInput = RegionInput(region_name: string, region_price: int, region_capacity: int)

  datatype Created = Created(activity: Row, regions: seq<Row>) | CreateFailed(error: string)

  const ActivityAndRegionsFailed := "Failed to create activity and regions"
  const ActivityFailed := "Failed to create activity"

  function ActivityRow(a: ActivityInput): Row
  {
    map["on_sale_date" := a.on_sale_date, "start_time" := a.start_time, "end_time" := a.end_time,
        "title" := a.title, "content" := a.content, "cover_img" := a.cover_img,
        "price_level_img" := a.price_level_img, "arena_id" := a.arena_id, "creator_id" := a.creator_id]
  }

  /** The row createRegion inserts. */
  function RegionRow(activity: Value, r: RegionInput): Row
  {
    map["activity_id" := activity, "region_name" := Text(r.region_name),
        "region_price" := Num(r.region_price), "region_capacity" := Num(r.region_capacity)]
  }

  /** The region rows a successful run stores when the sequence stands at
      next: the k-th under the sequence's value next+k. */
  function RegionRows(activity: Value, regions: seq<RegionInput>, next: nat): (rows: seq<Row>)
    ensures |rows| == |regions|
  {
    seq(|regions|, k requires 0 <= k < |regions| => RegionRow(activity, regions[k])["_id" := Text(SerialId(next + k))])
  }

  /** The loop of createRegion calls, in input order, each region tagged
      with the activity; it stops at the failing insert regionFailAt
      (from 1; 0 for none). The inserts made before a failure stay. */
  method InsertRegions(db: Database, activity: Value, regions: seq<RegionInput>, failAt: nat)
    returns (ok: bool, results: seq<Row>)
    requires db.Valid()
    modifies db
    ensures db.Valid() && db.nextId >= old(db.nextId)
    ensures ok <==> failAt == 0 || failAt > |regions|
    ensures ok ==> results == RegionRows(activity, regions, old(db.nextId)) && db.nextId == old(db.nextId) + |regions|
    ensures ok ==> db.tables == old(db.tables)[Regions := old(db.Rows(Regions)) + Inserted(old(db.nextId), results)]
  {
    ghost var t0, r0, n0 := db.tables, db.Rows(Regions), db.nextId;
    results := [];
    var i := 0;
    assert r0 + Inserted(n0, results) == t0[Regions];
    ok := true;
    while i < |regions| && ok
      invariant 0 <= i <= |regions| && results == RegionRows(activity, regions[..i], n0)
      invariant ok ==> failAt == 0 || failAt > i
      invariant !ok ==> i + 1 == failAt && i < |regions|
      invariant db.Valid() && db.nextId == n0 + i
      invariant db.tables == t0[Regions := r0 + Inserted(n0, results)]
      decreases |regions| - i, ok
    {
      if i + 1 == failAt {
        ok := false;
      } else {
        results := InsertRegion(db, activity, regions, i, results, t0, r0, n0);
        i := i + 1;
      }
    }
    if ok {
      assert regions[..i] == regions;
    }
  }

  /** One createRegion call of the loop: the i-th region goes in under the
      next id and extends the run by its row. */
  method InsertRegion(db: Database, activity: Value, regions: seq<RegionInput>, i: nat, results: seq<Row>,
                      ghost t0: Tables, ghost r0: Rows, ghost n0: nat) returns (extended: seq<Row>)
    requires db.Valid() && i < |regions| && db.nextId == n0 + i
    requires results == RegionRows(activity, regions[..i], n0)
    requires db.tables == t0[Regions := r0 + Inserted(n0, results)]
    modifies db
    ensures db.Valid() && db.nextId == n0 + i + 1
    ensures extended == RegionRows(activity, regions[..i + 1], n0)
    ensures db.tables == t0[Regions := r0 + Inserted(n0, extended)]
  {
    var rid, row := db.InsertInRun(Regions, RegionRow(activity, regions[i]), t0, r0, n0, results);
    assert rid == SerialId(n0 + i);
    assert row == RegionRow(activity, regions[i])["_id" := Text(rid)];
    AppendRegion(activity, regions, n0, i);
    extended := results + [row];
  }

  /** One more region extends the rows by its own. */
  lemma AppendRegion(activity: Value, regions: seq<RegionInput>, next: nat, i: nat)
    requires i < |regions|
    ensures RegionRows(activity, regions[..i + 1], next)
            == RegionRows(activity, regions[..i], next) + [RegionRow(activity, regions[i])["_id" := Text(SerialId(next + i))]]
  {
    var longer := RegionRows(activity, regions[..i + 1], next);
    var shorter := RegionRows(activity, regions[..i], next);
    forall k | 0 <= k < i ensures longer[k] == shorter[k] {
      assert regions[..i + 1][k] == regions[..i][k];
    }
    assert longer[i] == RegionRow(activity, regions[i])["_id" := Text(SerialId(next + i))];
  }

  /** createActivityWithRegions. activityFault makes the activity insert
      fail; regionFailAt numbers the region insert that fails, from 1, and
      0 means none does. */
  method CreateActivityWithRegions(db: Database, a: ActivityInput, regions: seq<RegionInput>,
                                   activityFault: bool, regionFailAt: nat) returns (r: Created)
    requires db.Valid()
    modifies db
    ensures db.Valid() && db.nextId >= old(db.nextId)
    ensures r.Created? <==> !activityFault && (regionFailAt == 0 || regionFailAt > |regions|)
    ensures r.CreateFailed? ==> r.error == ActivityAndRegionsFailed && db.tables == old(db.tables)
    ensures r.Created? ==>
              var aid := SerialId(old(db.nextId));
              && r.activity == ActivityRow(a)["_id" := Text(aid)]
              && r.regions == RegionRows(Text(aid), regions, old(db.nextId) + 1)
              && db.nextId == old(db.nextId) + 1 + |regions|
              && db.tables == old(db.tables)[Activities := old(db.Rows(Activities))[aid := r.activity]]
                                            [Regions := old(db.Rows(Regions)) + Inserted(old(db.nextId) + 1, r.regions)]
  {
    var saved := db.tables;
    if activityFault {
      db.Rollback(saved);
      return CreateFailed(ActivityAndRegionsFailed);
    }
    var aid, activity := db.Insert(Activities, ActivityRow(a));
    var ok, results := InsertRegions(db, activity["_id"], regions, regionFailAt);
    if !ok {
      FreshAboveMonotone(saved, old(db.nextId), db.nextId);
      db.Rollback(saved);
      return CreateFailed(ActivityAndRegionsFailed);
    }
    r := Created(activity, results);
  }

  /** The run's regions are exactly the requested ones, in order: the k-th
      stored region is the k-th requested one, tagged with the activity. */
  lemma CreatedRegionsInOrder(activity: Value, regions: seq<RegionInput>, next: nat, k: nat)
    requires k < |regions|
    ensures var stored := Inserted(next, RegionRows(activity, regions, next));
            var id := SerialId(next + k);
            && id in stored
            && stored[id] == RegionRow(activity, regions[k])["_id" := Text(id)]
  {
    var rows := RegionRows(activity, regions, next);
    InsertedAt(next, rows, k);
    assert rows[k] == RegionRow(activity, regions[k])["_id" := Text(SerialId(next + k))];
  }

  /** The insert of createActivity. None is a property left undefined. */
  datatype NewActivity = NewActivity(on_sale_date: Value, start_time: Value, end_time: Value, title: Value,
                                     content: Option<string>, cover_img: Option<Value>, price_level_img: Option<Value>,
                                     arena_id: Value)

  /** JavaScript's "v || null". */
  function OrNull(v: Option<Value>): (r: Value)
    ensures r == Null || (v.Some? && r == v.value && JsTruthy(r))
    ensures v.Some? && JsTruthy(v.value) ==> r == v.value
  {
    if v.Some? && JsTruthy(v.value) then v.value else Null
  }

  function NewActivityRow(a: NewActivity): Row
  {
    map["on_sale_date" := a.on_sale_date, "start_time" := a.start_time, "end_time" := a.end_time,
        "title" := a.title,
        "content" := OrNull(if a.content.Some? then Some(Text(a.content.value)) else None),
        "cover_img" := OrNull(a.cover_img), "price_level_img" := OrNull(a.price_level_img),
        "arena_id" := a.arena_id]
  }

  /** A missing or empty content, and a missing or null image, are stored
      as null; a supplied one is stored as given. */
  lemma NewActivityNulls(a: NewActivity)
    ensures var row := NewActivityRow(a);
            && (row["content"] == Null <==> a.content.None? || a.content.value == "")
            && (a.content.Some? && a.content.value != "" ==> row["content"] == Text(a.content.value))
            && (a.cover_img.None? || a.cover_img.value == Null ==> row["cover_img"] == Null)
            && (a.cover_img.Some? && a.cover_img.value.Blob? ==> row["cover_img"] == a.cover_img.value)
            && (a.price_level_img.None? || a.price_level_img.value == Null ==> row["price_level_img"] == Null)
            && (a.price_level_img.Some? && a.price_level_img.value.Blob? ==> row["price_level_img"] == a.price_level_img.value)
  {
  }

  datatype ActivityCreated = ActivityCreated(row: Row) | ActivityError(error: string)

  /** createActivity. fault makes the insert fail. */
  method CreateActivity(db: Database, a: NewActivity, fault: bool) returns (r: ActivityCreated)
    requires db.Valid()
    modifies db
    ensures db.Valid()
    ensures fault ==> r == ActivityError(ActivityFailed) && db.tables == old(db.tables)
    ensures !fault ==>
              var id := SerialId(old(db.nextId));
              && r == ActivityCreated(NewActivityRow(a)["_id" := Text(id)])
              && db.tables == old(db.tables)[Activities := old(db.Rows(Activities))[id := r.row]]
  {
    if fault {
      return ActivityError(ActivityFailed);
    }
    var id, row := db.Insert(Activities, NewActivityRow(a));
    r := ActivityCreated(row);
  }
}
