/** The host's activity routes: POST /create, which validates the request
    in a fixed order, creates the activity with its regions and then one
    ticket per seat of every region; PATCH /:activity_id, which lets the
    creator change the activity, and only its content and images once it
    is on sale; and PATCH /archive/:activity_id. The current time and the
    date parser are parameters. */
module ActivityRoutes {
  import opened Util
  import opened Sql
  import opened Postgres
  import opened SeatTickets
  import opened ActivityPost
  import opened Http
  import AU = ActivityUpdate

  const MissingUser := "Invalid token or missing user information."
  const OnSaleNotFuture := "on_sale_date must be in the future."
  const StartNotAfterOnSale := "start_time must be after on_sale_date."
  const EndNotAfterStart := "end_time must be after start_time."
  const NoRegions := "At least one region must be provided."
  const RegionIncomplete := "Each region must have a region_name, region_price, and region_capacity."
  const RegionNotPositive := "Region price and capacity must be positive."
  const InternalError := "Internal Server Error"
  const ActivityAndTicketsCreated := "Activity and tickets created successfully"

  /** One region of the request body; None is a property left undefined.
      Prices and capacities are whole numbers. */
  datatype RegionField = RegionField(region_name: Option<string>, region_price: Option<int>, region_capacity: Option<int>)

  /** The body of POST /create. regions is None when it is missing or not
      an array; an image is the uploaded file's bytes. */
  datatype CreateRequest = CreateRequest(
    on_sale_date: Option<string>, start_time: Option<string>, end_time: Option<string>,
    title: Option<string>, content: Option<string>, arena_id: Option<string>,
    regions: Option<seq<RegionField>>,
    cover_img: Option<seq<int>>, price_level_img: Option<seq<int>>)

  /** A region the validation lets through: a non-empty name, and a positive
      price and capacity. */
  predicate WellFormed(r: RegionField)
  {
    r.region_name.Some? && r.region_name.value != ""
    && r.region_price.Some? && r.region_price.value > 0
    && r.region_capacity.Some? && r.region_capacity.value > 0
  }

  /** The validation of one region: a missing (or falsy) property first, then
      a non-positive price or capacity. */
  function RegionProblem(r: RegionField): (e: Option<string>)
    ensures e.None? <==> WellFormed(r)
  {
    if r.region_name.None? || r.region_name.value == "" || r.region_price.None? || r.region_price.value == 0
       || r.region_capacity.None? || r.region_capacity.value == 0
    then Some(RegionIncomplete)
    else if r.region_price.value <= 0 || r.region_capacity.value <= 0 then Some(RegionNotPositive)
    else None
  }

  /** The problem of the first region, in request order, that has one. */
  function FirstRegionProblem(regions: seq<RegionField>): Option<string>
    decreases |regions|
  {
    if regions == [] then None
    else if RegionProblem(regions[0]).Some? then RegionProblem(regions[0])
    else FirstRegionProblem(regions[1..])
  }

  /** The regions pass exactly when every one is well formed; otherwise
      the answer is the problem of a region all of whose predecessors are
      well formed. */
  lemma {:induction false} FirstRegionProblemSpec(regions: seq<RegionField>)
    ensures FirstRegionProblem(regions).None? <==> forall k :: 0 <= k < |regions| ==> WellFormed(regions[k])
    ensures FirstRegionProblem(regions).Some? ==>
              exists k :: 0 <= k < |regions| && RegionProblem(regions[k]) == FirstRegionProblem(regions)
                          && forall j :: 0 <= j < k ==> WellFormed(regions[j])
    decreases |regions|
  {
    if regions != [] && RegionProblem(regions[0]).None? {
      var rest := regions[1..];
      FirstRegionProblemSpec(rest);
      if FirstRegionProblem(rest).None? {
        forall k | 0 <= k < |regions| ensures WellFormed(regions[k]) {
          if k > 0 {
            assert regions[k] == rest[k - 1];
          }
        }
      } else {
        var k :| 0 <= k < |rest| && RegionProblem(rest[k]) == FirstRegionProblem(rest)
                 && forall j :: 0 <= j < k ==> WellFormed(rest[j]);
        assert rest[k] == regions[k + 1];
        forall j | 0 <= j < k + 1 ensures WellFormed(regions[j]) {
          if j > 0 {
            assert regions[j] == rest[j - 1];
          }
        }
        assert !WellFormed(regions[k + 1]);
      }
    }
  }

  /** The handler's loop over the regions: it stops at the first region
      with a problem. */
  method CheckRegions(regions: seq<RegionField>) returns (problem: Option<string>)
    ensures problem == FirstRegionProblem(regions)
  {
    var i := 0;
    while i < |regions|
      invariant 0 <= i <= |regions|
      invariant FirstRegionProblem(regions) == FirstRegionProblem(regions[i..])
    {
      problem := RegionProblem(regions[i]);
      if problem.Some? {
        return;
      }
      assert regions[i..][1..] == regions[i + 1..];
      i := i + 1;
    }
    return None;
  }

  /** The validation chain of POST /create, in the handler's order: the
      first check that fails decides the answer. */
  function CreateRejection(req: CreateRequest, decoded: Object, now: int, parse: string -> Option<int>): (r: Option<Reply>)
    ensures r.Some? ==> r.value.Fail? && (r.value.status == 400 || r.value.status == 403)
  {
    var onSale := DateOf(Field(req.on_sale_date), parse);
    var start := DateOf(Field(req.start_time), parse);
    var end := DateOf(Field(req.end_time), parse);
    if !Truthy(Prop(decoded, "_id")) then Some(Fail(403, MissingUser))
    else if AtOrBefore(onSale, Some(now)) then Some(Fail(400, OnSaleNotFuture))
    else if AtOrBefore(start, onSale) then Some(Fail(400, StartNotAfterOnSale))
    else if AtOrBefore(end, start) then Some(Fail(400, EndNotAfterStart))
    else if req.regions.None? || req.regions.value == [] then Some(Fail(400, NoRegions))
    else if FirstRegionProblem(req.regions.value).Some? then Some(Fail(400, FirstRegionProblem(req.regions.value).value))
    else None
  }

  /** A request passes every check exactly when it carries a user id, its
      valid dates come in the order now < on-sale < start < end, and it
      names at least one region, every one well formed. */
  lemma CreateAccepted(req: CreateRequest, decoded: Object, now: int, parse: string -> Option<int>)
    ensures CreateRejection(req, decoded, now, parse).None? <==>
              var onSale := DateOf(Field(req.on_sale_date), parse);
              var start := DateOf(Field(req.start_time), parse);
              var end := DateOf(Field(req.end_time), parse);
              && Truthy(Prop(decoded, "_id"))
              && (onSale.Some? ==> now < onSale.value)
              && (onSale.Some? && start.Some? ==> onSale.value < start.value)
              && (start.Some? && end.Some? ==> start.value < end.value)
              && req.regions.Some? && |req.regions.value| > 0
              && forall k :: 0 <= k < |req.regions.value| ==> WellFormed(req.regions.value[k])
  {
    if req.regions.Some? {
      FirstRegionProblemSpec(req.regions.value);
    }
  }

  /** Dates the parser cannot read pass every date check: a request whose
      three dates are all unreadable is judged on its regions alone. */
  lemma UnreadableDatesPass(req: CreateRequest, decoded: Object, now: int, parse: string -> Option<int>)
    requires Truthy(Prop(decoded, "_id"))
    requires DateOf(Field(req.on_sale_date), parse).None? && DateOf(Field(req.start_time), parse).None?
    requires DateOf(Field(req.end_time), parse).None?
    requires req.regions.Some? && req.regions.value != []
    ensures CreateRejection(req, decoded, now, parse) ==
              if FirstRegionProblem(req.regions.value).Some? then Some(Fail(400, FirstRegionProblem(req.regions.value).value))
              else None
  {
  }

  /** The regions handed to createActivityWithRegions; the validation has
      made every property present. */
  function Inputs(regions: seq<RegionField>): (inputs: seq<RegionInput>)
    ensures |inputs| == |regions|
  {
    seq(|regions|, k requires 0 <= k < |regions| =>
      RegionInput(if regions[k].region_name.Some? then regions[k].region_name.value else "",
                  if regions[k].region_price.Some? then regions[k].region_price.value else 0,
                  if regions[k].region_capacity.Some? then regions[k].region_capacity.value else 0))
  }

  /** The stored form of an uploaded image: its bytes, or null. */
  function Upload(img: Option<seq<int>>): Value
  {
    if img.Some? then Blob(img.value) else Null
  }

  /** The activity handed to createActivityWithRegions: undefined
      properties bind null, the creator is the token's user. */
  function ActivityInputOf(req: CreateRequest, decoded: Object): ActivityInput
  {
    ActivityInput(AU.TextOf(req.on_sale_date), AU.TextOf(req.start_time), AU.TextOf(req.end_time),
                  AU.TextOf(req.title), AU.TextOf(req.content), Upload(req.cover_img), Upload(req.price_level_img),
                  AU.TextOf(req.arena_id), OrNull(Prop(decoded, "_id")))
  }

  /** The seats the ticket loop creates for a stored region: 1 up to its
      capacity, none when that is not a positive number. */
  function SeatCount(region: Row): nat
  {
    if "region_capacity" in region && region["region_capacity"].Num? && region["region_capacity"].n > 0
    then region["region_capacity"].n else 0
  }

  /** The number of tickets the loop creates for a list of regions. */
  function SeatTotal(regions: seq<Row>): nat
    decreases |regions|
  {
    if regions == [] then 0 else SeatTotal(regions[..|regions| - 1]) + SeatCount(regions[|regions| - 1])
  }

  /** The ticket rows the loop inserts when the sequence stands at next:
      the seats of each region in turn, in seat order. */
  function AllSeats(next: nat, activity: Value, regions: seq<Row>): (rows: seq<Row>)
    ensures |rows| == SeatTotal(regions)
    decreases |regions|
  {
    if regions == [] then []
    else
      var n := |regions| - 1;
      var before := AllSeats(next, activity, regions[..n]);
      before + SeatRows(next + |before|, SeatCount(regions[n]), activity, Cell(regions[n], "_id"), 1)
  }

  /** The tickets of the first j regions come first. */
  lemma {:induction false} AllSeatsPrefix(next: nat, activity: Value, regions: seq<Row>, j: nat)
    requires j <= |regions|
    ensures SeatTotal(regions[..j]) <= SeatTotal(regions)
    ensures AllSeats(next, activity, regions)[..SeatTotal(regions[..j])] == AllSeats(next, activity, regions[..j])
    decreases |regions|
  {
    if j == |regions| {
      assert regions[..j] == regions;
    } else {
      var n := |regions| - 1;
      AllSeatsPrefix(next, activity, regions[..n], j);
      assert regions[..n][..j] == regions[..j];
    }
  }

  /** A prefix of a run of seats is the shorter run. */
  lemma SeatRowsPrefix(next: nat, count: nat, m: nat, activity: Value, region: Value, first: int)
    requires m <= count
    ensures SeatRows(next, count, activity, region, first)[..m] == SeatRows(next, m, activity, region, first)
  {
  }

  /** The regions up to and including region i seat those before it and
      then region i. */
  lemma AllSeatsLast(next: nat, activity: Value, regions: seq<Row>, i: nat)
    requires i < |regions|
    ensures var t := SeatTotal(regions[..i]);
            && SeatTotal(regions[..i + 1]) == t + SeatCount(regions[i])
            && AllSeats(next, activity, regions[..i + 1])
               == AllSeats(next, activity, regions[..i])
                  + SeatRows(next + t, SeatCount(regions[i]), activity, Cell(regions[i], "_id"), 1)
  {
    var upto := regions[..i + 1];
    assert upto[..i] == regions[..i] && upto[i] == regions[i];
  }

  /** Region i adds its seats to the count of those before it, and all of
      them are within the total. */
  lemma SeatTotalStep(regions: seq<Row>, i: nat)
    requires i < |regions|
    ensures SeatTotal(regions[..i + 1]) == SeatTotal(regions[..i]) + SeatCount(regions[i])
    ensures SeatTotal(regions[..i + 1]) <= SeatTotal(regions)
  {
    var upto := regions[..i + 1];
    assert upto[..i] == regions[..i] && upto[i] == regions[i];
    AllSeatsPrefix(0, Null, regions, i + 1);
  }

  /** Cutting a sequence that starts with front and then run inside run,
      where the cut-off run is known by another name. */
  lemma CutInRun<T>(all: seq<T>, front: seq<T>, run: seq<T>, short: seq<T>, t: nat, c: nat, m: nat)
    requires |front| == t && |run| == c && m <= c && t + c <= |all|
    requires all[..t + c] == front + run && run[..m] == short
    ensures all[..t + m] == all[..t] + short
  {
    assert all[..t] == all[..t + c][..t];
    assert all[..t + m] == all[..t + c][..t + m];
  }

  /** The tickets of region i follow those of the regions before it. */
  lemma AllSeatsStep(next: nat, activity: Value, regions: seq<Row>, i: nat, m: nat)
    requires i < |regions| && m <= SeatCount(regions[i])
    ensures SeatTotal(regions[..i]) + m <= SeatTotal(regions)
    ensures var t := SeatTotal(regions[..i]);
            AllSeats(next, activity, regions)[..t + m]
            == AllSeats(next, activity, regions)[..t] + SeatRows(next + t, m, activity, Cell(regions[i], "_id"), 1)
  {
    var t := SeatTotal(regions[..i]);
    var c := SeatCount(regions[i]);
    var run := SeatRows(next + t, c, activity, Cell(regions[i], "_id"), 1);
    AllSeatsLast(next, activity, regions, i);
    AllSeatsPrefix(next, activity, regions, i + 1);
    SeatRowsPrefix(next + t, c, m, activity, Cell(regions[i], "_id"), 1);
    CutInRun(AllSeats(next, activity, regions), AllSeats(next, activity, regions[..i]), run,
             SeatRows(next + t, m, activity, Cell(regions[i], "_id"), 1), t, c, m);
  }

  /** The element j of the run that follows the first t elements, at
      position i. */
  lemma IndexInRun<T>(all: seq<T>, run: seq<T>, t: nat, c: nat, j: nat, i: nat, x: T)
    requires |run| == c && j < c && t + c <= |all| && |all[..t]| == t && i == t + j
    requires all[..t + c] == all[..t] + run && run[j] == x
    ensures i < |all| && all[i] == x
  {
    assert all[i] == all[..t + c][i];
  }

  /** The element j of a run of seats: seat j + 1 under the id at = next + j. */
  lemma SeatRowsAt(next: nat, count: nat, activity: Value, region: Value, j: nat, at: nat, seat: int)
    requires j < count && at == next + j && seat == j + 1
    ensures SeatRows(next, count, activity, region, 1)[j] == Stored(activity, region, seat, SerialId(at))
  {
  }

  /** Seat s of region k is the ticket at position SeatTotal(regions[..k])
      + s - 1 of the run: unowned, unpaid, tagged with the activity and the
      region. */
  lemma RegionSeatAt(next: nat, activity: Value, regions: seq<Row>, k: nat, s: int, region: Value)
    requires k < |regions| && 1 <= s <= SeatCount(regions[k]) && Cell(regions[k], "_id") == region
    ensures SeatTotal(regions[..k]) + s - 1 < SeatTotal(regions)
    ensures AllSeats(next, activity, regions)[SeatTotal(regions[..k]) + s - 1]
            == Stored(activity, region, s, SerialId(next + (SeatTotal(regions[..k]) + s - 1)))
  {
    AllSeatsStep(next, activity, regions, k, SeatCount(regions[k]));
    SeatRowsAt(next + SeatTotal(regions[..k]), SeatCount(regions[k]), activity, region, s - 1,
               next + (SeatTotal(regions[..k]) + s - 1), s);
    assert |SeatRows(next + SeatTotal(regions[..k]), SeatCount(regions[k]), activity, region, 1)| == SeatCount(regions[k]);
    assert SeatTotal(regions[..k]) + SeatCount(regions[k]) <= |AllSeats(next, activity, regions)|;
    assert |AllSeats(next, activity, regions)[..SeatTotal(regions[..k])]| == SeatTotal(regions[..k]);
    assert AllSeats(next, activity, regions)[..SeatTotal(regions[..k]) + SeatCount(regions[k])]
        == AllSeats(next, activity, regions)[..SeatTotal(regions[..k])] + SeatRows(next + SeatTotal(regions[..k]), SeatCount(regions[k]), activity, region, 1);
    IndexInRun(AllSeats(next, activity, regions),
               SeatRows(next + SeatTotal(regions[..k]), SeatCount(regions[k]), activity, region, 1),
               SeatTotal(regions[..k]), SeatCount(regions[k]), s - 1, SeatTotal(regions[..k]) + s - 1,
               Stored(activity, region, s, SerialId(next + (SeatTotal(regions[..k]) + s - 1))));
  }

  /** The ticket loop of POST /create: for every region in turn, seats 1
      up to its capacity. ticketFailAt numbers the ticket insert that
      fails, from 1 across all regions, and 0 means none does; the tickets
      made before a failure stay, as they are not in a transaction. */
  method GenerateTickets(db: Database, activity: Value, regions: seq<Row>, ticketFailAt: nat) returns (ok: bool)
    requires db.Valid()
    modifies db
    ensures db.Valid()
    ensures ok <==> ticketFailAt == 0 || ticketFailAt > SeatTotal(regions)
    ensures var made := if ok then SeatTotal(regions) else ticketFailAt - 1;
            && db.nextId == old(db.nextId) + made
            && db.tables == old(db.tables)[Tickets := old(db.Rows(Tickets)) + Inserted(old(db.nextId), AllSeats(old(db.nextId), activity, regions)[..made])]
  {
    ghost var t0, r0, n0 := db.tables, db.Rows(Tickets), db.nextId;
    var made: nat := 0;
    var i := 0;
    ok := true;
    assert r0 + Inserted(n0, AllSeats(n0, activity, regions)[..0]) == t0[Tickets];
    while i < |regions| && ok
      invariant 0 <= i <= |regions| && made <= SeatTotal(regions)
      invariant ok ==> made == SeatTotal(regions[..i]) && (ticketFailAt == 0 || ticketFailAt > made)
      invariant !ok ==> made == ticketFailAt - 1 && 1 <= ticketFailAt <= SeatTotal(regions)
      invariant db.Valid() && db.nextId == n0 + made
      invariant db.tables == t0[Tickets := r0 + Inserted(n0, AllSeats(n0, activity, regions)[..made])]
      decreases |regions| - i, ok
    {
      ok, made := SeatRegion(db, activity, regions, i, made, ticketFailAt, t0, r0, n0);
      i := i + 1;
    }
    if ok {
      assert regions[..i] == regions;
    }
  }

  /** Storing a run that extends a stored prefix of a sequence of rows
      leaves the tables holding the longer prefix. */
  lemma ExtendRun(t0: Tables, r0: Rows, n0: nat, all: seq<Row>, made: nat, made': nat, run: seq<Row>)
    requires made <= made' <= |all| && |run| == made' - made && all[..made'] == all[..made] + run
    ensures var done := r0 + Inserted(n0, all[..made]);
            t0[Tickets := done][Tickets := done + Inserted(n0 + made, run)]
            == t0[Tickets := r0 + Inserted(n0, all[..made'])]
  {
    var front := all[..made];
    InsertedConcat(n0, front, n0 + made, run);
    ReplaceByUnion(t0, Tickets, r0, Inserted(n0, front), Inserted(n0 + made, run), Inserted(n0, all[..made']));
  }

  /** The tickets of region i: createSeats with the failure renumbered
      from the region's first seat. */
  method SeatRegion(db: Database, activity: Value, regions: seq<Row>, i: nat, made: nat, ticketFailAt: nat,
                    ghost t0: Tables, ghost r0: Rows, ghost n0: nat) returns (ok: bool, made': nat)
    requires i < |regions| && made == SeatTotal(regions[..i]) && (ticketFailAt == 0 || ticketFailAt > made)
    requires made <= SeatTotal(regions) && db.Valid() && db.nextId == n0 + made
    requires db.tables == t0[Tickets := r0 + Inserted(n0, AllSeats(n0, activity, regions)[..made])]
    modifies db
    ensures made' <= SeatTotal(regions)
    ensures ok ==> made' == SeatTotal(regions[..i + 1]) && (ticketFailAt == 0 || ticketFailAt > made')
    ensures !ok ==> made' == ticketFailAt - 1 && 1 <= ticketFailAt <= SeatTotal(regions)
    ensures db.Valid() && db.nextId == n0 + made'
    ensures db.tables == t0[Tickets := r0 + Inserted(n0, AllSeats(n0, activity, regions)[..made'])]
  {
    var count := SeatCount(regions[i]);
    var failAt := if ticketFailAt == 0 then 0 else ticketFailAt - made;
    ghost var all := AllSeats(n0, activity, regions);
    ghost var done := r0 + Inserted(n0, all[..made]);
    assert db.Rows(Tickets) == done;
    ok := CreateSeats(db, activity, Cell(regions[i], "_id"), 1, count, failAt);
    var m := if ok then count else failAt - 1;
    made' := made + m;
    ghost var run := SeatRows(n0 + made, m, activity, Cell(regions[i], "_id"), 1);
    assert db.tables == t0[Tickets := done][Tickets := done + Inserted(n0 + made, run)];
    SeatTotalStep(regions, i);
    AllSeatsStep(n0, activity, regions, i, m);
    assert all[..made'] == all[..made] + run;
    ExtendRun(t0, r0, n0, all, made, made', run);
  }

  /** What POST /create does once its checks have passed, from tables t0
      with the sequence at n0 to tables t1 with the sequence at n1. A
      failure of createActivityWithRegions answers 400 and leaves the
      tables as they were. Otherwise the activity and its regions are
      stored, then the tickets of the regions in turn up to the failing
      one, and the answer is 201 with the activity and its regions, or 500
      when a ticket insert failed. */
  ghost predicate CreatedAsRequested(t0: Tables, n0: nat, t1: Tables, n1: nat, req: CreateRequest, decoded: Object,
                                     activityFault: bool, regionFailAt: nat, ticketFailAt: nat, reply: Reply)
    requires req.regions.Some?
  {
    var inputs := Inputs(req.regions.value);
    if activityFault || 1 <= regionFailAt <= |inputs| then
      reply == Fail(400, ActivityAndRegionsFailed) && t1 == t0
    else
      var aid := SerialId(n0);
      var activity := ActivityRow(ActivityInputOf(req, decoded))["_id" := Text(aid)];
      var regions := RegionRows(Text(aid), inputs, n0 + 1);
      var next := n0 + 1 + |inputs|;
      var seated := ticketFailAt == 0 || ticketFailAt > SeatTotal(regions);
      var made := if seated then SeatTotal(regions) else ticketFailAt - 1;
      && n1 == next + made
      && t1 == t0[Activities := RowsOf(t0, Activities)[aid := activity]]
                 [Regions := RowsOf(t0, Regions) + Inserted(n0 + 1, regions)]
                 [Tickets := RowsOf(t0, Tickets) + Inserted(next, AllSeats(next, Text(aid), regions)[..made])]
      && reply == if seated then Done(201, ActivityAndTicketsCreated, [activity] + regions) else Fail(500, InternalError)
  }

  /** The successful path of POST /create, step by step: the activity and
      its regions stored from t0 into mid with the sequence then at next,
      and the ticket loop run from mid into t1. */
  lemma CreatedInSteps(t0: Tables, n0: nat, mid: Tables, next: nat, t1: Tables, n1: nat, req: CreateRequest,
                       decoded: Object, activityFault: bool, regionFailAt: nat, ticketFailAt: nat, reply: Reply,
                       activity: Row, regions: seq<Row>, ok: bool)
    requires req.regions.Some?
    requires !activityFault && (regionFailAt == 0 || regionFailAt > |Inputs(req.regions.value)|)
    requires activity == ActivityRow(ActivityInputOf(req, decoded))["_id" := Text(SerialId(n0))]
    requires regions == RegionRows(Text(SerialId(n0)), Inputs(req.regions.value), n0 + 1)
    requires next == n0 + 1 + |Inputs(req.regions.value)|
    requires mid == t0[Activities := RowsOf(t0, Activities)[SerialId(n0) := activity]]
                      [Regions := RowsOf(t0, Regions) + Inserted(n0 + 1, regions)]
    requires ok <==> ticketFailAt == 0 || ticketFailAt > SeatTotal(regions)
    requires var made := if ok then SeatTotal(regions) else ticketFailAt - 1;
             && n1 == next + made
             && t1 == mid[Tickets := RowsOf(mid, Tickets) + Inserted(next, AllSeats(next, activity["_id"], regions)[..made])]
    requires reply == if ok then Done(201, ActivityAndTicketsCreated, [activity] + regions) else Fail(500, InternalError)
    ensures CreatedAsRequested(t0, n0, t1, n1, req, decoded, activityFault, regionFailAt, ticketFailAt, reply)
  {
    var t := t0[Activities := RowsOf(t0, Activities)[SerialId(n0) := activity]];
    RowsOfOther(t0, Tickets, Activities, RowsOf(t0, Activities)[SerialId(n0) := activity]);
    RowsOfOther(t, Tickets, Regions, RowsOf(t0, Regions) + Inserted(n0 + 1, regions));
  }

  /** The failing path of POST /create: nothing stored, 400. */
  lemma CreateFailedAsRequested(t0: Tables, n0: nat, n1: nat, req: CreateRequest, decoded: Object,
                                activityFault: bool, regionFailAt: nat, ticketFailAt: nat)
    requires req.regions.Some?
    requires activityFault || 1 <= regionFailAt <= |Inputs(req.regions.value)|
    ensures CreatedAsRequested(t0, n0, t0, n1, req, decoded, activityFault, regionFailAt, ticketFailAt,
                               Fail(400, ActivityAndRegionsFailed))
  {
  }

  /** POST /create after its checks have passed. activityFault and
      regionFailAt are createActivityWithRegions' failures, ticketFailAt
      the ticket loop's. */
  method CreateChecked(db: Database, req: CreateRequest, decoded: Object, activityFault: bool, regionFailAt: nat,
                       ticketFailAt: nat) returns (reply: Reply)
    requires db.Valid() && req.regions.Some?
    modifies db
    ensures db.Valid()
    ensures CreatedAsRequested(old(db.tables), old(db.nextId), db.tables, db.nextId, req, decoded,
                               activityFault, regionFailAt, ticketFailAt, reply)
  {
    ghost var t0, n0 := db.tables, db.nextId;
    var result := CreateActivityWithRegions(db, ActivityInputOf(req, decoded), Inputs(req.regions.value),
                                            activityFault, regionFailAt);
    if result.CreateFailed? {
      CreateFailedAsRequested(t0, n0, db.nextId, req, decoded, activityFault, regionFailAt, ticketFailAt);
      return Fail(400, result.error);
    }
    ghost var mid, next := db.tables, db.nextId;
    var ok := GenerateTickets(db, result.activity["_id"], result.regions, ticketFailAt);
    if !ok {
      reply := Fail(500, InternalError);
    } else {
      reply := Done(201, ActivityAndTicketsCreated, [result.activity] + result.regions);
    }
    CreatedInSteps(t0, n0, mid, next, db.tables, db.nextId, req, decoded, activityFault, regionFailAt, ticketFailAt,
                   reply, result.activity, result.regions, ok);
  }

  /** POST /create. The validations run first, in order, and nothing is written
      unless all pass. */
  method CreateActivityRoute(db: Database, req: CreateRequest, decoded: Object, now: int, parse: string -> Option<int>,
                             activityFault: bool, regionFailAt: nat, ticketFailAt: nat) returns (reply: Reply)
    requires db.Valid()
    modifies db
    ensures db.Valid()
    ensures CreateRejection(req, decoded, now, parse).Some? ==>
              reply == CreateRejection(req, decoded, now, parse).value && db.tables == old(db.tables)
    ensures CreateRejection(req, decoded, now, parse).None? ==>
              req.regions.Some?
              && CreatedAsRequested(old(db.tables), old(db.nextId), db.tables, db.nextId, req, decoded,
                                    activityFault, regionFailAt, ticketFailAt, reply)
  {
    if !Truthy(Prop(decoded, "_id")) {
      return Fail(403, MissingUser);
    }
    var onSale := DateOf(Field(req.on_sale_date), parse);
    var start := DateOf(Field(req.start_time), parse);
    var end := DateOf(Field(req.end_time), parse);
    if AtOrBefore(onSale, Some(now)) {
      return Fail(400, OnSaleNotFuture);
    }
    if AtOrBefore(start, onSale) {
      return Fail(400, StartNotAfterOnSale);
    }
    if AtOrBefore(end, start) {
      return Fail(400, EndNotAfterStart);
    }
    if req.regions.None? || |req.regions.value| == 0 {
      return Fail(400, NoRegions);
    }
    var problem := CheckRegions(req.regions.value);
    if problem.Some? {
      return Fail(400, problem.value);
    }
    reply := CreateChecked(db, req, decoded, activityFault, regionFailAt, ticketFailAt);
  }

  /** A stored region created from a request region carries its id and
      has the requested capacity as its seat count. */
  lemma CreatedRegion(activity: Value, inputs: seq<RegionInput>, next: nat, k: nat)
    requires k < |inputs| && inputs[k].region_capacity > 0
    ensures SeatCount(RegionRows(activity, inputs, next)[k]) == inputs[k].region_capacity
    ensures Cell(RegionRows(activity, inputs, next)[k], "_id") == Text(SerialId(next + k))
  {
  }

  /** After the whole ticket loop, seat s of region k is stored, and the
      loop stored one ticket per seat. */
  lemma SeatTicketStored(next: nat, activity: Value, regions: seq<Row>, k: nat, s: int, region: Value)
    requires k < |regions| && 1 <= s <= SeatCount(regions[k]) && Cell(regions[k], "_id") == region
    ensures var tickets := Inserted(next, AllSeats(next, activity, regions));
            var id := SerialId(next + (SeatTotal(regions[..k]) + s - 1));
            && |tickets| == SeatTotal(regions)
            && id in tickets
            && tickets[id] == Stored(activity, region, s, id)
  {
    RegionSeatAt(next, activity, regions, k, s, region);
    InsertedAt(next, AllSeats(next, activity, regions), SeatTotal(regions[..k]) + s - 1);
    InsertedCount(next, AllSeats(next, activity, regions));
  }

  /** After a fully successful POST /create, every seat 1..capacity of
      every requested region has its ticket: unowned, unpaid, tagged with
      the new activity and its region; and there are as many tickets as
      seats. */
  lemma CreatedTicketsCoverRegions(aid: Id, inputs: seq<RegionInput>, n0: nat, k: nat, s: int)
    requires k < |inputs| && 1 <= s <= inputs[k].region_capacity
    ensures var regions := RegionRows(Text(aid), inputs, n0 + 1);
            var next := n0 + 1 + |inputs|;
            var tickets := Inserted(next, AllSeats(next, Text(aid), regions));
            var id := SerialId(next + (SeatTotal(regions[..k]) + s - 1));
            && |tickets| == SeatTotal(regions)
            && id in tickets
            && tickets[id] == Stored(Text(aid), Text(SerialId(n0 + 1 + k)), s, id)
  {
    CreatedRegion(Text(aid), inputs, n0 + 1, k);
    SeatTicketStored(n0 + 1 + |inputs|, Text(aid), RegionRows(Text(aid), inputs, n0 + 1), k, s, Text(SerialId(n0 + 1 + k)));
  }

  const OnlyCreatorUpdates := "Only the creator can update the activity."
  const RestrictedAfterOnSale := "Title, on-sale date, start time, and end time can only be updated before the on-sale date."
  const NewOnSaleNotFuture := "The new on-sale date must be in the future."
  const StartNotAfterEffectiveOnSale := "The start time must be after the on-sale date."
  const EndNotAfterEffectiveStart := "The end time must be after the start time."
  const ActivityUpdated := "Activity updated successfully"

  /** The body of PATCH /:activity_id; None is a property left undefined,
      an image the uploaded file's bytes. */
  datatype UpdateRequest = UpdateRequest(
    on_sale_date: Option<string>, start_time: Option<string>, end_time: Option<string>,
    title: Option<string>, content: Option<string>,
    cover_img: Option<seq<int>>, price_level_img: Option<seq<int>>)

  /** JavaScript's `a || b`. */
  function Or(a: Option<Value>, b: Option<Value>): Option<Value>
  {
    if Truthy(a) then a else b
  }

  /** Whether the request touches a property that is frozen once the
      activity is on sale. */
  predicate TouchesSchedule(req: UpdateRequest)
  {
    req.title.Some? || req.on_sale_date.Some? || req.start_time.Some? || req.end_time.Some?
  }

  /** The validations of PATCH /:activity_id on the looked-up activity, in the
      handler's order. */
  function UpdateRejection(req: UpdateRequest, decoded: Object, activity: Object, now: int,
                           parse: string -> Option<int>): (r: Option<Reply>)
    ensures r.Some? ==> r.value.Fail? && (r.value.status == 400 || r.value.status == 403)
  {
    var storedOnSale := DateOf(Prop(activity, "on_sale_date"), parse);
    if !Truthy(Prop(decoded, "_id")) then Some(Fail(403, MissingUser))
    else if !StrictEquals(Prop(activity, "creator_id"), Prop(decoded, "_id")) then Some(Fail(403, OnlyCreatorUpdates))
    else if AtOrBefore(storedOnSale, Some(now)) && TouchesSchedule(req) then Some(Fail(400, RestrictedAfterOnSale))
    else if Truthy(Field(req.on_sale_date)) && AtOrBefore(DateOf(Field(req.on_sale_date), parse), Some(now))
    then Some(Fail(400, NewOnSaleNotFuture))
    else if Truthy(Field(req.start_time))
            && AtOrBefore(DateOf(Field(req.start_time), parse), DateOf(Or(Field(req.on_sale_date), Prop(activity, "on_sale_date")), parse))
    then Some(Fail(400, StartNotAfterEffectiveOnSale))
    else if Truthy(Field(req.end_time))
            && AtOrBefore(DateOf(Field(req.end_time), parse), DateOf(Or(Field(req.start_time), Prop(activity, "start_time")), parse))
    then Some(Fail(400, EndNotAfterEffectiveStart))
    else None
  }

  /** The update object: the supplied text properties and the uploaded
      images; the arena and the archive flag are never part of it. */
  function UpdateChanges(id: Id, req: UpdateRequest): AU.ActivityChanges
  {
    AU.ActivityChanges(id, req.on_sale_date, req.start_time, req.end_time, req.title, req.content,
                       if req.cover_img.Some? then Some(Some(req.cover_img.value)) else None,
                       if req.price_level_img.Some? then Some(Some(req.price_level_img.value)) else None,
                       None, None)
  }

  /** The update writes exactly the non-empty supplied texts and the
      uploaded images, and never the arena or the archive flag. */
  lemma UpdateChangesSupply(id: Id, req: UpdateRequest, column: string)
    ensures AU.Supplied(UpdateChanges(id, req), column) ==
              if column == "title" && AU.Given(req.title) then Some(Text(req.title.value))
              else if column == "content" && AU.Given(req.content) then Some(Text(req.content.value))
              else if column == "on_sale_date" && AU.Given(req.on_sale_date) then Some(Text(req.on_sale_date.value))
              else if column == "start_time" && AU.Given(req.start_time) then Some(Text(req.start_time.value))
              else if column == "end_time" && AU.Given(req.end_time) then Some(Text(req.end_time.value))
              else if column == "cover_img" && req.cover_img.Some? then Some(Blob(req.cover_img.value))
              else if column == "price_level_img" && req.price_level_img.Some? then Some(Blob(req.price_level_img.value))
              else None
  {
  }

  /** Once the stored on-sale date has passed, an accepted update leaves
      the title and the schedule as they are stored. */
  lemma ScheduleFrozenOnSale(id: Id, req: UpdateRequest, decoded: Object, activity: Object, now: int,
                             parse: string -> Option<int>, row: Row, column: string)
    requires UpdateRejection(req, decoded, activity, now, parse).None?
    requires AtOrBefore(DateOf(Prop(activity, "on_sale_date"), parse), Some(now))
    requires column == "title" || column == "on_sale_date" || column == "start_time" || column == "end_time"
    ensures (column in AU.Applied(row, UpdateChanges(id, req)) <==> column in row)
    ensures column in row ==> AU.Applied(row, UpdateChanges(id, req))[column] == row[column]
  {
    AU.AppliedColumns(row, UpdateChanges(id, req), column);
  }

  /** An accepted update keeps the schedule in order wherever the dates
      involved are valid: a new on-sale date lies ahead, a new start after
      the on-sale date in effect, a new end after the start in effect. */
  lemma AcceptedUpdateOrdered(req: UpdateRequest, decoded: Object, activity: Object, now: int,
                              parse: string -> Option<int>)
    requires UpdateRejection(req, decoded, activity, now, parse).None?
    ensures var onSale := DateOf(Field(req.on_sale_date), parse);
            Truthy(Field(req.on_sale_date)) && onSale.Some? ==> now < onSale.value
    ensures var start := DateOf(Field(req.start_time), parse);
            var effective := DateOf(Or(Field(req.on_sale_date), Prop(activity, "on_sale_date")), parse);
            Truthy(Field(req.start_time)) && start.Some? && effective.Some? ==> effective.value < start.value
    ensures var end := DateOf(Field(req.end_time), parse);
            var effective := DateOf(Or(Field(req.start_time), Prop(activity, "start_time")), parse);
            Truthy(Field(req.end_time)) && end.Some? && effective.Some? ==> effective.value < end.value
    ensures Prop(activity, "creator_id") == Prop(decoded, "_id") && Truthy(Prop(decoded, "_id"))
  {
  }

  /** The `!activity` test never fires: for an activity that does not
      exist, a token with a user id meets the creator check and gets 403,
      never 404. */
  lemma MissingActivityForbidden(req: UpdateRequest, decoded: Object, rows: Rows, key: Id, fault: bool, now: int,
                                 parse: string -> Option<int>)
    requires fault || key !in rows
    requires Truthy(Prop(decoded, "_id"))
    ensures UpdateRejection(req, decoded, ActivityById(rows, Some(Text(key)), fault), now, parse) == Some(Fail(403, OnlyCreatorUpdates))
  {
    LookupMissing(rows, Some(Text(key)), fault, ActivityMissing, ActivityFetchFailed, "creator_id");
  }

  /** PATCH /:activity_id. lookupFault makes getActivityById throw,
      updateFault the UPDATE. */
  method UpdateActivityRoute(db: Database, activityId: Id, req: UpdateRequest, decoded: Object, now: int,
                             parse: string -> Option<int>, lookupFault: bool, updateFault: bool) returns (reply: Reply)
    requires db.Valid()
    modifies db
    ensures db.Valid() && db.nextId == old(db.nextId)
    ensures var activity := ActivityById(old(db.Rows(Activities)), Some(Text(activityId)), lookupFault);
            var rejection := UpdateRejection(req, decoded, activity, now, parse);
            rejection.Some? ==> reply == rejection.value && db.tables == old(db.tables)
    ensures var activity := ActivityById(old(db.Rows(Activities)), Some(Text(activityId)), lookupFault);
            var c := UpdateChanges(activityId, req);
            UpdateRejection(req, decoded, activity, now, parse).None? ==>
              && (AU.Included(c) == [] ==> reply == Fail(400, AU.NoFields) && db.tables == old(db.tables))
              && (AU.Included(c) != [] && updateFault ==> reply == Fail(400, AU.ActivityUpdateFailed) && db.tables == old(db.tables))
              && (AU.Included(c) != [] && !updateFault && activityId !in old(db.Rows(Activities)) ==>
                    reply == Fail(400, AU.ActivityNotFound) && db.tables == old(db.tables))
              && (AU.Included(c) != [] && !updateFault && activityId in old(db.Rows(Activities)) ==>
                    var row := AU.Applied(old(db.Rows(Activities))[activityId], c);
                    reply == Done(200, ActivityUpdated, [row])
                    && db.tables == old(db.tables)[Activities := old(db.Rows(Activities))[activityId := row]])
  {
    if !Truthy(Prop(decoded, "_id")) {
      return Fail(403, MissingUser);
    }
    var activity := ActivityById(db.Rows(Activities), Some(Text(activityId)), lookupFault);
    if !StrictEquals(Prop(activity, "creator_id"), Prop(decoded, "_id")) {
      return Fail(403, OnlyCreatorUpdates);
    }
    var storedOnSale := DateOf(Prop(activity, "on_sale_date"), parse);
    if AtOrBefore(storedOnSale, Some(now)) {
      if req.title.Some? || req.on_sale_date.Some? || req.start_time.Some? || req.end_time.Some? {
        return Fail(400, RestrictedAfterOnSale);
      }
    }
    if Truthy(Field(req.on_sale_date)) && AtOrBefore(DateOf(Field(req.on_sale_date), parse), Some(now)) {
      return Fail(400, NewOnSaleNotFuture);
    }
    if Truthy(Field(req.start_time))
       && AtOrBefore(DateOf(Field(req.start_time), parse), DateOf(Or(Field(req.on_sale_date), Prop(activity, "on_sale_date")), parse)) {
      return Fail(400, StartNotAfterEffectiveOnSale);
    }
    if Truthy(Field(req.end_time))
       && AtOrBefore(DateOf(Field(req.end_time), parse), DateOf(Or(Field(req.start_time), Prop(activity, "start_time")), parse)) {
      return Fail(400, EndNotAfterEffectiveStart);
    }
    var updated := AU.UpdateActivity(db, UpdateChanges(activityId, req), updateFault);
    if updated.ActivityError? {
      return Fail(400, updated.error);
    }
    reply := Done(200, ActivityUpdated, [updated.row]);
  }

  const OnlyCreatorArchives := "Only the creator can archive the activity."
  const AlreadyArchived := "Activity is already archived."
  const ActivityArchived := "Activity archived successfully."

  /** The validations of PATCH /archive/:activity_id. There is no validation of the
      token's user id here. */
  function ArchiveRejection(decoded: Object, activity: Object): (r: Option<Reply>)
    ensures r.None? <==> StrictEquals(Prop(activity, "creator_id"), Prop(decoded, "_id")) && !Truthy(Prop(activity, "is_archived"))
  {
    if !StrictEquals(Prop(activity, "creator_id"), Prop(decoded, "_id")) then Some(Fail(403, OnlyCreatorArchives))
    else if Truthy(Prop(activity, "is_archived")) then Some(Fail(400, AlreadyArchived))
    else None
  }

  /** The archive update: is_archived true and nothing else. */
  function ArchiveChanges(id: Id): AU.ActivityChanges
  {
    AU.ActivityChanges(id, None, None, None, None, None, None, None, None, Some(true))
  }

  /** Archiving sets the flag and leaves every other column as stored. */
  lemma ArchiveSetsFlag(row: Row, id: Id)
    ensures AU.Applied(row, ArchiveChanges(id)) == row["is_archived" := Bool(true)]
    ensures AU.Included(ArchiveChanges(id)) != []
  {
    var c := ArchiveChanges(id);
    var a := AU.Applied(row, c);
    var b := row["is_archived" := Bool(true)];
    forall column: string
      ensures (column in a <==> column in b) && (column in a ==> a[column] == b[column])
    {
      AU.AppliedColumns(row, c, column);
    }
    assert a.Keys == b.Keys;
    AU.IncludedEmpty(c);
  }

  /** A token without a user id meets the creator check of an activity
      that does not exist, and the request goes on to the update. */
  lemma ArchiveMissingWithoutUser(decoded: Object, rows: Rows, key: Id, fault: bool)
    requires fault || key !in rows
    requires "_id" !in decoded
    ensures ArchiveRejection(decoded, ActivityById(rows, Some(Text(key)), fault)).None?
  {
    LookupMissing(rows, Some(Text(key)), fault, ActivityMissing, ActivityFetchFailed, "creator_id");
    LookupMissing(rows, Some(Text(key)), fault, ActivityMissing, ActivityFetchFailed, "is_archived");
  }

  /** PATCH /archive/:activity_id. */
  method ArchiveActivityRoute(db: Database, activityId: Id, decoded: Object, lookupFault: bool, updateFault: bool)
    returns (reply: Reply)
    requires db.Valid()
    modifies db
    ensures db.Valid() && db.nextId == old(db.nextId)
    ensures var activity := ActivityById(old(db.Rows(Activities)), Some(Text(activityId)), lookupFault);
            var rejection := ArchiveRejection(decoded, activity);
            && (rejection.Some? ==> reply == rejection.value && db.tables == old(db.tables))
            && (rejection.None? && updateFault ==> reply == Fail(400, AU.ActivityUpdateFailed) && db.tables == old(db.tables))
            && (rejection.None? && !updateFault && activityId !in old(db.Rows(Activities)) ==>
                  reply == Fail(400, AU.ActivityNotFound) && db.tables == old(db.tables))
            && (rejection.None? && !updateFault && activityId in old(db.Rows(Activities)) ==>
                  var row := old(db.Rows(Activities))[activityId]["is_archived" := Bool(true)];
                  reply == Done(200, ActivityArchived, [row])
                  && db.tables == old(db.tables)[Activities := old(db.Rows(Activities))[activityId := row]])
  {
    var activity := ActivityById(db.Rows(Activities), Some(Text(activityId)), lookupFault);
    if !StrictEquals(Prop(activity, "creator_id"), Prop(decoded, "_id")) {
      return Fail(403, OnlyCreatorArchives);
    }
    if Truthy(Prop(activity, "is_archived")) {
      return Fail(400, AlreadyArchived);
    }
    if activityId in db.Rows(Activities) {
      ArchiveSetsFlag(db.Rows(Activities)[activityId], activityId);
    } else {
      AU.IncludedEmpty(ArchiveChanges(activityId));
    }
    var updated := AU.UpdateActivity(db, ArchiveChanges(activityId), updateFault);
    if updated.ActivityError? {
      return Fail(400, updated.error);
    }
    reply := Done(200, ActivityArchived, [updated.row]);
  }
}
