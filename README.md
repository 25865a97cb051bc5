# Ticket booking core, modelled in Dafny

This project models the core of a ticket-booking backend written in
TypeScript on Express, PostgreSQL and Redis. The core covers:

- the seat-reservation routes: reserve one ticket, reserve the first free
  seat of a region, buy, refund, the older reserve route, and the
  single-seat booking demo;
- the distributed lock (redlock) those routes take around every step;
- the Redis availability index: hash records `ticket:<id>` next to sets
  `region:<region>:status:<status>`;
- the Redis ticket CRUD routes, the Redis-to-Postgres `/migrate` route,
  and the sweeper that frees reservations older than an hour;
- the Postgres helpers that build `UPDATE … SET` lists field by field,
  and the transactions that create, update and delete activities,
  regions and tickets;
- the activity and region routes that validate a request and call those
  helpers;
- the JWT and host-role middleware.

Every module is one source file or one component:

| module | file | models |
|---|---|---|
| Util | util.dfy | Option, decimal rendering and parsing of naturals |
| Sql | sql.dfy | values as node-postgres binds them, JavaScript truthiness and `Number()`, the SET-list builder |
| Postgres | database.dfy | a database class: tables, one id counter that stands for the serial sequences, INSERT/UPDATE/DELETE, ROLLBACK |
| Http | http.dfy | property reads, `new Date` comparisons, `===` and `==`, JSON replies, getActivityById and getRegionById |
| SeatTickets | seat_tickets.dfy | createTicket runs and deleteExcessTickets |
| ActivityPost, ActivityUpdate, ArenaUpdate, RegionUpdate, RegionDelete, TicketUpdate, UserPost, UserPut | activity_post.dfy … user_put.dfy | the database helpers of the same names |
| ActivityRoutes, RegionRoutes | activity_routes.dfy, region_routes.dfy | the activity and region routes |
| Middleware | middleware.dfy | jwtProtect and hostProtect |
| Redlock | redlock.dfy | the lock scripts, the lock servers, the quorum vote and the retry loop |
| TicketIndex | ticket_index.dfy | the Redis ticket index and its store class |
| TicketCrud | ticket_crud.dfy | the Redis ticket CRUD routes and `/migrate` |
| Sweeper | sweeper.dfy | refundExpiredTickets |
| Reservation | reservation.dfy | reserveTicketFromId, /reserveTicket, /buyTicket, /refundTicket |
| LegacyReserve | legacy_reserve.dfy | the older /reserveTicket route |
| SeatBooking | seat_booking.dfy | bookSeat |

State that the source changes in place is modelled as classes:
`Postgres.Database`, `TicketIndex.TicketStore`, `Redlock.LockServer`,
`Redlock.Redlock`, `Redlock.Lock`, `SeatBooking.SeatStore`, `Sql.SetBuilder`
and `Middleware.Request`, plus route classes that hold those stores.
Each method states its whole new state, as a function of the old one
and of the parameters that say which command fails. The routes state the
lock servers' contents too, so a route that skipped its release would
not meet its contract.
Lemmas then prove what those functions promise: round trips, preserved
invariants, idempotence, and the exact conditions for each outcome.

Conventions used throughout:

- Everything the program cannot decide by itself is a parameter. That
  covers the clock (integer milliseconds), the date parser, the random
  lock token, the uuid, jwt.verify's verdict, and which query or Redis
  command fails. A failure is a flag, or the number of the command that
  throws ("the n-th insert", "the n-th Redis command of the hold update").
  Each contract then describes every path, including a sequence of writes
  that stops part way.
- Serial ids are the decimal text of one counter that every table shares,
  standing for each table's own serial sequence. An id handed out
  is never handed out again (`Postgres.InsertedAt`, `Postgres.FreshAfterShrink`).
- A row is a map from column to value. A Redis hash is a map from field
  to string.

The contracts also pin down how the code behaves where that differs from
what it seems to intend. These are stated and proved, not corrected:

- `Reservation.LockContentionAnswers500` and
  `LegacyReserve.LegacyLockContentionAnswers500`: the routes answer 423 only
  for an error named "LockError". redlock throws ExecutionError, so lock
  contention is answered 500.
- `RegionUpdate.CapacityDifferenceAlwaysZero`: updateRegion compares the
  requested capacity with the row the UPDATE already returned. The ticket
  adjustment therefore never runs.
- `Reservation.HoldCycle` and `Sweeper.ResetHash`: a null user_id never
  clears the holder in the index update. A refunded or expired ticket
  still names its last holder.
- `LegacyReserve.LegacyReserveLeavesIndexStale`,
  `TicketCrud.PutStatusChangeBreaksIndex` and
  `TicketIndex.CreateOverStoredTicketBreaksIndex`: these writes bypass the
  re-indexing update, so the index no longer matches the hashes.
- `ActivityRoutes.MissingActivityForbidden` and
  `RegionRoutes.DeleteMissingActivityForbidden`: the lookups answer a
  truthy {error} object, never a falsy value. The routes' 404 branches are
  unreachable, and a missing activity is answered 403.
  `ActivityRoutes.ArchiveMissingWithoutUser` shows the other side: a token
  without `_id` passes the creator check on a missing activity.
- `RegionRoutes.UpdateLooserThanDelete`: the region update compares the
  creator with `!=`, the delete with `!==`.
- `SeatBooking.ColonIdsShareLock`: two different ticket/seat pairs can
  share one lock key.

## Model

| member | source | states |
|---|---|---|
| Sql.BuildSet | backend/src/database/tickets/update.ts:10-29 | the SET list holds the included candidates' (column, value) pairs in test order, numbered $1, $2, … consecutively |
| Sql.SetBuilder.Push | backend/src/database/regions/update.ts:17-18 | one push appends "column = $index" and its value and advances the counter by one |
| Sql.SetBuilder.PushCandidate | backend/src/database/regions/update.ts:16-27 | a candidate property is pushed when it is included and skipped otherwise, extending the pushed pairs by exactly its own |
| Sql.JsNumber | backend/src/routes/tickets/index.ts:61 | Number() of a missing value or a non-numeral is NaN, of the empty string 0, of a decimal numeral its value |
| Sql.SetBindsPushedValues | backend/src/database/tickets/update.ts:35-41 | with consecutive placeholders, each pushed column receives exactly its pushed value from the parameters |
| Sql.WhereKeyFollowsValues | backend/src/database/tickets/update.ts:38-41 | the WHERE key goes in the placeholder after the SET values and leaves them undisturbed |
| Sql.OverrideAt | backend/src/database/tickets/update.ts:35-40 | an assigned column ends with its last assigned value; an unassigned column keeps its old value |
| Sql.PushedEmpty | backend/src/database/regions/update.ts:29-31 | the SET list is empty exactly when no candidate is included |
| Sql.PushedColumn | backend/src/database/regions/update.ts:16-27 | with distinct columns, a candidate's column is assigned its value iff the candidate is included |
| Sql.PushedAbsent | backend/src/database/auth/put.ts:11-18 | a column no candidate names is never assigned |
| Sql.BindsPushedNotANumber | backend/src/database/tickets/update.ts:35-47 | the statement binds NaN exactly when a NaN value was pushed, the key never adding one |
| Postgres.Database.Insert | backend/src/database/regions/post.ts:9-18 | INSERT … RETURNING *: the row is stored under the next serial id, which no row of the table had, and is answered with that _id |
| Postgres.Database.Update | backend/src/database/auth/put.ts:24-35 | UPDATE … WHERE column = $w: every row matching the key gets the SET list, the others are untouched; a NaN binding or a fault throws and changes nothing |
| Postgres.Database.UpdateRow | backend/src/database/tickets/update.ts:35-57 | UPDATE … WHERE _id = $k+1: throws on a fault or NaN, answers no row when the id is absent, otherwise the one row with the pushed values |
| Postgres.Database.Delete | backend/src/database/tickets/delete.ts:7-14 | DELETE … WHERE: exactly the selected rows are removed and counted; a fault changes nothing |
| Postgres.Database.Rollback | backend/src/database/regions/delete.ts:25-39 | ROLLBACK restores the tables as they were at BEGIN, given that no other request ran a query in between; the id counter keeps its position |
| Postgres.UpdatedWithPushed | backend/src/database/auth/put.ts:24-31 | an UPDATE bound to the pushed values then the key gives exactly the key-matching rows the pushed values |
| Postgres.UpdatedById | backend/src/database/tickets/update.ts:35-41 | an UPDATE by _id reaches the one row with that id, or none |
| Postgres.InsertedAt | backend/src/database/tickets/post.ts:10-19 | the k-th insert of a run is stored under the k-th serial id: ids are never handed out twice |
| Postgres.InsertedOnly | backend/src/database/tickets/post.ts:10-19 | a run of inserts stores rows only under the ids it was handed |
| Postgres.InsertedCount | backend/src/database/tickets/post.ts:10-19 | a run of n inserts stores exactly n rows |
| Postgres.InsertedConcat | backend/src/database/activities/post.ts:52-63 | two runs of inserts back to back store what one run of the two lists together stores |
| Postgres.FreshAfterInsert | backend/src/database/regions/post.ts:9-18 | an insert under the next serial id keeps every later id unused |
| Postgres.FreshAfterShrink | backend/src/database/regions/delete.ts:4-8 | deleting or rewriting rows never reuses an id |
| Http.SelectById | backend/src/database/regions/get.ts:21-38 | SELECT … WHERE _id = $1 finds a row exactly when the key is the text of a stored id, and then that row |
| Http.LookupMissing | backend/src/database/activities/get.ts:29-45 | with no row, or a failing query, the lookup answers an object that has only the error message, never a falsy value |
| Http.LookupFound | backend/src/database/regions/get.ts:21-38 | with the row present, every property read is the stored column |
| Http.InvalidDatePasses | backend/src/routes/activities/regions/create.ts:41-49 | a date comparison with an Invalid Date on either side is false both ways, so the validation passes |
| Http.LooseWeakerThanStrict | backend/src/routes/activities/regions/update.ts:45 | `!=` admits everything `!==` admits, and more: a number and its decimal string, null and undefined; NaN equals nothing either way |
| SeatTickets.CreateSeats | backend/src/routes/activities/regions/create.ts:64-79 | the ticket loop stores seats first.. in order under consecutive new ids, stopping at the failing insert; the inserts before it stay |
| SeatTickets.InsertSeat | backend/src/database/tickets/post.ts:10-19 | one createTicket call extends the run by the unowned, unpaid row for the next seat |
| SeatTickets.NewSeatsCount | backend/src/routes/activities/regions/create.ts:64-79 | a run of count seat inserts stores count tickets |
| SeatTickets.NewSeatsAt | backend/src/database/tickets/post.ts:10-15 | the k-th ticket of a run holds seat first+k of the region and activity, with no owner and unpaid |
| SeatTickets.NewSeatsOnly | backend/src/database/tickets/post.ts:10-19 | a run stores nothing under an id it was not handed |
| SeatTickets.NewSeatsNumbers | backend/src/database/regions/update.ts:61-68 | a run holds exactly the seat numbers first..first+count-1 |
| SeatTickets.Kept | backend/src/database/tickets/delete.ts:7-10 | the tickets kept are exactly those not of the region with a seat above the capacity, unchanged |
| SeatTickets.KeptCount | backend/src/database/tickets/delete.ts:13-14 | the reported count is the number of tickets removed |
| SeatTickets.DeleteExcessTickets | backend/src/database/tickets/delete.ts:3-19 | removes exactly the region's seats above max_capacity, counts them, and on failure answers the error and changes nothing |
| RegionUpdate.IncludedSupplies | backend/src/database/regions/update.ts:16-27 | the SET list assigns region_name only when non-empty, region_price and region_capacity whenever supplied, nothing else |
| RegionUpdate.IncludedEmpty | backend/src/database/regions/update.ts:29-31 | there is nothing to update exactly when no name, price or capacity is supplied |
| RegionUpdate.AppliedColumns | backend/src/database/regions/update.ts:33-46 | the updated row holds each supplied value and keeps every other column |
| RegionUpdate.CapacityDifferenceAlwaysZero | backend/src/database/regions/update.ts:52-57 | the capacity difference, taken against the row the UPDATE returned, is always zero |
| RegionUpdate.AdjustTickets | backend/src/database/regions/update.ts:55-85 | a positive difference adds seats after the old capacity, a negative one deletes the seats above the new one; a failure is reported |
| RegionUpdate.AdjustForCapacity | backend/src/database/regions/update.ts:54-85 | as the code stands, the adjustment changes no table and consumes no id |
| RegionUpdate.UpdateRegion | backend/src/database/regions/update.ts:5-95 | no fields: error before any query; a fault: "Failed to update region"; an unknown id: "Region not found", nothing changed; otherwise exactly that row updated, and in every case the tickets untouched |
| RegionDelete.OtherRegions | backend/src/database/regions/delete.ts:28-32 | the tickets left are exactly those of other regions, unchanged |
| RegionDelete.DeleteRegion | backend/src/database/regions/delete.ts:3-20 | an unknown id gives "Region not found"; otherwise the region row is removed and answered; a fault changes nothing |
| RegionDelete.DeleteRegionAndTickets | backend/src/database/regions/delete.ts:22-52 | succeeds iff no fault and the region exists, then removes its tickets and itself; every failure rolls back to the state before |
| ActivityPost.InsertRegions | backend/src/database/activities/post.ts:50-63 | the regions are inserted in input order, each tagged with the activity; success iff no insert fails, answering the rows in order |
| ActivityPost.InsertRegion | backend/src/database/activities/post.ts:53-62 | one createRegion call extends the run by the region's row under the next id |
| ActivityPost.AppendRegion | backend/src/database/activities/post.ts:62 | one more region appends its own row to the answered list |
| ActivityPost.CreatedRegionsInOrder | backend/src/database/activities/post.ts:51-63 | the k-th stored region is the k-th input, tagged with the activity, under the k-th id |
| ActivityPost.CreateActivityWithRegions | backend/src/database/activities/post.ts:4-76 | success iff no insert fails, storing the activity and its regions in order; any failure rolls everything back and answers the error |
| ActivityPost.OrNull | backend/src/database/activities/post.ts:100-102 | `x \|\| null` is x when x is truthy and null otherwise |
| ActivityPost.NewActivityNulls | backend/src/database/activities/post.ts:95-104 | createActivity stores null for a missing or empty content and for a missing image, and the supplied value otherwise |
| ActivityPost.CreateActivity | backend/src/database/activities/post.ts:80-113 | a single insert of the activity; a fault answers the error and changes nothing |
| ActivityUpdate.CandidateColumns | backend/src/database/activities/update.ts:19-54 | the nine candidate columns are distinct |
| ActivityUpdate.IncludedSupplies | backend/src/database/activities/update.ts:19-54 | each column is assigned exactly the value the change supplies: texts and arena_id when non-empty, images whenever supplied, is_archived only when true |
| ActivityUpdate.TextSupplied | backend/src/database/activities/update.ts:19-38 | a text property is assigned only when non-empty |
| ActivityUpdate.OtherSupplied | backend/src/database/activities/update.ts:39-54 | images are assigned whenever supplied (null too), arena_id when non-empty, is_archived only when true |
| ActivityUpdate.IncludedEmpty | backend/src/database/activities/update.ts:56-58 | nothing to update exactly when no property is supplied in a form that is written |
| ActivityUpdate.AppliedColumns | backend/src/database/activities/update.ts:60-73 | the updated row holds each supplied value and keeps every other column |
| ActivityUpdate.UnarchiveNeverWritten | backend/src/database/activities/update.ts:51-54 | is_archived false is never written |
| ActivityUpdate.EmptyTextNeverWritten | backend/src/database/activities/update.ts:31-34 | an empty title leaves the stored title |
| ActivityUpdate.UpdateActivity | backend/src/database/activities/update.ts:3-78 | no fields: error and no query; a fault: error; an unknown id: "Activity not found"; otherwise exactly that row updated |
| ArenaUpdate.IncludedSupplies | backend/src/database/arenas/update.ts:13-24 | title and address assigned when non-empty, capacity whenever supplied, nothing else |
| ArenaUpdate.IncludedEmpty | backend/src/database/arenas/update.ts:26-28 | nothing to update exactly when no property is supplied in a form that is written |
| ArenaUpdate.AppliedColumns | backend/src/database/arenas/update.ts:30-43 | the updated row holds each supplied value and keeps every other column |
| ArenaUpdate.UpdateArena | backend/src/database/arenas/update.ts:3-48 | no fields: error and no query; a fault: error; an unknown id: "Arena not found"; otherwise exactly that row updated |
| UserPost.PublicHidesPassword | backend/src/database/auth/post.ts:30-62 | the answered user is id, email, username, role, phone number and creation time, and does not depend on the password |
| UserPost.InsertKeepsEmailsUnique | backend/src/database/auth/post.ts:15-44 | inserting a user whose email is not taken keeps emails unique |
| UserPost.CreateUser | backend/src/database/auth/post.ts:11-63 | a taken email or a failing check answers an error and inserts nothing; otherwise the five properties are stored and the public user answered |
| UserPut.IncludedSupplies | backend/src/database/auth/put.ts:11-18 | username and phone_number are assigned only when non-empty; email, role and password never |
| UserPut.IncludedEmpty | backend/src/database/auth/put.ts:20-22 | "No updates provided" exactly when neither property is a non-empty string |
| UserPut.Edited | backend/src/database/auth/put.ts:24-35 | the UPDATE writes exactly the users with the email |
| UserPut.EditedColumns | backend/src/database/auth/put.ts:24-35 | a written user takes the supplied properties and keeps every other column |
| UserPut.EditKeepsEmailsUnique | backend/src/database/auth/put.ts:24-28 | the update never changes an email, so unique emails stay unique |
| UserPut.UniqueEmailEditsOne | backend/src/database/auth/put.ts:43-48 | with unique emails the update writes at most one user |
| UserPut.BoundProfileUpdate | backend/src/database/auth/put.ts:24-35 | the SET list with the email bound last binds no NaN and updates exactly the users with the email |
| UserPut.UpdateUser | backend/src/database/auth/put.ts:3-49 | no updates: error; a fault: the thrown error; no such user: "user not found or no changes made"; otherwise the profile of an updated user |
| TicketUpdate.IncludedSupplies | backend/src/database/tickets/update.ts:14-29 | is_paid, seat_number, user_id and created_at are assigned whenever supplied, nothing else |
| TicketUpdate.IncludedEmpty | backend/src/database/tickets/update.ts:31-33 | "No fields to update" exactly when nothing is supplied |
| TicketUpdate.AppliedColumns | backend/src/database/tickets/update.ts:35-57 | the updated row holds each supplied value and keeps every other column |
| TicketUpdate.UpdateTicket | backend/src/database/tickets/update.ts:3-65 | no fields: error; a fault or a NaN value: "Failed to update ticket" and rollback; an unknown id: "Ticket not found" and rollback; otherwise that row updated with the supplied values and committed |
| ActivityRoutes.RegionProblem | backend/src/routes/activities/create.ts:77-91 | a region is refused exactly when it is not well formed: a falsy name, price or capacity, or a price or capacity not positive |
| ActivityRoutes.FirstRegionProblemSpec | backend/src/routes/activities/create.ts:76-92 | the regions pass iff every one is well formed; otherwise the answer is the problem of the first ill-formed one, all before it being well formed |
| ActivityRoutes.CheckRegions | backend/src/routes/activities/create.ts:76-92 | the validation loop answers the first region's problem, or none |
| ActivityRoutes.CreateRejection | backend/src/routes/activities/create.ts:44-92 | every early answer of POST /create is a 400 or a 403 error |
| ActivityRoutes.CreateAccepted | backend/src/routes/activities/create.ts:44-92 | a request passes iff the token carries a truthy _id, each readable date pair is ordered now < on_sale_date < start_time < end_time, and there is at least one region, all well formed |
| ActivityRoutes.UnreadableDatesPass | backend/src/routes/activities/create.ts:51-67 | with unparsable dates none of the three date checks refuses the request |
| ActivityRoutes.AllSeatsPrefix | backend/src/routes/activities/create.ts:120-140 | the tickets made for the first j regions are a prefix of all the tickets made |
| ActivityRoutes.RegionSeatAt | backend/src/routes/activities/create.ts:121-133 | seat s of region k is the ticket made after all the seats of the regions before it, with seat number s, no owner, unpaid |
| ActivityRoutes.GenerateTickets | backend/src/routes/activities/create.ts:119-140 | the ticket loops insert every region's seats 1..capacity in region order under consecutive ids, stopping at the first failing insert and keeping those before it |
| ActivityRoutes.SeatRegion | backend/src/routes/activities/create.ts:122-139 | the inner loop extends the tickets made by exactly one region's seats, or stops at the failing insert |
| ActivityRoutes.CreatedInSteps | backend/src/routes/activities/create.ts:101-147 | storing the activity and regions, then the tickets, then answering 201 or 500 is what the route promises |
| ActivityRoutes.CreateFailedAsRequested | backend/src/routes/activities/create.ts:115-117 | a failed createActivityWithRegions answers 400 and leaves the tables as they were |
| ActivityRoutes.CreateChecked | backend/src/routes/activities/create.ts:94-151 | after validation: 400 and nothing stored when the activity or a region fails; else the activity, its regions and their tickets stored, 201 when every ticket was made and 500 with the tickets made so far kept otherwise |
| ActivityRoutes.CreateActivityRoute | backend/src/routes/activities/create.ts:30-152 | a refused request changes nothing and answers the refusal; an accepted one has exactly the effect and answer CreateChecked describes |
| ActivityRoutes.CreatedRegion | backend/src/database/activities/post.ts:51-63 | the k-th created region has the k-th input's capacity and, from the model's shared id counter, the k-th id after the activity's |
| ActivityRoutes.SeatTicketStored | backend/src/routes/activities/create.ts:121-139 | seat s of region k is stored, with the region's id and seat number s, under the id the run gave it; the run holds one ticket per seat |
| ActivityRoutes.CreatedTicketsCoverRegions | backend/src/routes/activities/create.ts:119-140 | after a full creation, seat s of created region k is stored as a ticket of that region and the activity, numbered s, unowned and unpaid, and there are as many tickets as seats |
| ActivityRoutes.UpdateRejection | backend/src/routes/activities/update.ts:37-101 | every early answer of PATCH /:activity_id is a 400 or a 403 error |
| ActivityRoutes.UpdateChangesSupply | backend/src/routes/activities/update.ts:103-125 | the update writes title, content and the three dates when given, an uploaded image whenever present, and nothing else |
| ActivityRoutes.ScheduleFrozenOnSale | backend/src/routes/activities/update.ts:60-76 | once on sale, an accepted update leaves title, on_sale_date, start_time and end_time as stored |
| ActivityRoutes.AcceptedUpdateOrdered | backend/src/routes/activities/update.ts:51-101 | an accepted update comes from the creator, puts a new on-sale date in the future, and keeps start after on-sale and end after start against the stored values |
| ActivityRoutes.MissingActivityForbidden | backend/src/routes/activities/update.ts:45-57 | a missing activity is not answered 404: the lookup's error object has no creator, so a logged-in user gets 403 |
| ActivityRoutes.UpdateActivityRoute | backend/src/routes/activities/update.ts:31-138 | a refusal changes nothing; otherwise updateActivity's outcome is answered, 400 for its errors and 200 with the updated row |
| ActivityRoutes.ArchiveRejection | backend/src/routes/activities/update.ts:150-167 | archiving is allowed iff the requester is strictly the creator and the activity is not yet archived |
| ActivityRoutes.ArchiveSetsFlag | backend/src/routes/activities/update.ts:169-173 | archiving writes is_archived true and nothing else |
| ActivityRoutes.ArchiveMissingWithoutUser | backend/src/routes/activities/update.ts:150-162 | a missing activity and a token without _id pass every check, because undefined equals undefined |
| ActivityRoutes.ArchiveActivityRoute | backend/src/routes/activities/update.ts:142-188 | a refusal changes nothing; otherwise the row gets is_archived true and 200, or updateActivity's error with 400 |
| RegionRoutes.AddRejection | backend/src/routes/activities/regions/create.ts:17-49 | every early answer of POST /:activity_id/regions is a 400 or a 403 error |
| RegionRoutes.AddAccepted | backend/src/routes/activities/regions/create.ts:17-49 | an accepted region is well formed, comes from the strict creator, and a readable start time is still ahead |
| RegionRoutes.AddRefusedOnlyAfterStart | backend/src/routes/activities/regions/create.ts:41-49 | a well-formed request from the creator is refused exactly when the activity has started |
| RegionRoutes.AddMissingActivityWithoutUser | backend/src/routes/activities/regions/create.ts:29-49 | a missing activity and a token without _id pass every check |
| RegionRoutes.CreateRegion | backend/src/database/regions/post.ts:3-23 | createRegion stores the region under a fresh serial id and answers it; a fault answers "Failed to create region" and stores nothing |
| RegionRoutes.AddedTickets | backend/src/routes/activities/regions/create.ts:64-79 | a new region of capacity c gets c tickets, seats 1..c |
| RegionRoutes.AddedTicketsUnclaimed | backend/src/routes/activities/regions/create.ts:66-72 | each new ticket belongs to the activity and the new region, has no owner and is unpaid |
| RegionRoutes.AddRegionRoute | backend/src/routes/activities/regions/create.ts:10-90 | a refusal or a failed createRegion changes nothing; otherwise the region is stored, its seats are inserted in order, and the answer is 201, or 500 with the region and the tickets made so far kept |
| RegionRoutes.OwnerOfStored | backend/src/routes/activities/regions/update.ts:33-37 | when the region and its activity exist, the two lookups give the activity's row |
| RegionRoutes.PatchRejection | backend/src/routes/activities/regions/update.ts:16-56 | every early answer of PATCH /regions/:region_id is a 400 or a 403 error |
| RegionRoutes.PatchAccepted | backend/src/routes/activities/regions/update.ts:16-56 | an accepted patch has positive price and capacity and a string name when given, comes from a loosely equal creator, and the activity is not yet on sale |
| RegionRoutes.PatchRefusedOnSale | backend/src/routes/activities/regions/update.ts:43-56 | once on sale a valid patch is refused: 400 to the creator, 403 to anyone else |
| RegionRoutes.PatchSupplies | backend/src/routes/activities/regions/update.ts:59-69 | the patch writes a non-empty name, a given price and a given capacity, and nothing else |
| RegionRoutes.UpdateLooserThanDelete | backend/src/routes/activities/regions/update.ts:43-49 | a numeric creator id and the same id as a string pass the update's `!=` but fail the delete's `!==` |
| RegionRoutes.PatchMissingRegionWithoutUser | backend/src/routes/activities/regions/update.ts:33-49 | a missing region and a token without _id pass every check |
| RegionRoutes.UpdateRegionRoute | backend/src/routes/activities/regions/update.ts:10-79 | a refusal changes nothing; otherwise updateRegion's outcome is answered, 400 for its errors and 200 with the updated region, the tickets untouched |
| RegionRoutes.DeleteRejection | backend/src/routes/activities/regions/delete.ts:15-37 | every early answer of DELETE /regions/:region_id is a 400 or a 403 error |
| RegionRoutes.DeleteAccepted | backend/src/routes/activities/regions/delete.ts:25-37 | a delete passes iff the requester is strictly the creator and the on-sale date is unreadable or still ahead |
| RegionRoutes.DeleteMissingActivityForbidden | backend/src/routes/activities/regions/delete.ts:15-30 | a missing activity is answered 403 to a logged-in user, not 404 |
| RegionRoutes.DeleteRegionRoute | backend/src/routes/activities/regions/delete.ts:10-53 | a refusal changes nothing; otherwise deleteRegionAndTickets' outcome: 400 for its errors with nothing changed, or 200 with the region and its tickets removed |
| Middleware.Split | backend/src/routes/middleware.ts:26 | String.split always answers at least one part |
| Middleware.SplitJoin | backend/src/routes/middleware.ts:26 | the parts of a split joined back with the separator give the original string, and no part holds the separator |
| Middleware.SplitFirst | backend/src/routes/middleware.ts:26 | a split begins with the text before the first separator and continues with the split of the rest |
| Middleware.BearerToken | backend/src/routes/middleware.ts:22-26 | from "Bearer <token>" with no space in the token, element [1] of the split is the token |
| Middleware.JwtProtect | backend/src/routes/middleware.ts:17-40 | no header: 401 "No token provided"; a token the verifier accepts: the claims stored on the request and next(); an expired one: 401; any other failure: 403; the request is left alone unless it passes |
| Middleware.HostProtect | backend/src/routes/middleware.ts:42-55 | next() exactly when the decoded claims carry the role "host"; 403 otherwise |
| Middleware.HostRouteAdmits | backend/src/routes/middleware.ts:17-55 | with a well-formed bearer header the verifier sees the token itself, and a verified user passes hostProtect iff the role is "host" |
| Redlock.SetAllEffect | node_modules/redlock/dist/esm/index.js:16-18 | after the SET loop every key holds the new entry and every other key is as before |
| Redlock.AcquireAllOrNothing | node_modules/redlock/dist/esm/index.js:7-22 | the acquire script answers the key count iff no key is live and the expiry is positive, then holds them all for the value; otherwise it changes nothing |
| Redlock.ExtendOnlyIfAllHeld | node_modules/redlock/dist/esm/index.js:23-38 | the extend script succeeds iff every key is held live by the value, then renews each to now + ttl; otherwise it changes nothing |
| Redlock.ReleaseOnlyOwn | node_modules/redlock/dist/esm/index.js:39-51 | the release script deletes exactly the keys held by the value and keeps every other entry |
| Redlock.ReleaseCount | node_modules/redlock/dist/esm/index.js:39-51 | with distinct keys the release script answers the number of keys the value held |
| Redlock.LockServer.Acquire | node_modules/redlock/dist/esm/index.js:7-22 | one server runs the acquire script, with the all-or-nothing effect AcquireAllOrNothing proves |
| Redlock.LockServer.Extend | node_modules/redlock/dist/esm/index.js:23-38 | one server runs the extend script, with the effect ExtendOnlyIfAllHeld proves |
| Redlock.LockServer.SetKeys | node_modules/redlock/dist/esm/index.js:16-18 | the SET loop leaves the store as SetAllEffect describes |
| Redlock.LockServer.Release | node_modules/redlock/dist/esm/index.js:39-51 | one server runs the release script, with the effect ReleaseOnlyOwn and ReleaseCount prove |
| Redlock.LockServer.Eval | node_modules/redlock/dist/esm/index.js:349-387 | a server evaluates the script given, whichever of the three it is |
| Redlock.SplitCount | node_modules/redlock/dist/esm/index.js:311-338 | every server's reply lands in exactly one of the two vote sets |
| Redlock.TallyOfVotes | node_modules/redlock/dist/esm/index.js:311-319 | a server votes for iff its reply applied the script to every key, and against otherwise |
| Redlock.Tally | node_modules/redlock/dist/esm/index.js:300-338 | the tallying loop gives the statistics TallyOf describes and the vote they decide |
| Redlock.QuorumExclusive | node_modules/redlock/dist/esm/index.js:302-333 | with quorum floor(n/2)+1 the for and against votes never both reach it |
| Redlock.UndecidedNeedsEvenSplit | node_modules/redlock/dist/esm/index.js:320-338 | an attempt stays undecided only with an even number of servers split half and half |
| Redlock.Customize | node_modules/redlock/dist/esm/index.js:131-147 | with no settings given the instance uses the defaults, retryCount 10 and driftFactor 0.01 among them |
| Redlock.Merge | node_modules/redlock/dist/esm/index.js:265-270 | per-call settings override the instance's, and none given leaves them as they are |
| Redlock.AttemptBound | node_modules/redlock/dist/esm/index.js:264-293 | _execute keeps the attempts so far, makes at most retryCount+1 attempts, and gives up only after exactly that many |
| Redlock.LastAttemptDecides | node_modules/redlock/dist/esm/index.js:275-291 | a success ends on an attempt decided for, a failure on one decided against |
| Redlock.RetryOnlyAfterRefusal | node_modules/redlock/dist/esm/index.js:275-291 | every attempt before the last was decided against |
| Redlock.Dedup | node_modules/redlock/dist/esm/index.js:126 | the clients are those given, each once |
| Redlock.Redlock.Create | node_modules/redlock/dist/esm/index.js:111-147 | construction fails with no client; otherwise the instance holds the distinct clients and the customized settings |
| Redlock.Redlock.RunAll | node_modules/redlock/dist/esm/index.js:294-299 | one attempt runs the script on every client, each changing only its own store |
| Redlock.Redlock.AttemptOperation | node_modules/redlock/dist/esm/index.js:294-348 | one attempt's effect on the servers, its statistics, and the vote they decide |
| Redlock.Redlock.Execute | node_modules/redlock/dist/esm/index.js:264-293 | the retry loop: attempts until one is decided for or retryCount+1 have failed |
| Redlock.Redlock.Acquire | node_modules/redlock/dist/esm/index.js:199-223 | a fractional duration throws before any server is touched; otherwise the servers end as AcquireStores says (the acquire loop, then one release without retries when it ran out); success is a quorum, giving a lock whose expiry is start + duration - drift; failure throws the quorum error |
| Redlock.Redlock.Release | node_modules/redlock/dist/esm/index.js:231-236 | the lock's expiration becomes 0 at once, then the release script runs with retries; a quorum failure throws |
| Redlock.Redlock.Extend | node_modules/redlock/dist/esm/index.js:240-258 | a fractional duration or an expired lock throws with nothing changed; otherwise the servers hold the extend loop's result, a quorum answers a new lock for the same resources and value and invalidates the old one, and running out of attempts throws the quorum error |
| Redlock.AcquireStores | node_modules/redlock/dist/esm/index.js:199-223 | acquire never adds or drops a server: the servers after acquire are as many as before |
| Redlock.ExecFromLength | node_modules/redlock/dist/esm/index.js:264-293 | the retry loop leaves as many server stores as it was given |
| Redlock.SingleStoreReleaseDeletes | node_modules/redlock/dist/esm/index.js:39-50 | with one server, a release loop that reaches its quorum has deleted the lock key there |
| Redlock.AcquireReleaseFreesKey | node_modules/redlock/dist/esm/index.js:199-236 | with one server, acquiring a one-key lock and releasing it with a release that reaches its quorum leaves the key absent, so the key can be locked again |
| TicketIndex.RedisKeyInjective | backend/src/Redis/index.ts:30 | distinct ticket ids get distinct "ticket:" keys |
| TicketIndex.RegionStatusKeyInjective | backend/src/Redis/index.ts:33-34 | for region ids without a colon, equal "region:…:status:…" keys mean equal region and status |
| TicketIndex.TicketHash | backend/src/Redis/index.ts:41-48 | the hash createTicket writes holds all six ticket fields |
| TicketIndex.ViewOf | backend/src/Redis/index.ts:63-70 | the ticket read from a hash has user_id null exactly when the stored user_id is "" |
| TicketIndex.ReadBackCreated | backend/src/Redis/index.ts:37-70 | reading a created ticket gives it back, a falsy user_id as null |
| TicketIndex.Read | backend/src/Redis/index.ts:55-71 | readTicket answers null exactly when no hash is stored |
| TicketIndex.Update | backend/src/Redis/index.ts:74-83 | updateTicket on an absent ticket throws and changes nothing |
| TicketIndex.Delete | backend/src/Redis/index.ts:117-129 | after deleteTicket no hash is stored for the id |
| TicketIndex.CreatePreservesIndexed | backend/src/Redis/index.ts:37-52 | createTicket keeps every stored id in exactly the set of its own region and status, unless it overwrites a ticket stored under another set |
| TicketIndex.StorePreservesIndexed | backend/src/Redis/index.ts:41-51 | writing a hash and adding its id to its set keeps the index, when the id's set does not change |
| TicketIndex.CreateOverStoredTicketBreaksIndex | backend/src/Redis/index.ts:37-52 | createTicket over a stored ticket with another region or status leaves the id in its old set too: the index is broken |
| TicketIndex.UpdatePreservesIndexed | backend/src/Redis/index.ts:74-114 | updateTicket keeps every stored id in exactly the set of its own region and status |
| TicketIndex.DeletePreservesIndexed | backend/src/Redis/index.ts:117-129 | deleteTicket keeps the index |
| TicketIndex.UpdateKeepsUnsuppliedFields | backend/src/Redis/index.ts:85-107 | an update keeps every field it does not supply, and a falsy user_id never clears the holder |
| TicketIndex.UpdateMovesBetweenSets | backend/src/Redis/index.ts:91-113 | when region or status changes the id leaves the old set and joins the new one; otherwise no set is touched; other sets never change |
| TicketIndex.EmptySeatsExact | backend/src/Redis/index.ts:132-135 | on an indexed store readRegion lists exactly the tickets of the region whose status is "empty" |
| TicketIndex.TicketStore.HSet | backend/src/Redis/index.ts:41-48 | HSET merges the fields into the stored hash and touches no set |
| TicketIndex.TicketStore.Del | backend/src/Redis/index.ts:127 | DEL removes the hash and touches no set |
| TicketIndex.TicketStore.SAdd | backend/src/Redis/index.ts:51 | SADD adds the id to the set and touches no hash |
| TicketIndex.TicketStore.SRem | backend/src/Redis/index.ts:128 | SREM removes the id from the set and touches no hash |
| TicketIndex.TicketStore.SMembers | backend/src/Redis/index.ts:134 | SMEMBERS lists the set's members, each once |
| TicketIndex.TicketStore.TicketKeys | backend/src/Redis/index.ts:139 | KEYS ticket:* lists every stored ticket, each once |
| TicketIndex.TicketStore.CreateTicket | backend/src/Redis/index.ts:37-52 | createTicket's HSET then SADD leave the store as Create describes |
| TicketIndex.TicketStore.ReadTicket | backend/src/Redis/index.ts:55-71 | null for an absent ticket, otherwise the view of its hash |
| TicketIndex.TicketStore.UpdateTicket | backend/src/Redis/index.ts:74-114 | an absent ticket throws with nothing changed; a command that throws (failAt numbers the read, HSET, SREM and SADD) leaves what the commands before it wrote, as HoldPartial says; with no failure the hash is rewritten and the sets moved as Update describes |
| TicketIndex.TicketStore.DeleteTicket | backend/src/Redis/index.ts:117-129 | an absent ticket is a no-op; otherwise the hash and its set membership removed |
| TicketIndex.TicketStore.ReadRegion | backend/src/Redis/index.ts:132-135 | the ids of the region's "empty" set, each once |
| TicketIndex.TicketStore.UpdateHold | backend/src/routes/tickets/index.ts:51-55 | the re-indexing update, then an HSET of reserver_time when one is given (the fifth command); it throws exactly when HoldThrows says and leaves the hash and sets HoldPartial describes; an absent ticket changes nothing |
| TicketIndex.HoldUpdatePreservesIndexed | backend/src/routes/tickets/index.ts:51-55 | the hold update keeps every stored id in exactly the set of its own region and status |
| TicketIndex.HoldPartial | backend/src/Redis/index.ts:79-113 | the keyspace after an update that may throw part way stays well formed, and is the full hold update when no command throws |
| TicketIndex.HoldPartialIndexed | backend/src/Redis/index.ts:100-113 | an update that throws part way keeps the index exactly when it did not throw at the SREM or SADD of a ticket whose set changes |
| TicketCrud.CreatedHash | backend/src/routes/auth/index.ts:33-50 | POST /tickets writes a complete hash under a fresh uuid, to be indexed under its region and status |
| TicketCrud.CreateFreshKeepsIndexed | backend/src/routes/auth/index.ts:38-52 | creating a ticket under a fresh uuid keeps the index |
| TicketCrud.ReadBackCreatedTicket | backend/src/routes/auth/index.ts:64-84 | GET /tickets/:id of a created ticket gives its fields back, a falsy user_id as null, and its reserver_time |
| TicketCrud.PutEffect | backend/src/routes/auth/index.ts:105-110 | PUT /tickets/:id merges the body over the stored hash, field by field, and touches no set and no other ticket |
| TicketCrud.PutStatusChangeBreaksIndex | backend/src/routes/auth/index.ts:92-115 | a PUT that changes the status leaves the id in the wrong set: the index is broken |
| TicketCrud.MigrationChanges | backend/src/routes/auth/index.ts:160-171 | /migrate sends the seat number, sets is_paid true only for a paid ticket, and never touches the owner or created_at |
| TicketCrud.MigrationSetsPaid | backend/src/routes/auth/index.ts:160-173 | after one migration update the row is paid if the hash is paid, and keeps is_paid otherwise |
| TicketCrud.MigrateOne | backend/src/routes/auth/index.ts:155-174 | once the loop has thrown, later keys change nothing |
| TicketCrud.MigrateStoppedStays | backend/src/routes/auth/index.ts:151-179 | after the loop has thrown, the rest of the keys change nothing |
| TicketCrud.MigrateKeepsOwners | backend/src/routes/auth/index.ts:151-180 | the migration never changes a ticket's owner and never unpays a ticket |
| TicketCrud.CrudRoutes.CreateTicket | backend/src/routes/auth/index.ts:33-62 | 201 with the uuid and the hash and set written; a failing HSET 500 and nothing changed; a failing SADD 500 with the hash written but not indexed |
| TicketCrud.CrudRoutes.GetTicket | backend/src/routes/auth/index.ts:64-90 | 404 for an absent ticket, 500 when the read fails, otherwise the stored ticket |
| TicketCrud.CrudRoutes.PutTicket | backend/src/routes/auth/index.ts:92-115 | 404 for an absent ticket, 500 on failure with nothing changed, otherwise 200 and the merged hash |
| TicketCrud.CrudRoutes.DeleteTicket | backend/src/routes/auth/index.ts:117-137 | 404 for an absent ticket; 200 with the hash and its set membership removed; a failing SREM 500 with the hash gone |
| TicketCrud.CrudRoutes.RegionTickets | backend/src/routes/auth/index.ts:139-149 | the ids of the region's "empty" set, each once, or 500 |
| TicketCrud.CrudRoutes.MigrateKey | backend/src/routes/auth/index.ts:155-174 | one pass of the loop body, as MigrateOne describes |
| TicketCrud.CrudRoutes.Migrate | backend/src/routes/auth/index.ts:151-180 | every stored ticket is visited once and its update committed; 200 when the loop finishes, 500 when it throws |
| Sweeper.Visit | backend/src/manage.ts:15-46 | a pass over one key keeps the hashes well formed, once stopped changes nothing, and touches the rows only when it goes on |
| Sweeper.StoppedStays | backend/src/manage.ts:44-46 | after the loop has thrown, the rest of the keys change nothing |
| Sweeper.SweepStep | backend/src/manage.ts:15-43 | the sweep over i+1 keys is the sweep over i keys followed by one visit |
| Sweeper.RefundExpiredTickets | backend/src/manage.ts:10-47 | every stored ticket is visited once, each visit as Visit describes; a failing KEYS changes nothing |
| Sweeper.VisitKey | backend/src/manage.ts:16-41 | one pass of the loop body, as Visit describes, a failure at any of its Redis commands included |
| Sweeper.ResetHash | backend/src/manage.ts:29-32 | the reset sets status "empty" and keeps every other field, the holder's user_id included |
| Sweeper.ResetUpdate | backend/src/manage.ts:29-32 | the re-indexing update with status "empty" and user_id null rewrites only that ticket's hash, to ResetHash |
| Sweeper.SweepResetsExpired | backend/src/manage.ts:13-43 | a sweep over distinct keys that does not throw resets exactly the visited reserved holds older than an hour and leaves every other hash as it was |
| Sweeper.SweepKeepsIndexed | backend/src/manage.ts:13-46 | a sweep keeps every stored id in exactly the set of its own region and status, unless some iteration throws at its SREM or SADD |
| Sweeper.ThrownAtSremBreaksIndex | backend/src/manage.ts:29-45 | an iteration whose SREM throws ends the pass with the reset hash "empty" but its id missing from the region's free seats: the index is broken |
| Sweeper.NoneExpiredAfterSweep | backend/src/manage.ts:13-43 | after a full sweep no reserved hold is older than an hour |
| Sweeper.SweepOfQuiet | backend/src/manage.ts:13-43 | with no expired hold a sweep changes nothing |
| Sweeper.SecondSweepChangesNothing | backend/src/manage.ts:10-50 | a second sweep at the same time changes nothing: the sweep is idempotent |
| Sweeper.ReservedHoldExpires | backend/src/manage.ts:21-27 | a hold made at time t is expired at now exactly when now - t exceeds 60 minutes |
| Sweeper.OnlyReservedReset | backend/src/manage.ts:21 | a ticket not "reserved" is never reset |
| Reservation.LockKeyInjective | backend/src/routes/tickets/index.ts:31-32 | distinct ticket ids lock distinct keys |
| Reservation.LockContentionAnswers500 | backend/src/routes/tickets/index.ts:70-76 | a held lock surfaces as redlock's ExecutionError, never "LockError", so it is answered 500, not 423 |
| Reservation.Settle | backend/src/routes/tickets/index.ts:35-77 | the try/finally/catch: 404 never; false only with the 400 reply; a 200 only from a normal body; a failed release appends a 500 after the body's reply |
| Reservation.TicketRoutes.Guarded | backend/src/routes/tickets/index.ts:39-65 | under the lock: a failed read throws with nothing changed; a ticket that does not allow the step is refused and nothing changes; otherwise the hold update runs and leaves PartialAfter; if it threw the answer is a throw with the row untouched, else the row is updated and 200 answered |
| Reservation.TicketRoutes.Locked | backend/src/routes/tickets/index.ts:35-77 | the lock servers end as after acquiring "lock:ticket:<id>" and, when it was taken, releasing it; a 200 means the ticket allowed the step, the hash was updated and the row is `Committed` (left unchanged when the Postgres update fails, which the route ignores); without a 200 the row is unchanged and the hashes are unchanged or left part way by a hold update that threw; false only for a ticket that did not allow the step |
| Reservation.TicketRoutes.GuardedThenRelease | backend/src/routes/tickets/index.ts:39-69 | the body followed by the release: the lock is invalidated and the servers hold the release loop's result; Guarded's effect is kept and 200 answered only for it |
| Reservation.TicketRoutes.ReserveFromId | backend/src/routes/tickets/index.ts:21-78 | missing parameters: 400 and nothing touched, the lock servers included; false only with that 400 or with a ticket that is not "empty"; 200 only for an "empty" ticket, whose hash becomes reserved by the user and whose row is `Committed` (unchanged when the Postgres update fails, which the route ignores); the lock is acquired and released around the body |
| Reservation.TicketRoutes.BuyTicket | backend/src/routes/tickets/index.ts:106-147 | 200 only for a ticket reserved by the same user, whose hash becomes paid and whose row is `Committed` (unchanged when the Postgres update fails, which the route ignores); otherwise the row is unchanged and the hashes unchanged or left part way by a thrown update; the lock is acquired and released around the body |
| Reservation.TicketRoutes.RefundTicket | backend/src/routes/tickets/index.ts:149-188 | 200 only for a ticket paid by the same user, whose hash becomes empty and whose row is `Committed` as unpaid (unchanged when the Postgres update fails, which the route ignores); otherwise the row is unchanged and the hashes unchanged or left part way by a thrown update; the lock is acquired and released around the body |
| Reservation.TicketRoutes.ReserveInRegion | backend/src/routes/tickets/index.ts:80-104 | candidates are the region's empty seats from the index, else the unpaid rows; at most two are tried, the second only after the first answered false; each false answer comes from a falsy id or user or a ticket that does not allow a reserve; after a false answer the client sees only its 400; a 200, sent or late, means the last tried ticket was "empty", its hash is reserved by the user and its row `Committed`; 404 exactly when there is no candidate |
| Reservation.TicketRoutes.Candidates | backend/src/routes/tickets/index.ts:85-90 | the candidates are the region's free seats, each once, or, when there are none, one per unpaid row; a failing fallback query leaves nothing to iterate |
| Reservation.TicketRoutes.TryInOrder | backend/src/routes/tickets/index.ts:92-100 | the scan stops at the first truthy answer, or at the second try, whose replies come after the response was sent and are not delivered; a false answer is declined and leaves both stores as they were; a delivered 200 is the first try's reserve, a late one the second try's, which reserves the ticket although the client only got a 400; 404 exactly when the list is empty, and after a single refused candidate the 404 is late |
| Reservation.ReserveThrownAtSremLeavesFreeSeat | backend/src/Redis/index.ts:100-112 | a reserve whose update throws at the SREM leaves the ticket "reserved" in its hash yet listed among its region's free seats: the index is broken |
| Reservation.StepEffect | backend/src/routes/tickets/index.ts:51-55 | a step sets the status and reserver_time, the holder only on reserve, and keeps the other fields and tickets |
| Reservation.HoldCycle | backend/src/routes/tickets/index.ts:43-173 | reserve, buy and refund in turn admit only the holder, and the refunded ticket is reservable again but still names the old holder |
| LegacyReserve.LegacyCatch | backend/src/redis/index.ts:55-63 | 423 exactly for an error named "LockError", 500 otherwise |
| LegacyReserve.LegacyLockContentionAnswers500 | backend/src/redis/index.ts:55-62 | redlock's errors are never named "LockError", so lock contention is answered 500 |
| LegacyReserve.Reserving | backend/src/redis/index.ts:43-48 | HMSET of the reservation sets status, user_id and reserver_time and keeps every other field |
| LegacyReserve.LegacyReserveEffect | backend/src/redis/index.ts:43-48 | the reservation rewrites only that ticket's hash and touches no set |
| LegacyReserve.LegacyReserveLeavesIndexStale | backend/src/redis/index.ts:36-48 | a reserved ticket is still listed in its region's "empty" set: the index is broken |
| LegacyReserve.LegacyRoute.Inner | backend/src/redis/index.ts:34-50 | under the lock: a ticket not "empty" is refused 400 with nothing changed; otherwise it is reserved and 200 answered |
| LegacyReserve.LegacyRoute.ReserveTicket | backend/src/redis/index.ts:19-64 | missing parameters: 400 and nothing touched; 423 never; a change only after acquiring the lock on an "empty" ticket, which becomes reserved by the user; the lock servers end as after the acquire and, when it was taken, the release |
| LegacyReserve.LegacySettle | backend/src/redis/index.ts:30-63 | the finally/catch: 423 never; the body's reply kept unless the body threw; a failed release appends a 500 |
| SeatBooking.SeatLockKeyInjective | backend/src/routes/tickets/reverseTicket.ts:23 | for ticket ids without a colon, equal seat lock keys mean equal ticket and seat |
| SeatBooking.ColonIdsShareLock | backend/src/routes/tickets/reverseTicket.ts:23-32 | ticket "a:b" seat "c" and ticket "a" seat "b:c" share both the lock key and the seat key |
| SeatBooking.Settle | backend/src/routes/tickets/reverseTicket.ts:26-60 | success only when the body succeeded and the release did too; a throw or failed release answers the failure message |
| SeatBooking.SeatStore.Set | backend/src/routes/tickets/reverseTicket.ts:41 | SET stores the value under the key |
| SeatBooking.SeatBooker.Inner | backend/src/routes/tickets/reverseTicket.ts:30-49 | under the lock: a booked seat is refused; a free one is set to "booked" and success answered |
| SeatBooking.SeatBooker.BookSeat | backend/src/routes/tickets/reverseTicket.ts:18-61 | success exactly for a free seat whose lock was taken, whose GET and SET did not throw and whose release reached its quorum; the seat then becomes "booked"; a booked seat is never changed; the lock servers end as after the acquire and, when it was taken, the release |
| SeatBooking.SeatBooker.BookTwice | backend/src/routes/tickets/reverseTicket.ts:18-61 | two bookings of the same seat never both succeed |

## Left out

- Network, process and connection set-up: the Redis and Postgres clients, the pool settings, dotenv, `setInterval` scheduling of the sweeper, and console logging. None of them changes what a request does to the stores.
- Concurrency: each route runs as one sequence of steps on the stores. Interleavings of Redis commands or Postgres queries between requests are not modelled. The lock itself is modelled, and `SeatBooking.SeatBooker.BookTwice` runs the demo's two bookings one after the other.
- The demo driver at the end of backend/src/routes/tickets/reverseTicket.ts and the 500 ms post-booking delay. They only call bookSeat and wait.
- Express itself: a reply is a status code and a message. The row bodies that replies carry are kept where a contract needs them. Within one reserveTicketFromId call, a second reply after the first (an error in a `finally`) is kept in the list of replies, not rejected as Express would. Across the region scan the model does follow Express: a try after a refused one throws at its first reply (`Reservation.TicketRoutes.TryInOrder`).
- multer and multipart parsing: an uploaded image is a byte-string value that is present or absent.
- jwt.verify: its verdict on a token is a parameter, as are the random lock token, the uuid, the clock, the date parser and `Date.toString()` of the buy time.
- Time: a `Date` is an integer count of milliseconds. An ISO `reserver_time` is written as the decimal count of milliseconds, which the sweeper parses back.
- Floating point: prices and capacities are integers. redlock's driftFactor is an exact real, and Math.round is floor(x + 0.5).
- Postgres constraints: foreign keys and column types are not enforced. A query that would violate them is a query that fails, given as a parameter.
- Postgres sequences: a failed INSERT consumes no sequence value in the model. Postgres would skip one.
- Postgres.Database: one id counter serves every table, where Postgres gives each table its own serial sequence. The model's ids are therefore unique across tables, and an insert into one table moves the next id of every other.
- ActivityRoutes.CreatedRegion: the regions' ids are stated as the ids after the activity's, which holds for the model's shared counter only. With Postgres the regions take the next values of the regions table's own sequence, whatever the activities' sequence stands at.
- Postgres.Database.Rollback: BEGIN, COMMIT and ROLLBACK go through `pool.query` (backend/src/database/database.ts:24), so each may run on a different pooled connection. The model treats every transaction as one connection's, atomic and undone by ROLLBACK, which holds only while no other query runs at the same time. This affects createActivity, deleteRegion, updateRegion and the ticket update.
- The Redis-to-Postgres upsert migrateTicketsToPostgres (backend/src/Redis/index.ts:138-168) writes to a table the rest of the code does not use. It is left out. The `/migrate` route is modelled instead.
- updateRedisTicket and readRedisRegion are imported by the ticket routes and the sweeper, but backend/src/redis/index.ts does not export them. They are modelled as the re-indexing updateTicket and readRegion of backend/src/Redis/index.ts. The update also stores reserver_time when one is given.
- listTicketsByRegion (backend/src/database/tickets/get.ts) is not part of this model. Its answer is a list of unpaid rows of the region, which the region scan then uses as ticket ids.
- The unreachable branches: the `!activity` 404s of the activity and region routes (see `ActivityRoutes.MissingActivityForbidden`), and updateRegion's ticket adjustment after the capacity comparison (see `RegionUpdate.CapacityDifferenceAlwaysZero`).
- createUser's 'User not created' branch: an INSERT … RETURNING that does not throw always returns its row, so the model has no such outcome.
- The GET routes, listRegions, the generic routers (routes/regions, routes/ticket_crud, routes/arenas) and the arena and activity delete helpers are outside the core. They are not part of this model.
- redlock's `using` helper with automatic extension, custom scripts, the "error" events, and the retry delay and jitter: the attempts' timing and outcomes are a schedule parameter. The EVALSHA/NOSCRIPT fallback counts as one evaluation.
- Redlock.Redlock.Execute: with retryCount -1 the loop retries forever. The model follows it for `fuel` attempts and reports Unfinished beyond that.
- Sql.JsNumber: `Number()` is modelled for a missing value, the empty string and runs of decimal digits. Any other string counts as NaN, including signed, fractional, hexadecimal and padded numerals.
- Http.LooseWeakerThanStrict: `==` is modelled for the kinds of values the routes compare: null, undefined, numbers, strings and their cross comparison. Object and boolean coercions are not modelled.
- ActivityRoutes.RegionProblem: takes a region's price and capacity as integers. When the request arrives as multipart form data they are strings, so the text "0" is truthy and gets the "must be positive" message rather than the "must have" one, and a non-numeric text compares false with 0 and passes validation. The model does not capture either case.
- RegionRoutes.PatchRejection: the two lookups of the region update and delete routes are combined into one owner object. The region's own fields are not read after that.
