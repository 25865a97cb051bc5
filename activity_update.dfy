/** updateActivity: a SET list assembled from the supplied properties in a
    fixed order, run as one UPDATE of the activity with the given id. Text
    properties are written only when non-empty, images whenever supplied
    (null clears one), and the archive flag only when true. */
module ActivityUpdate {
  import opened Util
  import opened Sql
  import opened Postgres

  /** The update's input. None is a property left undefined; an image is
      Some(None) for an explicit null and Some(Some(bytes)) for a buffer. */
  datatype ActivityChanges = ActivityChanges(
    activity_id: Id,
    on_sale_date: Option<string>, start_time: Option<string>, end_time: Option<string>,
    title: Option<string>, content: Option<string>,
    cover_img: Option<Option<seq<int>>>, price_level_img: Option<Option<seq<int>>>,
    arena_id: Option<string>, is_archived: Option<bool>)

  datatype ActivityOutcome = UpdatedActivity(row: Row) | ActivityError(error: string)

  const NoFields := "No fields to update"
  const ActivityNotFound := "Activity not found"
  const ActivityUpdateFailed := "Failed to update activity"

  /** A string property is truthy when it is supplied and not empty. */
  predicate Given(s: Option<string>)
  {
    s.Some? && s.value != ""
  }

  function TextOf(s: Option<string>): Value
  {
    if s.Some? then Text(s.value) else Null
  }

  /** The stored form of an image: a buffer, or null. */
  function ImageOf(img: Option<Option<seq<int>>>): Value
  {
    if img.Some? && img.value.Some? then Blob(img.value.value) else Null
  }

  /** The properties the builder tests, in its order: the dates, title,
      content and arena when truthy, the images whenever supplied, the
      archive flag only when true. */
  function Candidates(c: ActivityChanges): (cs: seq<Candidate>)
    ensures |cs| == 9
  {
    [Candidate(Given(c.on_sale_date), "on_sale_date", TextOf(c.on_sale_date)),
     Candidate(Given(c.start_time), "start_time", TextOf(c.start_time)),
     Candidate(Given(c.end_time), "end_time", TextOf(c.end_time)),
     Candidate(Given(c.title), "title", TextOf(c.title)),
     Candidate(Given(c.content), "content", TextOf(c.content)),
     Candidate(c.cover_img.Some?, "cover_img", ImageOf(c.cover_img)),
     Candidate(c.price_level_img.Some?, "price_level_img", ImageOf(c.price_level_img)),
     Candidate(Given(c.arena_id), "arena_id", TextOf(c.arena_id)),
     Candidate(c.is_archived == Some(true), "is_archived", Bool(true))]
  }

  /** The assignments the update makes, in order. */
  function Included(c: ActivityChanges): seq<(string, Value)>
  {
    Pushed(Candidates(c))
  }

  /** The value the change gives a column, if it gives one. */
  function Supplied(c: ActivityChanges, column: string): Option<Value>
  {
    if column == "on_sale_date" then (if Given(c.on_sale_date) then Some(Text(c.on_sale_date.value)) else None)
    else if column == "start_time" then (if Given(c.start_time) then Some(Text(c.start_time.value)) else None)
    else if column == "end_time" then (if Given(c.end_time) then Some(Text(c.end_time.value)) else None)
    else if column == "title" then (if Given(c.title) then Some(Text(c.title.value)) else None)
    else if column == "content" then (if Given(c.content) then Some(Text(c.content.value)) else None)
    else if column == "cover_img" then (if c.cover_img.Some? then Some(ImageOf(c.cover_img)) else None)
    else if column == "price_level_img" then (if c.price_level_img.Some? then Some(ImageOf(c.price_level_img)) else None)
    else if column == "arena_id" then (if Given(c.arena_id) then Some(Text(c.arena_id.value)) else None)
    else if column == "is_archived" then (if c.is_archived == Some(true) then Some(Bool(true)) else None)
    else None
  }

  /** The builder tests nine distinct columns. */
  lemma CandidateColumns(c: ActivityChanges)
    ensures DistinctColumns(Candidates(c))
  {
  }

  /** Each column is assigned last exactly the value the change supplies. */
  lemma IncludedSupplies(c: ActivityChanges, column: string)
    ensures LastValue(Included(c), column) == Supplied(c, column)
  {
    if column in {"on_sale_date", "start_time", "end_time", "title", "content"} {
      TextSupplied(c, column);
    } else if column in {"cover_img", "price_level_img", "arena_id", "is_archived"} {
      OtherSupplied(c, column);
    } else {
      var cs := Candidates(c);
      forall k | 0 <= k < 9 ensures cs[k].column != column {
        assert k == 0 || k == 1 || k == 2 || k == 3 || k == 4 || k == 5 || k == 6 || k == 7 || k == 8;
      }
      PushedAbsent(cs, column);
    }
  }

  /** The text columns take the supplied non-empty strings. */
  lemma TextSupplied(c: ActivityChanges, column: string)
    requires column in {"on_sale_date", "start_time", "end_time", "title", "content"}
    ensures LastValue(Included(c), column) == Supplied(c, column)
  {
    var cs := Candidates(c);
    CandidateColumns(c);
    if column == "on_sale_date" {
      PushedColumn(cs, 0);
    } else if column == "start_time" {
      PushedColumn(cs, 1);
    } else if column == "end_time" {
      PushedColumn(cs, 2);
    } else if column == "title" {
      PushedColumn(cs, 3);
    } else {
      PushedColumn(cs, 4);
    }
  }

  /** The images, the arena and the archive flag take what is supplied. */
  lemma OtherSupplied(c: ActivityChanges, column: string)
    requires column in {"cover_img", "price_level_img", "arena_id", "is_archived"}
    ensures LastValue(Included(c), column) == Supplied(c, column)
  {
    var cs := Candidates(c);
    CandidateColumns(c);
    if column == "cover_img" {
      PushedColumn(cs, 5);
    } else if column == "price_level_img" {
      PushedColumn(cs, 6);
    } else if column == "arena_id" {
      PushedColumn(cs, 7);
    } else {
      PushedColumn(cs, 8);
    }
  }

  /** There is nothing to update exactly when no property is usable; the
      values are text, images and true, never a non-number. */
  lemma IncludedEmpty(c: ActivityChanges)
    ensures Included(c) == [] <==>
              && !Given(c.on_sale_date) && !Given(c.start_time) && !Given(c.end_time)
              && !Given(c.title) && !Given(c.content)
              && c.cover_img.None? && c.price_level_img.None?
              && !Given(c.arena_id) && c.is_archived != Some(true)
    ensures !HasNotANumber(Included(c))
  {
    var cs := Candidates(c);
    PushedEmpty(cs);
    if !cs[0].applies && !cs[1].applies && !cs[2].applies && !cs[3].applies && !cs[4].applies && !cs[5].applies && !cs[6].applies && !cs[7].applies && !cs[8].applies {
      forall k | 0 <= k < 9 ensures !cs[k].applies {
        assert k == 0 || k == 1 || k == 2 || k == 3 || k == 4 || k == 5 || k == 6 || k == 7 || k == 8;
      }
    }
    PushedNoNotANumber(Candidates(c));
  }

  /** The row a successful update leaves. */
  function Applied(row: Row, c: ActivityChanges): Row
  {
    Override(row, Included(c))
  }

  /** A supplied column takes the supplied value; any other column keeps
      what it had. */
  lemma AppliedColumns(row: Row, c: ActivityChanges, column: string)
    ensures Supplied(c, column).Some? ==>
              column in Applied(row, c) && Applied(row, c)[column] == Supplied(c, column).value
    ensures Supplied(c, column).None? ==>
              (column in Applied(row, c) <==> column in row) && (column in row ==> Applied(row, c)[column] == row[column])
  {
    IncludedSupplies(c, column);
    OverrideAt(row, Included(c), column);
  }

  /** Asking to un-archive writes nothing: is_archived keeps its stored
      value, so an archived activity stays archived. */
  lemma UnarchiveNeverWritten(row: Row, c: ActivityChanges)
    requires c.is_archived != Some(true)
    ensures ("is_archived" in Applied(row, c) <==> "is_archived" in row)
    ensures "is_archived" in row ==> Applied(row, c)["is_archived"] == row["is_archived"]
  {
    AppliedColumns(row, c, "is_archived");
  }

  /** An empty string never overwrites a stored text property. */
  lemma EmptyTextNeverWritten(row: Row, c: ActivityChanges)
    requires c.title == Some("")
    ensures ("title" in Applied(row, c) <==> "title" in row)
    ensures "title" in row ==> Applied(row, c)["title"] == row["title"]
  {
    AppliedColumns(row, c, "title");
  }

  /** updateActivity. fault makes the UPDATE statement fail. */
  method UpdateActivity(db: Database, c: ActivityChanges, fault: bool) returns (r: ActivityOutcome)
    requires db.Valid()
    modifies db
    ensures db.Valid() && db.nextId == old(db.nextId)
    ensures Included(c) == [] ==> r == ActivityError(NoFields) && db.tables == old(db.tables)
    ensures Included(c) != [] && fault ==> r == ActivityError(ActivityUpdateFailed) && db.tables == old(db.tables)
    ensures Included(c) != [] && !fault && c.activity_id !in old(db.Rows(Activities)) ==>
              r == ActivityError(ActivityNotFound) && db.tables == old(db.tables)
    ensures Included(c) != [] && !fault && c.activity_id in old(db.Rows(Activities)) ==>
              && r == UpdatedActivity(Applied(old(db.Rows(Activities))[c.activity_id], c))
              && db.tables == old(db.tables)[Activities := old(db.Rows(Activities))[c.activity_id := r.row]]
  {
    var fields, values := BuildSet(Candidates(c));
    if |fields| == 0 {
      return ActivityError(NoFields);
    }
    IncludedEmpty(c);
    var result := db.UpdateRow(Activities, fields, values, c.activity_id, fault);
    if result.None? {
      return ActivityError(ActivityUpdateFailed);
    }
    if result.value.None? {
      return ActivityError(ActivityNotFound);
    }
    r := UpdatedActivity(result.value.value);
  }
}
