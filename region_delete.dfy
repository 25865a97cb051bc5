/** Deleting a region: the single-statement deleteRegion, and
    deleteRegionAndTickets, which first deletes the region's tickets and
    then the region in one transaction, rolling the ticket deletion back
    when the region is missing. */
module RegionDelete {
  import opened Util
  import opened Sql
  import opened Postgres

  datatype RegionDeleted = RegionDeleted(message: string, region: Row) | DeleteFailed(error: string)

  const RegionDeletedOk := "Region deleted successfully"
  const RegionNotFound := "Region not found"
  const RegionDeleteFailed := "Failed to delete region"
  const RegionAndTicketsDeleted := "Region and associated tickets deleted successfully"
  const RegionAndTicketsFailed := "Failed to delete region and tickets"

  /** Whether a ticket row belongs to the region: "region_id = $1". */
  predicate OfRegion(region: Id, row: Row)
  {
    "region_id" in row && row["region_id"] == Text(region)
  }

  /** The tickets left once a region's tickets are deleted: those of every
      other region, unchanged, and none of this one. */
  function OtherRegions(rows: Rows, region: Id): (r: Rows)
    ensures r.Keys <= rows.Keys
    ensures forall id :: id in rows ==> (id in r <==> !OfRegion(region, rows[id]))
    ensures forall id :: id in r ==> r[id] == rows[id] && !OfRegion(region, r[id])
  {
    map id | id in rows && !OfRegion(region, rows[id]) :: rows[id]
  }

  /** Selecting by id reaches one row when the id is present and none
      otherwise. */
  lemma ByIdCount(rows: Rows, key: Id)
    ensures |set id | id in rows && id == key| == if key in rows then 1 else 0
  {
    if key in rows {
      assert (set id | id in rows && id == key) == {key};
    } else {
      assert (set id | id in rows && id == key) == {};
    }
  }

  /** deleteRegion: DELETE ... WHERE _id = $1 RETURNING *. fault makes the
      statement fail. */
  method DeleteRegion(db: Database, region: Id, fault: bool) returns (r: RegionDeleted)
    requires db.Valid()
    modifies db
    ensures db.Valid() && db.nextId == old(db.nextId)
    ensures fault ==> r == DeleteFailed(RegionDeleteFailed) && db.tables == old(db.tables)
    ensures !fault && region !in old(db.Rows(Regions)) ==> r == DeleteFailed(RegionNotFound) && db.tables == old(db.tables)
    ensures !fault && region in old(db.Rows(Regions)) ==>
              && r == RegionDeleted(RegionDeletedOk, old(db.Rows(Regions))[region])
              && db.tables == old(db.tables)[Regions := old(db.Rows(Regions)) - {region}]
  {
    var rows := db.Rows(Regions);
    var selected := (id: Id, row: Row) => id == region;
    var count := db.Delete(Regions, selected, fault);
    if count.None? {
      return DeleteFailed(RegionDeleteFailed);
    }
    assert (set id | id in rows && selected(id, rows[id])) == set id | id in rows && id == region;
    ByIdCount(rows, region);
    assert (map id | id in rows && !selected(id, rows[id]) :: rows[id]) == rows - {region};
    if count.value == 0 {
      assert rows - {region} == rows;
      return DeleteFailed(RegionNotFound);
    }
    r := RegionDeleted(RegionDeletedOk, rows[region]);
  }

  /** deleteRegionAndTickets. ticketsFault makes the ticket deletion fail,
      regionFault the region's. */
  method DeleteRegionAndTickets(db: Database, region: Id, ticketsFault: bool, regionFault: bool) returns (r: RegionDeleted)
    requires db.Valid()
    modifies db
    ensures db.Valid() && db.nextId == old(db.nextId)
    ensures r.RegionDeleted? <==> !ticketsFault && !regionFault && region in old(db.Rows(Regions))
    ensures r.DeleteFailed? ==> db.tables == old(db.tables)
    ensures ticketsFault ==> r == DeleteFailed(RegionAndTicketsFailed)
    ensures !ticketsFault && regionFault ==> r == DeleteFailed(RegionDeleteFailed)
    ensures !ticketsFault && !regionFault && region !in old(db.Rows(Regions)) ==> r == DeleteFailed(RegionNotFound)
    ensures r.RegionDeleted? ==>
              && r == RegionDeleted(RegionAndTicketsDeleted, old(db.Rows(Regions))[region])
              && db.tables == old(db.tables)[Tickets := OtherRegions(old(db.Rows(Tickets)), region)]
                                            [Regions := old(db.Rows(Regions)) - {region}]
  {
    var saved := db.tables;
    var tickets := db.Rows(Tickets);
    var ofRegion := (id: Id, row: Row) => OfRegion(region, row);
    var count := db.Delete(Tickets, ofRegion, ticketsFault);
    if count.None? {
      db.Rollback(saved);
      return DeleteFailed(RegionAndTicketsFailed);
    }
    assert (map id | id in tickets && !ofRegion(id, tickets[id]) :: tickets[id]) == OtherRegions(tickets, region);
    var deleted := DeleteRegion(db, region, regionFault);
    if deleted.DeleteFailed? {
      db.Rollback(saved);
      return deleted;
    }
    r := RegionDeleted(RegionAndTicketsDeleted, deleted.region);
  }
}
