/**
 * `getStats(startDate?, endDate?)`: every row of the table, or only those
 * created inside an inclusive window when both dates are given.
 */
module StatsService {
  import opened Common
  import opened MappingStore

  /** `queryOk` says whether the query succeeds; a failure is rethrown as
      `Database error`. A function of the table: retrieval changes nothing. */
  function GetStats(store: Store, start: Option<Timestamp>, end: Option<Timestamp>, queryOk: bool): (r: Result<seq<Row>>)
    reads store
    requires store.Valid()
    ensures r.Failure? <==> !queryOk
    ensures r.Failure? ==> r.error == DatabaseError
  {
    if queryOk then Success(store.Select(start, end)) else Failure(DatabaseError)
  }

  /** The rows returned are exactly the table's rows created inside the
      window, each carrying the slug, URL, count and creation time of a
      stored record, and each record is listed once; without both bounds
      that is the whole table. */
  lemma GetStatsSelects(store: Store, start: Option<Timestamp>, end: Option<Timestamp>)
    requires store.Valid()
    ensures GetStats(store, start, end, true).Success?
    ensures forall row :: row in GetStats(store, start, end, true).value <==>
              && row.slug in store.records
              && store.records[row.slug] == UrlRecord(row.originalUrl, row.visitCount, row.createdAt)
              && InWindow(row.createdAt, start, end)
    ensures !BothBounds(start, end) ==> GetStats(store, start, end, true).value == store.Rows()
    ensures DistinctSlugs(GetStats(store, start, end, true).value)
  {
    var rows := store.Rows();
    RowsAreStoredRecords(store);
    FilterMembership(rows, start, end);
    FilterKeepsDistinctSlugs(rows, start, end);
    if !BothBounds(start, end) {
      FilterWithoutBothBounds(rows, start, end);
    }
  }

  /** The table's rows are exactly its stored records, one row per slug. */
  lemma RowsAreStoredRecords(store: Store)
    requires store.Valid()
    ensures forall row :: row in store.Rows() <==>
              && row.slug in store.records
              && store.records[row.slug] == UrlRecord(row.originalUrl, row.visitCount, row.createdAt)
    ensures DistinctSlugs(store.Rows())
  {
    var rows := store.Rows();
    forall row: Row | row.slug in store.records
                 && store.records[row.slug] == UrlRecord(row.originalUrl, row.visitCount, row.createdAt)
      ensures row in rows
    {
      var i :| 0 <= i < |store.order| && store.order[i] == row.slug;
      assert rows[i] == row;
    }
  }

  /** With both bounds, a record is listed exactly when `start <= createdAt <= end`. */
  lemma GetStatsWindowIsInclusive(store: Store, s: Timestamp, e: Timestamp, slug: string)
    requires store.Valid()
    requires slug in store.records
    ensures (exists row :: row in GetStats(store, Some(s), Some(e), true).value && row.slug == slug)
              <==> s <= store.records[slug].createdAt <= e
  {
    GetStatsSelects(store, Some(s), Some(e));
    var rec := store.records[slug];
    var row := Row(slug, rec.originalUrl, rec.visitCount, rec.createdAt);
    if s <= rec.createdAt <= e {
      assert row in GetStats(store, Some(s), Some(e), true).value;
    }
  }
}
