/**
 * The `urls` table the three services and the slug service share, as one
 * mapping store: slug -> record. `order` is the order a full scan returns
 * the rows in (insertion order; the queries have no ORDER BY).
 */
module MappingStore {
  import opened Common

  /** Creation times are abstract ordered values. */
  type Timestamp = int

  datatype UrlRecord = UrlRecord(originalUrl: string, visitCount: nat, createdAt: Timestamp)

  /** A row of `SELECT slug, original_url, visit_count, created_at FROM urls`. */
  datatype Row = Row(slug: string, originalUrl: string, visitCount: nat, createdAt: Timestamp)

  predicate Distinct(s: seq<string>)
  {
    forall i, j :: 0 <= i < j < |s| ==> s[i] != s[j]
  }

  /** No two slugs map to the same URL. */
  predicate UrlsUnique(m: map<string, UrlRecord>)
  {
    forall a, b :: a in m && b in m && a != b ==> m[a].originalUrl != m[b].originalUrl
  }

  /** `after` is a later state of the table than `before`: no record is
      removed, no URL or creation time changes, no visit count goes down. */
  ghost predicate Extends(before: map<string, UrlRecord>, after: map<string, UrlRecord>)
  {
    forall s :: s in before ==>
      && s in after
      && after[s].originalUrl == before[s].originalUrl
      && after[s].createdAt == before[s].createdAt
      && after[s].visitCount >= before[s].visitCount
  }

  lemma ExtendsTransitive(a: map<string, UrlRecord>, b: map<string, UrlRecord>, c: map<string, UrlRecord>)
    requires Extends(a, b) && Extends(b, c)
    ensures Extends(a, c)
  {
  }

  /** The row of each slug of `order`, in that order. */
  function RowsOf(order: seq<string>, records: map<string, UrlRecord>): seq<Row>
    requires forall s :: s in order ==> s in records
  {
    seq(|order|, i requires 0 <= i < |order| =>
      var rec := records[order[i]]; Row(order[i], rec.originalUrl, rec.visitCount, rec.createdAt))
  }

  /** The first slug in scan order whose record holds `url`. */
  function ScanForUrl(order: seq<string>, records: map<string, UrlRecord>, url: string): (r: Option<string>)
    requires forall s :: s in order ==> s in records
    ensures r.Some? ==> r.value in order && records[r.value].originalUrl == url
    ensures r.None? <==> forall s :: s in order ==> records[s].originalUrl != url
  {
    if order == [] then None
    else if records[order[0]].originalUrl == url then Some(order[0])
    else ScanForUrl(order[1..], records, url)
  }

  /** Both bounds of a date filter are present (a missing or empty query
      parameter is `None`). */
  predicate BothBounds(start: Option<Timestamp>, end: Option<Timestamp>)
  {
    start.Some? && end.Some?
  }

  /** `created_at BETWEEN start AND end` when both bounds are given, no
      condition otherwise. */
  predicate InWindow(t: Timestamp, start: Option<Timestamp>, end: Option<Timestamp>)
  {
    BothBounds(start, end) ==> start.value <= t <= end.value
  }

  /** The rows of `rows` inside the window, in their original order. */
  function Filter(rows: seq<Row>, start: Option<Timestamp>, end: Option<Timestamp>): seq<Row>
  {
    if rows == [] then []
    else (if InWindow(rows[0].createdAt, start, end) then [rows[0]] else [])
         + Filter(rows[1..], start, end)
  }

  /** A row is selected exactly when it is a row of the table inside the window. */
  lemma {:induction false} FilterMembership(rows: seq<Row>, start: Option<Timestamp>, end: Option<Timestamp>)
    ensures forall r :: r in Filter(rows, start, end) <==> r in rows && InWindow(r.createdAt, start, end)
  {
    if rows != [] {
      FilterMembership(rows[1..], start, end);
      assert rows == [rows[0]] + rows[1..];
    }
  }

  /** Filtering keeps order: the selection of a concatenation is the
      concatenation of the selections. */
  lemma {:induction false} FilterAppend(a: seq<Row>, b: seq<Row>, start: Option<Timestamp>, end: Option<Timestamp>)
    ensures Filter(a + b, start, end) == Filter(a, start, end) + Filter(b, start, end)
  {
    if a != [] {
      assert (a + b)[1..] == a[1..] + b;
      FilterAppend(a[1..], b, start, end);
    } else {
      assert a + b == b;
    }
  }

  /** Without both bounds nothing is filtered out. */
  lemma {:induction false} FilterWithoutBothBounds(rows: seq<Row>, start: Option<Timestamp>, end: Option<Timestamp>)
    requires !BothBounds(start, end)
    ensures Filter(rows, start, end) == rows
  {
    if rows != [] {
      FilterWithoutBothBounds(rows[1..], start, end);
      assert rows == [rows[0]] + rows[1..];
    }
  }

  /** No two rows carry the same slug: each record is listed at most once. */
  predicate DistinctSlugs(rows: seq<Row>)
  {
    forall i, j :: 0 <= i < j < |rows| ==> rows[i].slug != rows[j].slug
  }

  /** Filtering never lists a record twice. */
  lemma {:induction false} FilterKeepsDistinctSlugs(rows: seq<Row>, start: Option<Timestamp>, end: Option<Timestamp>)
    requires DistinctSlugs(rows)
    ensures DistinctSlugs(Filter(rows, start, end))
  {
    if rows != [] {
      var tail := rows[1..];
      FilterKeepsDistinctSlugs(tail, start, end);
      FilterMembership(tail, start, end);
      var rest := Filter(tail, start, end);
      forall r | r in rest ensures r.slug != rows[0].slug {
        var k :| 0 <= k < |tail| && tail[k] == r;
        assert rows[k + 1] == r;
      }
    }
  }

  class Store {
    var records: map<string, UrlRecord>
    var order: seq<string>

    /** `order` lists every slug once, and one slug per URL. */
    ghost predicate Valid()
      reads this
    {
      && Distinct(order)
      && (forall s :: s in records <==> s in order)
      && UrlsUnique(records)
    }

    constructor ()
      ensures Valid() && records == map[] && order == []
    {
      records := map[];
      order := [];
    }

    /** The table's rows in scan order. */
    function Rows(): (rows: seq<Row>)
      reads this
      requires Valid()
      ensures |rows| == |order|
      ensures forall i :: 0 <= i < |rows| ==>
                rows[i].slug == order[i]
                && records[order[i]] == UrlRecord(rows[i].originalUrl, rows[i].visitCount, rows[i].createdAt)
    {
      RowsOf(order, records)
    }

    /** `SELECT slug FROM urls WHERE original_url = $1`: the slug holding
        `url`, if any. */
    function FindByUrl(url: string): (r: Option<string>)
      reads this
      requires Valid()
      ensures r.Some? ==> r.value in records && records[r.value].originalUrl == url
      ensures r.None? <==> forall s :: s in records ==> records[s].originalUrl != url
    {
      ScanForUrl(order, records, url)
    }

    /** `SELECT ... FROM urls [WHERE created_at BETWEEN $1 AND $2]`. */
    function Select(start: Option<Timestamp>, end: Option<Timestamp>): seq<Row>
      reads this
      requires Valid()
    {
      Filter(Rows(), start, end)
    }

    /** `INSERT INTO urls (slug, original_url) VALUES ($1, $2)`: the new
        record starts with no visits and is created at `now`. The slug is
        fresh and the URL not yet stored. */
    method Insert(slug: string, url: string, now: Timestamp)
      requires Valid()
      requires slug !in records
      requires FindByUrl(url).None?
      modifies this
      ensures Valid()
      ensures records == old(records)[slug := UrlRecord(url, 0, now)]
      ensures order == old(order) + [slug]
      ensures Extends(old(records), records)
    {
      records := records[slug := UrlRecord(url, 0, now)];
      order := order + [slug];
    }

    /** `UPDATE urls SET visit_count = visit_count + 1 WHERE slug = $1`:
        adds one visit to that slug's record, and changes nothing when no
        record has that slug. */
    method IncrementVisits(slug: string)
      requires Valid()
      modifies this
      ensures Valid()
      ensures order == old(order)
      ensures slug in old(records) ==>
                records == old(records)[slug := old(records)[slug].(visitCount := old(records)[slug].visitCount + 1)]
      ensures slug !in old(records) ==> records == old(records)
      ensures Extends(old(records), records)
    {
      if slug in records {
        records := records[slug := records[slug].(visitCount := records[slug].visitCount + 1)];
      }
    }
  }
}
