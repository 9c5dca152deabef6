/**
 * `redirectUrl(slug)`: look the slug up, count the visit, return the URL.
 */
module RedirectService {
  import opened Common
  import opened MappingStore

  /** `selectOk` and `updateOk` say whether the SELECT and the UPDATE
      succeed. An unknown slug, like any other failure, is rethrown as
      `Database error`; every failure leaves the table as it was. On success
      the stored URL is returned and that slug's visit count, and nothing
      else, goes up by one. */
  method RedirectUrl(store: Store, slug: string, selectOk: bool, updateOk: bool) returns (r: Result<string>)
    requires store.Valid()
    modifies store
    ensures store.Valid()
    ensures store.order == old(store.order)
    ensures Extends(old(store.records), store.records)
    ensures r.Success? <==> selectOk && slug in old(store.records) && updateOk
    ensures r.Failure? ==> r.error == DatabaseError && store.records == old(store.records)
    ensures r.Success? ==>
              && r.value == old(store.records)[slug].originalUrl
              && store.records == old(store.records)[slug := old(store.records)[slug].(visitCount := old(store.records)[slug].visitCount + 1)]
  {
    if !selectOk || slug !in store.records {
      return Failure(DatabaseError);
    }
    var originalUrl := store.records[slug].originalUrl;
    if !updateOk {
      return Failure(DatabaseError);
    }
    store.IncrementVisits(slug);
    r := Success(originalUrl);
  }
}
