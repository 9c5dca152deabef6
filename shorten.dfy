/**
 * `shortenUrl(server, url)`: normalise the URL, reuse the slug that already
 * holds it, or obtain a fresh slug from the slug service and insert it.
 */
module ShortenService {
  import opened Common
  import opened JsStrings
  import opened MappingStore
  import SlugService
  import SlugGenerator

  /** ASCII lower-casing, the only case folding that matters for the regex below. */
  function LowerAscii(c: char): char
  {
    if 'A' <= c <= 'Z' then (c as int + 32) as char else c
  }

  /** The test `/^https?:\/\//i`, read character by character: `h`, `t`,
      `t`, `p` in either case, an optional `s` in either case, then `://`. */
  predicate MatchesHttpScheme(s: string)
  {
    && |s| >= 7
    && LowerAscii(s[0]) == 'h' && LowerAscii(s[1]) == 't' && LowerAscii(s[2]) == 't' && LowerAscii(s[3]) == 'p'
    && (|| s[4..7] == "://"
        || (|s| >= 8 && LowerAscii(s[4]) == 's' && s[5..8] == "://"))
  }

  /** `s` with its ASCII letters lower-cased. */
  function Lowered(s: string): (r: string)
    ensures |r| == |s|
  {
    if s == [] then [] else [LowerAscii(s[0])] + Lowered(s[1..])
  }

  lemma {:induction false} LoweredAt(s: string, i: nat)
    requires i < |s|
    ensures Lowered(s)[i] == LowerAscii(s[i])
  {
    if i > 0 {
      LoweredAt(s[1..], i - 1);
    }
  }

  /** `s` starts with `http://` or `https://`, ignoring letter case. */
  predicate HasHttpScheme(s: string)
  {
    || (|s| >= 7 && Lowered(s[..7]) == "http://")
    || (|s| >= 8 && Lowered(s[..8]) == "https://")
  }

  /** The regex test accepts exactly the strings that start with `http://`
      or `https://` in any letter case. */
  lemma MatchesHttpSchemeIffPrefix(s: string)
    ensures MatchesHttpScheme(s) <==> HasHttpScheme(s)
  {
    if |s| >= 7 {
      var p := s[..7];
      LoweredAt(p, 0); LoweredAt(p, 1); LoweredAt(p, 2); LoweredAt(p, 3);
      LoweredAt(p, 4); LoweredAt(p, 5); LoweredAt(p, 6);
      if Lowered(p) == "http://" {
        assert s[4..7] == "://";
      }
      if s[4..7] == "://" && LowerAscii(s[0]) == 'h' && LowerAscii(s[1]) == 't'
         && LowerAscii(s[2]) == 't' && LowerAscii(s[3]) == 'p' {
        assert Lowered(p) == "http://";
      }
    }
    if |s| >= 8 {
      var p := s[..8];
      LoweredAt(p, 0); LoweredAt(p, 1); LoweredAt(p, 2); LoweredAt(p, 3);
      LoweredAt(p, 4); LoweredAt(p, 5); LoweredAt(p, 6); LoweredAt(p, 7);
      if Lowered(p) == "https://" {
        assert s[5..8] == "://";
      }
      if s[5..8] == "://" && LowerAscii(s[0]) == 'h' && LowerAscii(s[1]) == 't'
         && LowerAscii(s[2]) == 't' && LowerAscii(s[3]) == 'p' && LowerAscii(s[4]) == 's' {
        assert Lowered(p) == "https://";
      }
    }
  }

  /** Lines 16-19 of the service: trim, then prepend `http://` unless the
      trimmed string already starts with `http://` or `https://`. */
  function Normalize(url: string): string
  {
    var t := Trim(url);
    if MatchesHttpScheme(t) then t else "http://" + t
  }

  /** A normalised URL always carries an `http` or `https` scheme; it is the
      trimmed input when that already starts with one (in any letter case)
      and the trimmed input behind exactly `http://` otherwise. */
  lemma NormalizeSpec(url: string)
    ensures HasHttpScheme(Normalize(url))
    ensures HasHttpScheme(Trim(url)) ==> Normalize(url) == Trim(url)
    ensures !HasHttpScheme(Trim(url)) ==> Normalize(url) == "http://" + Trim(url)
  {
    var t := Trim(url);
    MatchesHttpSchemeIffPrefix(t);
    if !MatchesHttpScheme(t) {
      var n := "http://" + t;
      assert n[..7] == "http://";
      assert Lowered("http://") == "http://";
    }
  }

  /** Normalising a normalised URL changes nothing. */
  lemma NormalizeIdempotent(url: string)
    ensures Normalize(Normalize(url)) == Normalize(url)
  {
    var t := Trim(url);
    TrimCutsOnlyWhitespace(url);
    var n := Normalize(url);
    assert IsTrimmed(n) by {
      if n != t {
        assert n == "http://" + t;
        assert n[|n| - 1] == if t == [] then '/' else t[|t| - 1];
      }
    }
    TrimOfTrimmed(n);
    NormalizeSpec(url);
    MatchesHttpSchemeIffPrefix(n);
  }

  /** `shortenUrl`. The oracles stand for what the model does not run:
      `lookupOk` and `insertOk` say whether the SELECT and the INSERT
      succeed, `slugServiceUp` whether the HTTP call reaches the slug
      service, `attempts` are the slug service's random rounds, `now` the
      database clock. Every failure is rethrown as `Database error` and
      leaves the table as it was. */
  method ShortenUrl(store: Store, server: string, url: string,
                    lookupOk: bool, slugServiceUp: bool, attempts: seq<SlugService.Attempt>,
                    insertOk: bool, now: Timestamp)
    returns (r: Result<string>)
    requires store.Valid()
    requires store.FindByUrl(Normalize(url)).None? ==> SlugService.EventuallyStops(attempts, store.records.Keys)
    modifies store
    ensures store.Valid()
    ensures Extends(old(store.records), store.records)
    ensures r.Failure? ==> r.error == DatabaseError
    ensures r.Failure? ==> store.records == old(store.records) && store.order == old(store.order)
    // the URL is already stored: its slug is reused and nothing changes
    ensures lookupOk && old(store.FindByUrl(Normalize(url))).Some? ==>
              && r == Success(server + "/" + old(store.FindByUrl(Normalize(url))).value)
              && store.records == old(store.records) && store.order == old(store.order)
    // a new URL: exactly one record is added, under the slug service's answer
    ensures r.Success? && old(store.FindByUrl(Normalize(url))).None? ==>
              exists slug :: SlugService.FirstFreeCandidate(attempts, old(store.records.Keys), slug)
                && |slug| == SlugService.SlugLength
                && (forall i :: 0 <= i < |slug| ==> SlugGenerator.IsSlugChar(slug[i]))
                && r.value == server + "/" + slug
                && store.records == old(store.records)[slug := UrlRecord(Normalize(url), 0, now)]
                && store.order == old(store.order) + [slug]
    // a new URL is stored exactly when the lookup, the call to the slug
    // service, the slug service's own SELECTs and the insert all succeed
    ensures old(store.FindByUrl(Normalize(url))).None? ==>
              (r.Success? <==> lookupOk && slugServiceUp && insertOk
                               && !SlugService.SelectThrowsFirst(attempts, old(store.records.Keys)))
    // a failed lookup is never a success
    ensures r.Success? ==> lookupOk
    // afterwards the returned slug holds the normalised URL
    ensures r.Success? ==>
              store.FindByUrl(Normalize(url)).Some? && r.value == server + "/" + store.FindByUrl(Normalize(url)).value
  {
    var formattedUrl := Normalize(url);
    if !lookupOk {
      return Failure(DatabaseError);
    }
    var existing := store.FindByUrl(formattedUrl);
    if existing.Some? {
      return Success(server + "/" + existing.value);
    }
    r := StoreNewUrl(store, server, formattedUrl, slugServiceUp, attempts, insertOk, now);
  }

  /** The branch of `shortenUrl` for a URL not yet stored: ask the slug
      service for a free slug, then insert the record. A failure of either
      is rethrown as `Database error` and leaves the table as it was. */
  method StoreNewUrl(store: Store, server: string, formattedUrl: string,
                     slugServiceUp: bool, attempts: seq<SlugService.Attempt>,
                     insertOk: bool, now: Timestamp)
    returns (r: Result<string>)
    requires store.Valid()
    requires store.FindByUrl(formattedUrl).None?
    requires SlugService.EventuallyStops(attempts, store.records.Keys)
    modifies store
    ensures store.Valid()
    ensures Extends(old(store.records), store.records)
    ensures r.Failure? ==> r.error == DatabaseError
    ensures r.Failure? ==> store.records == old(store.records) && store.order == old(store.order)
    ensures r.Success? ==>
              exists slug :: SlugService.FirstFreeCandidate(attempts, old(store.records.Keys), slug)
                && |slug| == SlugService.SlugLength
                && (forall i :: 0 <= i < |slug| ==> SlugGenerator.IsSlugChar(slug[i]))
                && r.value == server + "/" + slug
                && store.records == old(store.records)[slug := UrlRecord(formattedUrl, 0, now)]
                && store.order == old(store.order) + [slug]
                && store.FindByUrl(formattedUrl) == Some(slug)
    ensures r.Success? <==>
              slugServiceUp && insertOk && !SlugService.SelectThrowsFirst(attempts, old(store.records.Keys))
  {
    if !slugServiceUp {
      return Failure(DatabaseError);
    }
    var keys := store.records.Keys;
    var slugResponse := SlugService.GenerateUniqueSlug(keys, attempts);
    if slugResponse.Failure? || !insertOk {
      return Failure(DatabaseError);
    }
    var slug := slugResponse.value;
    store.Insert(slug, formattedUrl, now);
    assert store.records[slug].originalUrl == formattedUrl;
    assert store.FindByUrl(formattedUrl) == Some(slug);
    r := Success(server + "/" + slug);
    assert SlugService.FirstFreeCandidate(attempts, old(store.records.Keys), slug);
  }

  /** Shortening the same input twice gives the same short URL both times
      (provided the second lookup succeeds), and the second call adds no
      record: at most one record is ever added for a URL. */
  method ShortenTwice(store: Store, server: string, url: string,
                      slugServiceUp: bool, attempts: seq<SlugService.Attempt>, insertOk: bool,
                      now: Timestamp, later: Timestamp)
    returns (first: Result<string>, second: Result<string>)
    requires store.Valid()
    requires store.FindByUrl(Normalize(url)).None? ==> SlugService.EventuallyStops(attempts, store.records.Keys)
    modifies store
    ensures store.Valid()
    ensures first.Success? ==> second == first
    ensures |store.order| <= |old(store.order)| + 1
    ensures Extends(old(store.records), store.records)
    ensures forall s :: s in store.records ==> s in old(store.records) || store.records[s].originalUrl == Normalize(url)
    ensures old(store.FindByUrl(Normalize(url))).Some? ==> store.records == old(store.records)
  {
    first := ShortenUrl(store, server, url, true, slugServiceUp, attempts, insertOk, now);
    ghost var mid := store.records;
    second := ShortenUrl(store, server, url, true, slugServiceUp, attempts, insertOk, later);
    ExtendsTransitive(old(store.records), mid, store.records);
  }
}
