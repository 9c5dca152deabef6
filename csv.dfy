/**
 * `downloadCsv(res, startDate?, endDate?)`: the stats selection as a CSV
 * file with a fixed header, one line per selected record, quotes in URLs
 * doubled and creation times rendered as ISO-8601 text.
 */
module DownloadCsvService {
  import opened Common
  import opened MappingStore

  // ---------------------------------------------------------------------
  // Quote doubling: `.replace(/"/g, '""')`

  function CountQuotes(s: string): nat
  {
    if s == [] then 0 else (if s[0] == '"' then 1 else 0) + CountQuotes(s[1..])
  }

  /** Every `"` of `s` becomes `""`; every other character is kept. The
      result is longer by the number of quotes. */
  function EscapeQuotes(s: string): (r: string)
    ensures |r| == |s| + CountQuotes(s)
  {
    if s == [] then []
    else (if s[0] == '"' then "\"\"" else [s[0]]) + EscapeQuotes(s[1..])
  }

  /** Undoes the doubling: each `""` becomes `"`. */
  function UnescapeQuotes(s: string): string
  {
    if s == [] then []
    else if |s| >= 2 && s[0] == '"' && s[1] == '"' then "\"" + UnescapeQuotes(s[2..])
    else [s[0]] + UnescapeQuotes(s[1..])
  }

  /** Doubling the quotes loses nothing: undoing it gives back the URL. */
  lemma {:induction false} UnescapeEscape(s: string)
    ensures UnescapeQuotes(EscapeQuotes(s)) == s
  {
    if s != [] {
      UnescapeEscape(s[1..]);
      var e := EscapeQuotes(s);
      if s[0] == '"' {
        assert e == "\"\"" + EscapeQuotes(s[1..]);
        assert e[2..] == EscapeQuotes(s[1..]);
      } else {
        assert e == [s[0]] + EscapeQuotes(s[1..]);
        assert e[1..] == EscapeQuotes(s[1..]);
      }
    }
  }

  /** A URL without quotes passes through unchanged. */
  lemma {:induction false} EscapeWithoutQuotes(s: string)
    requires forall i :: 0 <= i < |s| ==> s[i] != '"'
    ensures EscapeQuotes(s) == s
  {
    if s != [] {
      EscapeWithoutQuotes(s[1..]);
      assert s == [s[0]] + s[1..];
    }
  }

  // ---------------------------------------------------------------------
  // Decimal rendering of a visit count

  function DigitChar(d: nat): char
    requires d < 10
  {
    ('0' as int + d) as char
  }

  function Decimal(n: nat): string
    decreases n
  {
    if n < 10 then [DigitChar(n)] else Decimal(n / 10) + [DigitChar(n % 10)]
  }

  function ParseDecimal(s: string): nat
  {
    if s == [] then 0
    else
      var d := s[|s| - 1] as int - '0' as int;
      ParseDecimal(s[..|s| - 1]) * 10 + (if 0 <= d < 10 then d else 0)
  }

  /** A count is written as a non-empty string of digits that reads back as
      the same number. */
  lemma {:induction false} DecimalRoundTrip(n: nat)
    ensures |Decimal(n)| >= 1
    ensures forall i :: 0 <= i < |Decimal(n)| ==> '0' <= Decimal(n)[i] <= '9'
    ensures ParseDecimal(Decimal(n)) == n
    decreases n
  {
    if n >= 10 {
      DecimalRoundTrip(n / 10);
      var s := Decimal(n);
      assert s[..|s| - 1] == Decimal(n / 10);
    }
  }

  // ---------------------------------------------------------------------
  // Line layout (comma-joined fields)

  function JoinFields(fields: seq<string>): string
  {
    if |fields| == 0 then ""
    else if |fields| == 1 then fields[0]
    else fields[0] + "," + JoinFields(fields[1..])
  }

  /** Splitting a line at every comma. */
  function SplitFields(s: string): (r: seq<string>)
    ensures |r| >= 1
  {
    if s == [] then [""]
    else
      var rest := SplitFields(s[1..]);
      if s[0] == ',' then [""] + rest else [[s[0]] + rest[0]] + rest[1..]
  }

  predicate NoComma(s: string)
  {
    forall i :: 0 <= i < |s| ==> s[i] != ','
  }

  lemma {:induction false} SplitPrefix(a: string, t: string)
    requires NoComma(a)
    ensures SplitFields(a + t) == [a + SplitFields(t)[0]] + SplitFields(t)[1..]
  {
    if a != [] {
      SplitPrefix(a[1..], t);
      assert (a + t)[1..] == a[1..] + t;
      assert [a[0]] + (a[1..] + SplitFields(t)[0]) == a + SplitFields(t)[0];
    } else {
      assert a + t == t;
      var r := SplitFields(t);
      assert r == [r[0]] + r[1..];
      assert a + r[0] == r[0];
    }
  }

  /** Joining comma-free fields and splitting the line again gives back the
      fields: the columns of a line are exactly the fields written. */
  lemma {:induction false} SplitJoin(fields: seq<string>)
    requires |fields| >= 1
    requires forall k :: 0 <= k < |fields| ==> NoComma(fields[k])
    ensures SplitFields(JoinFields(fields)) == fields
  {
    if |fields| == 1 {
      SplitPrefix(fields[0], "");
      assert fields[0] + "" == fields[0];
    } else {
      var tail := JoinFields(fields[1..]);
      SplitJoin(fields[1..]);
      assert fields[0] + "," + tail == fields[0] + ("," + tail);
      SplitPrefix(fields[0], "," + tail);
      assert ("," + tail)[1..] == tail;
      assert SplitFields("," + tail) == [""] + fields[1..];
      assert fields[0] + "" == fields[0];
      assert fields == [fields[0]] + fields[1..];
    }
  }

  /** The column titles, in the order of the `columns` object. */
  const Columns: seq<string> := ["Slug", "Original URL", "Visit Count", "Created At"]

  function HeaderLine(): (r: string)
    ensures r == "Slug" + "," + "Original URL" + "," + "Visit Count" + "," + "Created At"
  {
    JoinFour(Columns[0], Columns[1], Columns[2], Columns[3]);
    JoinFields(Columns)
  }

  /** The header splits back into the four column titles. */
  lemma HeaderColumns()
    ensures SplitFields(HeaderLine()) == Columns
  {
    forall k | 0 <= k < |Columns| ensures NoComma(Columns[k]) {
      var c := Columns[k];
      forall i | 0 <= i < |c| ensures c[i] != ',' {
        assert c[i] != ',' by {
          if k == 0 { assert c == "Slug"; }
          else if k == 1 { assert c == "Original URL"; }
          else if k == 2 { assert c == "Visit Count"; }
          else { assert c == "Created At"; }
        }
      }
    }
    SplitJoin(Columns);
  }

  /** Four fields are joined by three commas. */
  lemma JoinFour(a: string, b: string, c: string, d: string)
    ensures JoinFields([a, b, c, d]) == a + "," + b + "," + c + "," + d
  {
    assert [c, d][1..] == [d];
    assert JoinFields([c, d]) == c + "," + d;
    assert [b, c, d][1..] == [c, d];
    assert JoinFields([b, c, d]) == b + "," + (c + "," + d);
    assert [a, b, c, d][1..] == [b, c, d];
    assert a + "," + (b + "," + (c + "," + d)) == a + "," + b + "," + c + "," + d;
  }

  // ---------------------------------------------------------------------
  // The rows, rewritten in place

  /** `created_at` holds a timestamp as queried and ISO-8601 text once formatted. */
  datatype DateCell = Stamp(t: Timestamp) | Iso(text: string)

  /** One row object of the query result. */
  datatype CsvRow = CsvRow(slug: string, originalUrl: string, visitCount: nat, createdAt: DateCell)

  function Raw(row: Row): CsvRow
  {
    CsvRow(row.slug, row.originalUrl, row.visitCount, Stamp(row.createdAt))
  }

  /** The body of the `forEach`: quotes doubled, the timestamp rendered by
      `render` (standing for `new Date(...).toISOString()`). */
  function FormatRow(row: CsvRow, render: Timestamp -> string): CsvRow
  {
    row.(originalUrl := EscapeQuotes(row.originalUrl),
         createdAt := match row.createdAt
                      case Stamp(t) => Iso(render(t))
                      case Iso(text) => Iso(text))
  }

  /** `result.rows.forEach(...)`: rewrites every row in place. Slug and
      visit count are kept; only the URL and the creation time change. */
  method FormatRows(rows: array<CsvRow>, render: Timestamp -> string)
    modifies rows
    ensures forall i :: 0 <= i < rows.Length ==> rows[i] == FormatRow(old(rows[i]), render)
    ensures forall i :: 0 <= i < rows.Length ==>
              rows[i].slug == old(rows[i]).slug && rows[i].visitCount == old(rows[i]).visitCount
              && rows[i].originalUrl == EscapeQuotes(old(rows[i]).originalUrl)
              && rows[i].createdAt.Iso?
  {
    var i := 0;
    while i < rows.Length
      invariant 0 <= i <= rows.Length
      invariant forall k :: 0 <= k < i ==> rows[k] == FormatRow(old(rows[k]), render)
      invariant forall k :: i <= k < rows.Length ==> rows[k] == old(rows[k])
    {
      rows[i] := FormatRow(rows[i], render);
      i := i + 1;
    }
  }

  /** The line csv-stringify writes for a formatted row. */
  function RecordLine(row: CsvRow): string
    requires row.createdAt.Iso?
  {
    JoinFields([row.slug, row.originalUrl, Decimal(row.visitCount), row.createdAt.text])
  }

  /** With comma-free fields, a data line reads back as the four columns:
      the slug, the quote-doubled URL (which un-doubles to the stored one),
      the visit count and the rendered creation time. */
  lemma DataLineColumns(row: Row, render: Timestamp -> string)
    requires NoComma(row.slug) && NoComma(row.originalUrl) && NoComma(render(row.createdAt))
    ensures var fields := SplitFields(RecordLine(FormatRow(Raw(row), render)));
            && |fields| == 4
            && fields[0] == row.slug
            && UnescapeQuotes(fields[1]) == row.originalUrl
            && ParseDecimal(fields[2]) == row.visitCount
            && fields[3] == render(row.createdAt)
  {
    var f := FormatRow(Raw(row), render);
    var e := EscapeQuotes(row.originalUrl);
    assert NoComma(e) by {
      EscapeKeepsOtherChars(row.originalUrl);
      assert ',' !in row.originalUrl;
      forall i | 0 <= i < |e| ensures e[i] != ',' {
        assert e[i] in e;
      }
    }
    DecimalRoundTrip(row.visitCount);
    SplitJoin([row.slug, e, Decimal(row.visitCount), render(row.createdAt)]);
    UnescapeEscape(row.originalUrl);
  }

  /** Doubling quotes adds no character other than `"`. */
  lemma {:induction false} EscapeKeepsOtherChars(s: string)
    ensures forall c :: c != '"' ==> (c in EscapeQuotes(s) <==> c in s)
  {
    if s != [] {
      EscapeKeepsOtherChars(s[1..]);
      assert s == [s[0]] + s[1..];
    }
  }

  // ---------------------------------------------------------------------
  // The service

  /** `queryOk` says whether the query succeeds; `render` stands for the ISO
      rendering of a timestamp. A failed query answers `Database error`, an
      empty selection `No data available`; otherwise the file is the header
      line followed by one line per selected row, in selection order. The
      selection is the one `getStats` makes. */
  method DownloadCsv(store: Store, start: Option<Timestamp>, end: Option<Timestamp>, queryOk: bool,
                     render: Timestamp -> string)
    returns (r: Result<seq<string>>)
    requires store.Valid()
    ensures !queryOk ==> r == Failure(DatabaseError)
    ensures queryOk && store.Select(start, end) == [] ==> r == Failure(NoDataError)
    ensures r.Success? <==> queryOk && store.Select(start, end) != []
    ensures r.Success? ==>
              && |r.value| == |store.Select(start, end)| + 1
              && r.value[0] == HeaderLine()
              && forall i :: 0 <= i < |store.Select(start, end)| ==>
                   r.value[i + 1] == RecordLine(FormatRow(Raw(store.Select(start, end)[i]), render))
  {
    if !queryOk {
      return Failure(DatabaseError);
    }
    var selected := store.Select(start, end);
    if |selected| == 0 {
      return Failure(NoDataError);
    }
    var rows := new CsvRow[|selected|](i requires 0 <= i < |selected| => Raw(selected[i]));
    FormatRows(rows, render);
    var lines := [HeaderLine()];
    var i := 0;
    while i < rows.Length
      invariant 0 <= i <= rows.Length
      invariant |lines| == i + 1 && lines[0] == HeaderLine()
      invariant forall k :: 0 <= k < i ==> lines[k + 1] == RecordLine(FormatRow(Raw(selected[k]), render))
    {
      lines := lines + [RecordLine(rows[i])];
      i := i + 1;
    }
    r := Success(lines);
  }
}
