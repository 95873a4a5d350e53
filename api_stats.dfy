// The API statistics script: the query string of each Plausible timeseries request,
// and the merge of the three series (evaluate, rules, rule) into one record per
// date. The requests themselves, the API key and `encodeURIComponent` are
// parameters; the merge runs on the rows the requests return.
module ApiStats {
  import opened Wrappers
  import opened Strings
  import opened JsObject
  import opened Json

  // ---------------------------------------------------------------------------
  // The request URL

  const Endpoint: string := "https://plausible.io/api/v1/stats/timeseries?"

  /** The parameters of one request, in the order they are declared. */
  function QueryPairs(page: string, start: string, end: string, interval: string): (r: Dict<string>)
    ensures Keys(r) == ["site_id", "period", "date", "interval", "metrics", "filters"]
    ensures UniqueKeys(r)
  {
    [("site_id", "mon-entreprise.urssaf.fr/api"),
     ("period", "custom"),
     ("date", start + "," + end),
     ("interval", interval),
     ("metrics", "pageviews,visitors"),
     ("filters", "event:page==" + page)]
  }

  /** `encodeURIComponent` escapes both separators of a query string. */
  ghost predicate EscapesSeparators(encode: string -> string) {
    forall s :: '&' !in encode(s) && '=' !in encode(s)
  }

  /** `decode` undoes `encode`. */
  ghost predicate Decodes(encode: string -> string, decode: string -> string) {
    forall s :: decode(encode(s)) == s
  }

  /** `encodeURIComponent(k) + '=' + encodeURIComponent(v)`. */
  function EncodePair(encode: string -> string, p: (string, string)): (r: string)
    ensures EscapesSeparators(encode) ==> '&' !in r
  {
    encode(p.0) + "=" + encode(p.1)
  }

  /** `Object.entries(params).map(...)`. */
  function EncodedPieces(encode: string -> string, pairs: Dict<string>): (r: seq<string>)
    ensures |r| == |pairs| && forall i :: 0 <= i < |pairs| ==> r[i] == EncodePair(encode, pairs[i])
  {
    seq(|pairs|, i requires 0 <= i < |pairs| => EncodePair(encode, pairs[i]))
  }

  /** `Object.entries(params).map(...).join('&')`. */
  function QueryString(encode: string -> string, pairs: Dict<string>): string {
    Join(EncodedPieces(encode, pairs), "&")
  }

  /** The URL `fetchApiStats(page, start, end, interval)` requests. */
  function RequestUrl(encode: string -> string, page: string, start: string, end: string, interval: string): (r: string)
    ensures StartsWith(r, Endpoint)
  {
    Endpoint + QueryString(encode, QueryPairs(page, start, end, interval))
  }

  /** Reading one `key=value` piece back. */
  function ParsePair(decode: string -> string, s: string): Option<(string, string)> {
    var parts := Split(s, '=');
    if |parts| == 2 then Some((decode(parts[0]), decode(parts[1]))) else None
  }

  /** Reading the pieces back, all or nothing. */
  function ParsePieces(decode: string -> string, pieces: seq<string>): Option<Dict<string>>
    decreases |pieces|
  {
    if pieces == [] then Some([])
    else
      match (ParsePair(decode, pieces[0]), ParsePieces(decode, pieces[1..]))
      case (Some(p), Some(rest)) => Some([p] + rest)
      case _ => None
  }

  /** Reading a query string back into its parameters. */
  function ParseQuery(decode: string -> string, query: string): Option<Dict<string>> {
    ParsePieces(decode, Split(query, '&'))
  }

  /** One encoded pair reads back as itself. */
  lemma PairRoundTrip(encode: string -> string, decode: string -> string, p: (string, string))
    requires EscapesSeparators(encode) && Decodes(encode, decode)
    ensures ParsePair(decode, EncodePair(encode, p)) == Some(p)
  {
    var parts := [encode(p.0), encode(p.1)];
    assert Join(parts, ['=']) == EncodePair(encode, p);
    SplitJoin(parts, '=');
  }

  /** The encoded pairs read back as the pairs, in order. */
  lemma {:induction false} PiecesRoundTrip(encode: string -> string, decode: string -> string, pairs: Dict<string>)
    requires EscapesSeparators(encode) && Decodes(encode, decode)
    ensures ParsePieces(decode, EncodedPieces(encode, pairs)) == Some(pairs)
    decreases |pairs|
  {
    var pieces := EncodedPieces(encode, pairs);
    if pairs != [] {
      PiecesRoundTrip(encode, decode, pairs[1..]);
      assert pieces[1..] == EncodedPieces(encode, pairs[1..]);
      PairRoundTrip(encode, decode, pairs[0]);
      assert ParsePieces(decode, pieces) == Some([pairs[0]] + pairs[1..]);
      assert [pairs[0]] + pairs[1..] == pairs;
    }
  }

  /** A query string of at least one pair reads back as its pairs: no key or value
      is lost, reordered or run into its neighbour. */
  lemma QueryRoundTrip(encode: string -> string, decode: string -> string, pairs: Dict<string>)
    requires EscapesSeparators(encode) && Decodes(encode, decode)
    requires |pairs| >= 1
    ensures ParseQuery(decode, QueryString(encode, pairs)) == Some(pairs)
  {
    var pieces := EncodedPieces(encode, pairs);
    SplitJoin(pieces, '&');
    PiecesRoundTrip(encode, decode, pairs);
  }

  /** The request asks for the page's events over `start,end`, with the parameters
      in their declared order. */
  lemma RequestParameters(encode: string -> string, decode: string -> string,
                          page: string, start: string, end: string, interval: string)
    requires EscapesSeparators(encode) && Decodes(encode, decode)
    ensures var query := RequestUrl(encode, page, start, end, interval)[|Endpoint|..];
            var parsed := ParseQuery(decode, query);
            parsed == Some(QueryPairs(page, start, end, interval)) &&
            Get(parsed.value, "date") == Some(start + "," + end) &&
            Get(parsed.value, "filters") == Some("event:page==" + page) &&
            Get(parsed.value, "interval") == Some(interval)
  {
    var pairs := QueryPairs(page, start, end, interval);
    var url := RequestUrl(encode, page, start, end, interval);
    assert url[|Endpoint|..] == QueryString(encode, pairs);
    QueryRoundTrip(encode, decode, pairs);
    GetEntry(pairs, 2);
    GetEntry(pairs, 3);
    GetEntry(pairs, 5);
  }

  // ---------------------------------------------------------------------------
  // The merge by date

  /** One point of a timeseries. */
  datatype Point = Point(date: string, pageviews: int)

  /** The names of the three series, in request order. */
  const Names: seq<string> := ["evaluate", "rules", "rule"]

  /** One row of the flattened results: its date, its series and its count. */
  datatype Row = Row(date: string, name: string, pageviews: int)

  /** `{ date, [names[i]]: pageviews }`. */
  function Record(row: Row): (r: Dict<Json>)
    ensures row.name in Names ==> UniqueKeys(r)
    ensures Get(r, "date") == Some(Str(row.date)) || row.name == "date"
  {
    [("date", Str(row.date)), (row.name, Number(row.pageviews))]
  }

  /** The rows of one series. */
  function SeriesRows(name: string, points: seq<Point>): (r: seq<Row>)
    ensures |r| == |points|
    ensures forall j :: 0 <= j < |r| ==> r[j] == Row(points[j].date, name, points[j].pageviews)
  {
    seq(|points|, j requires 0 <= j < |points| => Row(points[j].date, name, points[j].pageviews))
  }

  /** The `flatMap` over the three results: every row is named after its series. */
  function Rows(evaluate: seq<Point>, rules: seq<Point>, rule: seq<Point>): (r: seq<Row>)
    ensures |r| == |evaluate| + |rules| + |rule|
    ensures forall j :: 0 <= j < |r| ==> r[j].name in Names
  {
    SeriesRows(Names[0], evaluate) + SeriesRows(Names[1], rules) + SeriesRows(Names[2], rule)
  }

  /** One step of the reduce: a known date gets `{ ...acc[date], ...el }`, a new one `el`. */
  function MergeStep(acc: Dict<Dict<Json>>, row: Row): Dict<Dict<Json>> {
    match Get(acc, row.date)
    case Some(existing) => Put(acc, row.date, Assign(Assign([], existing), Record(row)))
    case None => Put(acc, row.date, Record(row))
  }

  /** The reduce over the rows, from the first. */
  function Merge(rows: seq<Row>): Dict<Dict<Json>>
    decreases |rows|
  {
    if rows == [] then [] else MergeStep(Merge(rows[..|rows| - 1]), rows[|rows| - 1])
  }

  /** `Object.values(acc)`. */
  function Values<V>(d: Dict<V>): (r: seq<V>)
    ensures |r| == |d| && forall i :: 0 <= i < |d| ==> r[i] == d[i].1
  {
    seq(|d|, i requires 0 <= i < |d| => d[i].1)
  }

  /** `apiStats`, once the three series have come back. */
  method MergeByDate(rows: seq<Row>) returns (data: seq<Dict<Json>>)
    ensures data == Values(Merge(rows))
  {
    var acc: Dict<Dict<Json>> := [];
    var i := 0;
    while i < |rows|
      invariant 0 <= i <= |rows|
      invariant acc == Merge(rows[..i])
    {
      var row := rows[i];
      var existing := Get(acc, row.date);
      if existing.Some? {
        acc := Put(acc, row.date, Assign(Assign([], existing.value), Record(row)));
      } else {
        acc := Put(acc, row.date, Record(row));
      }
      assert rows[..i + 1][..i] == rows[..i];
      i := i + 1;
    }
    assert rows[..|rows|] == rows;
    data := Values(acc);
  }

  /** The dates of the rows. */
  function Dates(rows: seq<Row>): (r: seq<string>)
    ensures |r| == |rows| && forall i :: 0 <= i < |rows| ==> r[i] == rows[i].date
  {
    seq(|rows|, i requires 0 <= i < |rows| => rows[i].date)
  }

  /** The distinct elements, in order of first appearance: the reference for the
      order of the merged records. */
  function Distinct(s: seq<string>): seq<string>
    decreases |s|
  {
    if s == [] then []
    else
      var before := s[..|s| - 1];
      if s[|s| - 1] in before then Distinct(before) else Distinct(before) + [s[|s| - 1]]
  }

  /** `Distinct` keeps every element once. */
  lemma {:induction false} DistinctFacts(s: seq<string>)
    ensures forall x :: x in Distinct(s) <==> x in s
    ensures forall i, j :: 0 <= i < j < |Distinct(s)| ==> Distinct(s)[i] != Distinct(s)[j]
    decreases |s|
  {
    if s != [] {
      var before := s[..|s| - 1];
      DistinctFacts(before);
      assert s == before + [s[|s| - 1]];
    }
  }

  /** The merged dictionary has one entry per distinct date, in order of each date's
      first row. */
  lemma {:induction false} MergeKeys(rows: seq<Row>)
    ensures Keys(Merge(rows)) == Distinct(Dates(rows))
    decreases |rows|
  {
    if rows != [] {
      var before := rows[..|rows| - 1];
      var row := rows[|rows| - 1];
      var acc := Merge(before);
      MergeKeys(before);
      assert Dates(rows)[..|rows| - 1] == Dates(before);
      DistinctFacts(Dates(before));
      HasIndex(acc, row.date);
      assert Has(acc, row.date) <==> row.date in Keys(acc);
      match Get(acc, row.date)
      case Some(existing) =>
        PutKeys(acc, row.date, Assign(Assign([], existing), Record(row)));
      case None =>
        PutKeys(acc, row.date, Record(row));
    }
  }

  /** Exactly one record per distinct date: the dates of the merge are those of the
      rows, each once. */
  lemma OneRecordPerDate(rows: seq<Row>)
    ensures UniqueKeys(Merge(rows))
    ensures forall d :: d in Keys(Merge(rows)) <==> d in Dates(rows)
  {
    MergeKeys(rows);
    DistinctFacts(Dates(rows));
    var ks := Keys(Merge(rows));
    assert forall i, j :: 0 <= i < j < |ks| ==> ks[i] != ks[j];
  }

  /** The value of field `k` in the last row of date `d` that has that field. */
  function Latest(rows: seq<Row>, d: string, k: string): Option<Json>
    decreases |rows|
  {
    if rows == [] then None
    else
      var row := rows[|rows| - 1];
      if row.date == d && Has(Record(row), k) then Get(Record(row), k)
      else Latest(rows[..|rows| - 1], d, k)
  }

  /** Assigning onto keys without repeats keeps them without repeats. */
  lemma {:induction false} AssignUnique<V>(target: Dict<V>, source: Dict<V>)
    requires UniqueKeys(target)
    ensures UniqueKeys(Assign(target, source))
    decreases |source|
  {
    if source != [] {
      PutUnique(target, source[0].0, source[0].1);
      AssignUnique(Put(target, source[0].0, source[0].1), source[1..]);
    }
  }

  /** Every record of the merge has each field once. */
  ghost predicate RecordsUnique(acc: Dict<Dict<Json>>) {
    forall d :: Get(acc, d).Some? ==> UniqueKeys(Get(acc, d).value)
  }

  /** A date's record holds, for each field, the value of the last row of that date
      carrying it: the later row wins a clash and no field of another date leaks in.
      A date without rows has no record. */
  lemma {:induction false} MergeFields(rows: seq<Row>, d: string, k: string)
    requires forall j :: 0 <= j < |rows| ==> rows[j].name in Names
    ensures RecordsUnique(Merge(rows))
    ensures match Get(Merge(rows), d)
            case None => Latest(rows, d, k) == None
            case Some(record) => Get(record, k) == Latest(rows, d, k)
    decreases |rows|
  {
    if rows != [] {
      var before := rows[..|rows| - 1];
      var row := rows[|rows| - 1];
      var acc := Merge(before);
      MergeFields(before, d, k);
      var el := Record(row);
      var stored := match Get(acc, row.date)
                 case Some(existing) => Assign(Assign([], existing), el)
                 case None => el;
      assert Merge(rows) == Put(acc, row.date, stored);
      assert UniqueKeys(stored) by {
        if Get(acc, row.date).Some? {
          AssignUnique([], Get(acc, row.date).value);
          AssignUnique(Assign([], Get(acc, row.date).value), el);
        }
      }
      forall d' | Get(Merge(rows), d').Some? ensures UniqueKeys(Get(Merge(rows), d').value) {
        PutGet(acc, row.date, stored, d');
      }
      PutGet(acc, row.date, stored, d);
      if row.date == d {
        match Get(acc, d)
        case Some(existing) =>
          AssignGet(Assign([], existing), el, k);
          AssignGet([], existing, k);
        case None =>
      }
    }
  }

  /** Every record carries its own date. */
  lemma RecordDate(rows: seq<Row>, d: string)
    requires forall j :: 0 <= j < |rows| ==> rows[j].name in Names
    requires d in Dates(rows)
    ensures Get(Merge(rows), d).Some?
    ensures Get(Get(Merge(rows), d).value, "date") == Some(Str(d))
  {
    OneRecordPerDate(rows);
    HasIndex(Merge(rows), d);
    MergeFields(rows, d, "date");
    LatestDate(rows, d);
  }

  /** The last row of a date carries the date. */
  lemma {:induction false} LatestDate(rows: seq<Row>, d: string)
    requires forall j :: 0 <= j < |rows| ==> rows[j].name in Names
    requires d in Dates(rows)
    ensures Latest(rows, d, "date") == Some(Str(d))
    decreases |rows|
  {
    var before := rows[..|rows| - 1];
    var row := rows[|rows| - 1];
    if row.date != d {
      assert Dates(rows) == Dates(before) + [row.date];
      LatestDate(before, d);
    }
  }
}
