/** Result rows of an ad-hoc query and the row cap and per-cell truncation that
    `podbc_execute_query`, `podbc_execute_query_md` and `podbc_query_database`
    apply while reading the driver's result stream. */
module Query {
  import opened Wrappers
  import opened Strings
  import opened OrderedDicts

  /** The default of `MAX_LONG_DATA`, the longest cell text kept. */
  const DefaultMaxLongData: int := 4096

  /** The default `max_rows` of the two capped query tools. */
  const DefaultMaxRows: int := 100

  /** A row as `row._mapping.items()` yields it: column names with their
      values, `None` for SQL NULL. A value that is not NULL is given in its
      display form, the `str(value)` of the source. */
  type Row = Dict<string, Option<string>>

  /** Every row of the stream carries exactly the result's column names, in
      order, as the rows of one cursor do. */
  predicate Conforms(columns: seq<string>, stream: seq<Row>)
  {
    forall i :: 0 <= i < |stream| ==> Keys(stream[i]) == columns
  }

  /** `str(value)[:MAX_LONG_DATA] if value is not None else None`. */
  function TruncateValue(v: Option<string>, limit: int): (t: Option<string>)
    ensures t.None? <==> v.None?
    ensures v.Some? ==> t.value <= v.value
    ensures v.Some? && limit >= 0 ==> |t.value| <= limit
    ensures v.Some? && limit >= 0 && |v.value| > limit ==> |t.value| == limit
    ensures v.Some? && |v.value| <= limit ==> t == v
    ensures v.Some? && limit < 0 ==> |t.value| == (if |v.value| + limit > 0 then |v.value| + limit else 0)
  {
    match v
    case None => None
    case Some(s) => Some(SliceTo(s, limit))
  }

  /** The pairs of `row._mapping.items()` with every value truncated. */
  function TruncateItems(row: Row, limit: int): (items: Row)
    ensures |items| == |row|
    ensures forall i :: 0 <= i < |row| ==> items[i] == Entry(row[i].key, TruncateValue(row[i].val, limit))
  {
    seq(|row|, i requires 0 <= i < |row| => Entry(row[i].key, TruncateValue(row[i].val, limit)))
  }

  /** `{key: ... for key, value in row._mapping.items()}`: one key per column
      name, each bound to a truncated value of a column of that name. */
  function TruncateRow(row: Row, limit: int): (t: Row)
    ensures Distinct(Keys(t))
    ensures forall i :: 0 <= i < |row| ==> row[i].key in Keys(t)
    ensures forall i :: 0 <= i < |t| ==> t[i] in TruncateItems(row, limit)
  {
    FromPairsKeys(TruncateItems(row, limit));
    FromPairsEntries(TruncateItems(row, limit));
    FromPairs(TruncateItems(row, limit))
  }

  /** A repeated column name keeps the value of its last column. */
  lemma TruncateRowLastWins(row: Row, limit: int)
    ensures forall i :: 0 <= i < |row| && (forall j :: i < j < |row| ==> row[j].key != row[i].key) ==>
      Get(TruncateRow(row, limit), row[i].key) == Some(TruncateValue(row[i].val, limit))
  {
    FromPairsLastWins(TruncateItems(row, limit));
  }

  /** With distinct column names the comprehension is the row itself, every
      value truncated in place. */
  lemma TruncateRowOfDistinct(row: Row, limit: int)
    requires Distinct(Keys(row))
    ensures TruncateRow(row, limit) == TruncateItems(row, limit)
  {
    FromPairsOfDistinct(TruncateItems(row, limit));
  }

  /** A truncated item holds no character that no value of the row holds. */
  lemma TruncatedItemAvoids(row: Row, limit: int, c: char, e: Entry<string, Option<string>>)
    requires forall j :: 0 <= j < |row| ==> row[j].val.None? || c !in row[j].val.value
    requires e in TruncateItems(row, limit)
    ensures e.val.None? || c !in e.val.value
  {
    var items := TruncateItems(row, limit);
    var j :| 0 <= j < |items| && items[j] == e;
    var v := row[j].val;
    if v.Some? {
      var w := TruncateValue(v, limit).value;
      assert w == v.value[..|w|];
    }
  }

  /** A character that no value of the row holds is held by no value of the
      truncated row: a truncated value is a prefix of a value of the row. */
  lemma TruncateRowAvoids(row: Row, limit: int, c: char)
    requires forall j :: 0 <= j < |row| ==> row[j].val.None? || c !in row[j].val.value
    ensures var t := TruncateRow(row, limit);
      forall i :: 0 <= i < |t| ==> t[i].val.None? || c !in t[i].val.value
  {
    var t := TruncateRow(row, limit);
    forall i | 0 <= i < |t|
      ensures t[i].val.None? || c !in t[i].val.value
    {
      TruncatedItemAvoids(row, limit, c, t[i]);
    }
  }

  /** Every row of the stream, truncated, in stream order: what the uncapped
      `podbc_query_database` collects. */
  function TruncateRows(stream: seq<Row>, limit: int): (rows: seq<Row>)
    ensures |rows| == |stream|
    ensures forall i :: 0 <= i < |stream| ==> rows[i] == TruncateRow(stream[i], limit)
  {
    seq(|stream|, i requires 0 <= i < |stream| => TruncateRow(stream[i], limit))
  }

  /** The number of rows the capped tools keep from a stream of `n` rows: none of
      an empty stream, otherwise `max_rows` but never fewer than one row. */
  function CapCount(n: nat, maxRows: int): (k: nat)
    ensures k <= n
    ensures n == 0 ==> k == 0
    ensures n > 0 && maxRows <= 1 ==> k == 1
    ensures maxRows >= 1 ==> k == (if maxRows < n then maxRows else n)
  {
    if n == 0 then 0
    else if maxRows <= 1 then 1
    else if maxRows < n then maxRows
    else n
  }

  /** The rows the capped tools return, in closed form: the first `CapCount`
      rows of the stream, truncated. */
  function CappedRows(stream: seq<Row>, maxRows: int, limit: int): (rows: seq<Row>)
    ensures |rows| == CapCount(|stream|, maxRows)
    ensures rows <= TruncateRows(stream, limit)
  {
    TruncateRows(stream[..CapCount(|stream|, maxRows)], limit)
  }

  /** Collecting one more row of the stream appends its truncation. */
  lemma TruncateRowsStep(stream: seq<Row>, i: int, limit: int)
    requires 0 <= i < |stream|
    ensures TruncateRows(stream[..i + 1], limit) == TruncateRows(stream[..i], limit) + [TruncateRow(stream[i], limit)]
  {
    var a := TruncateRows(stream[..i + 1], limit);
    var b := TruncateRows(stream[..i], limit) + [TruncateRow(stream[i], limit)];
    forall k | 0 <= k <= i
      ensures a[k] == b[k]
    {
      assert stream[..i + 1][k] == stream[k];
    }
  }

  /** The collection loop as the source writes it: each row is truncated and
      appended, and only then is the count compared with `max_rows`. */
  method CollectRows(stream: seq<Row>, maxRows: int, limit: int) returns (results: seq<Row>)
    ensures results == CappedRows(stream, maxRows, limit)
  {
    results := [];
    var i := 0;
    while i < |stream|
      invariant 0 <= i <= |stream|
      invariant results == TruncateRows(stream[..i], limit)
      invariant i == 0 || i < maxRows
    {
      TruncateRowsStep(stream, i, limit);
      results := results + [TruncateRow(stream[i], limit)];
      i := i + 1;
      if |results| >= maxRows {
        break;
      }
    }
  }

  /** A cap of zero or less still returns the first row of a non-empty stream. */
  lemma NonPositiveCapKeepsOneRow(stream: seq<Row>, maxRows: int, limit: int)
    requires |stream| > 0 && maxRows <= 0
    ensures CappedRows(stream, maxRows, limit) == [TruncateRow(stream[0], limit)]
  {
  }

  /** With the default `max_rows` the capped tools keep at most 100 rows, and
      every row of a stream of at most 100. */
  lemma DefaultCap(stream: seq<Row>, limit: int)
    ensures |CappedRows(stream, DefaultMaxRows, limit)| == (if |stream| < 100 then |stream| else 100)
  {
  }

  /** With the default `MAX_LONG_DATA` no kept value is longer than 4096
      characters, and a value of at most 4096 characters is kept whole. */
  lemma DefaultTruncation(v: Option<string>)
    ensures v.Some? ==> |TruncateValue(v, DefaultMaxLongData).value| <= 4096
    ensures v.Some? && |v.value| <= 4096 ==> TruncateValue(v, DefaultMaxLongData) == v
  {
  }
}
