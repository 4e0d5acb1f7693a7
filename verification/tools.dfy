/** The MCP tools of the server, each as the pure logic around its database
    calls: the connection string is resolved first, and the driver's answers
    (catalog rows, result streams) are inputs. */
module Tools {
  import opened Wrappers
  import opened Errors
  import opened Strings
  import opened OrderedDicts
  import opened Connection
  import opened Query
  import opened Format
  import opened Catalog
  import opened ForeignKeys
  import opened Describe

  /** `podbc_get_schemas`: the distinct catalog names the query yields. */
  function GetSchemas(env: Option<string>, url: Option<string>, names: seq<Text>): (r: Result<set<Text>, Error>)
    ensures r.Err? <==> ResolveUrl(env, url).Err?
    ensures r.Err? ==> r.error == UrlNotSet
    ensures r.Ok? ==> |r.value| <= |names| && forall n :: n in r.value <==> n in names
  {
    match ResolveUrl(env, url)
    case Err(e) => Err(e)
    case Ok(_) =>
      var s := set n | n in names;
      SetOfSeqSize(names);
      Ok(s)
  }

  lemma {:induction false} SetOfSeqSize<T>(xs: seq<T>)
    ensures |set x | x in xs| <= |xs|
    decreases |xs|
  {
    if |xs| > 0 {
      SetOfSeqSize(xs[1..]);
      assert (set x | x in xs) == {xs[0]} + (set x | x in xs[1..]);
    }
  }

  /** `podbc_get_tables`: the rows of the table query run with the schema pattern,
      which is the wildcard when no schema is given. */
  function GetTables(env: Option<string>, url: Option<string>, schema: Option<string>,
                     tablesLike: string -> seq<TableRow>): (r: Result<seq<TableRow>, Error>)
    ensures r.Err? <==> ResolveUrl(env, url).Err?
    ensures r.Err? ==> r.error == UrlNotSet
    ensures r.Ok? && schema.None? ==> r.value == tablesLike(Wildcard)
    ensures r.Ok? && schema.Some? ==> r.value == tablesLike(schema.value)
  {
    match ResolveUrl(env, url)
    case Err(e) => Err(e)
    case Ok(_) => Ok(tablesLike(SchemaPattern(schema)))
  }

  /** The catalog queries `podbc_describe_table` runs, as functions of their bound
      parameters. */
  datatype DescribeQueries = DescribeQueries(
    findTable: (string, string) -> seq<TableRow>,   // `_has_table`'s query for (catalog pattern, table)
    columns: (Text, Text, Text) -> seq<ColumnRow>,  // `_get_columns`' query for (catalog, schema, table)
    primaryKey: (Text, Text, Text) -> seq<PkRow>,
    foreignKeys: (Text, Text, Text) -> seq<FkRow>)

  /** `podbc_describe_table` as written: `{}` when the lookup finds nothing;
      otherwise the descriptor of the first match, whose own catalog, schema and
      name select the rows of the three sub-queries. A table without primary-key
      rows raises at the subscript. */
  function DescribeTable(env: Option<string>, url: Option<string>, schema: Option<string>, table: string,
                         q: DescribeQueries): (r: Result<Definition, Error>)
    ensures ResolveUrl(env, url).Err? ==> r == Err(UrlNotSet)
    ensures ResolveUrl(env, url).Ok? && |q.findTable(SchemaPattern(schema), table)| == 0 ==> r == Ok(Empty)
    ensures ResolveUrl(env, url).Ok? && |q.findTable(SchemaPattern(schema), table)| > 0 ==>
      var t := q.findTable(SchemaPattern(schema), table)[0];
      var info := ComposeTableInfo(t.cat, t.schem, t.name, q.columns(t.cat, t.schem, t.name),
                                   q.primaryKey(t.cat, t.schem, t.name), q.foreignKeys(t.cat, t.schem, t.name));
      && (r.Ok? <==> info.Ok?)
      && (r.Ok? ==> r.value == Table(info.value))
      && (r.Err? ==> r.error == info.error)
    ensures ResolveUrl(env, url).Ok? && |q.findTable(SchemaPattern(schema), table)| > 0 ==>
      var t := q.findTable(SchemaPattern(schema), table)[0];
      var colRows := q.columns(t.cat, t.schem, t.name);
      ((forall i :: 0 <= i < |colRows| ==> colRows[i].colCheck.Some?) && |q.primaryKey(t.cat, t.schem, t.name)| == 0)
        ==> r == Err(NoneNotSubscriptable)
    ensures r.Ok? && r.value.Table? ==> r.value.info.primaryKeys != []
  {
    match ResolveUrl(env, url)
    case Err(e) => Err(e)
    case Ok(_) =>
      match FirstMatch(q.findTable(SchemaPattern(schema), table))
      case None => Ok(Empty)
      case Some(t) =>
        match ComposeTableInfo(t.cat, t.schem, t.name, q.columns(t.cat, t.schem, t.name),
                               q.primaryKey(t.cat, t.schem, t.name), q.foreignKeys(t.cat, t.schem, t.name))
        case Err(e) => Err(e)
        case Ok(info) => Ok(Table(info))
  }

  /** `podbc_describe_table` with the corrected composition: a table without a
      primary key is described with an empty key list; the answer differs from
      the tool as written only there. */
  function DescribeTableCorrected(env: Option<string>, url: Option<string>, schema: Option<string>, table: string,
                                  q: DescribeQueries): (r: Result<Definition, Error>)
    ensures ResolveUrl(env, url).Err? ==> r == Err(UrlNotSet)
    ensures ResolveUrl(env, url).Ok? && |q.findTable(SchemaPattern(schema), table)| == 0 ==> r == Ok(Empty)
    ensures ResolveUrl(env, url).Ok? && |q.findTable(SchemaPattern(schema), table)| > 0 ==>
      var t := q.findTable(SchemaPattern(schema), table)[0];
      var info := ComposeTableInfoCorrected(t.cat, t.schem, t.name, q.columns(t.cat, t.schem, t.name),
                                            q.primaryKey(t.cat, t.schem, t.name), q.foreignKeys(t.cat, t.schem, t.name));
      && (r.Ok? <==> info.Ok?)
      && (r.Ok? ==> r.value == Table(info.value))
      && (r.Err? ==> r.error == info.error)
    ensures r.Err? ==> r.error == UrlNotSet || r.error == NoneHasNoFind
    ensures DescribeTable(env, url, schema, table, q) != Err(NoneNotSubscriptable) ==>
      r == DescribeTable(env, url, schema, table, q)
  {
    match ResolveUrl(env, url)
    case Err(e) => Err(e)
    case Ok(_) =>
      match FirstMatch(q.findTable(SchemaPattern(schema), table))
      case None => Ok(Empty)
      case Some(t) =>
        match ComposeTableInfoCorrected(t.cat, t.schem, t.name, q.columns(t.cat, t.schem, t.name),
                                        q.primaryKey(t.cat, t.schem, t.name), q.foreignKeys(t.cat, t.schem, t.name))
        case Err(e) => Err(e)
        case Ok(info) => Ok(Table(info))
  }

  /** `podbc_filter_table_names`: the table rows whose name contains `q`. */
  function FilterTableNames(env: Option<string>, url: Option<string>, q: string,
                            rows: seq<TableRow>): (r: Result<seq<TableRow>, Error>)
    ensures ResolveUrl(env, url).Err? ==> r == Err(UrlNotSet)
    ensures ResolveUrl(env, url).Ok? ==>
      (r.Err? <==> exists i :: 0 <= i < |rows| && rows[i].name.None?)
    ensures r.Ok? ==> IsSubsequence(r.value, rows)
    ensures r.Ok? ==> forall t :: t in r.value <==> t in rows && t.name.Some? && Contains(t.name.value, q)
    ensures r.Ok? ==> forall t ::
      multiset(r.value)[t] == (if t.name.Some? && Contains(t.name.value, q) then multiset(rows)[t] else 0)
  {
    match ResolveUrl(env, url)
    case Err(e) => Err(e)
    case Ok(_) =>
      var kept := FilterByName(q, rows);
      if kept.Ok? then
        FilterKeepsMatches(q, rows);
        kept
      else
        kept
  }

  /** `podbc_execute_query`: the capped, truncated rows as JSON lines. */
  method ExecuteQuery(env: Option<string>, url: Option<string>, stream: seq<Row>, maxRows: int, limit: int,
                      encode: Row -> string) returns (r: Result<string, Error>)
    ensures r.Err? <==> ResolveUrl(env, url).Err?
    ensures r.Err? ==> r.error == UrlNotSet
    ensures r.Ok? ==> r.value == Jsonl(encode, CappedRows(stream, maxRows, limit))
  {
    match ResolveUrl(env, url)
    case Err(e) =>
      return Err(e);
    case Ok(_) =>
      var results := CollectRows(stream, maxRows, limit);
      return Ok(Jsonl(encode, results));
  }

  /** Every column name of the stream is a key of every capped row. */
  lemma CappedRowsCover(columns: seq<string>, stream: seq<Row>, maxRows: int, limit: int)
    requires Conforms(columns, stream)
    ensures Covers(columns, CappedRows(stream, maxRows, limit))
  {
    var rows := CappedRows(stream, maxRows, limit);
    forall i, j | 0 <= i < |rows| && 0 <= j < |columns|
      ensures columns[j] in Keys(rows[i])
    {
      assert rows[i] == TruncateRow(stream[i], limit);
      assert Keys(stream[i])[j] == stream[i][j].key;
    }
  }

  /** `podbc_execute_query_md`: the capped, truncated rows as a Markdown table
      whose columns are the result's column names. */
  method ExecuteQueryMd(env: Option<string>, url: Option<string>, columns: seq<string>, stream: seq<Row>,
                        maxRows: int, limit: int) returns (r: Result<string, Error>)
    requires Conforms(columns, stream)
    ensures r.Err? <==> ResolveUrl(env, url).Err?
    ensures r.Err? ==> r.error == UrlNotSet
    ensures r.Ok? ==> (Covers(columns, CappedRows(stream, maxRows, limit))
      && r.value == Markdown(columns, CappedRows(stream, maxRows, limit)))
  {
    match ResolveUrl(env, url)
    case Err(e) =>
      return Err(e);
    case Ok(_) =>
      var results := CollectRows(stream, maxRows, limit);
      CappedRowsCover(columns, stream, maxRows, limit);
      return Ok(Markdown(columns, results));
  }

  /** `podbc_query_database`: every row, truncated, as JSON lines. */
  function QueryDatabase(env: Option<string>, url: Option<string>, stream: seq<Row>, limit: int,
                         encode: Row -> string): (r: Result<string, Error>)
    ensures r.Err? <==> ResolveUrl(env, url).Err?
    ensures r.Err? ==> r.error == UrlNotSet
    ensures r.Ok? ==> r.value == Jsonl(encode, TruncateRows(stream, limit))
  {
    match ResolveUrl(env, url)
    case Err(e) => Err(e)
    case Ok(_) => Ok(Jsonl(encode, TruncateRows(stream, limit)))
  }

  /** The JSON-lines answer of `podbc_execute_query` has one line per kept row:
      the encoding of the i-th stream row, truncated, for the first `CapCount` rows. */
  lemma ExecuteQueryLines(stream: seq<Row>, maxRows: int, limit: int, encode: Row -> string)
    requires SingleLine(encode)
    requires |stream| > 0
    ensures var lines := Split(Jsonl(encode, CappedRows(stream, maxRows, limit)), '\n');
      && |lines| == CapCount(|stream|, maxRows)
      && forall i :: 0 <= i < |lines| ==> lines[i] == encode(TruncateRow(stream[i], limit))
  {
    var rows := CappedRows(stream, maxRows, limit);
    JsonlLayout(encode, rows);
    forall i | 0 <= i < |rows|
      ensures rows[i] == TruncateRow(stream[i], limit)
    {
      assert rows[i] == TruncateRows(stream, limit)[i];
    }
  }

  /** The JSON-lines answer of `podbc_query_database` has one line per stream row. */
  lemma QueryDatabaseLines(stream: seq<Row>, limit: int, encode: Row -> string)
    requires SingleLine(encode)
    requires |stream| > 0
    ensures var lines := Split(Jsonl(encode, TruncateRows(stream, limit)), '\n');
      && |lines| == |stream|
      && forall i :: 0 <= i < |lines| ==> lines[i] == encode(TruncateRow(stream[i], limit))
  {
    JsonlLayout(encode, TruncateRows(stream, limit));
  }

  /** The Markdown answer of `podbc_execute_query_md` has the header, the
      separator and one line per kept row, cells in column order. */
  lemma ExecuteQueryMdLines(columns: seq<string>, stream: seq<Row>, maxRows: int, limit: int)
    requires Conforms(columns, stream)
    requires forall j :: 0 <= j < |columns| ==> '\n' !in columns[j]
    requires forall i, j :: 0 <= i < |stream| && 0 <= j < |stream[i]| ==> stream[i][j].val.None? || '\n' !in stream[i][j].val.value
    ensures Covers(columns, CappedRows(stream, maxRows, limit))
    ensures var rows := CappedRows(stream, maxRows, limit);
      var lines := Split(Markdown(columns, rows), '\n');
      && |lines| == CapCount(|stream|, maxRows) + 3
      && lines[0] == MdBody(columns)
      && lines[1] == MdBody(Dashes(|columns|))
      && (forall i :: 0 <= i < |rows| ==> lines[i + 2] == MdBody(RowCells(columns, rows[i])))
      && lines[CapCount(|stream|, maxRows) + 2] == ""
  {
    CappedRowsCover(columns, stream, maxRows, limit);
    var rows: seq<Row> := CappedRows(stream, maxRows, limit);
    forall i | 0 <= i < |rows|
      ensures forall j :: 0 <= j < |rows[i]| ==> rows[i][j].val.None? || '\n' !in rows[i][j].val.value
    {
      assert rows[i] == TruncateRow(stream[i], limit);
      TruncateRowAvoids(stream[i], limit, '\n');
    }
    MarkdownLayout(columns, rows);
  }
}
