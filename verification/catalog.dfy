/** Rows of the Virtuoso system-catalog queries and the per-row mapping the
    introspection tools apply to them. The SQL text is not modelled: each query's
    answer is an input sequence of rows, in the order the backend yields it
    (sorted by its ORDER BY where the query has one). */
module Catalog {
  import opened Wrappers
  import opened Errors
  import opened Strings

  /** A VARCHAR catalog value; `None` is SQL NULL. */
  type Text = Option<string>

  /** Python truthiness of such a value: neither NULL nor empty. */
  predicate Truthy(t: Text)
  {
    t.Some? && t.value != ""
  }

  /** A row of the table-list queries: `TABLE_CAT`, `TABLE_SCHEM`, `TABLE_NAME`. */
  datatype TableRow = TableRow(cat: Text, schem: Text, name: Text)

  /** `_has_table`: the first row the lookup query yields, if any. */
  function FirstMatch(rows: seq<TableRow>): (found: Option<TableRow>)
    ensures found.None? <==> |rows| == 0
    ensures found.Some? ==> found.value in rows && found.value == rows[0]
  {
    if |rows| == 0 then None else Some(rows[0])
  }

  /** The fields of a row of the column query that `_get_columns` reads. */
  datatype ColumnRow = ColumnRow(
    columnName: Text,
    typeName: Text,
    nullable: int,     // NULLABLE: 1 when the column admits NULL, else 0
    columnDef: Text,
    colCheck: Text)

  /** The dictionary `_get_columns` builds for one column. */
  datatype Column = Column(name: Text, typ: Text, nullable: bool, default: Text, autoincrement: bool)

  /** One column row mapped; `.find("I")` on a NULL `COL_CHECK` raises. */
  function MapColumn(row: ColumnRow): (r: Result<Column, Error>)
    ensures r.Err? <==> row.colCheck.None?
    ensures r.Err? ==> r.error == NoneHasNoFind
    ensures r.Ok? ==> (r.value.autoincrement <==> 'I' in row.colCheck.value)
    ensures r.Ok? ==> (r.value.nullable <==> row.nullable != 0)
    ensures r.Ok? ==> r.value.name == row.columnName && r.value.typ == row.typeName && r.value.default == row.columnDef
  {
    match row.colCheck
    case None => Err(NoneHasNoFind)
    case Some(check) =>
      ContainsChar(check, 'I');
      Ok(Column(row.columnName, row.typeName, row.nullable != 0, row.columnDef, Find(check, "I") != -1))
  }

  /** `_get_columns`: every row mapped, in row order; the first NULL `COL_CHECK` raises. */
  function GetColumns(rows: seq<ColumnRow>): (r: Result<seq<Column>, Error>)
    ensures r.Err? <==> exists i :: 0 <= i < |rows| && rows[i].colCheck.None?
    ensures r.Err? ==> r.error == NoneHasNoFind
    ensures r.Ok? ==> |r.value| == |rows| && forall i :: 0 <= i < |rows| ==> MapColumn(rows[i]) == Ok(r.value[i])
    ensures r.Ok? ==> forall i :: 0 <= i < |rows| ==> r.value[i].name == rows[i].columnName
    decreases |rows|
  {
    if |rows| == 0 then Ok([])
    else
      match MapColumn(rows[0])
      case Err(e) => Err(e)
      case Ok(c) =>
        match GetColumns(rows[1..])
        case Err(e) => Err(e)
        case Ok(cs) => Ok([c] + cs)
  }

  /** The fields of a row of the primary-key query that `_get_pk_constraint` reads. */
  datatype PkRow = PkRow(columnName: Text, pkName: Text)

  /** The primary-key dictionary: constrained columns and the key's name. */
  datatype PrimaryKey = PrimaryKey(constrained: seq<Text>, name: Text)

  /** `_get_pk_constraint`: `None` for no rows; otherwise the column names in row
      order (the query orders them by key part) and the name of the first row. */
  function PkConstraint(rows: seq<PkRow>): (pk: Option<PrimaryKey>)
    ensures pk.None? <==> |rows| == 0
    ensures pk.Some? ==> pk.value.name == rows[0].pkName
    ensures pk.Some? ==> |pk.value.constrained| == |rows|
    ensures pk.Some? ==> forall i :: 0 <= i < |rows| ==> pk.value.constrained[i] == rows[i].columnName
  {
    if |rows| == 0 then None
    else Some(PrimaryKey(seq(|rows|, i requires 0 <= i < |rows| => rows[i].columnName), rows[0].pkName))
  }

  /** `q in row.TABLE_NAME` for every row, keeping the matches in order; a NULL
      name raises. */
  function FilterByName(q: string, rows: seq<TableRow>): (r: Result<seq<TableRow>, Error>)
    ensures r.Err? <==> exists i :: 0 <= i < |rows| && rows[i].name.None?
    ensures r.Err? ==> r.error == NoneNotIterable
    decreases |rows|
  {
    if |rows| == 0 then Ok([])
    else
      match rows[0].name
      case None => Err(NoneNotIterable)
      case Some(name) =>
        match FilterByName(q, rows[1..])
        case Err(e) => Err(e)
        case Ok(kept) => Ok(if Contains(name, q) then [rows[0]] + kept else kept)
  }

  /** `a` is `b` with some elements left out, the rest in their original order. */
  predicate IsSubsequence<T(==)>(a: seq<T>, b: seq<T>)
    decreases |b|
  {
    if |a| == 0 then true
    else if |b| == 0 then false
    else if a[0] == b[0] then IsSubsequence(a[1..], b[1..])
    else IsSubsequence(a, b[1..])
  }

  /** A matching row is kept as often as it occurs; any other row never is. */
  lemma {:induction false} FilterCounts(q: string, rows: seq<TableRow>)
    requires FilterByName(q, rows).Ok?
    ensures forall t ::
      multiset(FilterByName(q, rows).value)[t] == (if t.name.Some? && Contains(t.name.value, q) then multiset(rows)[t] else 0)
    decreases |rows|
  {
    if |rows| > 0 {
      FilterCounts(q, rows[1..]);
      var kept := FilterByName(q, rows).value;
      var rest := FilterByName(q, rows[1..]).value;
      assert rows == [rows[0]] + rows[1..];
      assert multiset(rows) == multiset([rows[0]]) + multiset(rows[1..]);
      if Contains(rows[0].name.value, q) {
        assert kept == [rows[0]] + rest;
        assert multiset(kept) == multiset([rows[0]]) + multiset(rest);
      } else {
        assert kept == rest;
      }
    }
  }

  /** The filter keeps exactly the rows whose name contains `q` as a literal,
      case-sensitive substring, each as often as it occurs, in their original order. */
  lemma {:induction false} FilterKeepsMatches(q: string, rows: seq<TableRow>)
    requires FilterByName(q, rows).Ok?
    ensures var kept := FilterByName(q, rows).value;
      && IsSubsequence(kept, rows)
      && (forall t :: t in kept <==> t in rows && t.name.Some? && Contains(t.name.value, q))
      && (forall t :: multiset(kept)[t] == (if t.name.Some? && Contains(t.name.value, q) then multiset(rows)[t] else 0))
    decreases |rows|
  {
    FilterCounts(q, rows);
    if |rows| > 0 {
      FilterKeepsMatches(q, rows[1..]);
      var kept := FilterByName(q, rows).value;
      var rest := FilterByName(q, rows[1..]).value;
      assert rows == [rows[0]] + rows[1..];
      if Contains(rows[0].name.value, q) {
        assert kept == [rows[0]] + rest;
        assert kept[1..] == rest;
      } else {
        assert kept == rest;
        SubsequenceOfTail(kept, rows);
      }
    }
  }

  /** A subsequence of the tail is a subsequence of the whole. */
  lemma {:induction false} SubsequenceOfTail<T>(a: seq<T>, b: seq<T>)
    requires |b| > 0 && IsSubsequence(a, b[1..])
    ensures IsSubsequence(a, b)
    decreases |b|, 1
  {
    if |a| > 0 && a[0] == b[0] {
      SubsequenceWithoutHead(a, b[1..]);
    }
  }

  /** Leaving out the first element keeps a subsequence one. */
  lemma {:induction false} SubsequenceWithoutHead<T>(a: seq<T>, c: seq<T>)
    requires |a| > 0 && IsSubsequence(a, c)
    ensures IsSubsequence(a[1..], c)
    decreases |c|, 2
  {
    if a[0] == c[0] {
      SubsequenceOfTail(a[1..], c);
    } else {
      SubsequenceWithoutHead(a, c[1..]);
      SubsequenceOfTail(a[1..], c);
    }
  }

  /** An empty `q` keeps every row. */
  lemma {:induction false} EmptyFilterKeepsAll(rows: seq<TableRow>)
    requires FilterByName("", rows).Ok?
    ensures FilterByName("", rows).value == rows
    decreases |rows|
  {
    if |rows| > 0 {
      EmptyFilterKeepsAll(rows[1..]);
      ContainsEmpty(rows[0].name.value);
      assert rows == [rows[0]] + rows[1..];
    }
  }
}
