/** `_get_foreign_keys`: the rows of the foreign-key catalog query, one per
    (constrained column, referred column) pair, grouped into one record per
    constraint name. */
module ForeignKeys {
  import opened Wrappers
  import opened Catalog
  import opened OrderedDicts

  /** The fields of a foreign-key row that the grouping reads. */
  datatype FkRow = FkRow(
    fkName: Text,        // FK_NAME
    fkColumn: Text,      // FKCOLUMN_NAME
    pkColumn: Text,      // PKCOLUMN_NAME
    pkTable: Text,       // PKTABLE_NAME
    pkOwner: Text,       // PKTABLE_OWNER
    pkQualifier: Text)   // PKTABLE_QUALIFIER

  /** The referred table, schema and catalog of a record. */
  datatype Target = Target(table: Text, schem: Text, cat: Text)

  /** One foreign-key record (its always-empty `options` is left out). */
  datatype ForeignKey = ForeignKey(name: Text, constrained: seq<Text>, target: Target, referred: seq<Text>)

  /** `fkey_rec()`: the record a name gets when it is first seen. */
  const EmptyRecord: ForeignKey := ForeignKey(None, [], Target(None, None, None), [])

  function TargetOf(row: FkRow): Target
  {
    Target(row.pkTable, row.pkOwner, row.pkQualifier)
  }

  /** The loop body for one row: append the column pair; take the target from
      the row as long as the recorded table is falsy. */
  function Accumulate(rec: ForeignKey, row: FkRow): (r: ForeignKey)
    ensures r.name == row.fkName
    ensures r.constrained == rec.constrained + [row.fkColumn]
    ensures r.referred == rec.referred + [row.pkColumn]
    ensures Truthy(rec.target.table) ==> r.target == rec.target
    ensures !Truthy(rec.target.table) ==> r.target == TargetOf(row)
  {
    var target := if Truthy(rec.target.table) then rec.target else TargetOf(row);
    ForeignKey(row.fkName, rec.constrained + [row.fkColumn], target, rec.referred + [row.pkColumn])
  }

  /** The `defaultdict` after the loop has consumed `rows`. */
  function Group(rows: seq<FkRow>): (d: Dict<Text, ForeignKey>)
    ensures Distinct(Keys(d))
    decreases |rows|
  {
    if |rows| == 0 then []
    else
      var d := Group(rows[..|rows| - 1]);
      var row := rows[|rows| - 1];
      Put(d, row.fkName, Accumulate(GetOr(d, row.fkName, EmptyRecord), row))
  }

  /** `list(fkeys.values())`: what `_get_foreign_keys` returns. */
  function GetForeignKeys(rows: seq<FkRow>): seq<ForeignKey>
  {
    Values(Group(rows))
  }

  // ---- The reference description of the result ----

  /** The constraint names of `rows`, each once, in order of first appearance. */
  function NamesInOrder(rows: seq<FkRow>): (names: seq<Text>)
    ensures Distinct(names)
    ensures forall i :: 0 <= i < |rows| ==> rows[i].fkName in names
    ensures forall n :: n in names ==> exists i :: 0 <= i < |rows| && rows[i].fkName == n
    decreases |rows|
  {
    if |rows| == 0 then []
    else
      var prefix := rows[..|rows| - 1];
      var names := NamesInOrder(prefix);
      assert forall i :: 0 <= i < |prefix| ==> prefix[i] == rows[i];
      if rows[|rows| - 1].fkName in names then names else names + [rows[|rows| - 1].fkName]
  }

  /** The rows carrying constraint name `n`, in arrival order. */
  function RowsNamed(rows: seq<FkRow>, n: Text): (g: seq<FkRow>)
    ensures |g| <= |rows|
    ensures forall i :: 0 <= i < |g| ==> g[i].fkName == n && g[i] in rows
    decreases |rows|
  {
    if |rows| == 0 then []
    else
      var g := RowsNamed(rows[..|rows| - 1], n);
      if rows[|rows| - 1].fkName == n then g + [rows[|rows| - 1]] else g
  }

  /** The position of the first row with a truthy `PKTABLE_NAME`, or -1. */
  function FirstTruthy(g: seq<FkRow>): (i: int)
    ensures -1 <= i < |g|
    ensures i >= 0 ==> Truthy(g[i].pkTable) && forall j :: 0 <= j < i ==> !Truthy(g[j].pkTable)
    ensures i == -1 ==> forall j :: 0 <= j < |g| ==> !Truthy(g[j].pkTable)
    decreases |g|
  {
    if |g| == 0 then -1
    else if Truthy(g[0].pkTable) then 0
    else
      var k := FirstTruthy(g[1..]);
      if k < 0 then -1 else k + 1
  }

  /** The target a group ends with: that of its first row with a truthy table;
      when there is none, every row overwrote it, so that of its last row. */
  function ReferredTarget(g: seq<FkRow>): Target
  {
    var i := FirstTruthy(g);
    if i >= 0 then TargetOf(g[i])
    else if |g| == 0 then EmptyRecord.target
    else TargetOf(g[|g| - 1])
  }

  function FkColumns(g: seq<FkRow>): (cs: seq<Text>)
    ensures |cs| == |g| && forall i :: 0 <= i < |g| ==> cs[i] == g[i].fkColumn
  {
    seq(|g|, i requires 0 <= i < |g| => g[i].fkColumn)
  }

  function PkColumns(g: seq<FkRow>): (cs: seq<Text>)
    ensures |cs| == |g| && forall i :: 0 <= i < |g| ==> cs[i] == g[i].pkColumn
  {
    seq(|g|, i requires 0 <= i < |g| => g[i].pkColumn)
  }

  /** The record constraint `n` should get: its rows' column pairs in arrival
      order and the target `ReferredTarget` picks. */
  function Expected(rows: seq<FkRow>, n: Text): ForeignKey
  {
    var g := RowsNamed(rows, n);
    ForeignKey(n, FkColumns(g), ReferredTarget(g), PkColumns(g))
  }

  // ---- Lemmas ----

  /** A name that has not appeared has no rows. */
  lemma {:induction false} UnseenNameHasNoRows(rows: seq<FkRow>, n: Text)
    requires n !in NamesInOrder(rows)
    ensures RowsNamed(rows, n) == []
    decreases |rows|
  {
    if |rows| > 0 {
      var prefix := rows[..|rows| - 1];
      assert rows[|rows| - 1].fkName in NamesInOrder(rows);
      UnseenNameHasNoRows(prefix, n);
    }
  }

  /** A truthy table is never replaced: the target of a group is settled by its
      first truthy row, and a falsy one is taken from each new row. */
  lemma TargetStep(g: seq<FkRow>, row: FkRow)
    ensures ReferredTarget(g + [row]) ==
      if Truthy(ReferredTarget(g).table) then ReferredTarget(g) else TargetOf(row)
  {
    var h := g + [row];
    var i := FirstTruthy(g);
    if i >= 0 {
      assert h[i] == g[i];
      var k := FirstTruthy(h);
      assert k == i;
    } else {
      var k := FirstTruthy(h);
      if Truthy(row.pkTable) {
        assert Truthy(h[|g|].pkTable);
        assert k == |g|;
      } else {
        assert k == -1;
      }
    }
  }

  /** One more row changes only the record of its own name. */
  lemma ExpectedStep(rows: seq<FkRow>, n: Text)
    requires |rows| > 0
    ensures var prefix := rows[..|rows| - 1];
      var row := rows[|rows| - 1];
      Expected(rows, n) == if row.fkName == n
        then Accumulate(if n in NamesInOrder(prefix) then Expected(prefix, n) else EmptyRecord, row)
        else Expected(prefix, n)
  {
    var prefix := rows[..|rows| - 1];
    var row := rows[|rows| - 1];
    var g := RowsNamed(prefix, n);
    if row.fkName == n {
      assert RowsNamed(rows, n) == g + [row];
      TargetStep(g, row);
      assert FkColumns(g + [row]) == FkColumns(g) + [row.fkColumn];
      assert PkColumns(g + [row]) == PkColumns(g) + [row.pkColumn];
      if n !in NamesInOrder(prefix) {
        UnseenNameHasNoRows(prefix, n);
        assert ReferredTarget(g) == EmptyRecord.target;
        assert FkColumns(g) == [] && PkColumns(g) == [];
      }
    }
  }

  /** The grouping loop builds exactly the reference records: one per distinct
      constraint name, in order of first appearance. */
  lemma {:induction false} GroupIsExpected(rows: seq<FkRow>)
    ensures Keys(Group(rows)) == NamesInOrder(rows)
    ensures forall i :: 0 <= i < |Group(rows)| ==> Group(rows)[i].val == Expected(rows, Group(rows)[i].key)
    decreases |rows|
  {
    if |rows| > 0 {
      var prefix := rows[..|rows| - 1];
      var row := rows[|rows| - 1];
      var d := Group(prefix);
      var k := row.fkName;
      GroupIsExpected(prefix);
      var before := GetOr(d, k, EmptyRecord);
      if k in NamesInOrder(prefix) {
        var j := IndexOf(d, k);
        GetAt(d, j);
        assert before == Expected(prefix, k);
      }
      var r := Group(rows);
      assert r == Put(d, k, Accumulate(before, row));
      forall i | 0 <= i < |r|
        ensures r[i].val == Expected(rows, r[i].key)
      {
        var n := r[i].key;
        GetAt(r, i);
        ExpectedStep(rows, n);
        if n != k {
          assert Keys(r)[i] == n;
          assert n in Keys(d);
          var j := IndexOf(d, n);
          GetAt(d, j);
          assert Get(r, d[j].key) == Get(d, d[j].key);
        }
      }
    }
  }

  /** What `_get_foreign_keys` returns: one record per distinct `FK_NAME`, in
      first-appearance order, each holding its rows' column pairs in arrival order
      and the target its first truthy-table row names. */
  lemma ForeignKeysAreGrouped(rows: seq<FkRow>)
    ensures var fks := GetForeignKeys(rows);
      var names := NamesInOrder(rows);
      && |fks| == |names|
      && forall i :: 0 <= i < |fks| ==> fks[i] == Expected(rows, names[i])
  {
    GroupIsExpected(rows);
    var d := Group(rows);
    assert forall i :: 0 <= i < |d| ==> Keys(d)[i] == d[i].key;
  }

  /** Every record pairs its constrained and referred columns one to one, one
      pair per row of its name, and has at least one row. */
  lemma RecordsArePaired(rows: seq<FkRow>, n: Text)
    requires n in NamesInOrder(rows)
    ensures var e := Expected(rows, n);
      && e.name == n
      && |e.constrained| == |e.referred| == |RowsNamed(rows, n)| >= 1
  {
    var i :| 0 <= i < |rows| && rows[i].fkName == n;
    RowsNamedHasRow(rows, n, i);
  }

  lemma {:induction false} RowsNamedHasRow(rows: seq<FkRow>, n: Text, i: int)
    requires 0 <= i < |rows| && rows[i].fkName == n
    ensures |RowsNamed(rows, n)| >= 1
    decreases |rows|
  {
    if i < |rows| - 1 {
      var prefix := rows[..|rows| - 1];
      assert prefix[i] == rows[i];
      RowsNamedHasRow(prefix, n, i);
    }
  }

  /** Once a row with a truthy table has been seen, later rows of the group never
      change the target. */
  lemma TargetIsSettled(g: seq<FkRow>, h: seq<FkRow>)
    requires exists i :: 0 <= i < |g| && Truthy(g[i].pkTable)
    ensures ReferredTarget(g + h) == ReferredTarget(g)
  {
    var i := FirstTruthy(g);
    var gh := g + h;
    assert gh[i] == g[i];
    var k := FirstTruthy(gh);
    assert k == i;
  }
}
