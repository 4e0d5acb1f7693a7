/** `_get_table_info`: the columns, primary key and foreign keys of one table
    joined into a single descriptor. */
module Describe {
  import opened Wrappers
  import opened Errors
  import opened OrderedDicts
  import opened Catalog
  import opened ForeignKeys

  /** The per-column dictionary of the descriptor. */
  datatype ColumnInfo = ColumnInfo(typeName: string, nullable: bool, autoincrement: bool, default: Text, primaryKey: bool)

  /** The descriptor; `columns` is keyed by column name in insertion order. */
  datatype TableInfo = TableInfo(
    cat: Text,
    schem: Text,
    name: Text,
    columns: Dict<Text, ColumnInfo>,
    primaryKeys: seq<Text>,
    foreignKeys: seq<ForeignKey>)

  /** What `podbc_describe_table` serialises: `{}` when no table matched. */
  datatype Definition = Empty | Table(info: TableInfo)

  /** `type(column['type']).__name__`: the Python class of the type-name value,
      not the SQL type itself. */
  function PyTypeName(t: Text): string
  {
    if t.None? then "NoneType" else "str"
  }

  function InfoOf(c: Column, pk: seq<Text>): ColumnInfo
  {
    ColumnInfo(PyTypeName(c.typ), c.nullable, c.autoincrement, c.default, c.name in pk)
  }

  /** Each column's name paired with its description, in column order. */
  function ColumnPairs(cols: seq<Column>, pk: seq<Text>): (items: Dict<Text, ColumnInfo>)
    ensures |items| == |cols|
    ensures forall i :: 0 <= i < |cols| ==> items[i] == Entry(cols[i].name, InfoOf(cols[i], pk))
  {
    seq(|cols|, i requires 0 <= i < |cols| => Entry(cols[i].name, InfoOf(cols[i], pk)))
  }

  /** `table_info["columns"][column['name']] = column_info` for each column in turn. */
  function ColumnMap(cols: seq<Column>, pk: seq<Text>): Dict<Text, ColumnInfo>
  {
    FromPairs(ColumnPairs(cols, pk))
  }

  /** A column is flagged as part of the primary key exactly when its name is
      in the key's column list. */
  lemma ColumnMapFlags(cols: seq<Column>, pk: seq<Text>)
    ensures forall i :: 0 <= i < |ColumnMap(cols, pk)| ==>
      (ColumnMap(cols, pk)[i].val.primaryKey <==> ColumnMap(cols, pk)[i].key in pk)
  {
    var items := ColumnPairs(cols, pk);
    var m := ColumnMap(cols, pk);
    FromPairsEntries(items);
    forall i | 0 <= i < |m|
      ensures m[i].val.primaryKey <==> m[i].key in pk
    {
      var j :| 0 <= j < |items| && items[j] == m[i];
    }
  }

  /** Every column name is a key of the column map. */
  lemma ColumnMapNames(cols: seq<Column>, pk: seq<Text>)
    ensures forall i :: 0 <= i < |cols| ==> cols[i].name in Keys(ColumnMap(cols, pk))
  {
    FromPairsKeys(ColumnPairs(cols, pk));
  }

  /** Every key of the column map is the name of some column. */
  lemma ColumnMapKeysAreNames(cols: seq<Column>, pk: seq<Text>)
    ensures forall i :: 0 <= i < |ColumnMap(cols, pk)| ==>
      exists j :: 0 <= j < |cols| && cols[j].name == ColumnMap(cols, pk)[i].key
  {
    var items := ColumnPairs(cols, pk);
    var m := ColumnMap(cols, pk);
    FromPairsEntries(items);
    forall i | 0 <= i < |m|
      ensures exists j :: 0 <= j < |cols| && cols[j].name == m[i].key
    {
      var j :| 0 <= j < |items| && items[j] == m[i];
      assert cols[j].name == m[i].key;
    }
  }

  /** A name that repeats keeps the description of its last column. */
  lemma ColumnMapLastWins(cols: seq<Column>, pk: seq<Text>)
    ensures forall i :: 0 <= i < |cols| && (forall j :: i < j < |cols| ==> cols[j].name != cols[i].name) ==>
      Get(ColumnMap(cols, pk), cols[i].name) == Some(InfoOf(cols[i], pk))
  {
    FromPairsLastWins(ColumnPairs(cols, pk));
  }

  /** The column map is keyed by exactly the column names; a name that repeats
      keeps the description of its last column; and a column is flagged as part
      of the primary key exactly when its name is in the key's column list. */
  lemma ColumnMapContents(cols: seq<Column>, pk: seq<Text>)
    ensures var m := ColumnMap(cols, pk);
      && Distinct(Keys(m))
      && (forall i :: 0 <= i < |cols| ==> cols[i].name in Keys(m))
      && (forall i :: 0 <= i < |m| ==> exists j :: 0 <= j < |cols| && cols[j].name == m[i].key)
      && (forall i :: 0 <= i < |m| ==> (m[i].val.primaryKey <==> m[i].key in pk))
      && (forall i :: 0 <= i < |cols| && (forall j :: i < j < |cols| ==> cols[j].name != cols[i].name) ==>
            Get(m, cols[i].name) == Some(InfoOf(cols[i], pk)))
  {
    ColumnMapNames(cols, pk);
    ColumnMapKeysAreNames(cols, pk);
    ColumnMapFlags(cols, pk);
    ColumnMapLastWins(cols, pk);
  }

  /** `info` describes table `table` of catalog `cat` and schema `sch` from its
      column rows and foreign-key rows: the names and foreign keys are passed
      through, every column row's name is a key of the column map and every key
      is some row's name, a column is flagged exactly when it is in the primary
      key, and the map is the column dict over the mapped rows. */
  predicate Describes(info: TableInfo, cat: Text, sch: Text, table: Text, colRows: seq<ColumnRow>, fkRows: seq<FkRow>)
  {
    && info.cat == cat && info.schem == sch && info.name == table
    && info.foreignKeys == GetForeignKeys(fkRows)
    && (forall i :: 0 <= i < |info.columns| ==>
          (info.columns[i].val.primaryKey <==> info.columns[i].key in info.primaryKeys))
    && (forall i :: 0 <= i < |colRows| ==> colRows[i].columnName in Keys(info.columns))
    && (forall i :: 0 <= i < |info.columns| ==>
          exists j :: 0 <= j < |colRows| && colRows[j].columnName == info.columns[i].key)
    && GetColumns(colRows).Ok? && info.columns == ColumnMap(GetColumns(colRows).value, info.primaryKeys)
  }

  /** The descriptor of readable column rows `colRows` under the key list `keys`. */
  function Descriptor(cat: Text, sch: Text, table: Text, colRows: seq<ColumnRow>,
                      keys: seq<Text>, fkRows: seq<FkRow>): (info: TableInfo)
    requires GetColumns(colRows).Ok?
    ensures info.primaryKeys == keys
    ensures Describes(info, cat, sch, table, colRows, fkRows)
  {
    var cols := GetColumns(colRows).value;
    ColumnMapFlags(cols, keys);
    ColumnMapNames(cols, keys);
    ColumnMapKeysAreNames(cols, keys);
    TableInfo(cat, sch, table, ColumnMap(cols, keys), keys, GetForeignKeys(fkRows))
  }

  /** The descriptor as the source composes it: columns first (a NULL `COL_CHECK`
      raises), then the primary key, whose absence raises at the subscript, then
      the foreign keys. */
  function ComposeTableInfo(cat: Text, sch: Text, table: Text,
                            colRows: seq<ColumnRow>, pkRows: seq<PkRow>, fkRows: seq<FkRow>): (r: Result<TableInfo, Error>)
    ensures (exists i :: 0 <= i < |colRows| && colRows[i].colCheck.None?) ==> r == Err(NoneHasNoFind)
    ensures (forall i :: 0 <= i < |colRows| ==> colRows[i].colCheck.Some?) && |pkRows| == 0 ==> r == Err(NoneNotSubscriptable)
    ensures r.Ok? <==> (forall i :: 0 <= i < |colRows| ==> colRows[i].colCheck.Some?) && |pkRows| > 0
    ensures r.Ok? ==> |r.value.primaryKeys| == |pkRows| && forall i :: 0 <= i < |pkRows| ==> r.value.primaryKeys[i] == pkRows[i].columnName
    ensures r.Ok? ==> Describes(r.value, cat, sch, table, colRows, fkRows)
  {
    match GetColumns(colRows)
    case Err(e) => Err(e)
    case Ok(cols) =>
      match PkConstraint(pkRows)
      case None => Err(NoneNotSubscriptable)
      case Some(pk) => Ok(Descriptor(cat, sch, table, colRows, pk.constrained, fkRows))
  }

  /** The composition as evidently intended: a table without primary-key rows
      gets an empty key list instead of raising. */
  function ComposeTableInfoCorrected(cat: Text, sch: Text, table: Text,
                                     colRows: seq<ColumnRow>, pkRows: seq<PkRow>, fkRows: seq<FkRow>): (r: Result<TableInfo, Error>)
    ensures r.Ok? <==> forall i :: 0 <= i < |colRows| ==> colRows[i].colCheck.Some?
    ensures r.Err? ==> r.error == NoneHasNoFind
    ensures |pkRows| > 0 ==> r == ComposeTableInfo(cat, sch, table, colRows, pkRows, fkRows)
    ensures r.Ok? && |pkRows| == 0 ==> r.value.primaryKeys == [] && forall i :: 0 <= i < |r.value.columns| ==> !r.value.columns[i].val.primaryKey
    ensures r.Ok? ==> Describes(r.value, cat, sch, table, colRows, fkRows)
  {
    match GetColumns(colRows)
    case Err(e) => Err(e)
    case Ok(cols) =>
      var keys := if |pkRows| > 0 then PkConstraint(pkRows).value.constrained else [];
      Ok(Descriptor(cat, sch, table, colRows, keys, fkRows))
  }

  /** The discrepancy: a table whose columns are all readable but which has no
      primary-key rows cannot be described as written, but can be once corrected. */
  lemma KeylessTableFailsAsWritten()
    ensures var cols := [ColumnRow(Some("ID"), Some("INTEGER"), 0, None, Some(""))];
      && ComposeTableInfo(Some("DB"), Some("DBA"), Some("LOG"), cols, [], []) == Err(NoneNotSubscriptable)
      && ComposeTableInfoCorrected(Some("DB"), Some("DBA"), Some("LOG"), cols, [], []).Ok?
  {
  }

  /** What the descriptor says of a column row whose name no later row repeats:
      the Python type name of its `TYPE_NAME`, whether `NULLABLE` is non-zero,
      whether `COL_CHECK` holds `I`, its `COLUMN_DEF`, and whether the name is in
      the primary key. */
  lemma DescribedColumns(cat: Text, sch: Text, table: Text,
                         colRows: seq<ColumnRow>, pkRows: seq<PkRow>, fkRows: seq<FkRow>)
    requires forall i :: 0 <= i < |colRows| ==> colRows[i].colCheck.Some?
    ensures ComposeTableInfoCorrected(cat, sch, table, colRows, pkRows, fkRows).Ok?
    ensures var info := ComposeTableInfoCorrected(cat, sch, table, colRows, pkRows, fkRows).value;
      forall i :: 0 <= i < |colRows| && (forall j :: i < j < |colRows| ==> colRows[j].columnName != colRows[i].columnName) ==>
        && colRows[i].colCheck.Some?
        && Get(info.columns, colRows[i].columnName) == Some(ColumnInfo(
             PyTypeName(colRows[i].typeName), colRows[i].nullable != 0, 'I' in colRows[i].colCheck.value,
             colRows[i].columnDef, colRows[i].columnName in info.primaryKeys))
  {
    var info := ComposeTableInfoCorrected(cat, sch, table, colRows, pkRows, fkRows).value;
    var cols := GetColumns(colRows).value;
    ColumnMapLastWins(cols, info.primaryKeys);
    forall i | 0 <= i < |colRows| && (forall j :: i < j < |colRows| ==> colRows[j].columnName != colRows[i].columnName)
      ensures colRows[i].colCheck.Some?
      ensures Get(info.columns, colRows[i].columnName) == Some(ColumnInfo(
             PyTypeName(colRows[i].typeName), colRows[i].nullable != 0, 'I' in colRows[i].colCheck.value,
             colRows[i].columnDef, colRows[i].columnName in info.primaryKeys))
    {
      assert MapColumn(colRows[i]) == Ok(cols[i]);
      forall j | i < j < |cols|
        ensures cols[j].name != cols[i].name
      {
        assert MapColumn(colRows[j]) == Ok(cols[j]);
      }
    }
  }
}
