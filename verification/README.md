# mcp-sqlalchemy-server: a Dafny model of the catalog and query post-processing

The server exposes a Virtuoso database to MCP clients as a set of tools: list
schemas and tables, describe a table, filter table names, and run ad-hoc SQL with
the answer rendered as JSON lines or as a Markdown table. This project models the
deterministic logic around the database calls in `mcp_sqlalchemy_server/server.py`,
with every driver answer (catalog rows, the result stream of a query) taken as an
input sequence of rows:

- `Connection`: `get_engine`'s choice of connection string (a given `url`, even an
  empty one, beats `DB_URL`; an empty or missing result raises) and the `"%"`
  default for a missing schema.
- `Query`: per-cell truncation to `MAX_LONG_DATA` (Python slicing, so a negative
  limit drops characters from the end; NULL stays NULL), the dictionary
  comprehension that turns a result row into a dictionary (a repeated column name
  keeps its first position and its last value), and the row cap, which is
  checked after each append, so `max_rows <= 0` still returns one row.
  `CollectRows` is the loop as written; `CappedRows` is its closed form.
- `Format`: JSON lines (`"\n".join`) and the Markdown table, where NULL prints as `None`.
- `Catalog`: table-list rows, `_has_table`'s first match, `_get_columns`' row
  mapping, `_get_pk_constraint`, and the substring filter of `podbc_filter_table_names`.
- `ForeignKeys`: the `defaultdict` grouping of `_get_foreign_keys`, proved equal to a
  reference description (one record per distinct `FK_NAME` in first-appearance order,
  column pairs in arrival order, target from the first row whose `PKTABLE_NAME` is truthy).
- `Describe`: `_get_table_info`'s composition of columns, primary key and foreign keys.
- `Tools`: one member per tool, resolving the connection first.
- `Strings`, `OrderedDicts`, `Wrappers`, `Errors`: Python string operations
  (`find`, `in`, slicing, `join`, `split`), insertion-ordered dictionaries
  (assignment, lookup, `defaultdict` lookup, and a dictionary built from pairs),
  `Option`/`Result`, and the exceptions the code raises itself.

SQL NULL and Python `None` in catalog values are `Option<string>` (`Catalog.Text`);
Python truthiness of such a value is `Catalog.Truthy`.

The model follows the code in these places, where a reader might expect otherwise:
a given but empty `url` raises instead of falling back to `DB_URL`; foreign-key
column pairs are taken in row-arrival order (their key-sequence order rests only on
the catalog query's `ORDER BY`); when no row of a foreign key has a truthy referred
table, every row overwrites the referred table, schema and catalog, so the last row's
values remain; NULL is `null` in JSON lines but `None` in Markdown.

## Model

| member | source | states |
|---|---|---|
| Connection.ResolveUrl | mcp_sqlalchemy_server/server.py:26-34 | a given `url` decides alone, even when empty; otherwise `DB_URL` does; the result is the chosen non-empty string, or `UrlNotSet` when it is missing or empty |
| Connection.UrlOverridesEnvironment | mcp_sqlalchemy_server/server.py:29-30 | with a `url` argument the environment value has no influence on the outcome |
| Connection.EmptyUrlRaises | mcp_sqlalchemy_server/server.py:29-34 | an empty `url` argument raises even when `DB_URL` is set |
| Connection.SchemaPattern | mcp_sqlalchemy_server/server.py:113 | a missing schema becomes the wildcard `%`; a given one is used as is |
| Strings.Find | mcp_sqlalchemy_server/server.py:249 | `str.find`: -1 exactly when the needle occurs nowhere, else the lowest index at which it occurs |
| Query.TruncateValue | mcp_sqlalchemy_server/server.py:467 | NULL stays NULL; a value becomes a prefix of itself, at most `MAX_LONG_DATA` long, exactly that long when longer, unchanged when not longer; a negative limit drops that many characters from the end |
| Query.TruncateRow | mcp_sqlalchemy_server/server.py:467 | the comprehension's dictionary has distinct keys, every column name of the row among them, and each entry is a column's name with that column's truncated value |
| Query.TruncateRowLastWins | mcp_sqlalchemy_server/server.py:467 | a column name maps to the truncated value of the last column of that name |
| Query.TruncateRowOfDistinct | mcp_sqlalchemy_server/server.py:467 | with distinct column names the dictionary is the row, in column order, every value truncated |
| Query.CapCount | mcp_sqlalchemy_server/server.py:468-470 | no rows from an empty stream; otherwise `min(n, max_rows)`, and one row when `max_rows <= 1` |
| Query.CappedRows | mcp_sqlalchemy_server/server.py:465-470 | the capped rows number `CapCount` and are a prefix of the truncated stream, in stream order |
| Query.CollectRows | mcp_sqlalchemy_server/server.py:465-470 | the loop that appends before comparing with `max_rows` returns exactly the closed-form capped rows |
| Query.TruncateRows | mcp_sqlalchemy_server/server.py:555-558 | the uncapped collection keeps every row, truncated, in stream order |
| Query.DefaultCap | mcp_sqlalchemy_server/server.py:443 | with the default `max_rows` of 100 a stream yields `min(n, 100)` rows |
| Query.DefaultTruncation | mcp_sqlalchemy_server/server.py:21 | under the default `MAX_LONG_DATA` of 4096 a value keeps at most 4096 characters and is unchanged when not longer |
| Query.NonPositiveCapKeepsOneRow | mcp_sqlalchemy_server/server.py:468-470 | `max_rows <= 0` on a non-empty stream yields the first row alone |
| Format.JsonlLayout | mcp_sqlalchemy_server/server.py:473 | zero rows give the empty string; otherwise splitting at newlines gives back the row encodings in row order, there are `k - 1` newlines and none after the last row |
| Format.MarkdownLayout | mcp_sqlalchemy_server/server.py:517-523 | when no column name and no cell holds a newline, the table is exactly `k + 2` newline-terminated lines: header of the column names, a `---` per column, then one line per row, each `"| "` + cells joined by `" | "` + `" |"` |
| Format.EmptyTable | mcp_sqlalchemy_server/server.py:517-519 | with no rows the table is the header and the separator alone |
| Format.CellsFollowLastColumn | mcp_sqlalchemy_server/server.py:467-523 | every column name of the result is a key of each truncated row; a cell is the truncated value of the last column of its name, NULL printed as `None`, so with distinct names the cells are the row's values in column order; two columns of one name print the same cell |
| Catalog.FirstMatch | mcp_sqlalchemy_server/server.py:199-203 | no table for an empty lookup, else the first row the lookup yields, in the backend's order |
| Catalog.MapColumn | mcp_sqlalchemy_server/server.py:244-250 | `autoincrement` iff `COL_CHECK` contains `I`; `nullable` iff `NULLABLE` is non-zero; name, type and default copied; a NULL `COL_CHECK` raises |
| Catalog.GetColumns | mcp_sqlalchemy_server/server.py:242-251 | one column per row in row order, or the error of the first NULL `COL_CHECK` |
| Catalog.PkConstraint | mcp_sqlalchemy_server/server.py:285-290 | `None` for no rows; otherwise the column names in row order and the name of the first row |
| Catalog.FilterByName | mcp_sqlalchemy_server/server.py:429-431 | a NULL table name raises; otherwise a list of rows is returned |
| Catalog.FilterKeepsMatches | mcp_sqlalchemy_server/server.py:429-431 | the kept rows are exactly those whose name contains `q` as a case-sensitive substring, in their original order, each as many times as in the input |
| Catalog.FilterCounts | mcp_sqlalchemy_server/server.py:429-431 | a matching row occurs in the result as often as in the input, a non-matching one never |
| Catalog.EmptyFilterKeepsAll | mcp_sqlalchemy_server/server.py:430 | an empty `q` keeps every row |
| ForeignKeys.Accumulate | mcp_sqlalchemy_server/server.py:331-343 | one row appends its column pair to its record; the referred target is taken from the row only while the recorded table is falsy |
| ForeignKeys.NamesInOrder | mcp_sqlalchemy_server/server.py:327-331 | each `FK_NAME` of the rows once, and only those |
| ForeignKeys.GroupIsExpected | mcp_sqlalchemy_server/server.py:327-345 | the dictionary the loop builds has the names in first-appearance order and for each the reference record |
| ForeignKeys.ForeignKeysAreGrouped | mcp_sqlalchemy_server/server.py:345 | the returned list holds one record per distinct name, in first-appearance order, each equal to the reference record |
| ForeignKeys.RecordsArePaired | mcp_sqlalchemy_server/server.py:334-338 | each record's constrained and referred columns have equal length, one per row of its name, at least one |
| ForeignKeys.TargetStep | mcp_sqlalchemy_server/server.py:340-343 | the reference target evolves as the loop's: kept once truthy, replaced by the new row's otherwise |
| ForeignKeys.TargetIsSettled | mcp_sqlalchemy_server/server.py:340-343 | after a row with a truthy referred table, later rows never change the target |
| Describe.ColumnMapContents | mcp_sqlalchemy_server/server.py:374-382 | the column map is keyed by exactly the column names, a repeated name keeps its last column, and `primary_key` holds iff the name is in the key list |
| Describe.Descriptor | mcp_sqlalchemy_server/server.py:361-384 | the descriptor built from readable column rows and a key list carries that key list and describes the table: catalog, schema and name passed through, the grouped foreign keys, the column dict keyed by exactly the rows' column names, a column flagged iff its name is a key |
| Describe.ComposeTableInfo | mcp_sqlalchemy_server/server.py:361-384 | a NULL `COL_CHECK` raises first, then a missing primary key raises at the subscript; otherwise the descriptor describes the table with the key columns in row order |
| Describe.ComposeTableInfoCorrected | mcp_sqlalchemy_server/server.py:361-384 | fails only on a NULL `COL_CHECK`; equals the composition as written whenever there are primary-key rows; a keyless table gets an empty key list; the descriptor describes the table |
| Describe.DescribedColumns | mcp_sqlalchemy_server/server.py:361-382 | when every `COL_CHECK` is readable the corrected composition succeeds, and a column whose name no later row repeats is described by its Python type name, `nullable` iff `NULLABLE` is non-zero, `autoincrement` iff `COL_CHECK` holds `I`, its default, and `primary_key` iff its name is a key |
| Describe.KeylessTableFailsAsWritten | mcp_sqlalchemy_server/server.py:362 | a one-column table without primary-key rows raises as written and is described once corrected |
| Tools.GetSchemas | mcp_sqlalchemy_server/server.py:85-88 | after resolving the connection, the distinct catalog names, duplicates collapsed |
| Tools.GetTables | mcp_sqlalchemy_server/server.py:113-139 | after resolving the connection, the table query's rows for the schema, or for `%` when none is given |
| Tools.DescribeTable | mcp_sqlalchemy_server/server.py:166-176 | `{}` when the lookup finds nothing; otherwise the first match's own names select the sub-queries and the outcome is their composition as written, so a keyless table raises and every described table has a key |
| Tools.DescribeTableCorrected | mcp_sqlalchemy_server/server.py:166-176 | the tool over the corrected composition fails only on an unset connection string or a NULL `COL_CHECK`, and agrees with the tool as written whenever that does not raise at the primary-key subscript |
| Tools.FilterTableNames | mcp_sqlalchemy_server/server.py:407-433 | after resolving the connection, exactly the rows whose name contains `q`, in order and with their multiplicities, or an error for a NULL name |
| Tools.ExecuteQuery | mcp_sqlalchemy_server/server.py:457-476 | after resolving the connection, the JSON lines of the capped, truncated rows |
| Tools.ExecuteQueryMd | mcp_sqlalchemy_server/server.py:500-526 | after resolving the connection, the Markdown table of the capped, truncated rows |
| Tools.QueryDatabase | mcp_sqlalchemy_server/server.py:547-564 | after resolving the connection, the JSON lines of every truncated row |
| Tools.ExecuteQueryLines | mcp_sqlalchemy_server/server.py:465-473 | for a non-empty stream (an empty one gives `""`, see `Format.JsonlLayout`) the JSON-lines answer has `CapCount` lines, the i-th the encoding of the i-th truncated row |
| Tools.QueryDatabaseLines | mcp_sqlalchemy_server/server.py:555-561 | for a non-empty stream (an empty one gives `""`, see `Format.JsonlLayout`) the uncapped answer has one line per stream row, in order |
| Tools.ExecuteQueryMdLines | mcp_sqlalchemy_server/server.py:510-523 | for rows carrying exactly the result's columns, when no column name and no cell holds a newline, the Markdown answer splits at newlines into the header, the separator, one line per capped row in stream order, and the empty piece after the final newline |

## Left out

- The SQL text of the catalog queries and its meaning in Virtuoso: each query's answer is an input sequence of rows in the order the backend yields it (sorted by its `ORDER BY` where the query has one). Only the row fields the Python code reads are modelled.
- `_has_table`'s lookup has no `ORDER BY`: when the pattern matches the table in several catalogs, which one is described is up to the backend; the model describes the first row it is given.
- `create_engine`, `engine.connect()` and `conn.execute`: network I/O through a foreign library. The readonly flag and the isolation level have no logic here, and driver failures (`SQLAlchemyError`, logged and re-raised) are not modelled.
- `json.dumps`: the row encoder is a parameter; the layout lemmas assume only that it emits no raw newline. The catalog tools' `json.dumps(..., indent=2)` text is not modelled; they return the structures.
- Duplicate result-column names are modelled with Python dictionary semantics (first position, last value), although the database driver's row mapping may reject an ambiguous column name before the comprehension runs; that driver behaviour is not part of this model.
- `str(value)` of a non-string cell: values arrive already in display form.
- Tools.GetSchemas: returns a set; the order of `list(set)` in the source's answer is unspecified.
- Tools.ExecuteQueryMd: requires every row to carry exactly the result's column names, as rows of one cursor do; the source would raise `KeyError` otherwise.
- The vendor pass-through tools `podbc_spasql_query`, `podbc_sparql_query`, `podbc_virtuoso_support_ai` and `podbc_sparql_func`: they bind parameters and return one scalar; their only logic is the `API_KEY` fallback.
- The `options` field of a foreign-key record: always an empty dictionary.
- `type(column['type']).__name__` is modelled as written (`Describe.PyTypeName`): it yields `"str"` or `"NoneType"`, not the SQL type.
- Module-level environment parsing (`DB_URL`, `MAX_LONG_DATA`, `API_KEY`), `load_dotenv`, logging, `get_db_info`, tool registration and `mcp_sqlalchemy_server/__init__.py` (argument parsing and transport glue). `MAX_LONG_DATA` is a parameter of the model, with `Query.DefaultMaxLongData` its default.

## Findings

| source | as written | input that shows it | evidently intended | confidence | as-written member | corrected member |
|---|---|---|---|---|---|---|
| mcp_sqlalchemy_server/server.py:362 | `_get_pk_constraint(...)['constrained_columns']` subscripts the `None` returned for a table without primary-key rows, so describing such a table raises `TypeError` | a table `DB.DBA.LOG` with one readable column `ID` and no primary-key rows | the table is described with an empty `primary_keys` list and no column flagged as a key | medium, not executed | Describe.KeylessTableFailsAsWritten | Describe.ComposeTableInfoCorrected |

`Describe.ComposeTableInfo` and `Tools.DescribeTable` keep the composition as written; `Describe.ComposeTableInfoCorrected` and `Tools.DescribeTableCorrected` are the corrected twins.
