/** The two output encodings of the query tools: JSON lines and a Markdown table. */
module Format {
  import opened Wrappers
  import opened Strings
  import opened OrderedDicts
  import opened Query

  /** The encoding of each row, in row order. */
  function Encodings(encode: Row -> string, rows: seq<Row>): (lines: seq<string>)
    ensures |lines| == |rows|
    ensures forall i :: 0 <= i < |rows| ==> lines[i] == encode(rows[i])
  {
    seq(|rows|, i requires 0 <= i < |rows| => encode(rows[i]))
  }

  /** `"\n".join(json.dumps(row) for row in results)`, with `encode` standing
      for `json.dumps`. */
  function Jsonl(encode: Row -> string, rows: seq<Row>): string
  {
    Join(Encodings(encode, rows), "\n")
  }

  /** The row encoder never emits a raw newline (`json.dumps` escapes it). */
  ghost predicate SingleLine(encode: Row -> string)
  {
    forall r :: '\n' !in encode(r)
  }

  /** The JSON-lines layout: nothing for no rows; otherwise one line per row, in
      row order, with `k - 1` separators and no newline after the last row. */
  lemma JsonlLayout(encode: Row -> string, rows: seq<Row>)
    requires SingleLine(encode)
    ensures |rows| == 0 ==> Jsonl(encode, rows) == ""
    ensures |rows| > 0 ==> Split(Jsonl(encode, rows), '\n') == Encodings(encode, rows)
    ensures |rows| > 0 ==> Occurrences(Jsonl(encode, rows), '\n') == |rows| - 1
    ensures |rows| > 0 && encode(rows[|rows| - 1]) != "" ==>
      var s := Jsonl(encode, rows); s[|s| - 1] != '\n'
  {
    var lines := Encodings(encode, rows);
    if |rows| > 0 {
      SplitJoin(lines, '\n');
      JoinSeparatorCount(lines, '\n');
      JoinEndsWithLast(lines, "\n");
      var s := Jsonl(encode, rows);
      var last := lines[|lines| - 1];
      if last != "" {
        assert s[|s| - 1] == last[|last| - 1];
        assert '\n' !in last;
      }
    }
  }

  /** `str(v)` of a truncated cell: a NULL prints as `None`. */
  function CellText(v: Option<string>): string
  {
    match v
    case None => "None"
    case Some(s) => s
  }

  /** Every row has a key for every column name, so `row[col]` cannot fail. */
  predicate Covers(columns: seq<string>, rows: seq<Row>)
  {
    forall i, j :: 0 <= i < |rows| && 0 <= j < |columns| ==> columns[j] in Keys(rows[i])
  }

  /** `["---"] * n`. */
  function Dashes(n: nat): (ds: seq<string>)
    ensures |ds| == n
    ensures forall i :: 0 <= i < n ==> ds[i] == "---"
  {
    seq(n, _ => "---")
  }

  /** The cells of one table row: `str(row[col])` for each column in turn. */
  function RowCells(columns: seq<string>, row: Row): (cells: seq<string>)
    requires forall j :: 0 <= j < |columns| ==> columns[j] in Keys(row)
    ensures |cells| == |columns|
  {
    seq(|columns|, j requires 0 <= j < |columns| => CellText(Get(row, columns[j]).value))
  }

  /** One table line without its newline. */
  function MdBody(cells: seq<string>): string
  {
    "| " + Join(cells, " | ") + " |"
  }

  /** The lines the Markdown tool appends: header, separator, one per row. */
  function MarkdownLines(columns: seq<string>, rows: seq<Row>): (lines: seq<string>)
    requires Covers(columns, rows)
    ensures |lines| == |rows| + 2
  {
    [MdBody(columns) + "\n", MdBody(Dashes(|columns|)) + "\n"]
      + seq(|rows|, i requires 0 <= i < |rows| => MdBody(RowCells(columns, rows[i])) + "\n")
  }

  /** The Markdown table the source builds with `+=`. */
  function Markdown(columns: seq<string>, rows: seq<Row>): string
    requires Covers(columns, rows)
  {
    Concat(MarkdownLines(columns, rows))
  }

  /** Each cell of a stream row's table line is the truncated value of the last
      column of that name, so with distinct names the cells are the row's values
      in column order; two columns of one name print the same cell. */
  lemma CellsFollowLastColumn(columns: seq<string>, raw: Row, limit: int)
    requires Keys(raw) == columns
    ensures forall j :: 0 <= j < |columns| ==> columns[j] in Keys(TruncateRow(raw, limit))
    ensures var cells := RowCells(columns, TruncateRow(raw, limit));
      && (forall j :: 0 <= j < |columns| && (forall k :: j < k < |columns| ==> columns[k] != columns[j]) ==>
            cells[j] == CellText(TruncateValue(raw[j].val, limit)))
      && (forall j, k :: 0 <= j < k < |columns| && columns[j] == columns[k] ==> cells[j] == cells[k])
  {
    var t := TruncateRow(raw, limit);
    assert forall j :: 0 <= j < |columns| ==> raw[j].key == columns[j] by {
      forall j | 0 <= j < |columns|
        ensures raw[j].key == columns[j]
      {
        assert Keys(raw)[j] == raw[j].key;
      }
    }
    TruncateRowLastWins(raw, limit);
  }

  lemma BodyIsOneLine(cells: seq<string>)
    requires forall i :: 0 <= i < |cells| ==> '\n' !in cells[i]
    ensures '\n' !in MdBody(cells)
  {
    JoinAvoids(cells, " | ", '\n');
  }

  /** No cell of a row whose values hold no newline holds one. */
  lemma CellsAreOneLine(columns: seq<string>, row: Row)
    requires forall j :: 0 <= j < |columns| ==> columns[j] in Keys(row)
    requires forall j :: 0 <= j < |row| ==> row[j].val.None? || '\n' !in row[j].val.value
    ensures '\n' !in MdBody(RowCells(columns, row))
  {
    var cells := RowCells(columns, row);
    forall j | 0 <= j < |cells|
      ensures '\n' !in cells[j]
    {
      var m := IndexOf(row, columns[j]);
      assert Get(row, columns[j]) == Some(row[m].val);
    }
    BodyIsOneLine(cells);
  }

  /** Each line of the table is one newline-free body followed by a newline. */
  lemma LinesAreTerminated(columns: seq<string>, rows: seq<Row>)
    requires Covers(columns, rows)
    requires forall j :: 0 <= j < |columns| ==> '\n' !in columns[j]
    requires forall i, j :: 0 <= i < |rows| && 0 <= j < |rows[i]| ==> rows[i][j].val.None? || '\n' !in rows[i][j].val.value
    ensures var lines := MarkdownLines(columns, rows);
      forall i :: 0 <= i < |lines| ==>
        && |lines[i]| >= 1 && lines[i][|lines[i]| - 1] == '\n'
        && '\n' !in lines[i][..|lines[i]| - 1]
        && lines[i][..|lines[i]| - 1] == (if i == 0 then MdBody(columns)
             else if i == 1 then MdBody(Dashes(|columns|))
             else MdBody(RowCells(columns, rows[i - 2])))
  {
    var lines := MarkdownLines(columns, rows);
    BodyIsOneLine(columns);
    BodyIsOneLine(Dashes(|columns|));
    forall i | 0 <= i < |lines|
      ensures |lines[i]| >= 1 && lines[i][|lines[i]| - 1] == '\n'
      ensures '\n' !in lines[i][..|lines[i]| - 1]
      ensures lines[i][..|lines[i]| - 1] == (if i == 0 then MdBody(columns)
             else if i == 1 then MdBody(Dashes(|columns|))
             else MdBody(RowCells(columns, rows[i - 2])))
    {
      var body := if i == 0 then MdBody(columns)
        else if i == 1 then MdBody(Dashes(|columns|))
        else MdBody(RowCells(columns, rows[i - 2]));
      if i >= 2 {
        CellsAreOneLine(columns, rows[i - 2]);
      }
      assert lines[i] == body + "\n";
      assert lines[i][..|lines[i]| - 1] == body;
    }
  }

  /** The Markdown layout: exactly `k + 2` newline-terminated lines (header,
      separator, one per row) when no name or cell holds a newline. */
  lemma MarkdownLayout(columns: seq<string>, rows: seq<Row>)
    requires Covers(columns, rows)
    requires forall j :: 0 <= j < |columns| ==> '\n' !in columns[j]
    requires forall i, j :: 0 <= i < |rows| && 0 <= j < |rows[i]| ==> rows[i][j].val.None? || '\n' !in rows[i][j].val.value
    ensures var lines := Split(Markdown(columns, rows), '\n');
      && |lines| == |rows| + 3
      && lines[0] == MdBody(columns)
      && lines[1] == MdBody(Dashes(|columns|))
      && (forall i :: 0 <= i < |rows| ==> lines[i + 2] == MdBody(RowCells(columns, rows[i])))
      && lines[|rows| + 2] == ""
    ensures Occurrences(Markdown(columns, rows), '\n') == |rows| + 2
  {
    var lines := MarkdownLines(columns, rows);
    LinesAreTerminated(columns, rows);
    SplitLines(lines, '\n');
    var pieces := Split(Markdown(columns, rows), '\n');
    forall i | 0 <= i < |lines|
      ensures pieces[i] == lines[i][..|lines[i]| - 1]
    {
      assert pieces[i] + ['\n'] == lines[i];
      assert (pieces[i] + ['\n'])[..|pieces[i]|] == pieces[i];
    }
    assert pieces[0] == MdBody(columns);
    assert pieces[1] == MdBody(Dashes(|columns|));
    forall i | 0 <= i < |rows|
      ensures pieces[i + 2] == MdBody(RowCells(columns, rows[i]))
    {
      assert pieces[i + 2] == lines[i + 2][..|lines[i + 2]| - 1];
    }
  }

  /** With no rows, the table is the header and the separator alone. */
  lemma EmptyTable(columns: seq<string>)
    ensures Markdown(columns, []) == MdBody(columns) + "\n" + MdBody(Dashes(|columns|)) + "\n"
  {
    var lines := MarkdownLines(columns, []);
    var h := MdBody(columns) + "\n";
    var d := MdBody(Dashes(|columns|)) + "\n";
    assert lines == [h, d];
    assert lines[1..] == [d];
    assert lines[1..][1..] == [];
    assert Concat(lines) == h + Concat([d]);
    assert Concat([d]) == d + Concat([]);
  }
}
