/**
 * `format_as_markdown_table` of the SQL tool server: query rows to a GitHub-style
 * Markdown table with a header line, a `---` line, one line per row and a row-count footer.
 */
module SqlServer {
  import opened Text

  /** A column value as the SQLite driver hands it over (REAL and BLOB are not modelled). */
  datatype Value = Null | Int(i: int) | Str(s: string)

  /** A result row as a dict: column name to value. */
  type Row = map<string, Value>

  /** Python's `str(v)`: SQL NULL arrives as `None` and prints as "None". */
  function Render(v: Value): string {
    match v
    case Null => "None"
    case Int(i) => IntString(i)
    case Str(s) => s
  }

  /** `str(row.get(col, "NULL"))`: "NULL" only for a column the row does not have. */
  function Cell(row: Row, col: string): string {
    if col in row then Render(row[col]) else "NULL"
  }

  /** The cells of one row, in column order. */
  function Cells(row: Row, columns: seq<string>): (cells: seq<string>)
    ensures |cells| == |columns|
  {
    seq(|columns|, j requires 0 <= j < |columns| => Cell(row, columns[j]))
  }

  /**
   * A column the row lacks shows "NULL"; a column the row has with SQL NULL shows "None".
   * Rows built from a query always have every column, so "NULL" never reaches the output there.
   */
  lemma NullCells(row: Row, columns: seq<string>, j: nat)
    requires j < |columns|
    ensures columns[j] !in row ==> Cells(row, columns)[j] == "NULL"
    ensures columns[j] in row && row[columns[j]] == Null ==> Cells(row, columns)[j] == "None"
    ensures columns[j] in row && row[columns[j]].Str? ==> Cells(row, columns)[j] == row[columns[j]].s
  {
  }

  /** A Markdown table line with these cells. */
  function TableLine(cells: seq<string>): string {
    "| " + Join(" | ", cells) + " |"
  }

  function Dashes(n: nat): (r: seq<string>)
    ensures |r| == n && forall k :: 0 <= k < n ==> r[k] == "---"
  {
    seq(n, _ => "---")
  }

  function Footer(n: nat): string {
    "*" + DecimalString(n) + " row(s) returned*"
  }

  const NoData := "No data to display."

  /** The lines of a non-empty table: header, separator, one line per row in order. */
  function TableLines(data: seq<Row>, columns: seq<string>): (lines: seq<string>)
    ensures |lines| == |data| + 2
  {
    [TableLine(columns), TableLine(Dashes(|columns|))]
      + seq(|data|, i requires 0 <= i < |data| => TableLine(Cells(data[i], columns)))
  }

  /** The string `format_as_markdown_table(data, columns)` returns. */
  function MarkdownTable(data: seq<Row>, columns: seq<string>): string {
    if data == [] || columns == [] then NoData
    else Join("\n", TableLines(data, columns)) + "\n\n" + Footer(|data|)
  }

  /**
   * The loop of the source: the row lines are appended one per element of `data`, then
   * everything is joined with newlines and the footer added.
   */
  method FormatAsMarkdownTable(data: seq<Row>, columns: seq<string>) returns (out: string)
    ensures out == MarkdownTable(data, columns)
  {
    if data == [] || columns == [] {
      return NoData;
    }
    var header := TableLine(columns);
    var separator := TableLine(Dashes(|columns|));
    var rows: seq<string> := [];
    for i := 0 to |data|
      invariant |rows| == i
      invariant forall k :: 0 <= k < i ==> rows[k] == TableLine(Cells(data[k], columns))
    {
      rows := rows + [TableLine(Cells(data[i], columns))];
    }
    assert [header, separator] + rows == TableLines(data, columns);
    out := Join("\n", [header, separator] + rows) + "\n\n" + Footer(|data|);
  }

  /** "No data to display." comes out exactly when there are no rows or no columns. */
  lemma NoDataExactly(data: seq<Row>, columns: seq<string>)
    ensures MarkdownTable(data, columns) == NoData <==> data == [] || columns == []
  {
  }

  /** Nothing in the table's pieces breaks a line. */
  ghost predicate SingleLineCells(data: seq<Row>, columns: seq<string>) {
    && (forall j :: 0 <= j < |columns| ==> '\n' !in columns[j])
    && (forall i, c :: 0 <= i < |data| && c in data[i] ==> '\n' !in Render(data[i][c]))
  }

  lemma {:induction false} JoinNoNewline(sep: string, xs: seq<string>)
    requires '\n' !in sep && forall k :: 0 <= k < |xs| ==> '\n' !in xs[k]
    ensures '\n' !in Join(sep, xs)
    decreases |xs|
  {
    if |xs| > 1 {
      JoinNoNewline(sep, xs[1..]);
    }
  }

  /** Each line of the table is a single line when no column name or value breaks one. */
  lemma LinesHaveNoNewline(data: seq<Row>, columns: seq<string>)
    requires SingleLineCells(data, columns)
    ensures forall k :: 0 <= k < |TableLines(data, columns)| ==> '\n' !in TableLines(data, columns)[k]
  {
    var lines := TableLines(data, columns);
    forall k | 0 <= k < |lines|
      ensures '\n' !in lines[k]
    {
      if k == 0 {
        JoinNoNewline(" | ", columns);
      } else if k == 1 {
        JoinNoNewline(" | ", Dashes(|columns|));
      } else {
        var cells := Cells(data[k - 2], columns);
        forall j | 0 <= j < |cells|
          ensures '\n' !in cells[j]
        {
        }
        JoinNoNewline(" | ", cells);
      }
    }
  }

  /**
   * When no column name or value holds a newline, the output read line by line is the
   * header, the separator, one line per row in order, an empty line and the row count.
   */
  lemma OutputLines(data: seq<Row>, columns: seq<string>)
    requires data != [] && columns != []
    requires SingleLineCells(data, columns)
    ensures Split(MarkdownTable(data, columns), '\n')
         == TableLines(data, columns) + ["", Footer(|data|)]
  {
    var lines := TableLines(data, columns);
    var tail := ["", Footer(|data|)];
    var all := lines + tail;
    JoinAppend("\n", lines, tail);
    assert Join("\n", tail) == "" + "\n" + Footer(|data|);
    assert MarkdownTable(data, columns) == Join("\n", all);
    LinesHaveNoNewline(data, columns);
    assert '\n' !in DecimalString(|data|);
    assert forall k :: 0 <= k < |tail| ==> '\n' !in tail[k];
    assert forall k :: 0 <= k < |all| ==> '\n' !in all[k] by {
      forall k | 0 <= k < |all|
        ensures '\n' !in all[k]
      {
        if k < |lines| {
          assert all[k] == lines[k];
        } else {
          assert all[k] == tail[k - |lines|];
        }
      }
    }
    SplitJoin(all, '\n');
  }

  /**
   * A line of `n` cells without `|` has `n + 1` bars: the header has one cell per column,
   * the separator `n` cells of `---`, and each row line one cell per column.
   */
  lemma {:induction false} TableLineBars(cells: seq<string>)
    requires cells != []
    requires forall k :: 0 <= k < |cells| ==> '|' !in cells[k]
    ensures Count('|', TableLine(cells)) == |cells| + 1
  {
    CountJoin('|', " | ", cells);
    CountAppend('|', "| ", Join(" | ", cells));
    CountAppend('|', "| " + Join(" | ", cells), " |");
  }

  /** The separator line has one `---` cell per column. */
  lemma SeparatorBars(n: nat)
    requires n > 0
    ensures Count('|', TableLine(Dashes(n))) == n + 1
  {
    TableLineBars(Dashes(n));
  }
}
