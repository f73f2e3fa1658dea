/*
 * Table extraction: positioned spans grouped into rows by y, columns found
 * by clustering the x positions, and each span's text placed in the cell of
 * its nearest column; then the CSV, TSV and aligned-text renderings.
 */
module Tables {
  import opened Common
  import opened TextSpans

  /** `Table`: rows of cell texts and the number of columns detected. */
  datatype Table = Table(rows: seq<seq<string>>, numColumns: nat)

  const EMPTY_TABLE: Table := Table([], 0)

  /** The double quote that CSV cells are quoted with. */
  const QUOTE: char := 34 as char

  /** How far apart, at most, two neighbouring x positions of one column are. */
  const COLUMN_GAP: real := 10.0

  // ---------------------------------------------------------------------------
  // Spans kept, and the row tolerance

  /** A span whose text is only white space. */
  predicate Blank(s: TextSpan) { Trim(s.text) == [] }

  predicate Visible(s: TextSpan) { !Blank(s) }

  /** The spans that are not blank, in order. */
  function NonBlank(spans: seq<TextSpan>): (r: seq<TextSpan>)
    ensures |r| <= |spans|
  {
    Filter(spans, Visible)
  }

  /** The font sizes added up. */
  function SizeSum(spans: seq<TextSpan>): real
  {
    if spans == [] then 0.0 else SizeSum(spans[..|spans| - 1]) + spans[|spans| - 1].fontSize
  }

  /** The mean font size, half of which is the row tolerance. */
  function AverageFontSize(spans: seq<TextSpan>): real
    requires spans != []
  {
    SizeSum(spans) / |spans| as real
  }

  function RowTolerance(spans: seq<TextSpan>): real
    requires spans != []
  {
    AverageFontSize(spans) * 0.5
  }

  /** `cluster_into_rows` followed by the sort of each row by x. */
  function RowsOf(spans: seq<TextSpan>, tol: real): (rows: seq<seq<TextSpan>>)
  {
    var groups := Rows(StableSort(spans), tol);
    seq(|groups|, k requires 0 <= k < |groups| => SortBy(groups[k], XOf))
  }

  // ---------------------------------------------------------------------------
  // Columns

  /** The x positions of the spans of every row, row after row. */
  function XPositions(rows: seq<seq<TextSpan>>): (xs: seq<real>)
  {
    if rows == [] then []
    else
      var row := rows[|rows| - 1];
      XPositions(rows[..|rows| - 1]) + seq(|row|, i requires 0 <= i < |row| => row[i].x)
  }

  function Sum(xs: seq<real>): real
  {
    if xs == [] then 0.0 else Sum(xs[..|xs| - 1]) + xs[|xs| - 1]
  }

  function Average(xs: seq<real>): real
    requires xs != []
  {
    Sum(xs) / |xs| as real
  }

  /**
   * The clustering loop of `detect_columns` over sorted positions from
   * index `i`, with the averages `cols` already pushed and the open cluster
   * `cur`: a position at most `COLUMN_GAP` after the cluster's last one
   * joins it, any other closes it.
   */
  function ClusterF(xs: seq<real>, i: nat, cols: seq<real>, cur: seq<real>): (r: seq<real>)
    requires i <= |xs|
    decreases |xs| - i
  {
    if i == |xs| then (if cur != [] then cols + [Average(cur)] else cols)
    else if cur == [] then ClusterF(xs, i + 1, cols, [xs[i]])
    else if Abs(xs[i] - cur[|cur| - 1]) <= COLUMN_GAP then ClusterF(xs, i + 1, cols, cur + [xs[i]])
    else ClusterF(xs, i + 1, cols + [Average(cur)], [xs[i]])
  }

  /** `detect_columns`: the averages of the clusters of the sorted x positions. */
  function ColumnsOf(rows: seq<seq<TextSpan>>): seq<real>
  {
    ClusterF(SortBy(XPositions(rows), Coordinate), 0, [], [])
  }

  /** Strictly ascending. */
  predicate Increasing(cols: seq<real>)
  {
    forall i, j | 0 <= i < j < |cols| :: cols[i] < cols[j]
  }

  // ---------------------------------------------------------------------------
  // Cells

  /** The first column nearest to `x` among the first `n` (`min_by` keeps the first of equal minima). */
  function NearestIn(x: real, cols: seq<real>, n: nat): (k: nat)
    requires 0 < n <= |cols|
    ensures k < n
    ensures forall j | 0 <= j < n :: Abs(x - cols[k]) <= Abs(x - cols[j])
    ensures forall j | 0 <= j < k :: Abs(x - cols[j]) > Abs(x - cols[k])
  {
    if n == 1 then 0
    else
      var b := NearestIn(x, cols, n - 1);
      if Abs(x - cols[b]) <= Abs(x - cols[n - 1]) then b else n - 1
  }

  function Nearest(x: real, cols: seq<real>): (k: nat)
    requires cols != []
    ensures k < |cols|
  {
    NearestIn(x, cols, |cols|)
  }

  /** `text` appended to cell `k`, after a space when the cell already holds something. */
  function Place(cells: seq<string>, k: nat, text: string): (r: seq<string>)
    requires k < |cells|
    ensures |r| == |cells|
  {
    cells[k := if cells[k] == [] then text else cells[k] + " " + text]
  }

  /** The cells of one row: the spans placed in order, each in the cell of its nearest column. */
  function CellsF(row: seq<TextSpan>, cols: seq<real>): (cells: seq<string>)
    requires cols != [] || row == []
    ensures |cells| == |cols|
  {
    if row == [] then seq(|cols|, _ => "")
    else
      var last := row[|row| - 1];
      Place(CellsF(row[..|row| - 1], cols), Nearest(last.x, cols), last.text)
  }

  /** The texts of the spans of `row` whose nearest column is `k`, in order. */
  function TextsAt(row: seq<TextSpan>, cols: seq<real>, k: nat): seq<string>
    requires cols != []
  {
    if row == [] then []
    else
      var last := row[|row| - 1];
      TextsAt(row[..|row| - 1], cols, k) + (if Nearest(last.x, cols) == k then [last.text] else [])
  }

  /** `assign_to_columns`. */
  function GridF(rows: seq<seq<TextSpan>>, cols: seq<real>): (grid: seq<seq<string>>)
    requires cols != [] || forall k | 0 <= k < |rows| :: rows[k] == []
    ensures |grid| == |rows| && forall k | 0 <= k < |rows| :: |grid[k]| == |cols|
  {
    seq(|rows|, k requires 0 <= k < |rows| => CellsF(rows[k], cols))
  }

  /** The table of spans none of which is blank. */
  function TableOf(s: seq<TextSpan>): (t: Table)
    requires s != []
    ensures forall k | 0 <= k < |t.rows| :: |t.rows[k]| == t.numColumns
  {
    var rows := RowsOf(s, RowTolerance(s));
    var cols := ColumnsOf(rows);
    RowsOfCount(s, RowTolerance(s));
    ColumnsAscend(rows);
    Table(GridF(rows, cols), |cols|)
  }

  /** `Table::from_spans`. */
  function FromSpansF(spans: seq<TextSpan>): Table
  {
    var s := NonBlank(spans);
    if s == [] then EMPTY_TABLE else TableOf(s)
  }

  // ---------------------------------------------------------------------------
  // Renderings

  /** A cell that `escape_csv` quotes: one holding a comma, a double quote, a carriage return or a line feed. */
  predicate NeedsQuotes(s: string) { ',' in s || QUOTE in s || '\n' in s || '\r' in s }

  /** `escape_csv`: a cell needing quotes is quoted, its quotes doubled; any other cell is left as it is. */
  function EscapeCsv(s: string): (r: string)
    ensures !NeedsQuotes(s) ==> r == s
    ensures NeedsQuotes(s) ==> |r| >= |s| + 2 && r[0] == QUOTE && r[|r| - 1] == QUOTE
  {
    if NeedsQuotes(s) then [QUOTE] + ReplaceChar(s, QUOTE, [QUOTE, QUOTE]) + [QUOTE] else s
  }

  function CsvFields(row: seq<string>): (r: seq<string>)
    ensures |r| == |row|
  {
    if row == [] then [] else [EscapeCsv(row[0])] + CsvFields(row[1..])
  }

  function CsvLines(rows: seq<seq<string>>): (r: seq<string>)
    ensures |r| == |rows|
  {
    if rows == [] then [] else [Join(CsvFields(rows[0]), ",")] + CsvLines(rows[1..])
  }

  /** `to_csv`: the escaped cells joined by commas, the rows by line feeds. */
  function ToCsv(t: Table): string
  {
    Join(CsvLines(t.rows), "\n")
  }

  function TsvCells(row: seq<string>): (r: seq<string>)
    ensures |r| == |row|
    ensures forall j | 0 <= j < |r| :: r[j] == ReplaceChar(row[j], '\t', " ")
  {
    if row == [] then [] else [ReplaceChar(row[0], '\t', " ")] + TsvCells(row[1..])
  }

  function TsvLines(rows: seq<seq<string>>): (r: seq<string>)
    ensures |r| == |rows|
    ensures forall k | 0 <= k < |r| :: r[k] == Join(TsvCells(rows[k]), "\t")
  {
    if rows == [] then [] else [Join(TsvCells(rows[0]), "\t")] + TsvLines(rows[1..])
  }

  /** `to_tsv`: tabs in cells become spaces; cells are joined by tabs, rows by line feeds. */
  function ToTsv(t: Table): string
  {
    Join(TsvLines(t.rows), "\n")
  }

  /** The widths loop of `to_text` over the rows from `k` on: each column's widest cell. */
  function WidthsF(rows: seq<seq<string>>, widths: seq<nat>): (r: seq<nat>)
    ensures |r| == |widths|
    ensures forall i | 0 <= i < |widths| :: widths[i] <= r[i]
    decreases |rows|
  {
    if rows == [] then widths
    else WidthsF(rows[1..], RowWidths(rows[0], widths))
  }

  /** `widths` widened to the cells of one row (cells beyond the columns are ignored). */
  function RowWidths(row: seq<string>, widths: seq<nat>): (r: seq<nat>)
    ensures |r| == |widths|
  {
    seq(|widths|, i requires 0 <= i < |widths| => if i < |row| then Max(widths[i], |row[i]|) else widths[i])
  }

  function ColumnWidths(t: Table): seq<nat>
  {
    WidthsF(t.rows, ZeroWidths(t.numColumns))
  }

  /** Every column of `n` at width zero, where the width computation starts. */
  function ZeroWidths(n: nat): (z: seq<nat>)
    ensures |z| == n && forall i | 0 <= i < n :: z[i] == 0
  {
    seq(n, _ => 0)
  }

  /** A cell left-aligned to its column's width (no padding past the last column). */
  function PadCells(row: seq<string>, widths: seq<nat>): (r: seq<string>)
    ensures |r| == |row|
    ensures forall i | 0 <= i < |r| :: r[i] == PadRight(row[i], if i < |widths| then widths[i] else 0)
  {
    seq(|row|, i requires 0 <= i < |row| => PadRight(row[i], if i < |widths| then widths[i] else 0))
  }

  /** One line of `to_text` before its end is trimmed. */
  function PaddedLine(row: seq<string>, widths: seq<nat>): string
  {
    Join(PadCells(row, widths), "  ")
  }

  function TextLinesOf(rows: seq<seq<string>>, widths: seq<nat>): (r: seq<string>)
    ensures |r| == |rows|
    ensures forall k | 0 <= k < |r| :: r[k] == TrimEnd(PaddedLine(rows[k], widths))
  {
    if rows == [] then [] else [TrimEnd(PaddedLine(rows[0], widths))] + TextLinesOf(rows[1..], widths)
  }

  /** `to_text`: cells padded to their column's width and joined by two spaces, each line trimmed at the end. */
  function ToTextF(t: Table): string
  {
    if t.rows == [] then "" else Join(TextLinesOf(t.rows, ColumnWidths(t)), "\n")
  }

  // ---------------------------------------------------------------------------
  // Properties of rows

  /** The number of spans in all the rows. */
  function Count(rows: seq<seq<TextSpan>>): nat
  {
    if rows == [] then 0 else Count(rows[..|rows| - 1]) + |rows[|rows| - 1]|
  }

  lemma {:induction false} FlattenCount(rows: seq<seq<TextSpan>>)
    ensures |Flatten(rows)| == Count(rows)
    decreases |rows|
  {
    if rows != [] {
      FlattenCount(rows[..|rows| - 1]);
    }
  }

  lemma {:induction false} XPositionsCount(rows: seq<seq<TextSpan>>)
    ensures |XPositions(rows)| == Count(rows)
    decreases |rows|
  {
    if rows != [] {
      XPositionsCount(rows[..|rows| - 1]);
    }
  }

  /** Sorting each row by x keeps the number of spans. */
  lemma {:induction false} SortRowsCount(groups: seq<seq<TextSpan>>)
    ensures Count(seq(|groups|, k requires 0 <= k < |groups| => SortBy(groups[k], XOf))) == Count(groups)
    decreases |groups|
  {
    if groups != [] {
      var init := groups[..|groups| - 1];
      var sorted := seq(|groups|, k requires 0 <= k < |groups| => SortBy(groups[k], XOf));
      assert sorted[..|sorted| - 1] == seq(|init|, k requires 0 <= k < |init| => SortBy(init[k], XOf));
      SortRowsCount(init);
    }
  }

  /** The rows hold as many spans, and so x positions, as there are spans. */
  lemma RowsOfCount(s: seq<TextSpan>, tol: real)
    ensures |XPositions(RowsOf(s, tol))| == |s|
    ensures |RowsOf(s, tol)| <= |s|
  {
    var groups := Rows(StableSort(s), tol);
    RowsFlatten(StableSort(s), tol);
    FlattenCount(groups);
    SortRowsCount(groups);
    XPositionsCount(RowsOf(s, tol));
    NonEmptyRowsCount(groups);
  }

  /** Non-empty rows are no more than the spans in them. */
  lemma {:induction false} NonEmptyRowsCount(rows: seq<seq<TextSpan>>)
    requires NonEmptyRows(rows)
    ensures |rows| <= Count(rows)
    decreases |rows|
  {
    if rows != [] {
      NonEmptyRowsCount(rows[..|rows| - 1]);
    }
  }

  /**
   * The layout of the rows `from_spans` builds, for a tolerance that is not
   * negative: together they hold the spans in reading order (top to bottom,
   * then left to right), each lies within the tolerance of its first span,
   * consecutive rows start further apart than that, and each row, once
   * sorted, holds the same spans as its group in ascending x.
   */
  lemma RowsLayout(s: seq<TextSpan>, tol: real)
    requires tol >= 0.0
    ensures var groups := Rows(StableSort(s), tol);
      && multiset(Flatten(groups)) == multiset(s)
      && InReadingOrder(Flatten(groups))
      && WellFormedRows(groups, tol)
      && RowsSeparated(groups, tol)
      && |RowsOf(s, tol)| == |groups|
      && forall k | 0 <= k < |groups| ::
           SortedBy(RowsOf(s, tol)[k], XOf) && multiset(RowsOf(s, tol)[k]) == multiset(groups[k])
  {
    var groups := Rows(StableSort(s), tol);
    StableSortSorted(s);
    RowsPartition(StableSort(s), tol);
    RowsApart(StableSort(s), tol);
    forall k | 0 <= k < |groups| ensures SortedBy(RowsOf(s, tol)[k], XOf) {
      SortBySorted(groups[k], XOf);
    }
  }

  // ---------------------------------------------------------------------------
  // Properties of columns

  lemma {:induction false} ClusterNonEmpty(xs: seq<real>, i: nat, cols: seq<real>, cur: seq<real>)
    requires i <= |xs|
    requires i < |xs| || cur != [] || cols != []
    ensures ClusterF(xs, i, cols, cur) != []
    decreases |xs| - i
  {
    if i < |xs| {
      if cur == [] {
        ClusterNonEmpty(xs, i + 1, cols, [xs[i]]);
      } else if Abs(xs[i] - cur[|cur| - 1]) <= COLUMN_GAP {
        ClusterNonEmpty(xs, i + 1, cols, cur + [xs[i]]);
      } else {
        ClusterNonEmpty(xs, i + 1, cols + [Average(cur)], [xs[i]]);
      }
    }
  }

  /** Values between `lo` and `hi` sum to between `n * lo` and `n * hi`. */
  lemma {:induction false} SumBounds(xs: seq<real>, lo: real, hi: real)
    requires forall i | 0 <= i < |xs| :: lo <= xs[i] <= hi
    ensures |xs| as real * lo <= Sum(xs) <= |xs| as real * hi
    decreases |xs|
  {
    if xs != [] {
      SumBounds(xs[..|xs| - 1], lo, hi);
      assert |xs| as real * lo == (|xs| - 1) as real * lo + lo;
      assert |xs| as real * hi == (|xs| - 1) as real * hi + hi;
    }
  }

  /** The average of values between `lo` and `hi` is between them. */
  lemma AverageBounds(xs: seq<real>, lo: real, hi: real)
    requires xs != []
    requires forall i | 0 <= i < |xs| :: lo <= xs[i] <= hi
    ensures lo <= Average(xs) <= hi
  {
    SumBounds(xs, lo, hi);
    QuotientBounds(Sum(xs), |xs| as real, lo, hi);
  }

  /** Dividing by a positive `n` keeps a value between `n * lo` and `n * hi` between `lo` and `hi`. */
  lemma QuotientBounds(x: real, n: real, lo: real, hi: real)
    requires n > 0.0 && n * lo <= x <= n * hi
    ensures lo <= x / n <= hi
  {
    var q := x / n;
    assert n * q == x;
    assert n * (q - lo) >= 0.0 && n * (hi - q) >= 0.0;
  }

  /**
   * The clustering loop's invariant, for sorted positions: the averages
   * pushed so far ascend strictly and lie below the open cluster, which is a
   * sorted run ending at the previous position; there are no more averages
   * than positions read.
   */
  ghost predicate ClusterInvariant(xs: seq<real>, i: nat, cols: seq<real>, cur: seq<real>)
  {
    && i <= |xs| && SortedBy(xs, Coordinate) && Increasing(cols)
    && |cols| + (if cur != [] then 1 else 0) <= i
    && (i > 0 <==> cur != [])
    && (cur != [] ==>
          && cur[|cur| - 1] == xs[i - 1]
          && (forall j | 0 <= j < |cur| :: cur[0] <= cur[j] <= cur[|cur| - 1])
          && (forall j | 0 <= j < |cols| :: cols[j] < cur[0]))
  }

  lemma {:induction false} ClusterIncreasing(xs: seq<real>, i: nat, cols: seq<real>, cur: seq<real>)
    requires ClusterInvariant(xs, i, cols, cur)
    ensures Increasing(ClusterF(xs, i, cols, cur))
    ensures |ClusterF(xs, i, cols, cur)| <= |xs|
    decreases |xs| - i
  {
    if i == |xs| {
      if cur != [] {
        AverageBounds(cur, cur[0], cur[|cur| - 1]);
      }
    } else if cur == [] {
      ClusterIncreasing(xs, i + 1, cols, [xs[i]]);
    } else {
      assert Coordinate(xs[i - 1]) <= Coordinate(xs[i]);
      if Abs(xs[i] - cur[|cur| - 1]) <= COLUMN_GAP {
        ClusterIncreasing(xs, i + 1, cols, cur + [xs[i]]);
      } else {
        AverageBounds(cur, cur[0], cur[|cur| - 1]);
        var cols' := cols + [Average(cur)];
        assert Increasing(cols');
        ClusterIncreasing(xs, i + 1, cols', [xs[i]]);
      }
    }
  }

  /**
   * The detected column positions ascend strictly, there are no more of
   * them than x positions, and there are some exactly when there are
   * positions.
   */
  lemma ColumnsAscend(rows: seq<seq<TextSpan>>)
    ensures Increasing(ColumnsOf(rows))
    ensures |ColumnsOf(rows)| <= |XPositions(rows)|
    ensures ColumnsOf(rows) == [] <==> XPositions(rows) == []
  {
    var xs := SortBy(XPositions(rows), Coordinate);
    SortBySorted(XPositions(rows), Coordinate);
    ClusterIncreasing(xs, 0, [], []);
    if xs != [] {
      ClusterNonEmpty(xs, 0, [], []);
    }
  }

  /** Positions that never lie more than `COLUMN_GAP` apart make a single column, at their average. */
  lemma {:induction false} CloseTogether(xs: seq<real>, i: nat, cur: seq<real>)
    requires 0 < i <= |xs| && cur != [] && cur[|cur| - 1] == xs[i - 1]
    requires forall j | 0 < j < |xs| :: Abs(xs[j] - xs[j - 1]) <= COLUMN_GAP
    ensures ClusterF(xs, i, [], cur) == [Average(cur + xs[i..])]
    decreases |xs| - i
  {
    if i == |xs| {
      assert cur + xs[i..] == cur;
    } else {
      CloseTogether(xs, i + 1, cur + [xs[i]]);
      assert cur + [xs[i]] + xs[i + 1..] == cur + xs[i..];
    }
  }

  // ---------------------------------------------------------------------------
  // Properties of cells

  /**
   * Every cell holds, joined by single spaces, the texts of exactly the
   * spans whose nearest column it is, in the order of the row; it is empty
   * exactly when there are none.
   */
  lemma {:induction false} CellHoldsItsTexts(row: seq<TextSpan>, cols: seq<real>, k: nat)
    requires cols != [] && k < |cols|
    requires forall i | 0 <= i < |row| :: row[i].text != []
    ensures CellsF(row, cols)[k] == Join(TextsAt(row, cols, k), " ")
    ensures CellsF(row, cols)[k] == [] <==> TextsAt(row, cols, k) == []
    decreases |row|
  {
    if row != [] {
      var init, last := row[..|row| - 1], row[|row| - 1];
      CellHoldsItsTexts(init, cols, k);
      var before, cells := TextsAt(init, cols, k), CellsF(init, cols);
      if Nearest(last.x, cols) == k {
        assert TextsAt(row, cols, k) == before + [last.text];
        assert CellsF(row, cols)[k] == if cells[k] == [] then last.text else cells[k] + " " + last.text;
        JoinSnoc(before, last.text, " ");
      } else {
        assert TextsAt(row, cols, k) == before;
        assert CellsF(row, cols)[k] == cells[k];
      }
    }
  }

  // ---------------------------------------------------------------------------
  // Properties of the table

  /**
   * The shape of `from_spans`: no rows and no columns when every span is
   * blank; otherwise at least one column, no more columns and no more rows
   * than non-blank spans, and every row exactly one cell per column.
   */
  lemma FromSpansShape(spans: seq<TextSpan>)
    ensures var t := FromSpansF(spans);
      && (NonBlank(spans) == [] <==> t == EMPTY_TABLE)
      && (forall k | 0 <= k < |t.rows| :: |t.rows[k]| == t.numColumns)
      && |t.rows| <= |NonBlank(spans)|
      && t.numColumns <= |NonBlank(spans)|
      && (NonBlank(spans) != [] ==> 1 <= t.numColumns)
  {
    var s := NonBlank(spans);
    if s != [] {
      var rows := RowsOf(s, RowTolerance(s));
      RowsOfCount(s, RowTolerance(s));
      ColumnsAscend(rows);
    }
  }

  /** Only blank spans, or none, give the empty table. */
  lemma NonBlankEmpty(spans: seq<TextSpan>)
    ensures NonBlank(spans) == [] <==> forall i | 0 <= i < |spans| :: Blank(spans[i])
  {
    FilterEmpty(spans, Visible);
    assert forall i | 0 <= i < |spans| :: Visible(spans[i]) <==> !Blank(spans[i]);
  }

  /** Every span kept is one of the input's, and is not blank. */
  lemma NonBlankOnly(spans: seq<TextSpan>, k: nat)
    requires k < |NonBlank(spans)|
    ensures NonBlank(spans)[k] in spans && !Blank(NonBlank(spans)[k])
  {
    FilterOnly(spans, Visible, k);
  }

  /** Every span that is not blank is kept. */
  lemma NonBlankKeeps(spans: seq<TextSpan>, k: nat)
    requires k < |spans| && !Blank(spans[k])
    ensures spans[k] in NonBlank(spans)
  {
    FilterKeeps(spans, Visible, k);
  }

  // ---------------------------------------------------------------------------
  // Reading the CSV back (RFC 4180, with a line feed between records)

  /** A quoted field after its opening quote: a doubled quote stands for one, a single quote ends the field. */
  function ReadQuoted(s: string, acc: string): (r: (string, string))
    ensures |r.1| <= |s|
    decreases |s|
  {
    if s == [] then (acc, [])
    else if s[0] == QUOTE then
      if |s| > 1 && s[1] == QUOTE then ReadQuoted(s[2..], acc + [QUOTE]) else (acc, s[1..])
    else ReadQuoted(s[1..], acc + [s[0]])
  }

  /** An unquoted field: everything up to a comma, a line feed or the end. */
  function ReadPlain(s: string, acc: string): (r: (string, string))
    ensures |r.1| <= |s|
    decreases |s|
  {
    if s == [] || s[0] == ',' || s[0] == '\n' then (acc, s) else ReadPlain(s[1..], acc + [s[0]])
  }

  /** One field at the start of `s`, and what follows it. */
  function ReadField(s: string): (r: (string, string))
    ensures |r.1| <= |s|
  {
    if s != [] && s[0] == QUOTE then ReadQuoted(s[1..], []) else ReadPlain(s, [])
  }

  /** One record: its fields, what follows its line feed, and whether there was one. */
  function ReadRecord(s: string, acc: seq<string>): (r: (seq<string>, string, bool))
    ensures r.2 ==> |r.1| < |s|
    decreases |s|
  {
    var (f, rest) := ReadField(s);
    if rest != [] && rest[0] == ',' then ReadRecord(rest[1..], acc + [f])
    else if rest != [] && rest[0] == '\n' then (acc + [f], rest[1..], true)
    else (acc + [f], rest, false)
  }

  /** The records of a CSV text. */
  function ReadCsv(s: string): (rows: seq<seq<string>>)
    ensures rows != []
    decreases |s|
  {
    var (rec, rest, more) := ReadRecord(s, []);
    if more then [rec] + ReadCsv(rest) else [rec]
  }

  lemma {:induction false} PlainRoundTrip(c: string, rest: string, acc: string)
    requires !NeedsQuotes(c)
    requires rest == [] || rest[0] == ',' || rest[0] == '\n'
    ensures ReadPlain(c + rest, acc) == (acc + c, rest)
    decreases |c|
  {
    if c == [] {
      assert c + rest == rest && acc + c == acc;
    } else {
      assert c[0] in c;
      assert (c + rest)[1..] == c[1..] + rest;
      assert !NeedsQuotes(c[1..]) by {
        forall i | 0 <= i < |c[1..]| ensures c[1..][i] in c { assert c[1..][i] == c[i + 1]; }
      }
      PlainRoundTrip(c[1..], rest, acc + [c[0]]);
      assert acc + [c[0]] + c[1..] == acc + c;
    }
  }

  lemma {:induction false} QuotedRoundTrip(c: string, rest: string, acc: string)
    requires rest == [] || rest[0] == ',' || rest[0] == '\n'
    ensures ReadQuoted(ReplaceChar(c, QUOTE, [QUOTE, QUOTE]) + [QUOTE] + rest, acc) == (acc + c, rest)
    decreases |c|
  {
    if c == [] {
      QuotedEnd(rest, acc);
    } else {
      QuotedSplit(c, rest, acc);
      QuotedRoundTrip(c[1..], rest, acc + [c[0]]);
    }
  }

  /** An empty field's closing quote ends it. */
  lemma QuotedEnd(rest: string, acc: string)
    requires rest == [] || rest[0] == ',' || rest[0] == '\n'
    ensures ReadQuoted(ReplaceChar([], QUOTE, [QUOTE, QUOTE]) + [QUOTE] + rest, acc) == (acc + [], rest)
  {
    assert ReplaceChar([], QUOTE, [QUOTE, QUOTE]) + [QUOTE] + rest == [QUOTE] + rest;
    assert acc + [] == acc;
  }

  /** Reading a quoted field past its first character. */
  lemma QuotedSplit(c: string, rest: string, acc: string)
    requires c != []
    ensures ReadQuoted(ReplaceChar(c, QUOTE, [QUOTE, QUOTE]) + [QUOTE] + rest, acc)
      == ReadQuoted(ReplaceChar(c[1..], QUOTE, [QUOTE, QUOTE]) + [QUOTE] + rest, acc + [c[0]])
    ensures acc + [c[0]] + c[1..] == acc + c
  {
    var t := [QUOTE] + rest;
    ConcatAssoc(ReplaceChar(c, QUOTE, [QUOTE, QUOTE]), [QUOTE], rest);
    ConcatAssoc(ReplaceChar(c[1..], QUOTE, [QUOTE, QUOTE]), [QUOTE], rest);
    QuotedStep(c, t, acc);
    ConsAfter(acc, c);
  }

  lemma ConcatAssoc(a: string, b: string, c: string)
    ensures a + b + c == a + (b + c)
  {
  }

  lemma ConsAfter(acc: string, c: string)
    requires c != []
    ensures acc + [c[0]] + c[1..] == acc + c
  {
    assert [c[0]] + c[1..] == c;
  }

  /** The first character of a quoted field, doubled if it is a quote, is read as itself. */
  lemma QuotedStep(c: string, t: string, acc: string)
    requires c != []
    ensures ReadQuoted(ReplaceChar(c, QUOTE, [QUOTE, QUOTE]) + t, acc)
      == ReadQuoted(ReplaceChar(c[1..], QUOTE, [QUOTE, QUOTE]) + t, acc + [c[0]])
  {
    var d' := ReplaceChar(c[1..], QUOTE, [QUOTE, QUOTE]);
    var s := ReplaceChar(c, QUOTE, [QUOTE, QUOTE]) + t;
    if c[0] == QUOTE {
      assert s == [QUOTE, QUOTE] + (d' + t);
      assert s[2..] == d' + t;
    } else {
      assert s == [c[0]] + (d' + t);
      assert s[1..] == d' + t;
    }
  }

  /** A field written by `escape_csv` reads back as the cell, and reading stops at the next comma or line feed. */
  lemma FieldRoundTrip(c: string, rest: string)
    requires rest == [] || rest[0] == ',' || rest[0] == '\n'
    ensures ReadField(EscapeCsv(c) + rest) == (c, rest)
  {
    if NeedsQuotes(c) {
      QuotedFieldRoundTrip(c, rest);
    } else {
      PlainFieldRoundTrip(c, rest);
    }
  }

  lemma QuotedFieldRoundTrip(c: string, rest: string)
    requires NeedsQuotes(c) && (rest == [] || rest[0] == ',' || rest[0] == '\n')
    ensures ReadField(EscapeCsv(c) + rest) == (c, rest)
  {
    var d := ReplaceChar(c, QUOTE, [QUOTE, QUOTE]);
    assert EscapeCsv(c) == [QUOTE] + d + [QUOTE];
    QuotedRoundTrip(c, rest, []);
    assert [] + c == c;
    QuotedFieldRead(d, rest);
  }

  /** A quoted text is read as a quoted field from after its opening quote. */
  lemma QuotedFieldRead(d: string, rest: string)
    ensures ReadField(([QUOTE] + d + [QUOTE]) + rest) == ReadQuoted(d + [QUOTE] + rest, [])
  {
    var t := d + [QUOTE] + rest;
    assert ([QUOTE] + d + [QUOTE]) + rest == [QUOTE] + t;
    assert ([QUOTE] + t)[1..] == t;
  }

  lemma PlainFieldRoundTrip(c: string, rest: string)
    requires !NeedsQuotes(c) && (rest == [] || rest[0] == ',' || rest[0] == '\n')
    ensures ReadField(EscapeCsv(c) + rest) == (c, rest)
  {
    var s := c + rest;
    assert EscapeCsv(c) == c;
    assert s == [] || s[0] != QUOTE by {
      if c != [] {
        assert c[0] in c;
      }
    }
    PlainRoundTrip(c, rest, []);
    assert [] + c == c;
  }

  lemma {:induction false} RecordRoundTrip(cells: seq<string>, tail: string, acc: seq<string>)
    requires cells != []
    requires tail == [] || tail[0] == '\n'
    ensures ReadRecord(Join(CsvFields(cells), ",") + tail, acc) == (acc + cells, if tail == [] then [] else tail[1..], tail != [])
    decreases |cells|
  {
    var fields := CsvFields(cells);
    if |cells| == 1 {
      assert Join(fields, ",") == EscapeCsv(cells[0]);
      FieldRoundTrip(cells[0], tail);
      assert acc + [cells[0]] == acc + cells;
    } else {
      var more := Join(CsvFields(cells[1..]), ",");
      assert Join(fields, ",") + tail == EscapeCsv(cells[0]) + ([','] + more + tail);
      FieldRoundTrip(cells[0], [','] + more + tail);
      assert ([','] + more + tail)[1..] == more + tail;
      RecordRoundTrip(cells[1..], tail, acc + [cells[0]]);
      assert acc + [cells[0]] + cells[1..] == acc + cells;
    }
  }

  lemma {:induction false} CsvRoundTripFrom(rows: seq<seq<string>>)
    requires rows != []
    requires forall k | 0 <= k < |rows| :: rows[k] != []
    ensures ReadCsv(Join(CsvLines(rows), "\n")) == rows
    decreases |rows|
  {
    var lines := CsvLines(rows);
    if |rows| == 1 {
      assert Join(lines, "\n") + [] == lines[0];
      RecordRoundTrip(rows[0], [], []);
      assert [] + rows[0] == rows[0];
    } else {
      var restText := Join(lines[1..], "\n");
      assert Join(lines, "\n") == lines[0] + (['\n'] + restText);
      RecordRoundTrip(rows[0], ['\n'] + restText, []);
      assert (['\n'] + restText)[1..] == restText;
      assert [] + rows[0] == rows[0];
      CsvRoundTripFrom(rows[1..]);
      assert [rows[0]] + rows[1..] == rows;
    }
  }

  /**
   * `to_csv` round trip: a table with at least one row and a cell in every
   * row reads back, by an RFC 4180 reader, as exactly its cells.
   */
  lemma CsvRoundTrip(t: Table)
    requires t.rows != []
    requires forall k | 0 <= k < |t.rows| :: t.rows[k] != []
    ensures ReadCsv(ToCsv(t)) == t.rows
  {
    CsvRoundTripFrom(t.rows);
  }

  // ---------------------------------------------------------------------------
  // TSV

  /** A join of parts and a separator that lack `c` lacks `c`. */
  lemma {:induction false} JoinAvoids(parts: seq<string>, sep: string, c: char)
    requires c !in sep && forall i | 0 <= i < |parts| :: c !in parts[i]
    ensures c !in Join(parts, sep)
    decreases |parts|
  {
    if |parts| > 1 {
      JoinAvoids(parts[1..], sep, c);
    }
  }

  /**
   * `to_tsv` round trip: split at line feeds and then at tabs, the text
   * gives back every cell with its tabs turned into spaces, provided no cell
   * holds a line feed.
   */
  lemma TsvRoundTrip(t: Table)
    requires t.rows != []
    requires forall k | 0 <= k < |t.rows| :: t.rows[k] != []
    requires forall k, j | 0 <= k < |t.rows| && 0 <= j < |t.rows[k]| :: '\n' !in t.rows[k][j]
    ensures |Split(ToTsv(t), '\n')| == |t.rows|
    ensures forall k | 0 <= k < |t.rows| :: Split(Split(ToTsv(t), '\n')[k], '\t') == TsvCells(t.rows[k])
  {
    var lines := TsvLines(t.rows);
    forall k | 0 <= k < |lines|
      ensures '\n' !in lines[k]
      ensures Split(lines[k], '\t') == TsvCells(t.rows[k])
    {
      var cells := TsvCells(t.rows[k]);
      forall j | 0 <= j < |cells| ensures '\t' !in cells[j] && '\n' !in cells[j] {
        ReplaceCharAvoids(t.rows[k][j], '\t', " ", '\t');
        ReplaceCharAvoids(t.rows[k][j], '\t', " ", '\n');
      }
      SplitJoin(cells, '\t');
      JoinAvoids(cells, "\t", '\n');
    }
    SplitJoin(lines, '\n');
  }

  // ---------------------------------------------------------------------------
  // Aligned text

  /** Each width is at least the length of every cell of its column. */
  lemma {:induction false} WidthsCover(rows: seq<seq<string>>, widths: seq<nat>)
    ensures forall k, i | 0 <= k < |rows| && 0 <= i < |widths| && i < |rows[k]| :: |rows[k][i]| <= WidthsF(rows, widths)[i]
    decreases |rows|
  {
    if rows != [] {
      WidthsCover(rows[1..], RowWidths(rows[0], widths));
      forall k, i | 0 <= k < |rows| && 0 <= i < |widths| && i < |rows[k]| ensures |rows[k][i]| <= WidthsF(rows, widths)[i] {
        if k > 0 {
          assert rows[1..][k - 1] == rows[k];
        }
      }
    }
  }

  /** Each width is the starting width or the length of some cell of its column: no wider than it must be. */
  lemma {:induction false} WidthsAttained(rows: seq<seq<string>>, widths: seq<nat>, i: nat)
    requires i < |widths|
    ensures WidthsF(rows, widths)[i] == widths[i]
      || exists k | 0 <= k < |rows| :: i < |rows[k]| && WidthsF(rows, widths)[i] == |rows[k][i]|
    decreases |rows|
  {
    if rows != [] {
      var w1 := RowWidths(rows[0], widths);
      WidthsAttained(rows[1..], w1, i);
      var r := WidthsF(rows, widths);
      if r[i] != w1[i] {
        var k :| 0 <= k < |rows[1..]| && i < |rows[1..][k]| && r[i] == |rows[1..][k][i]|;
        assert rows[1..][k] == rows[k + 1];
      }
    }
  }

  /** Where part `k` of a join starts: the lengths of the parts before it, each followed by the separator. */
  function PartOffset(parts: seq<string>, sep: string, k: nat): nat
    requires k <= |parts|
  {
    if k == 0 then 0 else |parts[0]| + |sep| + PartOffset(parts[1..], sep, k - 1)
  }

  /** Part `k` of a join sits at its offset. */
  lemma {:induction false} JoinAt(parts: seq<string>, sep: string, k: nat)
    requires k < |parts|
    ensures PartOffset(parts, sep, k) + |parts[k]| <= |Join(parts, sep)|
    ensures Join(parts, sep)[PartOffset(parts, sep, k)..PartOffset(parts, sep, k) + |parts[k]|] == parts[k]
    decreases k
  {
    if |parts| > 1 {
      var head := parts[0] + sep;
      var rest := Join(parts[1..], sep);
      assert Join(parts, sep) == head + rest;
      if k == 0 {
        SliceOfConcat([], parts[0], sep + rest, 0, |parts[0]|);
        assert parts[0] + (sep + rest) == head + rest;
      } else {
        JoinAt(parts[1..], sep, k - 1);
        SliceOfConcat(head, rest, [], PartOffset(parts[1..], sep, k - 1), |parts[k]|);
        assert parts[1..][k - 1] == parts[k];
      }
    }
  }

  /** A slice inside the right-hand operand of a concatenation. */
  lemma SliceOfConcat(a: string, b: string, c: string, o: nat, n: nat)
    requires o + n <= |b|
    ensures (a + b + c)[|a| + o..|a| + o + n] == b[o..o + n]
    ensures (a + b)[|a| + o..|a| + o + n] == b[o..o + n]
  {
    assert forall j | |a| + o <= j < |a| + o + n :: (a + b + c)[j] == b[j - |a|];
    assert forall j | |a| + o <= j < |a| + o + n :: (a + b)[j] == b[j - |a|];
  }

  /** Where cell `k` of a padded line starts: the widths of the columns before it, each followed by two spaces. */
  function Offset(widths: seq<nat>, k: nat): nat
    requires k <= |widths|
  {
    if k == 0 then 0 else widths[0] + 2 + Offset(widths[1..], k - 1)
  }

  lemma {:induction false} PaddedOffset(cells: seq<string>, widths: seq<nat>, k: nat)
    requires k <= |cells| <= |widths|
    requires forall i | 0 <= i < |cells| :: |cells[i]| <= widths[i]
    ensures PartOffset(PadCells(cells, widths), "  ", k) == Offset(widths, k)
    decreases k
  {
    if k > 0 {
      assert PadCells(cells, widths)[1..] == PadCells(cells[1..], widths[1..]);
      PaddedOffset(cells[1..], widths[1..], k - 1);
    }
  }

  /**
   * `to_text` aligns the columns: in every row, before the end of its line is
   * trimmed, cell `k` starts at the same offset, the sum of the widths of the
   * columns before it plus two spaces each.
   */
  lemma {:induction false} TextColumnsAligned(t: Table, r: nat, k: nat)
    requires r < |t.rows| && k < |t.rows[r]| && |t.rows[r]| <= t.numColumns
    ensures var widths := ColumnWidths(t); var line := PaddedLine(t.rows[r], widths);
      && Offset(widths, k) + |t.rows[r][k]| <= |line|
      && line[Offset(widths, k)..Offset(widths, k) + |t.rows[r][k]|] == t.rows[r][k]
  {
    var row := t.rows[r];
    var widths := ColumnWidths(t);
    WidthsCover(t.rows, ZeroWidths(t.numColumns));
    assert forall i | 0 <= i < |row| :: |row[i]| <= widths[i];
    PaddedLineAt(row, widths, k);
  }

  /** A prefix of a slice is a slice. */
  lemma SliceOfSlice(s: string, o: nat, cell: string, text: string)
    requires o + |cell| <= |s| && s[o..o + |cell|] == cell
    requires |text| <= |cell| && cell[..|text|] == text
    ensures s[o..o + |text|] == text
  {
    assert forall i | 0 <= i < |text| :: s[o + i] == cell[i];
  }

  /** What part `k` of a join begins with sits at the part's offset `o`. */
  lemma JoinPrefixAt(parts: seq<string>, sep: string, k: nat, o: nat, text: string)
    requires k < |parts| && o == PartOffset(parts, sep, k)
    requires |text| <= |parts[k]| && parts[k][..|text|] == text
    ensures o + |text| <= |Join(parts, sep)| && Join(parts, sep)[o..o + |text|] == text
  {
    JoinAt(parts, sep, k);
    SliceOfSlice(Join(parts, sep), o, parts[k], text);
  }

  /** In a line of cells that fit their widths, cell `k` sits at `Offset(widths, k)`. */
  lemma {:induction false} PaddedLineAt(row: seq<string>, widths: seq<nat>, k: nat)
    requires k < |row| <= |widths|
    requires forall i | 0 <= i < |row| :: |row[i]| <= widths[i]
    ensures Offset(widths, k) + |row[k]| <= |PaddedLine(row, widths)|
    ensures PaddedLine(row, widths)[Offset(widths, k)..Offset(widths, k) + |row[k]|] == row[k]
  {
    var line := PaddedLine(row, widths);
    PaddedOffset(row, widths, k);
    CellOfPadded(row, widths, k);
    PaddedPrefixAt(row, widths, k, Offset(widths, k), row[k]);
    assert line[Offset(widths, k)..Offset(widths, k) + |row[k]|] == row[k];
  }

  lemma PaddedPrefixAt(row: seq<string>, widths: seq<nat>, k: nat, o: nat, text: string)
    requires k < |row| && o == PartOffset(PadCells(row, widths), "  ", k)
    requires |text| <= |PadCells(row, widths)[k]| && PadCells(row, widths)[k][..|text|] == text
    ensures o + |text| <= |PaddedLine(row, widths)| && PaddedLine(row, widths)[o..o + |text|] == text
  {
    JoinPrefixAt(PadCells(row, widths), "  ", k, o, text);
  }

  /** A padded cell begins with the cell's text. */
  lemma CellOfPadded(row: seq<string>, widths: seq<nat>, k: nat)
    requires k < |row|
    ensures |row[k]| <= |PadCells(row, widths)[k]| && PadCells(row, widths)[k][..|row[k]|] == row[k]
  {
  }

  lemma PadAvoids(s: string, width: nat, c: char)
    requires c !in s && c != ' '
    ensures c !in PadRight(s, width)
  {
    var r := PadRight(s, width);
    forall i | 0 <= i < |r| ensures r[i] != c {
      if i < |s| {
        assert r[..|s|][i] == s[i];
      }
    }
  }

  /**
   * The lines of `to_text` are the rows, each padded line trimmed at its end,
   * provided no cell holds a line feed; an empty table gives the empty text.
   */
  lemma TextLines(t: Table)
    requires forall k, j | 0 <= k < |t.rows| && 0 <= j < |t.rows[k]| :: '\n' !in t.rows[k][j]
    ensures t.rows == [] ==> ToTextF(t) == []
    ensures t.rows != [] ==> Split(ToTextF(t), '\n') == TextLinesOf(t.rows, ColumnWidths(t))
  {
    if t.rows != [] {
      var widths := ColumnWidths(t);
      var lines := TextLinesOf(t.rows, widths);
      forall k | 0 <= k < |lines| ensures '\n' !in lines[k] {
        var cells := PadCells(t.rows[k], widths);
        forall j | 0 <= j < |cells| ensures '\n' !in cells[j] {
          PadAvoids(t.rows[k][j], if j < |widths| then widths[j] else 0, '\n');
        }
        JoinAvoids(cells, "  ", '\n');
        var p := PaddedLine(t.rows[k], widths);
        forall i | 0 <= i < |lines[k]| ensures lines[k][i] != '\n' {
          assert lines[k][i] == p[i];
        }
      }
      SplitJoin(lines, '\n');
    }
  }

  // ---------------------------------------------------------------------------
  // The loops

  /** `cluster_into_rows` and the sort of each row by x. */
  method ClusterIntoRows(spans: seq<TextSpan>, tol: real) returns (rows: seq<seq<TextSpan>>)
    ensures rows == RowsOf(spans, tol)
  {
    var sorted := SortForReading(spans);
    var groups := GroupRows(sorted, tol);
    ghost var goal := RowsOf(spans, tol);
    rows := [];
    for k := 0 to |groups|
      invariant |goal| == |groups| && rows == goal[..k]
    {
      assert goal[k] == SortBy(groups[k], XOf);
      PrefixSnoc(goal, k);
      rows := rows + [SortBy(groups[k], XOf)];
    }
    assert goal[..|groups|] == goal;
  }

  /** `detect_columns`: the clustering loop over the sorted x positions. */
  method DetectColumns(rows: seq<seq<TextSpan>>) returns (columns: seq<real>)
    ensures columns == ColumnsOf(rows)
    ensures Increasing(columns) && |columns| <= |XPositions(rows)|
  {
    var xs := SortBy(XPositions(rows), Coordinate);
    columns := [];
    if xs == [] {
      ColumnsAscend(rows);
      return;
    }
    var cluster: seq<real> := [];
    for i := 0 to |xs|
      invariant ClusterF(xs, i, columns, cluster) == ColumnsOf(rows)
    {
      var x := xs[i];
      if cluster == [] {
        cluster := [x];
      } else if Abs(x - cluster[|cluster| - 1]) <= COLUMN_GAP {
        cluster := cluster + [x];
      } else {
        columns := columns + [Average(cluster)];
        cluster := [x];
      }
    }
    if cluster != [] {
      columns := columns + [Average(cluster)];
    }
    ColumnsAscend(rows);
  }

  /** The body of `assign_to_columns` for one row: every span's text appended to its nearest column's cell. */
  method AssignRow(row: seq<TextSpan>, columns: seq<real>) returns (cells: seq<string>)
    requires columns != [] || row == []
    ensures cells == CellsF(row, columns)
  {
    cells := seq(|columns|, _ => "");
    for i := 0 to |row|
      invariant cells == CellsF(row[..i], columns)
    {
      var span := row[i];
      var c := Nearest(span.x, columns);
      assert row[..i + 1][..i] == row[..i];
      assert CellsF(row[..i + 1], columns) == Place(cells, c, span.text);
      var cell := cells[c];
      if cell != [] {
        cell := cell + " ";
      }
      cell := cell + span.text;
      assert cell == if cells[c] == [] then span.text else cells[c] + " " + span.text;
      cells := cells[c := cell];
    }
    assert row[..|row|] == row;
  }

  /** `assign_to_columns`. */
  method AssignToColumns(rows: seq<seq<TextSpan>>, columns: seq<real>) returns (grid: seq<seq<string>>)
    requires columns != [] || forall k | 0 <= k < |rows| :: rows[k] == []
    ensures grid == GridF(rows, columns)
  {
    grid := [];
    for k := 0 to |rows|
      invariant |grid| == k
      invariant forall j | 0 <= j < k :: grid[j] == CellsF(rows[j], columns)
    {
      var cells := AssignRow(rows[k], columns);
      grid := grid + [cells];
    }
  }

  /** `Table::from_spans`. */
  method FromSpans(spans: seq<TextSpan>) returns (t: Table)
    ensures t == FromSpansF(spans)
    ensures forall k | 0 <= k < |t.rows| :: |t.rows[k]| == t.numColumns
  {
    var s := NonBlank(spans);
    if s == [] {
      return EMPTY_TABLE;
    }
    var tolerance := RowTolerance(s);
    var rows := ClusterIntoRows(s, tolerance);
    RowsOfCount(s, tolerance);
    var columns := DetectColumns(rows);
    ColumnsAscend(rows);
    var grid := AssignToColumns(rows, columns);
    t := Table(grid, |columns|);
  }

  /** The widths loop of `to_text`: each column's widest cell. */
  method ComputeWidths(t: Table) returns (widths: seq<nat>)
    ensures widths == ColumnWidths(t)
    ensures |widths| == t.numColumns
  {
    widths := ZeroWidths(t.numColumns);
    for k := 0 to |t.rows|
      invariant |widths| == t.numColumns
      invariant WidthsF(t.rows[k..], widths) == ColumnWidths(t)
    {
      var row := t.rows[k];
      assert t.rows[k..][1..] == t.rows[k + 1..];
      ghost var target := RowWidths(row, widths);
      ghost var before := widths;
      for i := 0 to |row|
        invariant |widths| == t.numColumns
        invariant forall j | 0 <= j < |widths| :: widths[j] == if j < i then target[j] else before[j]
      {
        if i < |widths| {
          widths := widths[i := Max(widths[i], |row[i]|)];
        }
      }
      assert widths == target;
    }
  }

  /** `to_text`: the widths loop, then each row mapped to its padded, trimmed line. */
  method ToText(t: Table) returns (text: string)
    ensures text == ToTextF(t)
  {
    if t.rows == [] {
      return "";
    }
    var widths := ComputeWidths(t);
    text := Join(TextLinesOf(t.rows, widths), "\n");
  }
}
