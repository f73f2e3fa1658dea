/*
 * Markdown rendering of a page's elements: a heading as `#` marks and its
 * text, a paragraph as its text, and a table as a pipe table whose columns
 * are padded to a common width; each element followed by a blank line.
 */
module Markdown {
  import opened Common
  import opened Tables
  import opened Layout

  /** The pieces the renderer writes around cells, lines and elements. */
  const PIPE: string := "|"
  const ESCAPED_PIPE: string := "\\|"
  const CELL_OPEN: string := " "
  const CELL_CLOSE: string := " |"
  const LINE_END: string := "\n"
  const BLANK_LINE: string := "\n\n"

  // ---------------------------------------------------------------------------
  // Cells

  /** `escape_pipe`: every `|` of a cell becomes `\|`. */
  function EscapePipe(s: string): (r: string)
    ensures '|' !in s ==> r == s
    ensures |r| >= |s|
  {
    ReplaceChar(s, '|', ESCAPED_PIPE)
  }

  /** Reading escaped text back: `\|` stands for `|`, any other character for itself. */
  function UnescapePipe(s: string): string
  {
    if s == [] then []
    else if |s| >= 2 && s[0] == '\\' && s[1] == '|' then ['|'] + UnescapePipe(s[2..])
    else [s[0]] + UnescapePipe(s[1..])
  }

  lemma EscapedHead(s: string)
    ensures EscapePipe(s) == [] || EscapePipe(s)[0] != '|'
  {
    if s != [] {
      assert EscapePipe(s) == (if s[0] == '|' then ESCAPED_PIPE else [s[0]]) + EscapePipe(s[1..]);
    }
  }

  /** Escaping loses nothing: the cell's text can be read back from it. */
  lemma {:induction false} EscapePipeRoundTrip(s: string)
    ensures UnescapePipe(EscapePipe(s)) == s
    decreases |s|
  {
    if s != [] {
      var tail := EscapePipe(s[1..]);
      EscapePipeRoundTrip(s[1..]);
      if s[0] == '|' {
        assert EscapePipe(s) == ESCAPED_PIPE + tail;
        assert (ESCAPED_PIPE + tail)[2..] == tail;
      } else {
        assert EscapePipe(s) == [s[0]] + tail;
        EscapedHead(s[1..]);
        assert ([s[0]] + tail)[1..] == tail;
      }
    }
  }

  /** No pipe of an escaped cell can close the cell: each one follows a backslash. */
  lemma {:induction false} PipesEscaped(s: string)
    ensures forall i | 0 <= i < |EscapePipe(s)| && EscapePipe(s)[i] == '|' :: i > 0 && EscapePipe(s)[i - 1] == '\\'
    decreases |s|
  {
    if s != [] {
      var head := if s[0] == '|' then ESCAPED_PIPE else [s[0]];
      var tail := EscapePipe(s[1..]);
      var r := EscapePipe(s);
      assert r == head + tail;
      PipesEscaped(s[1..]);
      EscapedHead(s[1..]);
      forall i | 0 <= i < |r| && r[i] == '|' ensures i > 0 && r[i - 1] == '\\' {
        if i >= |head| {
          assert r[i] == tail[i - |head|];
          if i > |head| {
            assert r[i - 1] == tail[i - 1 - |head|];
          }
        }
      }
    }
  }

  // ---------------------------------------------------------------------------
  // Column widths

  /** The smallest column width, that of the separator `---`. */
  const MIN_WIDTH: nat := 3

  function EscapeRow(row: seq<string>): (r: seq<string>)
    ensures |r| == |row| && forall i | 0 <= i < |row| :: r[i] == EscapePipe(row[i])
  {
    seq(|row|, i requires 0 <= i < |row| => EscapePipe(row[i]))
  }

  function EscapeRows(rows: seq<seq<string>>): (r: seq<seq<string>>)
    ensures |r| == |rows| && forall k | 0 <= k < |rows| :: r[k] == EscapeRow(rows[k])
  {
    seq(|rows|, k requires 0 <= k < |rows| => EscapeRow(rows[k]))
  }

  /** The widths loop of `table_to_markdown`: three for every column, widened to its escaped cells. */
  function MdWidths(t: Table): (w: seq<nat>)
    ensures |w| == t.numColumns
  {
    WidthsF(EscapeRows(t.rows), seq(t.numColumns, _ => MIN_WIDTH))
  }

  /** Each column's width is the larger of three and the length of its longest escaped cell. */
  lemma MdWidthsBounds(t: Table, i: nat)
    requires i < t.numColumns
    ensures MIN_WIDTH <= MdWidths(t)[i]
    ensures forall k | 0 <= k < |t.rows| && i < |t.rows[k]| :: |EscapePipe(t.rows[k][i])| <= MdWidths(t)[i]
    ensures MdWidths(t)[i] == MIN_WIDTH
      || exists k | 0 <= k < |t.rows| :: i < |t.rows[k]| && MdWidths(t)[i] == |EscapePipe(t.rows[k][i])|
  {
    var rows := EscapeRows(t.rows);
    var init: seq<nat> := seq(t.numColumns, _ => MIN_WIDTH);
    var w := MdWidths(t);
    WidthsCover(rows, init);
    WidthsAttained(rows, init, i);
    forall k | 0 <= k < |t.rows| && i < |t.rows[k]| ensures |EscapePipe(t.rows[k][i])| <= w[i] {
      assert rows[k][i] == EscapePipe(t.rows[k][i]);
    }
    if w[i] != MIN_WIDTH {
      var k :| 0 <= k < |rows| && i < |rows[k]| && w[i] == |rows[k][i]|;
      assert rows[k][i] == EscapePipe(t.rows[k][i]);
    }
  }

  // ---------------------------------------------------------------------------
  // Rows

  /** One cell of a Markdown row: the text left-aligned to the width, after a space and before ` |`. */
  function MdCell(text: string, width: nat): string
  {
    CELL_OPEN + PadRight(text, width) + CELL_CLOSE
  }

  /** The text of cell `i`: the escaped cell, or nothing past the end of the row. */
  function CellText(row: seq<string>, i: nat): string
  {
    if i < |row| then EscapePipe(row[i]) else ""
  }

  /** The width of cell `i`: its column's, or three past the last column. */
  function CellWidth(widths: seq<nat>, i: nat): nat
  {
    if i < |widths| then widths[i] else MIN_WIDTH
  }

  /**
   * The cells `format_md_row` writes: each cell of the row at its column's
   * width, then an empty cell for every column the row lacks.
   */
  function MdCells(row: seq<string>, widths: seq<nat>): (cells: seq<string>)
    ensures |cells| == Max(|row|, |widths|)
    ensures forall i | 0 <= i < |cells| :: cells[i] == MdCell(CellText(row, i), CellWidth(widths, i))
  {
    seq(Max(|row|, |widths|), i requires 0 <= i => MdCell(CellText(row, i), CellWidth(widths, i)))
  }

  /** `format_md_row`: an opening pipe, then the cells. */
  function MdRow(row: seq<string>, widths: seq<nat>): string
  {
    PIPE + ConcatFrom(MdCells(row, widths), 0)
  }

  /** A cell ends in a pipe, and takes its width plus three characters when its text fits. */
  lemma MdCellShape(text: string, width: nat)
    ensures MdCell(text, width) != [] && MdCell(text, width)[|MdCell(text, width)| - 1] == '|'
    ensures |text| <= width ==> |MdCell(text, width)| == width + 3
  {
  }

  /** Pieces that each end in a pipe end, laid end to end, in a pipe. */
  lemma {:induction false} PiecesEnd(pieces: seq<string>, i: nat)
    requires forall j | 0 <= j < |pieces| :: pieces[j] != [] && pieces[j][|pieces[j]| - 1] == '|'
    ensures var s := ConcatFrom(pieces, i); s == [] || s[|s| - 1] == '|'
    decreases |pieces| - i
  {
    if i < |pieces| {
      PiecesEnd(pieces, i + 1);
      CharOfConcat(pieces[i], ConcatFrom(pieces, i + 1), |ConcatFrom(pieces, i)| - 1);
    }
  }

  /** A row starts and ends with a pipe. */
  lemma RowPipes(row: seq<string>, widths: seq<nat>)
    ensures MdRow(row, widths)[0] == '|'
    ensures MdRow(row, widths)[|MdRow(row, widths)| - 1] == '|'
  {
    var cells := MdCells(row, widths);
    forall j | 0 <= j < |cells| ensures cells[j] != [] && cells[j][|cells[j]| - 1] == '|' {
      MdCellShape(CellText(row, j), CellWidth(widths, j));
    }
    PiecesEnd(cells, 0);
  }

  /** Each column's width in `-`. */
  function Dashes(widths: seq<nat>): (r: seq<string>)
    ensures |r| == |widths| && forall i | 0 <= i < |widths| :: r[i] == Repeat('-', widths[i])
  {
    seq(|widths|, i requires 0 <= i < |widths| => Repeat('-', widths[i]))
  }

  /** The separator's cells: each column's width in `-`, after a space and before ` |`. */
  function SeparatorCells(widths: seq<nat>): (cells: seq<string>)
    ensures |cells| == |widths| && forall i | 0 <= i < |widths| :: cells[i] == CELL_OPEN + Repeat('-', widths[i]) + CELL_CLOSE
  {
    seq(|widths|, i requires 0 <= i < |widths| => CELL_OPEN + Repeat('-', widths[i]) + CELL_CLOSE)
  }

  /** The separator line under the header. */
  function Separator(widths: seq<nat>): string
  {
    PIPE + ConcatFrom(SeparatorCells(widths), 0)
  }

  /** The separator is the row of dashes, each exactly as wide as its column. */
  lemma SeparatorIsRow(widths: seq<nat>)
    ensures Separator(widths) == MdRow(Dashes(widths), widths)
    ensures forall i | 0 <= i < |widths| :: |EscapePipe(Dashes(widths)[i])| <= widths[i]
  {
    var d := Dashes(widths);
    forall i | 0 <= i < |widths| ensures EscapePipe(d[i]) == d[i] && PadRight(d[i], widths[i]) == d[i] {
      assert '|' !in d[i];
    }
    assert SeparatorCells(widths) == MdCells(d, widths);
  }

  /** The characters taken by columns `i` up to `k`: each its width plus a space on each side and a pipe. */
  function Span(widths: seq<nat>, i: nat, k: nat): nat
    requires k <= |widths|
    decreases k - i
  {
    if i >= k then 0 else widths[i] + 3 + Span(widths, i + 1, k)
  }

  /** Where the border after the first `k` columns sits. */
  function Border(widths: seq<nat>, k: nat): nat
    requires k <= |widths|
  {
    Span(widths, 0, k)
  }

  /** Pieces each their column's width plus three long and ending in a pipe: from piece `i`, piece `k - 1` ends at the span of columns `i` to `k`. */
  lemma {:induction false} PiecesBorders(pieces: seq<string>, widths: seq<nat>, i: nat, k: nat)
    requires |pieces| == |widths| && i <= k <= |widths|
    requires forall j | 0 <= j < |pieces| :: |pieces[j]| == widths[j] + 3 && pieces[j][widths[j] + 2] == '|'
    ensures |ConcatFrom(pieces, i)| == Span(widths, i, |widths|)
    ensures Span(widths, i, k) <= |ConcatFrom(pieces, i)|
    ensures i < k ==> ConcatFrom(pieces, i)[Span(widths, i, k) - 1] == '|'
    decreases |widths| - i
  {
    if i < |widths| {
      PiecesBorders(pieces, widths, i + 1, if i < k then k else |widths|);
      if i < k {
        CharOfConcat(pieces[i], ConcatFrom(pieces, i + 1), |pieces[i]| + Span(widths, i + 1, k) - 1);
      }
    }
  }

  /**
   * In a row no longer than the widths whose escaped cells fit them, every
   * column border is a pipe at the same place, and the row ends at the last.
   */
  lemma RowBorders(row: seq<string>, widths: seq<nat>, k: nat)
    requires |row| <= |widths| && k <= |widths|
    requires forall i | 0 <= i < |row| :: |EscapePipe(row[i])| <= widths[i]
    ensures |MdRow(row, widths)| == Border(widths, |widths|) + 1
    ensures Border(widths, k) < |MdRow(row, widths)| && MdRow(row, widths)[Border(widths, k)] == '|'
  {
    var cells := MdCells(row, widths);
    forall j | 0 <= j < |cells| ensures |cells[j]| == widths[j] + 3 && cells[j][widths[j] + 2] == '|' {
      MdCellShape(CellText(row, j), widths[j]);
    }
    PipedBorders(cells, widths, k);
  }

  /** An opening pipe and then such pieces: the border after the first `k` columns is a pipe, and the last ends the text. */
  lemma PipedBorders(pieces: seq<string>, widths: seq<nat>, k: nat)
    requires |pieces| == |widths| && k <= |widths|
    requires forall j | 0 <= j < |pieces| :: |pieces[j]| == widths[j] + 3 && pieces[j][widths[j] + 2] == '|'
    ensures |PIPE + ConcatFrom(pieces, 0)| == Border(widths, |widths|) + 1
    ensures Border(widths, k) < |PIPE + ConcatFrom(pieces, 0)| && (PIPE + ConcatFrom(pieces, 0))[Border(widths, k)] == '|'
  {
    PiecesBorders(pieces, widths, 0, k);
  }

  // ---------------------------------------------------------------------------
  // Tables

  /** Line `k` of a Markdown table: the header row, the separator, then the other rows. */
  function MdLine(rows: seq<seq<string>>, widths: seq<nat>, k: nat): string
    requires 0 < |rows| && k <= |rows|
  {
    if k == 1 then Separator(widths) else MdRow(rows[if k == 0 then 0 else k - 1], widths)
  }

  /** The lines of a Markdown table at the given column widths. */
  function MdLines(rows: seq<seq<string>>, widths: seq<nat>): (lines: seq<string>)
    requires rows != []
    ensures |lines| == |rows| + 1 && forall k | 0 <= k <= |rows| :: lines[k] == MdLine(rows, widths, k)
  {
    seq(|rows| + 1, k requires 0 <= k <= |rows| => MdLine(rows, widths, k))
  }

  /** The lines, each ended by a line feed, with the trailing line feeds removed. */
  function TableText(rows: seq<seq<string>>, widths: seq<nat>): string
    requires rows != []
  {
    TrimEndMatches(Terminated(MdLines(rows, widths), LINE_END), '\n')
  }

  /** `table_to_markdown`: nothing for a table without rows. */
  function TableToMarkdownF(t: Table): string
  {
    if t.rows == [] then "" else TableText(t.rows, MdWidths(t))
  }

  /** A row's line holds no line feed when its cells hold none. */
  lemma RowAvoidsNewline(row: seq<string>, widths: seq<nat>)
    requires forall j | 0 <= j < |row| :: '\n' !in row[j]
    ensures '\n' !in MdRow(row, widths)
  {
    var cells := MdCells(row, widths);
    forall i | 0 <= i < |cells| ensures '\n' !in cells[i] {
      if i < |row| {
        ReplaceCharAvoids(row[i], '|', ESCAPED_PIPE, '\n');
      }
      PadAvoids(CellText(row, i), CellWidth(widths, i), '\n');
    }
    ConcatAvoids(cells, '\n', 0);
  }

  /** Every line is a row (the separator being the row of dashes). */
  lemma LineIsRow(rows: seq<seq<string>>, widths: seq<nat>, k: nat)
    requires 0 < |rows| && k <= |rows|
    ensures MdLine(rows, widths, k) == MdRow(if k == 1 then Dashes(widths) else rows[if k == 0 then 0 else k - 1], widths)
  {
    SeparatorIsRow(widths);
  }

  /** Each line ends in a pipe, and holds no line feed when no cell does. */
  lemma LineShape(rows: seq<seq<string>>, widths: seq<nat>, k: nat)
    requires 0 < |rows| && k <= |rows|
    requires forall r, j | 0 <= r < |rows| && 0 <= j < |rows[r]| :: '\n' !in rows[r][j]
    ensures var line := MdLine(rows, widths, k); '\n' !in line && line != [] && line[|line| - 1] == '|'
  {
    var row := if k == 1 then Dashes(widths) else rows[if k == 0 then 0 else k - 1];
    LineIsRow(rows, widths, k);
    assert forall j | 0 <= j < |row| :: '\n' !in row[j];
    RowAvoidsNewline(row, widths);
    RowPipes(row, widths);
  }

  /**
   * When no cell holds a line feed, the lines of a rendered table are its
   * header row, the separator and the other rows, in order.
   */
  lemma TableTextLines(rows: seq<seq<string>>, widths: seq<nat>)
    requires rows != []
    requires forall r, j | 0 <= r < |rows| && 0 <= j < |rows[r]| :: '\n' !in rows[r][j]
    ensures Split(TableText(rows, widths), '\n') == MdLines(rows, widths)
  {
    var lines := MdLines(rows, widths);
    var n := |lines|;
    forall k | 0 <= k < n ensures '\n' !in lines[k] {
      LineShape(rows, widths, k);
    }
    LineShape(rows, widths, n - 1);
    SplitTerminatedLines(lines);
  }

  /** A rendered table is its lines, header row first, separator second; a table without rows renders as nothing. */
  lemma TableMarkdownLines(t: Table)
    requires forall r, j | 0 <= r < |t.rows| && 0 <= j < |t.rows[r]| :: '\n' !in t.rows[r][j]
    ensures t.rows == [] ==> TableToMarkdownF(t) == []
    ensures t.rows != [] ==> Split(TableToMarkdownF(t), '\n') == MdLines(t.rows, MdWidths(t))
  {
    if t.rows != [] {
      TableTextLines(t.rows, MdWidths(t));
    }
  }

  /** Lines of rows that fit the widths all have the same length, with every column border in the same place. */
  lemma LinesAligned(rows: seq<seq<string>>, widths: seq<nat>, l: nat, k: nat)
    requires 0 < |rows| && l <= |rows| && k <= |widths|
    requires forall r | 0 <= r < |rows| :: |rows[r]| <= |widths|
    requires forall r, i | 0 <= r < |rows| && 0 <= i < |rows[r]| :: |EscapePipe(rows[r][i])| <= widths[i]
    ensures |MdLine(rows, widths, l)| == Border(widths, |widths|) + 1
    ensures Border(widths, k) < |MdLine(rows, widths, l)| && MdLine(rows, widths, l)[Border(widths, k)] == '|'
  {
    LineIsRow(rows, widths, l);
    SeparatorIsRow(widths);
    RowBorders(if l == 1 then Dashes(widths) else rows[if l == 0 then 0 else l - 1], widths, k);
  }

  /**
   * The lines of a Markdown table whose rows have no more cells than it has
   * columns all have the same length, with every column border in the same
   * place.
   */
  lemma MdTableAligned(t: Table, l: nat, k: nat)
    requires t.rows != [] && l <= |t.rows| && k <= t.numColumns
    requires forall r | 0 <= r < |t.rows| :: |t.rows[r]| <= t.numColumns
    ensures var widths := MdWidths(t); var line := MdLines(t.rows, widths)[l];
      && |line| == Border(widths, t.numColumns) + 1
      && Border(widths, k) < |line| && line[Border(widths, k)] == '|'
  {
    var widths := MdWidths(t);
    forall r, i | 0 <= r < |t.rows| && 0 <= i < |t.rows[r]| ensures |EscapePipe(t.rows[r][i])| <= widths[i] {
      MdWidthsBounds(t, i);
    }
    LinesAligned(t.rows, widths, l, k);
  }

  // ---------------------------------------------------------------------------
  // Pages

  /** What one element contributes, before the blank line that follows it. */
  function MdPiece(e: PageElement): string
  {
    match e
    case Heading(level, text) => Repeat('#', level) + CELL_OPEN + text
    case Paragraph(text) => text
    case TableElement(table) => TableToMarkdownF(table)
  }

  function MdPieces(es: seq<PageElement>): (ps: seq<string>)
    ensures |ps| == |es| && forall k | 0 <= k < |es| :: ps[k] == MdPiece(es[k])
  {
    seq(|es|, k requires 0 <= k < |es| => MdPiece(es[k]))
  }

  /**
   * `elements_to_markdown`: the elements in order, each followed by a blank
   * line, then the trailing white space replaced by one line feed.
   */
  function ElementsToMarkdownF(es: seq<PageElement>): (md: string)
    ensures md != [] ==> |md| >= 2 && md[|md| - 1] == '\n' && !IsWhiteSpace(md[|md| - 2])
  {
    FinishText(Terminated(MdPieces(es), BLANK_LINE))
  }

  /** A page renders as nothing exactly when every element renders blank; in particular an empty page does. */
  lemma MarkdownBlank(es: seq<PageElement>)
    ensures ElementsToMarkdownF(es) == [] <==> forall k | 0 <= k < |es| :: AllWhiteSpace(MdPiece(es[k]))
  {
    FinishTerminatedBlank(MdPieces(es), BLANK_LINE);
  }

  /** When the last element ends in visible text, the page is its elements separated by blank lines, with one final line feed. */
  lemma MarkdownJoined(es: seq<PageElement>)
    requires es != [] && MdPiece(es[|es| - 1]) != []
    requires !IsWhiteSpace(MdPiece(es[|es| - 1])[|MdPiece(es[|es| - 1])| - 1])
    ensures ElementsToMarkdownF(es) == Join(MdPieces(es), BLANK_LINE) + LINE_END
  {
    var ps := MdPieces(es);
    assert ps[|es| - 1] == MdPiece(es[|es| - 1]);
    FinishJoined(ps);
    assert ElementsToMarkdownF(es) == FinishText(Terminated(ps, BLANK_LINE));
  }

  /** A lone paragraph ending in visible text renders as that text and a line feed. */
  lemma ParagraphAlone(text: string)
    requires text != [] && !IsWhiteSpace(text[|text| - 1])
    ensures ElementsToMarkdownF([Paragraph(text)]) == text + LINE_END
  {
    MarkdownJoined([Paragraph(text)]);
  }

  /** A page that opens with a heading starts with `level` marks, a space and the heading's text. */
  lemma StartsWithHeading(es: seq<PageElement>, level: nat, text: string)
    requires es != [] && es[0] == Heading(level, text)
    requires text != [] && !IsWhiteSpace(text[|text| - 1])
    ensures var md := ElementsToMarkdownF(es); var p := Repeat('#', level) + CELL_OPEN + text;
      |p| <= |md| && md[..|p|] == p
  {
    var ps := MdPieces(es);
    var p := ps[0];
    var s := Terminated(ps, BLANK_LINE);
    TerminatedJoin(ps, BLANK_LINE);
    assert s[..|p|] == p by {
      if |ps| > 1 {
        assert Join(ps, BLANK_LINE) == p + BLANK_LINE + Join(ps[1..], BLANK_LINE);
      }
    }
    TrimEndKeeps(s, p);
  }

  // ---------------------------------------------------------------------------
  // The loops

  /** The widths loop of `table_to_markdown`. */
  method ComputeMdWidths(t: Table) returns (widths: seq<nat>)
    ensures widths == MdWidths(t)
  {
    ghost var rows := EscapeRows(t.rows);
    widths := seq(t.numColumns, _ => MIN_WIDTH);
    for k := 0 to |t.rows|
      invariant |widths| == t.numColumns
      invariant WidthsF(rows[k..], widths) == MdWidths(t)
    {
      var row := t.rows[k];
      assert rows[k..][1..] == rows[k + 1..];
      ghost var target := RowWidths(rows[k], widths);
      ghost var before := widths;
      for i := 0 to |row|
        invariant |widths| == t.numColumns
        invariant forall j | 0 <= j < |widths| :: widths[j] == if j < i then target[j] else before[j]
      {
        if i < |widths| {
          var escaped := EscapePipe(row[i]);
          widths := widths[i := Max(widths[i], |escaped|)];
        }
      }
      assert widths == target;
    }
  }

  /** `format_md_row`. */
  method FormatMdRow(row: seq<string>, widths: seq<nat>) returns (line: string)
    ensures line == MdRow(row, widths)
  {
    ghost var cells := MdCells(row, widths);
    line := PIPE;
    for i := 0 to |row|
      invariant line + ConcatFrom(cells, i) == PIPE + ConcatFrom(cells, 0)
    {
      var width := if i < |widths| then widths[i] else MIN_WIDTH;
      var escaped := EscapePipe(row[i]);
      ConcatStep(line, cells, i);
      line := line + MdCell(escaped, width);
    }
    line := PadMissing(line, row, widths);
  }

  /** The second loop of `format_md_row`: an empty cell for each column the row lacks. */
  method PadMissing(prefix: string, row: seq<string>, widths: seq<nat>) returns (line: string)
    ensures line == prefix + ConcatFrom(MdCells(row, widths), |row|)
  {
    line := prefix;
    var i := |row|;
    while i < |widths|
      invariant |row| <= i <= Max(|row|, |widths|)
      invariant line + ConcatFrom(MdCells(row, widths), i) == prefix + ConcatFrom(MdCells(row, widths), |row|)
    {
      MissingCellStep(line, row, widths, i);
      line := line + MdCell("", widths[i]);
      i := i + 1;
    }
    assert ConcatFrom(MdCells(row, widths), i) == [];
  }

  /** Past the end of the row, the next cell is an empty one at its column's width. */
  lemma MissingCellStep(line: string, row: seq<string>, widths: seq<nat>, i: nat)
    requires |row| <= i < |widths|
    ensures line + ConcatFrom(MdCells(row, widths), i)
         == (line + MdCell("", widths[i])) + ConcatFrom(MdCells(row, widths), i + 1)
  {
    var cells := MdCells(row, widths);
    assert cells[i] == MdCell("", widths[i]);
    ConcatStep(line, cells, i);
  }

  /** The separator loop of `table_to_markdown`. */
  method SeparatorLine(widths: seq<nat>) returns (line: string)
    ensures line == Separator(widths)
  {
    ghost var cells := SeparatorCells(widths);
    line := PIPE;
    for i := 0 to |widths|
      invariant line + ConcatFrom(cells, i) == Separator(widths)
    {
      ConcatStep(line, cells, i);
      line := line + CELL_OPEN + Repeat('-', widths[i]) + CELL_CLOSE;
    }
  }

  /** A table's first line is its header row, the second the separator. */
  lemma MdLinesStart(rows: seq<seq<string>>, widths: seq<nat>)
    requires rows != []
    ensures MdLines(rows, widths)[0] == MdRow(rows[0], widths)
    ensures MdLines(rows, widths)[1] == Separator(widths)
  {
  }

  /** Line `k + 1` of a table is its row `k`, for every row after the header. */
  lemma MdLineIsRow(rows: seq<seq<string>>, widths: seq<nat>, k: nat)
    requires 1 <= k < |rows|
    ensures MdLines(rows, widths)[k + 1] == MdRow(rows[k], widths)
  {
  }

  /** `table_to_markdown`. */
  method TableToMarkdown(t: Table) returns (md: string)
    ensures md == TableToMarkdownF(t)
  {
    if t.rows == [] {
      return "";
    }
    var widths := ComputeMdWidths(t);
    var header := FormatMdRow(t.rows[0], widths);
    var separator := SeparatorLine(widths);
    var out := header + LINE_END + separator + LINE_END;
    MdLinesStart(t.rows, widths);
    TerminatedTwo(MdLines(t.rows, widths), LINE_END);
    for k := 1 to |t.rows|
      invariant out == Terminated(MdLines(t.rows, widths)[..k + 1], LINE_END)
    {
      var line := FormatMdRow(t.rows[k], widths);
      MdLineIsRow(t.rows, widths, k);
      TerminatedPrefix(MdLines(t.rows, widths), LINE_END, k + 1);
      out := out + line + LINE_END;
    }
    assert MdLines(t.rows, widths)[..|t.rows| + 1] == MdLines(t.rows, widths);
    md := TrimEndMatches(out, '\n');
  }

  /** One more element rendered: its piece and a blank line after the ones before. */
  lemma MdStep(es: seq<PageElement>, i: nat)
    requires i < |es|
    ensures Terminated(MdPieces(es[..i + 1]), BLANK_LINE)
         == Terminated(MdPieces(es[..i]), BLANK_LINE) + MdPiece(es[i]) + BLANK_LINE
  {
    assert MdPieces(es[..i + 1])[..i] == MdPieces(es[..i]);
  }

  /** `elements_to_markdown`. */
  method ElementsToMarkdown(es: seq<PageElement>) returns (md: string)
    ensures md == ElementsToMarkdownF(es)
  {
    var out := "";
    for i := 0 to |es|
      invariant out == Terminated(MdPieces(es[..i]), BLANK_LINE)
    {
      var piece: string;
      match es[i] {
        case Heading(level, text) =>
          piece := Repeat('#', level) + CELL_OPEN + text;
        case Paragraph(text) =>
          piece := text;
        case TableElement(table) =>
          piece := TableToMarkdown(table);
      }
      assert piece == MdPiece(es[i]);
      MdStep(es, i);
      out := out + piece + BLANK_LINE;
    }
    assert es[..|es|] == es;
    var trimmed := TrimEnd(out);
    if trimmed == [] {
      md := trimmed;
    } else {
      md := trimmed + LINE_END;
    }
  }
}
