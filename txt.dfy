/*
 * Plain-text rendering of a page's elements: headings and paragraphs as
 * their text, tables in the aligned columns of `Table::to_text`; each
 * element followed by a blank line.
 */
module PlainText {
  import opened Common
  import opened Tables
  import opened Layout
  import Markdown

  const LINE_END: string := "\n"
  const BLANK_LINE: string := "\n\n"

  /** What one element contributes, before the blank line that follows it; a heading's level plays no part. */
  function TxtPiece(e: PageElement): string
  {
    match e
    case Heading(_, text) => text
    case Paragraph(text) => text
    case TableElement(table) => ToTextF(table)
  }

  function TxtPieces(es: seq<PageElement>): (ps: seq<string>)
    ensures |ps| == |es| && forall k | 0 <= k < |es| :: ps[k] == TxtPiece(es[k])
  {
    seq(|es|, k requires 0 <= k < |es| => TxtPiece(es[k]))
  }

  /**
   * `elements_to_txt`: the elements in order, each followed by a blank line,
   * then the trailing white space replaced by one line feed.
   */
  function ElementsToTxtF(es: seq<PageElement>): (txt: string)
    ensures txt != [] ==> |txt| >= 2 && txt[|txt| - 1] == '\n' && !IsWhiteSpace(txt[|txt| - 2])
  {
    FinishText(Terminated(TxtPieces(es), BLANK_LINE))
  }

  /** A page renders as nothing exactly when every element renders blank; in particular an empty page does. */
  lemma TxtBlank(es: seq<PageElement>)
    ensures ElementsToTxtF(es) == [] <==> forall k | 0 <= k < |es| :: AllWhiteSpace(TxtPiece(es[k]))
  {
    FinishTerminatedBlank(TxtPieces(es), BLANK_LINE);
  }

  /** When the last element ends in visible text, the page is its elements separated by blank lines, with one final line feed. */
  lemma TxtJoined(es: seq<PageElement>)
    requires es != [] && TxtPiece(es[|es| - 1]) != []
    requires !IsWhiteSpace(TxtPiece(es[|es| - 1])[|TxtPiece(es[|es| - 1])| - 1])
    ensures ElementsToTxtF(es) == Join(TxtPieces(es), BLANK_LINE) + LINE_END
  {
    FinishJoined(TxtPieces(es));
  }

  /** A heading followed by a paragraph renders as the two texts a blank line apart, whatever the heading's level. */
  lemma HeadingThenParagraph(level: nat, heading: string, text: string)
    requires text != [] && !IsWhiteSpace(text[|text| - 1])
    ensures ElementsToTxtF([Heading(level, heading), Paragraph(text)]) == heading + BLANK_LINE + text + LINE_END
  {
    var es := [Heading(level, heading), Paragraph(text)];
    TxtJoined(es);
    assert TxtPieces(es) == [heading, text];
    assert TxtPieces(es)[1..] == [text];
  }

  /** A lone table renders as its aligned text and a line feed, when that text ends in a visible character. */
  lemma TableAlone(t: Table)
    requires ToTextF(t) != [] && !IsWhiteSpace(ToTextF(t)[|ToTextF(t)| - 1])
    ensures ElementsToTxtF([TableElement(t)]) == ToTextF(t) + LINE_END
  {
    TxtJoined([TableElement(t)]);
  }

  /** Changing a heading's level, or turning it into a paragraph of the same text, leaves the plain text unchanged. */
  lemma HeadingLevelIgnored(es: seq<PageElement>, k: nat, level: nat)
    requires k < |es| && es[k].Heading?
    ensures ElementsToTxtF(es[k := Heading(level, es[k].text)]) == ElementsToTxtF(es)
    ensures ElementsToTxtF(es[k := Paragraph(es[k].text)]) == ElementsToTxtF(es)
  {
    assert TxtPieces(es[k := Heading(level, es[k].text)]) == TxtPieces(es);
    assert TxtPieces(es[k := Paragraph(es[k].text)]) == TxtPieces(es);
  }

  /** On a page of paragraphs only, the plain text and the Markdown agree. */
  lemma ParagraphsAgree(es: seq<PageElement>)
    requires forall k | 0 <= k < |es| :: es[k].Paragraph?
    ensures ElementsToTxtF(es) == Markdown.ElementsToMarkdownF(es)
  {
    assert TxtPieces(es) == Markdown.MdPieces(es);
  }

  /** One more element extends the rendered prefix by its piece and a blank line. */
  lemma TxtStep(es: seq<PageElement>, i: nat)
    requires i < |es|
    ensures Terminated(TxtPieces(es[..i + 1]), BLANK_LINE)
         == Terminated(TxtPieces(es[..i]), BLANK_LINE) + TxtPiece(es[i]) + BLANK_LINE
  {
    assert TxtPieces(es[..i + 1])[..i] == TxtPieces(es[..i]);
  }

  /** `elements_to_txt`. */
  method ElementsToTxt(es: seq<PageElement>) returns (txt: string)
    ensures txt == ElementsToTxtF(es)
  {
    var out := "";
    for i := 0 to |es|
      invariant out == Terminated(TxtPieces(es[..i]), BLANK_LINE)
    {
      var piece: string;
      match es[i] {
        case Heading(_, text) =>
          piece := text;
        case Paragraph(text) =>
          piece := text;
        case TableElement(table) =>
          piece := ToText(table);
      }
      assert piece == TxtPiece(es[i]);
      TxtStep(es, i);
      out := out + piece + BLANK_LINE;
    }
    assert es[..|es|] == es;
    var trimmed := TrimEnd(out);
    if trimmed == [] {
      txt := trimmed;
    } else {
      txt := trimmed + LINE_END;
    }
  }
}
