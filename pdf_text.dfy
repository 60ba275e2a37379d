/** The text of a PDF document as the controller assembles it
    (script.js:157-163): the text fragments of each page joined with spaces,
    and the pages joined with line breaks. PDF.js itself is not part of this
    model: a document is given as the sequence of its pages, each the
    sequence of the `str` fields of its text items. */
module PdfText {
  import opened Text

  /** `content.items.map(item => item.str).join(' ')` for one page. */
  function PageText(fragments: seq<string>): string {
    Join(fragments, " ")
  }

  /** The page texts, in page order. */
  function PageTexts(pages: seq<seq<string>>): seq<string> {
    seq(|pages|, i requires 0 <= i < |pages| => PageText(pages[i]))
  }

  /** The loop of script.js:157-163 over pages 1 to `numPages`, followed by
      `fullText.join('\n')`. */
  method ExtractPdfText(pages: seq<seq<string>>) returns (text: string)
    ensures text == Join(PageTexts(pages), "\n")
  {
    var fullText: seq<string> := [];
    for i := 1 to |pages| + 1
      invariant fullText == PageTexts(pages[..i - 1])
    {
      fullText := fullText + [Join(pages[i - 1], " ")];
      assert pages[..i] == pages[..i - 1] + [pages[i - 1]];
    }
    assert pages[..|pages|] == pages;
    text := Join(fullText, "\n");
  }

  /** A page whose fragments hold no line break gives a text without one. */
  lemma PageTextOneLine(fragments: seq<string>)
    requires forall j :: 0 <= j < |fragments| ==> '\n' !in fragments[j]
    ensures '\n' !in PageText(fragments)
  {
    JoinAvoids(fragments, " ", '\n');
  }

  /** When no text fragment holds a line break, the lines of the extracted
      text are exactly the page texts, one line per page; a document without
      pages gives the empty text. */
  lemma PdfTextLines(pages: seq<seq<string>>)
    requires forall p, j :: 0 <= p < |pages| && 0 <= j < |pages[p]| ==> '\n' !in pages[p][j]
    ensures pages == [] ==> Join(PageTexts(pages), "\n") == ""
    ensures pages != [] ==> Split(Join(PageTexts(pages), "\n"), '\n') == PageTexts(pages)
  {
    var texts := PageTexts(pages);
    forall p | 0 <= p < |texts| ensures '\n' !in texts[p] {
      PageTextOneLine(pages[p]);
    }
    if pages != [] {
      SplitJoin(texts, '\n');
    }
  }

  /** With fragments free of spaces, each page text splits back into the
      fragments of its page. */
  lemma PageTextWords(fragments: seq<string>)
    requires |fragments| >= 1
    requires forall j :: 0 <= j < |fragments| ==> ' ' !in fragments[j]
    ensures Split(PageText(fragments), ' ') == fragments
  {
    SplitJoin(fragments, ' ');
  }
}
