/** The mock suggestion generator of `generateImprovementSuggestions`
    (script.js:325-353): the word count of the extracted text picks one of
    three fixed bullet-list templates. */
module Suggestions {
  import opened Text
  import SuggestionList

  predicate IsWordChar(c: char) {
    !IsSpace(c)
  }

  /** `s.split(/\s+/).filter(word => word.length > 0)`: the maximal runs of
      characters that are not white space, in order. */
  function Words(s: string): (words: seq<string>)
    ensures forall i :: 0 <= i < |words| ==> words[i] != [] && !HasSpace(words[i])
    decreases |s|
  {
    var t := s[Span(s, IsSpace)..];
    if t == [] then []
    else
      var k := Span(t, IsWordChar);
      [t[..k]] + Words(t[k..])
  }

  /** `w` holds a white-space character. */
  predicate HasSpace(w: string) {
    exists i :: 0 <= i < |w| && IsSpace(w[i])
  }

  /** `numWords` of script.js:326. */
  function WordCount(s: string): nat {
    |Words(s)|
  }

  /** An independent count of the words: the positions holding a character
      that is not white space and that follow white space or the start of the
      text (`afterSpace` says whether the position before `s` is such). */
  function WordStarts(s: string, afterSpace: bool): nat {
    if s == [] then 0
    else (if afterSpace && !IsSpace(s[0]) then 1 else 0) + WordStarts(s[1..], IsSpace(s[0]))
  }

  lemma {:induction false} SkipSpace(s: string, j: nat)
    requires j <= |s| && AllSpace(s[..j])
    ensures WordStarts(s, true) == WordStarts(s[j..], true)
  {
    if j > 0 {
      assert IsSpace(s[..j][0]);
      assert s[1..][..j - 1] == s[..j][1..];
      SkipSpace(s[1..], j - 1);
      assert s[1..][j - 1..] == s[j..];
    }
  }

  lemma {:induction false} SkipWord(s: string, j: nat)
    requires 0 < j <= |s|
    requires forall i :: 0 <= i < j ==> !IsSpace(s[i])
    ensures WordStarts(s[1..], false) == WordStarts(s[j..], false)
  {
    if j > 1 {
      SkipWord(s[1..], j - 1);
      assert s[1..][j - 1..] == s[j..];
    }
  }

  /** The word count is the number of word starts: splitting on white space
      and dropping the empty pieces counts exactly the transitions from white
      space (or the start of the text) to a character that is not. */
  lemma {:induction false} WordCountIsWordStarts(s: string)
    ensures WordCount(s) == WordStarts(s, true)
    decreases |s|
  {
    var j := Span(s, IsSpace);
    var t := s[j..];
    SkipSpace(s, j);
    if t != [] {
      var k := Span(t, IsWordChar);
      SkipWord(t, k);
      var u := t[k..];
      assert u == [] || IsSpace(u[0]);
      assert WordStarts(u, false) == WordStarts(u, true);
      WordCountIsWordStarts(u);
      assert Words(s) == [t[..k]] + Words(u);
    }
  }

  /** Bullet lines: each item after a `*` and a space. */
  function Bullets(items: seq<string>): (lines: seq<string>)
    ensures |lines| == |items|
  {
    seq(|items|, i requires 0 <= i < |items| => "* " + items[i])
  }

  /** A template literal of script.js:329-352 before its `.trim()`: a line
      break, the bullet lines separated by line breaks, and the line break
      and eight spaces in front of the closing backtick. */
  function RawTemplate(items: seq<string>): string {
    "\n" + Join(Bullets(items), "\n") + "\n        "
  }

  // The item texts are written as concatenations of short pieces so that
  // the verifier can reason about their characters; each is the sentence of
  // the corresponding line of script.js:329-352 after its `* ` marker.
  const Brief0: string :=
    "Consider " + "expanding the " + "content with " + "more detailed " + "information."
  const Brief1: string :=
    "Add an " + "introductory " + "paragraph to " + "set the " + "context for " + "the reader."
  const Brief2: string :=
    "Include a " + "clear " + "concluding " + "statement to " + "summarize key " + "takeaways."
  const Brief3: string :=
    "Provide " + "specific " + "examples to " + "illustrate any " + "abstract " + "concepts."

  /** The items of the template for texts of fewer than 50 words. */
  const BriefItems: seq<string> := [Brief0, Brief1, Brief2, Brief3]

  const Moderate0: string :=
    "Review the " + "document for " + "overall " + "clarity and " + "conciseness " + "across " + "sections."
  const Moderate1: string :=
    "Ensure smooth " + "and logical " + "transitions " + "between " + "paragraphs and " + "sections."
  const Moderate2: string :=
    "Check for " + "consistent " + "terminology " + "and phrasing " + "throughout the " + "text."
  const Moderate3: string :=
    "Break down any " + "overly long or " + "complex " + "sentences for " + "better " + "readability."
  const Moderate4: string :=
    "Add specific " + "data or " + "evidence to " + "support claims " + "where " + "appropriate."

  /** The items of the template for texts of 50 to 299 words. */
  const ModerateItems: seq<string> := [Moderate0, Moderate1, Moderate2, Moderate3, Moderate4]

  const Extensive0: string :=
    "Evaluate the " + "document's " + "overall " + "structure and " + "flow for " + "maximum " + "impact."
  const Extensive1: string :=
    "Condense " + "lengthy " + "sections into " + "more " + "digestible " + "parts without " + "losing " + "meaning."
  const Extensive2: string :=
    "Verify the " + "accuracy and " + "currency of " + "all facts, " + "figures, and " + "external " + "references."
  const Extensive3: string :=
    "Explore " + "opportunities " + "for " + "incorporating " + "visual aids " + "suchs as " + "charts, " + "graphs, or " + "diagrams."
  const Extensive4: string :=
    "Ensure the " + "generated " + "summary " + "accurately " + "reflects the " + "most critical " + "points of the " + "entire " + "document."
  const Extensive5: string :=
    "Refine the " + "language to " + "enhance " + "precision, " + "impact, and to " + "eliminate any " + "redundancy."
  const Extensive6: string :=
    "Consider " + "adding an " + "executive " + "summary if the " + "document is " + "very " + "extensive."

  /** The items of the template for texts of 300 words or more. */
  const ExtensiveItems: seq<string> := [Extensive0, Extensive1, Extensive2, Extensive3, Extensive4, Extensive5, Extensive6]

  /** The items of the template a word count selects (script.js:328-353). */
  function TemplateItems(numWords: nat): seq<string> {
    if numWords < 50 then BriefItems
    else if numWords < 300 then ModerateItems
    else ExtensiveItems
  }

  /** `mockSuggestions` for a word count: the selected template, trimmed. */
  function SuggestionsFor(numWords: nat): string {
    Trim(RawTemplate(TemplateItems(numWords)))
  }

  /** What `generateImprovementSuggestions` stores for an extracted text. */
  function SuggestionsText(text: string): string {
    SuggestionsFor(WordCount(text))
  }

  /** The shape of a template item: not empty, free of line breaks, and
      neither starting nor ending with white space. */
  predicate IsItem(item: string) {
    item != [] && '\n' !in item && IsTrimmed(item)
  }

  lemma {:induction false} JoinTrimmed(lines: seq<string>, sep: string)
    requires |lines| >= 1 && forall i :: 0 <= i < |lines| ==> lines[i] != [] && IsTrimmed(lines[i])
    ensures Join(lines, sep) != [] && IsTrimmed(Join(lines, sep))
    ensures Join(lines, sep)[0] == lines[0][0]
  {
    if |lines| > 1 {
      JoinTrimmed(lines[1..], sep);
      var rest := Join(lines[1..], sep);
      assert Join(lines, sep) == lines[0] + sep + rest;
      assert Join(lines, sep)[|Join(lines, sep)| - 1] == rest[|rest| - 1];
    }
  }

  /** One bullet line is a proper line of the template text. */
  lemma BulletLineShape(item: string)
    requires IsItem(item)
    ensures "* " + item != [] && IsTrimmed("* " + item) && '\n' !in "* " + item
  {
    var line := "* " + item;
    assert line[0] == '*';
    assert line[|line| - 1] == item[|item| - 1];
    assert forall c :: c in line ==> c == '*' || c == ' ' || c in item;
  }

  /** One bullet line parses back to its item. */
  lemma BulletLineParse(item: string)
    requires IsItem(item)
    ensures SuggestionList.ParseItem("* " + item) == item && !SuggestionList.IsBlank("* " + item)
  {
    assert "* " + item == ['*'] + " " + item;
    SuggestionList.MarkerRoundTrip('*', " ", item);
  }

  /** The text around the bullet lines of a template is white space. */
  lemma TemplateMargins()
    ensures AllSpace("\n") && AllSpace("\n        ")
  {
    var trail := "\n        ";
    assert forall i :: 0 <= i < |trail| ==> trail[i] == '\n' || trail[i] == ' ';
  }

  /** Parsing a trimmed template gives back its items. */
  lemma TemplateRoundTrip(items: seq<string>)
    requires |items| >= 1 && forall i :: 0 <= i < |items| ==> IsItem(items[i])
    ensures SuggestionList.ParseList(Trim(RawTemplate(items))) == items
  {
    var lines := Bullets(items);
    forall i | 0 <= i < |lines|
      ensures lines[i] != [] && IsTrimmed(lines[i]) && '\n' !in lines[i]
      ensures SuggestionList.ParseItem(lines[i]) == items[i] && !SuggestionList.IsBlank(lines[i])
    {
      BulletLineShape(items[i]);
      BulletLineParse(items[i]);
    }
    JoinTrimmed(lines, "\n");
    var body := Join(lines, "\n");
    TemplateMargins();
    TrimUnique("\n", body, "\n        ");
    SplitJoin(lines, '\n');
    SuggestionList.ParseNonBlank(lines);
  }

  lemma Brief0IsItem() ensures IsItem(Brief0) {}
  lemma Brief1IsItem() ensures IsItem(Brief1) {}
  lemma Brief2IsItem() ensures IsItem(Brief2) {}
  lemma Brief3IsItem() ensures IsItem(Brief3) {}

  lemma BriefItemsWellFormed()
    ensures forall i :: 0 <= i < |BriefItems| ==> IsItem(BriefItems[i])
  {
    Brief0IsItem();
    Brief1IsItem();
    Brief2IsItem();
    Brief3IsItem();
  }

  lemma Moderate0IsItem() ensures IsItem(Moderate0) {}
  lemma Moderate1IsItem() ensures IsItem(Moderate1) {}
  lemma Moderate2IsItem() ensures IsItem(Moderate2) {}
  lemma Moderate3IsItem() ensures IsItem(Moderate3) {}
  lemma Moderate4IsItem() ensures IsItem(Moderate4) {}

  lemma ModerateItemsWellFormed()
    ensures forall i :: 0 <= i < |ModerateItems| ==> IsItem(ModerateItems[i])
  {
    Moderate0IsItem();
    Moderate1IsItem();
    Moderate2IsItem();
    Moderate3IsItem();
    Moderate4IsItem();
  }

  lemma Extensive0IsItem() ensures IsItem(Extensive0) {}
  lemma Extensive1IsItem() ensures IsItem(Extensive1) {}
  lemma Extensive2IsItem() ensures IsItem(Extensive2) {}
  lemma Extensive3IsItem() ensures IsItem(Extensive3) {}
  lemma Extensive4IsItem() ensures IsItem(Extensive4) {}
  lemma Extensive5IsItem() ensures IsItem(Extensive5) {}
  lemma Extensive6IsItem() ensures IsItem(Extensive6) {}

  lemma ExtensiveItemsWellFormed()
    ensures forall i :: 0 <= i < |ExtensiveItems| ==> IsItem(ExtensiveItems[i])
  {
    Extensive0IsItem();
    Extensive1IsItem();
    Extensive2IsItem();
    Extensive3IsItem();
    Extensive4IsItem();
    Extensive5IsItem();
    Extensive6IsItem();
  }

  /** Below 50 words the list has the 4 items of the first template, from 50
      to 299 the 5 items of the second, from 300 on the 7 items of the third:
      the suggestion text, rendered as a list, gives back exactly these. */
  lemma SuggestionBuckets(numWords: nat)
    ensures SuggestionList.ParseList(SuggestionsFor(numWords)) == TemplateItems(numWords)
    ensures |SuggestionList.ParseList(SuggestionsFor(numWords))|
            == if numWords < 50 then 4 else if numWords < 300 then 5 else 7
  {
    BriefItemsWellFormed();
    ModerateItemsWellFormed();
    ExtensiveItemsWellFormed();
    TemplateRoundTrip(TemplateItems(numWords));
  }

  /** The suggestions depend on the text only through its word count, and an
      empty or blank text gets the first template. */
  lemma SuggestionsByWordCount(a: string, b: string)
    requires WordCount(a) == WordCount(b)
    ensures SuggestionsText(a) == SuggestionsText(b)
    ensures AllSpace(a) ==> SuggestionList.ParseList(SuggestionsText(a)) == BriefItems
  {
    if AllSpace(a) {
      assert Span(a, IsSpace) == |a|;
      assert Words(a) == [];
      SuggestionBuckets(0);
    }
  }
}
