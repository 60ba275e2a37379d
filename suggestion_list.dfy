/** The list items `renderSuggestionsAsList` derives from the suggestion text
    (script.js:385-387): split on line breaks, blank lines dropped, a leading
    bullet marker and the white space after it removed, each item trimmed.
    The DOM elements it creates are not part of this model. */
module SuggestionList {
  import opened Text

  /** `line.trim() === ''`, the lines the filter drops: by the contract of
      `Trim`, the lines made of white space only. */
  predicate IsBlank(line: string) {
    AllSpace(line)
  }

  /** The filter's test is the source's: a line is blank exactly when
      trimming it leaves nothing. */
  lemma BlankIsTrimEmpty(line: string)
    ensures IsBlank(line) <==> Trim(line) == ""
  {
  }

  /** `line.replace` with the pattern `^(\*|-)\s*` and an empty
      replacement: a `*` or `-` in the very first position, and the white
      space right after it, are removed. */
  function StripMarker(line: string): string {
    if line != [] && (line[0] == '*' || line[0] == '-') then
      var rest := line[1..];
      rest[Span(rest, IsSpace)..]
    else line
  }

  /** The text of one list item. */
  function ParseItem(line: string): (item: string)
    ensures IsTrimmed(item)
  {
    Trim(StripMarker(line))
  }

  /** What the `filter` and `map` of script.js:386-387 make of one line. */
  function LineItems(line: string): seq<string> {
    if IsBlank(line) then [] else [ParseItem(line)]
  }

  /** The `filter` and `map` of script.js:386-387 over the lines. */
  function ParseLines(lines: seq<string>): seq<string> {
    if lines == [] then [] else LineItems(lines[0]) + ParseLines(lines[1..])
  }

  /** The items of script.js:385-387. */
  function ParseList(text: string): seq<string> {
    ParseLines(Split(text, '\n'))
  }

  /** Parsing works line by line: the items of two blocks of lines are the
      items of the first block followed by those of the second. */
  lemma {:induction false} ParseLinesAppend(a: seq<string>, b: seq<string>)
    ensures ParseLines(a + b) == ParseLines(a) + ParseLines(b)
  {
    if a == [] {
      assert a + b == b;
    } else {
      var ab := a + b;
      assert ab[0] == a[0];
      assert ab[1..] == a[1..] + b;
      ParseLinesAppend(a[1..], b);
      var head, x, y := LineItems(a[0]), ParseLines(a[1..]), ParseLines(b);
      assert ParseLines(ab) == head + (x + y);
      assert head + (x + y) == (head + x) + y;
    }
  }

  /** A blank line yields no item; any other line yields exactly one. */
  lemma ParseOneLine(line: string)
    ensures ParseLines([line]) == if IsBlank(line) then [] else [ParseItem(line)]
  {
    assert [line][1..] == [];
    assert ParseLines([line]) == LineItems(line) + [];
  }

  /** Without blank lines, there is one item per line, in order. */
  lemma {:induction false} ParseNonBlank(lines: seq<string>)
    requires forall i :: 0 <= i < |lines| ==> !IsBlank(lines[i])
    ensures |ParseLines(lines)| == |lines|
    ensures forall i :: 0 <= i < |lines| ==> ParseLines(lines)[i] == ParseItem(lines[i])
  {
    if lines != [] {
      var tail := lines[1..];
      assert forall i :: 0 <= i < |tail| ==> tail[i] == lines[i + 1];
      ParseNonBlank(tail);
      assert LineItems(lines[0]) == [ParseItem(lines[0])];
      ConsMap(lines, ParseLines(lines), ParseLines(tail), ParseItem);
    }
  }

  /** Position by position, `[f(xs[0])] + zs` maps `xs` through `f` when
      `zs` maps the rest of `xs` through `f`. */
  lemma ConsMap(xs: seq<string>, ys: seq<string>, zs: seq<string>, f: string -> string)
    requires xs != [] && ys == [f(xs[0])] + zs
    requires |zs| == |xs| - 1 && forall i :: 0 <= i < |zs| ==> zs[i] == f(xs[i + 1])
    ensures |ys| == |xs| && forall i :: 0 <= i < |xs| ==> ys[i] == f(xs[i])
  {
    forall i | 0 < i < |xs| ensures ys[i] == f(xs[i]) {
      assert ys[i] == zs[i - 1];
    }
  }

  /** The marker and the white space run after it are exactly what
      `StripMarker` removes from a bullet line. */
  lemma StripMarkerGap(marker: char, gap: string, body: string)
    requires marker == '*' || marker == '-'
    requires AllSpace(gap) && IsTrimmed(body)
    ensures StripMarker([marker] + gap + body) == body
  {
    var rest := ([marker] + gap + body)[1..];
    assert rest == gap + body;
    if body != [] {
      assert rest[|gap|] == body[0];
    }
    SpanIs(rest, IsSpace, |gap|);
    assert rest[|gap|..] == body;
  }

  /** A line that does not start with `*` or `-` keeps everything: the `^`
      anchor fails, so `"  * d"` gives the item `"* d"`. */
  lemma NoMarker(line: string)
    requires line == [] || (line[0] != '*' && line[0] != '-')
    ensures StripMarker(line) == line
    ensures ParseItem(line) == Trim(line)
  {
  }

  /** A bullet line gives back the trimmed text after the marker: a `*` or
      `-`, any white space, then the text. */
  lemma MarkerRoundTrip(marker: char, gap: string, body: string)
    requires marker == '*' || marker == '-'
    requires AllSpace(gap) && IsTrimmed(body)
    ensures ParseItem([marker] + gap + body) == body
    ensures !IsBlank([marker] + gap + body)
  {
    var line := [marker] + gap + body;
    StripMarkerGap(marker, gap, body);
    TrimmedFixed(body);
    assert !IsSpace(line[0]);
  }
}
