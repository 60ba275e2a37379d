/** The sentence splitter of the summarizer: the matches of the global
    regular expression `[^.!?]+[.!?]+` over the extracted text, written out
    as a scan (script.js:218). */
module Sentences {
  import opened Text

  predicate IsTerminator(c: char) {
    c == '.' || c == '!' || c == '?'
  }

  predicate IsBodyChar(c: char) {
    !IsTerminator(c)
  }

  /** One match of `[^.!?]+[.!?]+`: its longest prefix of non-terminators is
      not empty, and everything after that prefix, of which there is at least
      one character, is a terminator. */
  predicate IsSentence(x: string) {
    var k := Span(x, IsBodyChar);
    0 < k < |x| && forall i :: k <= i < |x| ==> IsTerminator(x[i])
  }

  /** The successive matches of `[^.!?]+[.!?]+` in `text`, that is
      `text.match(/[^.!?]+[.!?]+/g) || []`. A match is a maximal run of
      non-terminators followed by a maximal run of terminators.
      `SentenceCover.SplitCover` shows that the terminators before the first
      match and a tail without a terminator are all that no match covers. */
  function Split(text: string): seq<string>
    decreases |text|
  {
    var t := text[Span(text, IsTerminator)..];
    var a := Span(t, IsBodyChar);
    if a == |t| then []
    else
      var b := a + Span(t[a..], IsTerminator);
      [t[..b]] + Split(t[b..])
  }

  /** Every match is a sentence: a run of non-terminators followed by a
      run of terminators. */
  lemma {:induction false} SplitSentences(text: string)
    ensures AllSentences(Split(text))
    decreases |text|
  {
    var t := text[Span(text, IsTerminator)..];
    var a := Span(t, IsBodyChar);
    if a < |t| {
      var b := a + Span(t[a..], IsTerminator);
      assert Split(text) == [t[..b]] + Split(t[b..]);
      assert t[0] == text[Span(text, IsTerminator)];
      FirstMatchIsSentence(t, a, b);
      SplitSentences(t[b..]);
      ConsSentences(t[..b], Split(t[b..]));
    } else {
      assert Split(text) == [];
    }
  }

  predicate AllSentences(xs: seq<string>) {
    forall i :: 0 <= i < |xs| ==> IsSentence(xs[i])
  }

  lemma ConsSentences(x: string, rest: seq<string>)
    requires IsSentence(x) && AllSentences(rest)
    ensures AllSentences([x] + rest)
  {
    forall i | 1 <= i < |[x] + rest| ensures IsSentence(([x] + rest)[i]) {
      assert ([x] + rest)[i] == rest[i - 1];
    }
  }

  /** The first match of a text that starts with a non-terminator and holds
      a terminator: its non-terminators, then the terminators after them. */
  lemma FirstMatchIsSentence(t: string, a: nat, b: nat)
    requires 0 < a == Span(t, IsBodyChar) < |t|
    requires b == a + Span(t[a..], IsTerminator)
    ensures IsSentence(t[..b])
  {
    var x := t[..b];
    assert t[a..][0] == t[a];
    forall i | a <= i < b ensures IsTerminator(x[i]) {
      assert x[i] == t[a..][i - a];
    }
    assert x[a] == t[a];
    SpanIs(x, IsBodyChar, a);
  }

  /** The text that a list of sentences spells out, with nothing between them. */
  function Concat(xs: seq<string>): string {
    if xs == [] then "" else xs[0] + Concat(xs[1..])
  }

  lemma ConcatStartsWithBody(xs: seq<string>)
    requires xs != [] && IsSentence(xs[0])
    ensures Concat(xs) != [] && IsBodyChar(Concat(xs)[0])
  {
    assert Concat(xs) == xs[0] + Concat(xs[1..]);
  }

  /** A sentence followed by a text that does not begin with a terminator
      is the first match, and the split goes on after it. */
  lemma SplitFirst(x: string, rest: string)
    requires IsSentence(x)
    requires rest == [] || IsBodyChar(rest[0])
    ensures Split(x + rest) == [x] + Split(rest)
  {
    var text := x + rest;
    var k := Span(x, IsBodyChar);
    SpanPrefix(x, rest, IsTerminator);
    assert text[0..] == text;
    SpanPrefix(x, rest, IsBodyChar);
    assert text[k..] == x[k..] + rest;
    SpanWhole(x[k..], rest, IsTerminator);
    assert text[..|x|] == x;
    assert text[|x|..] == rest;
  }

  /** The split of a text of whole sentences starts with the first one and
      goes on with the split of the others. */
  lemma ConcatCons(xs: seq<string>)
    requires xs != [] && IsSentence(xs[0])
    requires xs[1..] != [] ==> IsSentence(xs[1..][0])
    ensures Split(Concat(xs)) == [xs[0]] + Split(Concat(xs[1..]))
  {
    var rest := Concat(xs[1..]);
    assert Concat(xs) == xs[0] + rest;
    if xs[1..] != [] {
      ConcatStartsWithBody(xs[1..]);
    }
    SplitFirst(xs[0], rest);
  }

  /** Splitting a text made of whole sentences gives those sentences back,
      in order. */
  lemma {:induction false} SplitConcat(xs: seq<string>)
    requires forall i :: 0 <= i < |xs| ==> IsSentence(xs[i])
    ensures Split(Concat(xs)) == xs
  {
    if xs == [] {
      assert Concat(xs) == [];
    } else {
      var tail := xs[1..];
      assert tail != [] ==> tail[0] == xs[1];
      ConcatCons(xs);
      assert forall i :: 0 <= i < |tail| ==> tail[i] == xs[i + 1];
      SplitConcat(tail);
      assert xs == [xs[0]] + tail;
    }
  }

  /** A terminator right after a non-terminator. */
  predicate EndsSentenceAt(text: string, i: nat)
    requires 0 < i < |text|
  {
    IsBodyChar(text[i - 1]) && IsTerminator(text[i])
  }

  /** When the splitter finds a first match, its last body character and
      the terminator after it form such a pair. */
  lemma MatchHasPair(text: string)
    requires Split(text) != []
    ensures exists i :: 0 < i < |text| && EndsSentenceAt(text, i)
  {
    var j := Span(text, IsTerminator);
    var t := text[j..];
    var a := Span(t, IsBodyChar);
    assert t[0] == text[j];
    assert text[j + a - 1] == t[a - 1] && text[j + a] == t[a];
    assert EndsSentenceAt(text, j + a);
  }

  /** When the splitter finds no match, the text is terminators followed by
      non-terminators, so no terminator follows a non-terminator. */
  lemma NoMatchNoPair(text: string)
    requires Split(text) == []
    ensures forall i :: 0 < i < |text| ==> !EndsSentenceAt(text, i)
  {
    var j := Span(text, IsTerminator);
    var t := text[j..];
    assert Span(t, IsBodyChar) == |t|;
    forall i | 0 < i < |text| ensures !EndsSentenceAt(text, i) {
      if IsBodyChar(text[i - 1]) {
        assert j <= i - 1;
        assert text[i] == t[i - j];
      }
    }
  }

  /** A text yields no sentence exactly when no terminator in it follows a
      non-terminator. */
  lemma SplitEmpty(text: string)
    ensures Split(text) == [] <==> forall i :: 0 < i < |text| ==> !EndsSentenceAt(text, i)
  {
    if Split(text) == [] {
      NoMatchNoPair(text);
    } else {
      MatchHasPair(text);
    }
  }

  /** A text without any terminator yields no sentence. */
  lemma NoTerminatorNoSentence(text: string)
    requires forall i :: 0 <= i < |text| ==> !IsTerminator(text[i])
    ensures Split(text) == []
  {
    SplitEmpty(text);
  }
}
