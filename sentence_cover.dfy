/** How the matches of the sentence splitter (script.js:218) cover the
    text: its leading terminators, then the matches back to back, then a
    tail without a terminator. Nothing else is dropped or added. */
module SentenceCover {
  import Text
  import opened Sentences

  /** What no match covers at the end of `text`: its longest suffix of
      non-terminators. */
  function Tail(text: string): string {
    text[|text| - Text.SpanEnd(text, IsBodyChar)..]
  }

  predicate AllBody(s: string) {
    forall i :: 0 <= i < |s| ==> IsBodyChar(s[i])
  }

  predicate AllTerminators(s: string) {
    forall i :: 0 <= i < |s| ==> IsTerminator(s[i])
  }

  /** The terminators `Split` skips before looking for a match. */
  function Lead(text: string): string {
    text[..Text.Span(text, IsTerminator)]
  }

  /** A terminator comes after the leading terminators and the
      non-terminators that follow them: `Split` finds a first match. */
  predicate HasMatch(text: string) {
    var t := text[Text.Span(text, IsTerminator)..];
    Text.Span(t, IsBodyChar) < |t|
  }

  /** The first match, as `Split` cuts it. */
  function First(text: string): string {
    var t := text[Text.Span(text, IsTerminator)..];
    var a := Text.Span(t, IsBodyChar);
    t[..a + Text.Span(t[a..], IsTerminator)]
  }

  /** The text after the first match, where `Split` goes on. */
  function Rest(text: string): string {
    var t := text[Text.Span(text, IsTerminator)..];
    var a := Text.Span(t, IsBodyChar);
    t[a + Text.Span(t[a..], IsTerminator)..]
  }

  /** The matches account for the whole text: it is its leading terminators,
      then the matches one after the other with nothing between them, then a
      tail holding no terminator. */
  lemma SplitCover(text: string)
    ensures AllTerminators(Lead(text))
    ensures AllBody(Tail(text))
    ensures text == Lead(text) + Concat(Split(text)) + Tail(text)
  {
    LeadIsTerminators(text);
    TailIsBody(text);
    SplitRebuild(text);
  }

  lemma LeadIsTerminators(text: string)
    ensures AllTerminators(Lead(text))
  {
  }

  lemma TailIsBody(text: string)
    ensures AllBody(Tail(text))
  {
  }

  /** By induction on the matches: the text is rebuilt from its leading
      terminators, its matches and its tail. */
  lemma {:induction false} SplitRebuild(text: string)
    ensures text == Lead(text) + Concat(Split(text)) + Tail(text)
    decreases |text|
  {
    if !HasMatch(text) {
      NoMatchEmpty(text);
      NoMatchText(text);
      NoMatchTail(text);
      assert Concat([]) == [];
    } else {
      var m, rest := First(text), Rest(text);
      StepShorter(text);
      SplitRebuild(rest);
      StepText(text);
      StepSplit(text);
      StepRestLead(text);
      StepEnds(text);
      TailAfterMatch(Lead(text) + m, rest);
      Combine(text, Lead(text), m, rest, Split(text), Split(rest), Lead(rest), Tail(rest));
    }
  }

  /** The rebuilding step, on plain strings: a text made of `lead`, a match
      `m` and a `rest` that is rebuilt from its own matches and tail. */
  lemma Combine(text: string, lead: string, m: string, rest: string,
                matches: seq<string>, restMatches: seq<string>, restLead: string, tail: string)
    requires text == lead + (m + rest) && matches == [m] + restMatches
    requires restLead == [] && rest == restLead + Concat(restMatches) + tail
    ensures text == (lead + m) + rest
    ensures text == lead + Concat(matches) + tail
  {
    assert matches[1..] == restMatches;
  }

  lemma NoMatchEmpty(text: string)
    requires !HasMatch(text)
    ensures Split(text) == []
  {
  }

  lemma NoMatchText(text: string)
    ensures text == Lead(text) + text[Text.Span(text, IsTerminator)..]
  {
    SliceJoin(text, Text.Span(text, IsTerminator));
  }

  /** Without a match, everything after the leading terminators is the
      tail. */
  lemma NoMatchTail(text: string)
    requires !HasMatch(text)
    ensures Tail(text) == text[Text.Span(text, IsTerminator)..]
  {
    var j := Text.Span(text, IsTerminator);
    var t := text[j..];
    LeadIsTerminators(text);
    BodyRun(t);
    NoMatchText(text);
    TailOfBody(text, Lead(text), t);
  }

  lemma BodyRun(t: string)
    requires Text.Span(t, IsBodyChar) == |t|
    ensures AllBody(t)
  {
  }

  /** Terminators followed by non-terminators: the non-terminators are the
      tail. */
  lemma TailOfBody(text: string, lead: string, t: string)
    requires text == lead + t && AllTerminators(lead) && AllBody(t)
    ensures Tail(text) == t
  {
    if lead != [] {
      assert IsTerminator(lead[|lead| - 1]);
    }
    Text.SpanEndWhole(lead, t, IsBodyChar);
    assert text[|lead|..] == t;
  }

  /** A text that goes on after a terminator has the tail of what follows. */
  lemma TailAfterMatch(prefix: string, rest: string)
    requires prefix != [] && IsTerminator(prefix[|prefix| - 1])
    ensures Tail(prefix + rest) == Tail(rest)
  {
    var k := Text.SpanEnd(rest, IsBodyChar);
    if k < |rest| {
      Text.SpanEndSuffix(prefix, rest, IsBodyChar);
    } else {
      Text.SpanEndWhole(prefix, rest, IsBodyChar);
    }
    assert (prefix + rest)[|prefix + rest| - k..] == rest[|rest| - k..];
  }

  /** The first match ends with a terminator, and what follows it does not
      begin with one. */
  lemma MatchParts(t: string, a: nat, b: nat)
    requires a == Text.Span(t, IsBodyChar) < |t|
    requires b == a + Text.Span(t[a..], IsTerminator)
    ensures a < b <= |t| && IsTerminator(t[b - 1])
    ensures b < |t| ==> !IsTerminator(t[b])
  {
    var u := t[a..];
    assert u[0] == t[a];
    MatchEnd(t, a, u, Text.Span(u, IsTerminator));
  }

  lemma MatchEnd(t: string, a: nat, u: string, c: nat)
    requires a < |t| && u == t[a..] && 0 < c <= |u|
    requires IsTerminator(u[c - 1]) && (c < |u| ==> !IsTerminator(u[c]))
    ensures IsTerminator(t[a + c - 1]) && (a + c < |t| ==> !IsTerminator(t[a + c]))
  {
  }

  lemma SliceJoin(s: string, k: nat)
    requires k <= |s|
    ensures s == s[..k] + s[k..]
  {
  }

  /** The text is its leading terminators, the first match, then the rest. */
  lemma StepText(text: string)
    ensures text == Lead(text) + (First(text) + Rest(text))
  {
    var j := Text.Span(text, IsTerminator);
    var t := text[j..];
    var a := Text.Span(t, IsBodyChar);
    SliceJoin(t, a + Text.Span(t[a..], IsTerminator));
    SliceJoin(text, j);
  }

  /** `Split` emits the first match and goes on with the rest. */
  lemma StepSplit(text: string)
    requires HasMatch(text)
    ensures Split(text) == [First(text)] + Split(Rest(text))
  {
  }

  /** The rest is shorter than the text. */
  lemma StepShorter(text: string)
    requires HasMatch(text)
    ensures |Rest(text)| < |text|
  {
    var t := text[Text.Span(text, IsTerminator)..];
    var a := Text.Span(t, IsBodyChar);
    MatchParts(t, a, a + Text.Span(t[a..], IsTerminator));
  }

  /** The first match ends with a terminator. */
  lemma StepEnds(text: string)
    requires HasMatch(text)
    ensures Lead(text) + First(text) != []
    ensures var p := Lead(text) + First(text); IsTerminator(p[|p| - 1])
  {
    var t := text[Text.Span(text, IsTerminator)..];
    var a := Text.Span(t, IsBodyChar);
    var b := a + Text.Span(t[a..], IsTerminator);
    MatchParts(t, a, b);
    var p := Lead(text) + First(text);
    assert p[|p| - 1] == t[..b][b - 1] == t[b - 1];
  }

  /** The rest does not begin with a terminator, so `Split` skips nothing
      there. */
  lemma StepRestLead(text: string)
    requires HasMatch(text)
    ensures Lead(Rest(text)) == []
  {
    var t := text[Text.Span(text, IsTerminator)..];
    var a := Text.Span(t, IsBodyChar);
    var b := a + Text.Span(t[a..], IsTerminator);
    MatchParts(t, a, b);
    if b < |t| {
      assert t[b..][0] == t[b];
    }
  }
}
