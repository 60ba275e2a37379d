/** The string operations of JavaScript that the controller relies on, written
    out over `seq<char>`: white space as `\s` and `trim` see it, `trim`,
    `Array.prototype.join` and `String.prototype.split` on one character. */
module Text {

  /** ECMAScript white space and line terminators: the characters matched by
      `\s` and removed by `String.prototype.trim`. */
  predicate IsSpace(c: char) {
    || c == ' ' || c == '\t' || c == '\n' || c == '\r' || c == '\U{B}' || c == '\U{C}'
    || c == '\U{A0}' || c == '\U{1680}' || ('\U{2000}' <= c <= '\U{200A}')
    || c == '\U{2028}' || c == '\U{2029}' || c == '\U{202F}' || c == '\U{205F}'
    || c == '\U{3000}' || c == '\U{FEFF}'
  }

  predicate AllSpace(s: string) {
    forall i :: 0 <= i < |s| ==> IsSpace(s[i])
  }

  predicate HasNonSpace(s: string) {
    exists i :: 0 <= i < |s| && !IsSpace(s[i])
  }

  /** Neither begins nor ends with white space: what `trim` returns. */
  predicate IsTrimmed(s: string) {
    s == [] || (!IsSpace(s[0]) && !IsSpace(s[|s| - 1]))
  }

  /** Length of the longest prefix of `s` all of whose characters satisfy `p`. */
  function Span(s: string, p: char -> bool): (k: nat)
    ensures k <= |s|
    ensures forall i :: 0 <= i < k ==> p(s[i])
    ensures k < |s| ==> !p(s[k])
  {
    if s == [] || !p(s[0]) then 0 else 1 + Span(s[1..], p)
  }

  /** Length of the longest suffix of `s` all of whose characters satisfy `p`. */
  function SpanEnd(s: string, p: char -> bool): (k: nat)
    ensures k <= |s|
    ensures forall i :: |s| - k <= i < |s| ==> p(s[i])
    ensures k < |s| ==> !p(s[|s| - 1 - k])
  {
    if s == [] || !p(s[|s| - 1]) then 0 else 1 + SpanEnd(s[..|s| - 1], p)
  }

  /** A prefix length that meets the two conditions of `Span` is `Span`. */
  lemma SpanIs(s: string, p: char -> bool, k: nat)
    requires k <= |s|
    requires forall i :: 0 <= i < k ==> p(s[i])
    requires k < |s| ==> !p(s[k])
    ensures Span(s, p) == k
  {
  }

  /** A span that ends inside `x` is not changed by what follows `x`. */
  lemma SpanPrefix(x: string, rest: string, p: char -> bool)
    requires Span(x, p) < |x|
    ensures Span(x + rest, p) == Span(x, p)
  {
    var k := Span(x, p);
    assert (x + rest)[k] == x[k];
    SpanIs(x + rest, p, k);
  }

  /** A span that covers all of `x` stops where `rest` begins when the
      first character of `rest` fails `p`. */
  lemma SpanWhole(x: string, rest: string, p: char -> bool)
    requires forall i :: 0 <= i < |x| ==> p(x[i])
    requires rest == [] || !p(rest[0])
    ensures Span(x + rest, p) == |x|
  {
    if rest != [] {
      assert (x + rest)[|x|] == rest[0];
    }
    SpanIs(x + rest, p, |x|);
  }

  /** A suffix length that meets the two conditions of `SpanEnd` is `SpanEnd`. */
  lemma {:induction false} SpanEndIs(s: string, p: char -> bool, k: nat)
    requires k <= |s|
    requires forall i :: |s| - k <= i < |s| ==> p(s[i])
    requires k < |s| ==> !p(s[|s| - 1 - k])
    ensures SpanEnd(s, p) == k
    decreases |s|
  {
    if k > 0 {
      var init := s[..|s| - 1];
      forall i | |init| - (k - 1) <= i < |init| ensures p(init[i]) {
        assert init[i] == s[i];
      }
      if k - 1 < |init| {
        assert init[|init| - 1 - (k - 1)] == s[|s| - 1 - k];
      }
      SpanEndIs(init, p, k - 1);
    }
  }

  /** A suffix span that starts inside `rest` is not changed by what comes
      before `rest`. */
  lemma SpanEndSuffix(x: string, rest: string, p: char -> bool)
    requires SpanEnd(rest, p) < |rest|
    ensures SpanEnd(x + rest, p) == SpanEnd(rest, p)
  {
    var k := SpanEnd(rest, p);
    var s := x + rest;
    forall i | |s| - k <= i < |s| ensures p(s[i]) {
      assert s[i] == rest[i - |x|];
    }
    assert s[|s| - 1 - k] == rest[|rest| - 1 - k];
    SpanEndIs(s, p, k);
  }

  /** A suffix span that covers all of `rest` stops where `x` ends when the
      last character of `x` fails `p`. */
  lemma SpanEndWhole(x: string, rest: string, p: char -> bool)
    requires forall i :: 0 <= i < |rest| ==> p(rest[i])
    requires x == [] || !p(x[|x| - 1])
    ensures SpanEnd(x + rest, p) == |rest|
  {
    var s := x + rest;
    forall i | |s| - |rest| <= i < |s| ensures p(s[i]) {
      assert s[i] == rest[i - |x|];
    }
    if x != [] {
      assert s[|s| - 1 - |rest|] == x[|x| - 1];
    }
    SpanEndIs(s, p, |rest|);
  }

  /** `String.prototype.trim`: white space removed from both ends. */
  function Trim(s: string): (r: string)
    ensures IsTrimmed(r)
    ensures |r| <= |s|
    ensures r == [] <==> AllSpace(s)
  {
    var t := s[Span(s, IsSpace)..];
    t[..|t| - SpanEnd(t, IsSpace)]
  }

  /** Trimming is determined by the decomposition it undoes: whatever
      white space surrounds a trimmed string, `trim` returns that string. */
  lemma {:induction false} TrimUnique(lead: string, r: string, trail: string)
    requires AllSpace(lead) && AllSpace(trail) && IsTrimmed(r)
    ensures Trim(lead + r + trail) == r
  {
    var s := lead + r + trail;
    if r == [] {
      assert AllSpace(s) by {
        forall i | 0 <= i < |s| ensures IsSpace(s[i]) {
          if i < |lead| { assert s[i] == lead[i]; } else { assert s[i] == trail[i - |lead|]; }
        }
      }
    } else {
      assert s[|lead|] == r[0];
      SpanIs(s, IsSpace, |lead|);
      var t := s[|lead|..];
      assert t == r + trail;
      assert t[|t| - 1 - |trail|] == r[|r| - 1];
      assert SpanEnd(t, IsSpace) == |trail|;
      assert t[..|t| - |trail|] == r;
    }
  }

  lemma TrimmedFixed(s: string)
    requires IsTrimmed(s)
    ensures Trim(s) == s
  {
    TrimUnique([], s, []);
    assert [] + s + [] == s;
  }

  /** `Array.prototype.join`: the elements with `sep` between consecutive ones. */
  function Join(xs: seq<string>, sep: string): string {
    if |xs| == 0 then ""
    else if |xs| == 1 then xs[0]
    else xs[0] + sep + Join(xs[1..], sep)
  }

  /** A character that occurs in no element and not in the separator does
      not occur in the join. */
  lemma {:induction false} JoinAvoids(xs: seq<string>, sep: string, c: char)
    requires forall i :: 0 <= i < |xs| ==> c !in xs[i]
    requires c !in sep
    ensures c !in Join(xs, sep)
  {
    if |xs| > 1 {
      JoinAvoids(xs[1..], sep, c);
      assert Join(xs, sep) == xs[0] + sep + Join(xs[1..], sep);
    }
  }

  /** `String.prototype.split` on one character: the pieces between
      occurrences of `sep`, including the empty ones; never empty itself. */
  function Split(s: string, sep: char): (parts: seq<string>)
    ensures |parts| >= 1
    ensures forall i :: 0 <= i < |parts| ==> sep !in parts[i]
  {
    if s == [] then [""]
    else
      var rest := Split(s[1..], sep);
      if s[0] == sep then [""] + rest
      else [[s[0]] + rest[0]] + rest[1..]
  }

  /** Joining the pieces of a split with the separator gives the string back. */
  lemma {:induction false} JoinSplit(s: string, sep: char)
    ensures Join(Split(s, sep), [sep]) == s
  {
    if s != [] {
      var rest := Split(s[1..], sep);
      JoinSplit(s[1..], sep);
      if s[0] == sep {
        assert Split(s, sep) == [""] + rest;
        if |rest| == 1 {
          assert Join(Split(s, sep), [sep]) == "" + [sep] + rest[0];
        } else {
          assert Join(Split(s, sep), [sep]) == "" + [sep] + Join(rest, [sep]);
        }
        assert s == [sep] + s[1..];
      } else {
        var parts := [[s[0]] + rest[0]] + rest[1..];
        assert Split(s, sep) == parts;
        if |rest| == 1 {
          assert Join(parts, [sep]) == [s[0]] + rest[0];
        } else {
          assert parts[1..] == rest[1..];
          assert Join(rest, [sep]) == rest[0] + [sep] + Join(rest[1..], [sep]);
          assert Join(parts, [sep]) == [s[0]] + rest[0] + [sep] + Join(rest[1..], [sep]);
        }
        assert s == [s[0]] + s[1..];
      }
    }
  }

  /** Splitting `x + tail` where `x` holds no separator extends the first piece. */
  lemma {:induction false} SplitPrefix(x: string, tail: string, sep: char)
    requires sep !in x
    ensures Split(x + tail, sep) == [x + Split(tail, sep)[0]] + Split(tail, sep)[1..]
  {
    if x != [] {
      SplitPrefix(x[1..], tail, sep);
      assert (x + tail)[1..] == x[1..] + tail;
      assert [x[0]] + (x[1..] + Split(tail, sep)[0]) == x + Split(tail, sep)[0];
    } else {
      assert x + tail == tail;
      assert x + Split(tail, sep)[0] == Split(tail, sep)[0];
      assert Split(tail, sep) == [Split(tail, sep)[0]] + Split(tail, sep)[1..];
    }
  }

  /** Splitting a join of pieces free of the separator gives the pieces back. */
  lemma {:induction false} SplitJoin(xs: seq<string>, sep: char)
    requires |xs| >= 1
    requires forall i :: 0 <= i < |xs| ==> sep !in xs[i]
    ensures Split(Join(xs, [sep]), sep) == xs
  {
    if |xs| == 1 {
      SplitPrefix(xs[0], "", sep);
      assert Split("", sep) == [""];
      assert xs[0] + "" == xs[0];
      assert Join(xs, [sep]) == xs[0] + "";
    } else {
      var rest := Join(xs[1..], [sep]);
      SplitJoin(xs[1..], sep);
      assert Join(xs, [sep]) == xs[0] + ([sep] + rest);
      SplitPrefix(xs[0], [sep] + rest, sep);
      assert ([sep] + rest)[1..] == rest;
      var parts := Split([sep] + rest, sep);
      assert parts == [""] + xs[1..];
      assert parts[0] == "" && parts[1..] == xs[1..];
      assert xs[0] + "" == xs[0];
      assert xs == [xs[0]] + xs[1..];
    }
  }

  /** `String.prototype.startsWith`. */
  predicate StartsWith(s: string, prefix: string) {
    |prefix| <= |s| && s[..|prefix|] == prefix
  }
}
