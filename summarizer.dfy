/** The mock summarizer of `generateSummary` (script.js:217-306): how many
    sentences to keep, which ones are seeded (first, middle, last), the
    de-duplication of the seeds, the random fill from the remaining pool,
    and the assembly of the kept sentences into one string. */
module Summarizer {
  import opened Text
  import Sentences

  const NoTextMessage := "No extractable text to summarize."

  function Min(a: nat, b: nat): (m: nat)
    ensures m <= a && m <= b && (m == a || m == b)
  {
    if a <= b then a else b
  }

  /** The most sentences a length setting allows; every value other than
      "short" and "medium" is treated as "long". */
  function Cap(length: string): nat {
    if length == "short" then 3 else if length == "medium" then 6 else 10
  }

  /** The number of sentences to select out of `n` (script.js:227-233). */
  function TargetCount(length: string, n: nat): (count: nat)
    ensures count <= n && count <= Cap(length)
    ensures count == n || count == Cap(length)
    ensures n > 0 ==> count > 0
  {
    if length == "short" then Min(3, n)
    else if length == "medium" then Min(6, n)
    else Min(10, n)
  }

  /** The seed sentences of script.js:235-237: the first one, the middle one
      when `n > 1` and `n > count / 2` (a division in real numbers there, so
      written `2 * n > count` here), and the last one when `n > 2` and
      `n > count`. */
  function Seeds(sentences: seq<string>, count: nat): (seeds: seq<string>)
    requires |sentences| > 0
    ensures 1 <= |seeds| <= 3 && seeds[0] == sentences[0]
    ensures forall x :: x in seeds ==> x in sentences
  {
    var n := |sentences|;
    [sentences[0]]
      + (if n > 1 && 2 * n > count then [sentences[n / 2]] else [])
      + (if n > 2 && n > count then [sentences[n - 1]] else [])
  }

  /** At the count the summarizer uses, the middle sentence is seeded exactly
      when there are at least two sentences (the `n > count / 2` test cannot
      fail), the last one exactly when `n > 2` and `n > count`, and there are
      never more seeds than the count. */
  lemma SeedsAtTarget(sentences: seq<string>, length: string)
    requires |sentences| > 0
    ensures var n := |sentences|;
            var count := TargetCount(length, n);
            && Seeds(sentences, count)
               == [sentences[0]]
                  + (if n > 1 then [sentences[n / 2]] else [])
                  + (if n > 2 && n > count then [sentences[n - 1]] else [])
            && |Seeds(sentences, count)| <= count
  {
  }

  predicate Distinct(s: seq<string>) {
    forall i, j :: 0 <= i < j < |s| ==> s[i] != s[j]
  }

  /** `Array.from(new Set(xs))`: every value of `xs` once, by its first
      occurrence, so the first element stays first. */
  function Dedup(xs: seq<string>): (r: seq<string>)
    ensures Distinct(r)
    ensures forall x :: x in r <==> x in xs
    ensures |r| <= |xs|
    ensures xs != [] ==> r != [] && r[0] == xs[0]
  {
    if xs == [] then []
    else
      var d := Dedup(xs[..|xs| - 1]);
      var x := xs[|xs| - 1];
      assert forall y :: y in xs <==> y in xs[..|xs| - 1] || y == x by {
        assert xs == xs[..|xs| - 1] + [x];
      }
      if x in d then d else d + [x]
  }

  /** A sequence without repeated values passes through `Dedup` unchanged. */
  lemma {:induction false} DedupDistinct(xs: seq<string>)
    requires Distinct(xs)
    ensures Dedup(xs) == xs
  {
    if xs != [] {
      var init := xs[..|xs| - 1];
      assert Distinct(init) by {
        forall i, j | 0 <= i < j < |init| ensures init[i] != init[j] {
          assert init[i] == xs[i] && init[j] == xs[j];
        }
      }
      DedupDistinct(init);
      assert xs[|xs| - 1] !in init by {
        forall i | 0 <= i < |init| ensures init[i] != xs[|xs| - 1] {
          assert init[i] == xs[i];
        }
      }
      assert xs == init + [xs[|xs| - 1]];
    }
  }

  /** `xs.filter(s => !u.includes(s))`. */
  function Without(xs: seq<string>, u: seq<string>): (r: seq<string>)
    ensures |r| <= |xs|
  {
    if xs == [] then []
    else (if xs[0] in u then [] else [xs[0]]) + Without(xs[1..], u)
  }

  /** The filter keeps every copy of a value outside `u` and no copy of a
      value in `u`. */
  lemma {:induction false} WithoutCounts(xs: seq<string>, u: seq<string>)
    ensures forall x :: multiset(Without(xs, u))[x] == if x in u then 0 else multiset(xs)[x]
    ensures forall x :: x in Without(xs, u) <==> x in xs && x !in u
  {
    if xs != [] {
      WithoutCounts(xs[1..], u);
      assert xs == [xs[0]] + xs[1..];
      assert multiset(xs) == multiset{xs[0]} + multiset(xs[1..]);
    }
  }

  /** The seeds once each (`uniqueSentences` before the fill, script.js:239). */
  function Seeded(sentences: seq<string>, count: nat): seq<string>
    requires |sentences| > 0
  {
    Dedup(Seeds(sentences, count))
  }

  /** The pool the fill draws from (`remainingSentences`, script.js:240). */
  function Pool(sentences: seq<string>, count: nat): seq<string>
    requires |sentences| > 0
  {
    Without(sentences, Seeded(sentences, count))
  }

  /** What a run of script.js:235-248 can leave in `selectedSentences`: as
      many sentences as the count allows and the seeds and the pool can
      supply; the seeds first, in order; then sentences drawn from the pool
      without replacement (no pool position twice); nothing that is not a
      sentence of the text. */
  predicate IsSummarySelection(sentences: seq<string>, count: nat, selected: seq<string>)
    requires |sentences| > 0
  {
    var seeded := Seeded(sentences, count);
    var pool := Pool(sentences, count);
    && |selected| == Min(count, |seeded| + |pool|)
    && selected[..Min(count, |seeded|)] == seeded[..Min(count, |seeded|)]
    && (|selected| > |seeded| ==> multiset(selected[|seeded|..]) <= multiset(pool))
    && (forall i :: 0 <= i < |selected| ==> selected[i] in sentences)
  }

  /** What holds at each test of the fill loop (script.js:242): the
      selection so far is the seeds once each followed by draws, which
      together with the remaining pool make up the initial pool; it grows
      past the seeds only up to the count; and all of it, like the remaining
      pool, comes from the sentences. */
  predicate FillState(sentences: seq<string>, count: nat, chosen: seq<string>, remaining: seq<string>)
    requires |sentences| > 0
  {
    var u := Seeded(sentences, count);
    var pool := Pool(sentences, count);
    && |u| <= |chosen| && chosen[..|u|] == u
    && multiset(chosen[|u|..]) + multiset(remaining) == multiset(pool)
    && |chosen| + |remaining| == |u| + |pool|
    && (|chosen| == |u| || |chosen| <= count)
    && (forall i :: 0 <= i < |chosen| ==> chosen[i] in sentences)
    && (forall x :: x in remaining ==> x in sentences)
  }

  /** Script.js:235-248. `Math.random` is not modelled: each round of the
      fill may pick any position of the remaining pool. */
  method SelectSentences(sentences: seq<string>, count: nat) returns (selected: seq<string>)
    requires |sentences| > 0
    ensures IsSummarySelection(sentences, count, selected)
  {
    var seeds := Seeds(sentences, count);
    var chosen := Dedup(seeds);
    var remaining := Without(sentences, chosen);
    StartFill(sentences, count);
    while |chosen| < count && |remaining| > 0
      invariant FillState(sentences, count, chosen, remaining)
      decreases |remaining|
    {
      var k :| 0 <= k < |remaining|;
      FillStep(sentences, count, chosen, remaining, k);
      chosen := chosen + [remaining[k]];
      remaining := remaining[..k] + remaining[k + 1..];
    }
    selected := chosen[..Min(count, |chosen|)];
    FinishSelection(sentences, count, chosen, remaining);
  }

  /** Before the first round the selection is the seeds and the remaining
      pool is the whole pool. */
  lemma StartFill(sentences: seq<string>, count: nat)
    requires |sentences| > 0
    ensures FillState(sentences, count, Seeded(sentences, count), Pool(sentences, count))
  {
    var u := Seeded(sentences, count);
    WithoutCounts(sentences, u);
    assert u[..|u|] == u;
    assert u[|u|..] == [];
  }

  /** A round of the fill: moving the element at position `k` of the pool
      to the end of the selection keeps the fill state. */
  lemma FillStep(sentences: seq<string>, count: nat, chosen: seq<string>, remaining: seq<string>, k: nat)
    requires |sentences| > 0
    requires FillState(sentences, count, chosen, remaining)
    requires |chosen| < count && k < |remaining|
    ensures FillState(sentences, count, chosen + [remaining[k]], remaining[..k] + remaining[k + 1..])
  {
    var start := |Seeded(sentences, count)|;
    var chosen', remaining' := chosen + [remaining[k]], remaining[..k] + remaining[k + 1..];
    assert remaining == remaining[..k] + [remaining[k]] + remaining[k + 1..];
    assert multiset(remaining) == multiset(remaining') + multiset{remaining[k]};
    assert chosen'[..start] == chosen[..start];
    assert chosen'[start..] == chosen[start..] + [remaining[k]];
    assert forall x :: x in remaining' ==> x in remaining;
  }

  /** The state the fill loop stops in is turned into a selection by the
      final `slice(0, count)`. */
  lemma FinishSelection(sentences: seq<string>, count: nat, chosen: seq<string>, remaining: seq<string>)
    requires |sentences| > 0
    requires FillState(sentences, count, chosen, remaining)
    requires |chosen| >= count || remaining == []
    ensures IsSummarySelection(sentences, count, chosen[..Min(count, |chosen|)])
  {
    var u := Seeded(sentences, count);
    var pool := Pool(sentences, count);
    var m := Min(count, |chosen|);
    var sel := chosen[..m];
    assert |sel| == Min(count, |u| + |pool|);
    var mu := Min(count, |u|);
    assert sel[..mu] == chosen[..mu] == u[..mu];
    if |sel| > |u| {
      assert sel == chosen;
      assert multiset(chosen[|u|..]) <= multiset(pool);
    }
  }

  lemma MultisetSubsetCard(a: multiset<string>, b: multiset<string>)
    requires a <= b
    ensures |a| <= |b|
    ensures |a| == |b| ==> a == b
  {
    assert b == a + (b - a);
  }

  lemma {:induction false} DistinctMultiset(s: seq<string>)
    ensures Distinct(s) <==> forall x :: multiset(s)[x] <= 1
  {
    if s != [] {
      DistinctMultiset(s[1..]);
      assert s == [s[0]] + s[1..];
      assert multiset(s) == multiset{s[0]} + multiset(s[1..]);
      if Distinct(s) {
        assert s[0] !in s[1..];
        assert Distinct(s[1..]) by {
          forall i, j | 0 <= i < j < |s[1..]| ensures s[1..][i] != s[1..][j] {
            assert s[1..][i] == s[i + 1] && s[1..][j] == s[j + 1];
          }
        }
      } else {
        var i, j :| 0 <= i < j < |s| && s[i] == s[j];
        if i == 0 {
          assert s[j] in s[1..] by { assert s[1..][j - 1] == s[j]; }
          assert multiset(s[1..])[s[0]] >= 1;
          assert multiset(s)[s[0]] >= 2;
        } else {
          assert s[1..][i - 1] == s[i] && s[1..][j - 1] == s[j];
          assert !Distinct(s[1..]);
          var x :| multiset(s[1..])[x] > 1;
          assert multiset(s)[x] > 1;
        }
      }
    }
  }

  /** The seeds once each and the pool never outnumber the sentences, and
      they are exactly the sentences when those are pairwise distinct. */
  lemma SeededAndPool(sentences: seq<string>, u: seq<string>)
    requires Distinct(u)
    requires forall x :: x in u ==> x in sentences
    ensures multiset(u) + multiset(Without(sentences, u)) <= multiset(sentences)
    ensures Distinct(sentences) ==> multiset(u) + multiset(Without(sentences, u)) == multiset(sentences)
  {
    DistinctMultiset(u);
    DistinctMultiset(sentences);
    WithoutCounts(sentences, u);
    var w := Without(sentences, u);
    forall x ensures (multiset(u) + multiset(w))[x] <= multiset(sentences)[x] {
      if x in u {
        assert x in sentences;
      }
    }
    if Distinct(sentences) {
      forall x ensures (multiset(u) + multiset(w))[x] == multiset(sentences)[x] {
        if x in u {
          assert x in sentences;
        }
      }
    }
  }

  /** A selection at a count the seeds fit in starts with all of them. */
  lemma SelectionStartsWithSeeds(sentences: seq<string>, count: nat, selected: seq<string>)
    requires |sentences| > 0
    requires |Seeded(sentences, count)| <= count
    requires IsSummarySelection(sentences, count, selected)
    ensures var seeded := Seeded(sentences, count);
            && |seeded| <= |selected|
            && selected == seeded + selected[|seeded|..]
            && multiset(selected[|seeded|..]) <= multiset(Pool(sentences, count))
  {
    var seeded := Seeded(sentences, count);
    assert selected[..|seeded|] == seeded;
    assert selected == selected[..|seeded|] + selected[|seeded|..];
  }

  /** At the count the summarizer uses, a selection is the seeds once each
      followed by draws from the pool, which together never outnumber the
      sentences. */
  lemma SelectionShape(sentences: seq<string>, length: string, selected: seq<string>)
    requires |sentences| > 0
    requires IsSummarySelection(sentences, TargetCount(length, |sentences|), selected)
    ensures var count := TargetCount(length, |sentences|);
            var seeded := Seeded(sentences, count);
            && |seeded| <= |selected|
            && selected == seeded + selected[|seeded|..]
            && multiset(selected[|seeded|..]) <= multiset(Pool(sentences, count))
            && |seeded| + |Pool(sentences, count)| <= |sentences|
            && (Distinct(sentences) ==>
                  multiset(seeded) + multiset(Pool(sentences, count)) == multiset(sentences))
  {
    var count := TargetCount(length, |sentences|);
    var seeded := Seeded(sentences, count);
    var pool := Pool(sentences, count);
    SeedsAtTarget(sentences, length);
    SelectionStartsWithSeeds(sentences, count, selected);
    SeededAndPool(sentences, seeded);
    MultisetSubsetCard(multiset(seeded) + multiset(pool), multiset(sentences));
  }

  /** The selection never exceeds the count, starts with the first sentence
      and holds every seed: the first sentence, the middle one when there
      are at least two, the last one when there are more than two and more
      than the count. */
  lemma SelectionHoldsSeeds(sentences: seq<string>, length: string, selected: seq<string>)
    requires |sentences| > 0
    requires IsSummarySelection(sentences, TargetCount(length, |sentences|), selected)
    ensures var count := TargetCount(length, |sentences|);
            && 0 < |selected| <= count
            && selected[0] == sentences[0]
            && forall x :: x in Seeds(sentences, count) ==> x in selected
  {
    var count := TargetCount(length, |sentences|);
    var seeded := Seeded(sentences, count);
    SelectionShape(sentences, length, selected);
    forall x | x in Seeds(sentences, count) ensures x in selected {
      assert x in seeded;
      var i :| 0 <= i < |seeded| && seeded[i] == x;
      assert selected[i] == x;
    }
  }

  /** When the sentences are pairwise distinct, the selection holds exactly
      `count` sentences, all different. (Repeated copies of a sentence that
      is not a seed stay in the pool, so without distinct sentences a
      selection can repeat one.) */
  lemma SelectionDistinct(sentences: seq<string>, length: string, selected: seq<string>)
    requires |sentences| > 0
    requires IsSummarySelection(sentences, TargetCount(length, |sentences|), selected)
    requires Distinct(sentences)
    ensures |selected| == TargetCount(length, |sentences|)
    ensures Distinct(selected)
  {
    var count := TargetCount(length, |sentences|);
    var seeded := Seeded(sentences, count);
    var pool := Pool(sentences, count);
    SelectionShape(sentences, length, selected);
    assert |multiset(seeded) + multiset(pool)| == |seeded| + |pool|;
    assert multiset(selected) == multiset(seeded) + multiset(selected[|seeded|..]);
    assert multiset(selected) <= multiset(sentences);
    DistinctMultiset(sentences);
    DistinctMultiset(selected);
  }

  /** When the count is the number of sentences (as for short texts), every
      sentence of the text is in the selection. */
  lemma SelectionCovers(sentences: seq<string>, length: string, selected: seq<string>)
    requires |sentences| > 0
    requires IsSummarySelection(sentences, TargetCount(length, |sentences|), selected)
    requires TargetCount(length, |sentences|) == |sentences|
    ensures forall x :: x in sentences ==> x in selected
  {
    var count := TargetCount(length, |sentences|);
    var seeded := Seeded(sentences, count);
    var pool := Pool(sentences, count);
    SelectionShape(sentences, length, selected);
    assert |selected| == |seeded| + |pool|;
    MultisetSubsetCard(multiset(selected[|seeded|..]), multiset(pool));
    WithoutCounts(sentences, seeded);
    forall x | x in sentences ensures x in selected {
      if x !in seeded {
        assert x in pool;
        assert x in multiset(selected[|seeded|..]);
      }
    }
  }

  /** Lines 273-303 with the emphasis of lines 275-299 left abstract: each
      selected sentence is trimmed and passed to `emphasize`, and the results
      are joined with single spaces and trimmed. */
  function Render(selected: seq<string>, emphasize: string -> string): string {
    Trim(Join(seq(|selected|, i requires 0 <= i < |selected| => emphasize(Trim(selected[i]))), " "))
  }

  lemma TrimKeepsNonSpace(s: string)
    requires HasNonSpace(s)
    ensures HasNonSpace(Trim(s))
  {
    var r := Trim(s);
    assert !IsSpace(r[0]);
  }

  lemma {:induction false} JoinKeepsNonSpace(xs: seq<string>, sep: string, i: nat)
    requires i < |xs| && HasNonSpace(xs[i])
    ensures HasNonSpace(Join(xs, sep))
  {
    var k :| 0 <= k < |xs[i]| && !IsSpace(xs[i][k]);
    if |xs| > 1 {
      if i == 0 {
        assert Join(xs, sep)[k] == xs[0][k];
      } else {
        JoinKeepsNonSpace(xs[1..], sep, i - 1);
        var rest := Join(xs[1..], sep);
        var m :| 0 <= m < |rest| && !IsSpace(rest[m]);
        assert Join(xs, sep)[|xs[0]| + |sep| + m] == rest[m];
      }
    }
  }

  /** A sentence always keeps a non-blank character through trimming, so as
      long as the emphasis keeps one too, a non-empty selection never renders
      as the empty string, and the fallback message of script.js:306 is not
      used. */
  lemma RenderNotEmpty(selected: seq<string>, emphasize: string -> string)
    requires selected != []
    requires forall i :: 0 <= i < |selected| ==> Sentences.IsSentence(selected[i])
    requires forall x :: HasNonSpace(x) ==> HasNonSpace(emphasize(x))
    ensures Render(selected, emphasize) != ""
  {
    var s0 := selected[0];
    assert Sentences.IsTerminator(s0[|s0| - 1]);
    assert HasNonSpace(s0);
    TrimKeepsNonSpace(s0);
    var parts := seq(|selected|, i requires 0 <= i < |selected| => emphasize(Trim(selected[i])));
    assert HasNonSpace(parts[0]);
    JoinKeepsNonSpace(parts, " ", 0);
    var j := Join(parts, " ");
    var k :| 0 <= k < |j| && !IsSpace(j[k]);
    assert !AllSpace(j);
  }

  /** The string `generateSummary` computes before its fallback (lines
      217-304), with the sentences it kept. */
  method Summarize(text: string, length: string, emphasize: string -> string)
    returns (mock: string, selected: seq<string>)
    ensures var sentences := Sentences.Split(text);
            && (sentences == [] ==> mock == NoTextMessage && selected == [])
            && (sentences != [] ==>
                  && IsSummarySelection(sentences, TargetCount(length, |sentences|), selected)
                  && mock == Render(selected, emphasize))
  {
    var sentences := Sentences.Split(text);
    if |sentences| == 0 {
      mock, selected := NoTextMessage, [];
    } else {
      var count := TargetCount(length, |sentences|);
      selected := SelectSentences(sentences, count);
      mock := Render(selected, emphasize);
    }
  }
}
