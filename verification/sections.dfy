/**
 * The structured parts of a summary (app/services/summarizer.py): the TL;DR
 * taken from the combined summary, and the methods, results and limitations
 * sentences picked by keyword from the summary or, failing that, from the
 * original text.
 */
module Sections {
  import opened TextOps

  // ---------------------------------------------------------------------------
  // _generate_tldr
  // ---------------------------------------------------------------------------

  const TLDR_UNAVAILABLE: string := "Summary unavailable"

  /**
   * `_generate_tldr`: a summary of at most 60 words is its own TL;DR;
   * otherwise the first sentence, followed by the second when the first has at
   * most 40 words and the two together at most 60.
   */
  function GenerateTldr(summary: string): (r: string)
    ensures WordCount(summary) <= 60 ==> r == summary
    ensures WordCount(summary) > 60 && Sentences(summary) == [] ==> r == TLDR_UNAVAILABLE
  {
    if WordCount(summary) <= 60 then summary
    else
      var sentences := Sentences(summary);
      if sentences == [] then TLDR_UNAVAILABLE
      else
        var first := sentences[0];
        if WordCount(first) <= 40 && |sentences| > 1 && WordCount(first + " " + sentences[1]) <= 60 then
          first + ". " + sentences[1] + "."
        else
          first + "."
  }

  /**
   * A long summary with sentences gets the TL;DR made of its first sentence,
   * or of its first two when they are short enough; the TL;DR splits back into
   * exactly those sentences.
   */
  lemma TldrSentences(summary: string)
    requires WordCount(summary) > 60 && Sentences(summary) != []
    ensures var ss, r := Sentences(summary), GenerateTldr(summary);
            var n := |Sentences(r)|;
            && 1 <= n <= 2 && n <= |ss|
            && Sentences(r) == ss[..n]
            && r == Render(ss[..n])
            && (n == 2 <==> |ss| > 1 && WordCount(ss[0]) <= 40 && WordCount(ss[0] + " " + ss[1]) <= 60)
  {
    var ss := Sentences(summary);
    SentencesAreSentences(summary);
    if |ss| > 1 && WordCount(ss[0]) <= 40 && WordCount(ss[0] + " " + ss[1]) <= 60 {
      var two := ss[..2];
      assert two == [ss[0], ss[1]];
      assert Join(". ", two) == ss[0] + ". " + Join(". ", two[1..]);
      assert two[1..] == [ss[1]];
      assert Render(two) == ss[0] + ". " + ss[1] + ".";
      SentencesOfRender(two);
    } else {
      var one := ss[..1];
      assert one == [ss[0]];
      assert Render(one) == ss[0] + ".";
      SentencesOfRender(one);
    }
  }

  // ---------------------------------------------------------------------------
  // Keyword matching
  // ---------------------------------------------------------------------------

  /** Keywords that are not empty. */
  predicate NonEmptyKeywords(keywords: seq<string>) {
    forall k :: 0 <= k < |keywords| ==> keywords[k] != ""
  }

  /** The stripped pieces whose lower-cased text contains a keyword, in order. */
  function Matches(pieces: seq<string>, keywords: seq<string>): seq<string>
    decreases |pieces|
  {
    if pieces == [] then []
    else
      var sentence := Strip(pieces[|pieces| - 1]);
      Matches(pieces[..|pieces| - 1], keywords) + (if ContainsAny(Lower(sentence), keywords) then [sentence] else [])
  }

  /** The sentences that contain a keyword once lower-cased, in order. */
  function WithKeyword(sentences: seq<string>, keywords: seq<string>): seq<string>
    decreases |sentences|
  {
    if sentences == [] then []
    else
      var s := sentences[|sentences| - 1];
      WithKeyword(sentences[..|sentences| - 1], keywords) + (if ContainsAny(Lower(s), keywords) then [s] else [])
  }

  /** Text without characters holds no non-empty keyword. */
  lemma {:induction false} NoKeywordInEmpty(keywords: seq<string>)
    requires NonEmptyKeywords(keywords)
    ensures !ContainsAny(Lower(""), keywords)
    decreases |keywords|
  {
    assert Lower("") == "";
    if keywords != [] {
      NoKeywordInEmpty(keywords[1..]);
    }
  }

  /** The matching pieces are the sentences of the fallback splitter that contain a keyword. */
  lemma {:induction false} MatchesAreKeywordSentences(pieces: seq<string>, keywords: seq<string>)
    requires NonEmptyKeywords(keywords)
    ensures Matches(pieces, keywords) == WithKeyword(NonBlank(pieces), keywords)
    decreases |pieces|
  {
    if pieces != [] {
      var init, last := pieces[..|pieces| - 1], pieces[|pieces| - 1];
      MatchesAreKeywordSentences(init, keywords);
      var nb := NonBlank(init);
      if Strip(last) != "" {
        assert NonBlank(pieces) == nb + [Strip(last)];
        assert (nb + [Strip(last)])[..|nb|] == nb;
      } else {
        NoKeywordInEmpty(keywords);
        assert NonBlank(pieces) == nb + [];
        assert nb + [] == nb;
      }
    }
  }

  /** Every sentence kept holds a keyword and is one of the sentences given. */
  lemma {:induction false} WithKeywordMembers(sentences: seq<string>, keywords: seq<string>)
    ensures forall k :: 0 <= k < |WithKeyword(sentences, keywords)| ==>
              && WithKeyword(sentences, keywords)[k] in sentences
              && ContainsAny(Lower(WithKeyword(sentences, keywords)[k]), keywords)
    decreases |sentences|
  {
    if sentences != [] {
      var init := sentences[..|sentences| - 1];
      WithKeywordMembers(init, keywords);
      var w := WithKeyword(sentences, keywords);
      var w0 := WithKeyword(init, keywords);
      forall k | 0 <= k < |w| ensures w[k] in sentences && ContainsAny(Lower(w[k]), keywords) {
        if k < |w0| {
          assert w[k] == w0[k];
          assert w0[k] in init;
        }
      }
    }
  }

  /** The matches among the first `i` pieces are the first of all the matches. */
  lemma {:induction false} MatchesPrefix(pieces: seq<string>, keywords: seq<string>, i: nat)
    requires i <= |pieces|
    ensures |Matches(pieces[..i], keywords)| <= |Matches(pieces, keywords)|
    ensures Matches(pieces, keywords)[..|Matches(pieces[..i], keywords)|] == Matches(pieces[..i], keywords)
    decreases |pieces|
  {
    if i == |pieces| {
      assert pieces[..i] == pieces;
    } else {
      var init := pieces[..|pieces| - 1];
      MatchesPrefix(init, keywords, i);
      assert init[..i] == pieces[..i];
    }
  }

  /** The matches among the first `i + 1` pieces: those among the first `i`, then piece `i` if it matches. */
  lemma MatchesStep(pieces: seq<string>, keywords: seq<string>, i: nat)
    requires i < |pieces|
    ensures Matches(pieces[..i + 1], keywords) ==
              Matches(pieces[..i], keywords)
              + (if ContainsAny(Lower(Strip(pieces[i])), keywords) then [Strip(pieces[i])] else [])
  {
    assert pieces[..i + 1][..i] == pieces[..i];
  }

  // ---------------------------------------------------------------------------
  // The 100-word cut
  // ---------------------------------------------------------------------------

  /** The word limit after which no further sentence is collected. */
  const WORD_LIMIT: nat := 100

  /** The first `k' >= k` at which the first `k'` matches pass the word limit, or all of them. */
  function CutFrom(matches: seq<string>, k: nat): nat
    requires 1 <= k <= |matches|
    decreases |matches| - k
  {
    if k == |matches| || WordCount(Join(" ", matches[..k])) > WORD_LIMIT then k
    else CutFrom(matches, k + 1)
  }

  /** How many matches the loop collects before it stops. */
  function PickLen(matches: seq<string>): nat {
    if matches == [] then 0 else CutFrom(matches, 1)
  }

  /** The matches the loop collects. */
  function Picked(matches: seq<string>): seq<string> {
    PickLemma(matches);
    matches[..PickLen(matches)]
  }

  lemma {:induction false} CutFromSpec(matches: seq<string>, k: nat)
    requires 1 <= k <= |matches|
    requires forall j :: 0 < j < k ==> WordCount(Join(" ", matches[..j])) <= WORD_LIMIT
    ensures k <= CutFrom(matches, k) <= |matches|
    ensures forall j :: 0 < j < CutFrom(matches, k) ==> WordCount(Join(" ", matches[..j])) <= WORD_LIMIT
    ensures CutFrom(matches, k) < |matches| ==> WordCount(Join(" ", matches[..CutFrom(matches, k)])) > WORD_LIMIT
    decreases |matches| - k
  {
    if !(k == |matches| || WordCount(Join(" ", matches[..k])) > WORD_LIMIT) {
      CutFromSpec(matches, k + 1);
    }
  }

  /**
   * The loop collects the shortest run of matches whose words pass the limit,
   * or all the matches when none does; it collects nothing only when nothing
   * matched.
   */
  lemma PickLemma(matches: seq<string>)
    ensures PickLen(matches) <= |matches|
    ensures PickLen(matches) == 0 <==> matches == []
    ensures forall j :: 0 < j < PickLen(matches) ==> WordCount(Join(" ", matches[..j])) <= WORD_LIMIT
    ensures PickLen(matches) < |matches| ==> WordCount(Join(" ", matches[..PickLen(matches)])) > WORD_LIMIT
  {
    if matches != [] {
      CutFromSpec(matches, 1);
    }
  }

  /** Any count with the properties of `PickLemma` is `PickLen`. */
  lemma PickLenUnique(matches: seq<string>, n: nat)
    requires n <= |matches| && (n == 0 <==> matches == [])
    requires forall j :: 0 < j < n ==> WordCount(Join(" ", matches[..j])) <= WORD_LIMIT
    requires n < |matches| ==> WordCount(Join(" ", matches[..n])) > WORD_LIMIT
    ensures n == PickLen(matches)
  {
    PickLemma(matches);
  }

  /**
   * The inner loop of `_extract_methods` and `_extract_results`: collect the
   * stripped pieces that contain a keyword, and stop once the collected
   * sentences, joined by spaces, have more than 100 words.
   */
  method PickSentences(pieces: seq<string>, keywords: seq<string>) returns (picked: seq<string>)
    ensures picked == Picked(Matches(pieces, keywords))
  {
    picked := [];
    var i := 0;
    while i < |pieces|
      invariant 0 <= i <= |pieces|
      invariant picked == Matches(pieces[..i], keywords)
      invariant UnderLimit(picked)
    {
      var sentence := Strip(pieces[i]);
      MatchesStep(pieces, keywords, i);
      if ContainsAny(Lower(sentence), keywords) {
        UnderLimitSnoc(picked, sentence);
        picked := picked + [sentence];
        if WordCount(Join(" ", picked)) > WORD_LIMIT {
          PickedAtCut(pieces, keywords, i + 1, picked);
          break;
        }
      }
      i := i + 1;
    }
    if i == |pieces| {
      assert pieces[..i] == pieces;
      PickLenUnique(picked, |picked|);
    }
  }

  /** Every non-empty prefix of the collected sentences, joined by spaces, is within the word limit. */
  predicate UnderLimit(picked: seq<string>) {
    forall j :: 0 < j <= |picked| ==> WordCount(Join(" ", picked[..j])) <= WORD_LIMIT
  }

  /** Appending a sentence keeps the earlier prefixes within the limit, and the whole when it is. */
  lemma UnderLimitSnoc(picked: seq<string>, sentence: string)
    requires UnderLimit(picked)
    ensures forall j :: 0 < j < |picked + [sentence]| ==> WordCount(Join(" ", (picked + [sentence])[..j])) <= WORD_LIMIT
    ensures WordCount(Join(" ", picked + [sentence])) <= WORD_LIMIT ==> UnderLimit(picked + [sentence])
  {
    var longer := picked + [sentence];
    forall j | 0 <= j <= |picked| ensures longer[..j] == picked[..j] {
    }
    assert longer[..|longer|] == longer;
  }

  /** When the loop stops early, what it collected is what `Picked` describes. */
  lemma PickedAtCut(pieces: seq<string>, keywords: seq<string>, i: nat, picked: seq<string>)
    requires i <= |pieces| && picked == Matches(pieces[..i], keywords) && picked != []
    requires forall j :: 0 < j < |picked| ==> WordCount(Join(" ", picked[..j])) <= WORD_LIMIT
    requires WordCount(Join(" ", picked)) > WORD_LIMIT
    ensures picked == Picked(Matches(pieces, keywords))
  {
    var m := Matches(pieces, keywords);
    MatchesPrefix(pieces, keywords, i);
    assert m[..|picked|] == picked;
    forall j | 0 < j < |picked| ensures WordCount(Join(" ", m[..j])) <= WORD_LIMIT {
      assert m[..j] == picked[..j];
    }
    PickLenUnique(m, |picked|);
  }

  // ---------------------------------------------------------------------------
  // _extract_methods and _extract_results
  // ---------------------------------------------------------------------------

  /** At most three of the collected sentences, as they are shown. */
  function Shown(text: string, keywords: seq<string>): seq<string> {
    Take(Picked(Matches(Pieces(text), keywords)), 3)
  }

  /** What `_extract_methods` / `_extract_results` return, searching the summary before the original text. */
  function Section(summary: string, original: string, keywords: seq<string>, fallback: string): string {
    if Matches(Pieces(summary), keywords) != [] then Render(Shown(summary, keywords))
    else if Matches(Pieces(original), keywords) != [] then Render(Shown(original, keywords))
    else fallback
  }

  /**
   * The shared body of `_extract_methods` and `_extract_results`: for the
   * summary and then the original text, collect the keyword sentences and
   * return the first three of them joined with `". "` and ending in `"."`.
   */
  method ExtractSection(original: string, summary: string, keywords: seq<string>, fallback: string)
    returns (r: string)
    ensures r == Section(summary, original, keywords, fallback)
  {
    var sources := [summary, original];
    var k := 0;
    while k < |sources|
      invariant 0 <= k <= |sources|
      invariant forall j :: 0 <= j < k ==> Matches(Pieces(sources[j]), keywords) == []
    {
      var sentences := Pieces(sources[k]);
      var picked := PickSentences(sentences, keywords);
      PickLemma(Matches(sentences, keywords));
      if picked != [] {
        return Join(". ", Take(picked, 3)) + ".";
      }
      k := k + 1;
    }
    assert sources[0] == summary && sources[1] == original;
    return fallback;
  }

  /** The shown sentences are the first one to three matches. */
  lemma ShownPrefix(text: string, keywords: seq<string>)
    requires Matches(Pieces(text), keywords) != []
    ensures var shown, m := Shown(text, keywords), Matches(Pieces(text), keywords);
            1 <= |shown| <= 3 && |shown| <= |m| && shown == m[..|shown|]
  {
    PickLemma(Matches(Pieces(text), keywords));
  }

  /**
   * The sentences shown for a text that has keyword sentences: one to three
   * of them, from the first on, each holding a keyword; rendered, they split
   * back into exactly those sentences.
   */
  lemma ShownSentences(text: string, keywords: seq<string>)
    requires NonEmptyKeywords(keywords)
    requires Matches(Pieces(text), keywords) != []
    ensures var shown := Shown(text, keywords);
            var candidates := WithKeyword(Sentences(text), keywords);
            && 1 <= |shown| <= 3 && |shown| <= |candidates|
            && shown == candidates[..|shown|]
            && (forall k :: 0 <= k < |shown| ==> ContainsAny(Lower(shown[k]), keywords))
            && Sentences(Render(shown)) == shown
  {
    var m := Matches(Pieces(text), keywords);
    MatchesAreKeywordSentences(Pieces(text), keywords);
    ShownPrefix(text, keywords);
    WithKeywordMembers(Sentences(text), keywords);
    SentencesAreSentences(text);
    var shown := Shown(text, keywords);
    forall k | 0 <= k < |shown| ensures IsSentence(shown[k]) && ContainsAny(Lower(shown[k]), keywords) {
      assert shown[k] == m[k];
    }
    SentencesOfRender(shown);
  }

  /**
   * The section text: the summary's keyword sentences when it has any, else
   * the original text's, else the fallback; in the first two cases one to
   * three sentences that split back out of the text returned.
   */
  lemma SectionShape(summary: string, original: string, keywords: seq<string>, fallback: string)
    requires NonEmptyKeywords(keywords)
    ensures var r := Section(summary, original, keywords, fallback);
            && (WithKeyword(Sentences(summary), keywords) != [] ==> r == Render(Shown(summary, keywords)))
            && (WithKeyword(Sentences(summary), keywords) == [] && WithKeyword(Sentences(original), keywords) != [] ==>
                  r == Render(Shown(original, keywords)))
            && (WithKeyword(Sentences(summary), keywords) == [] && WithKeyword(Sentences(original), keywords) == [] ==>
                  r == fallback)
  {
    MatchesAreKeywordSentences(Pieces(summary), keywords);
    MatchesAreKeywordSentences(Pieces(original), keywords);
  }

  const METHOD_KEYWORDS: seq<string> := [
    "method", "approach", "technique", "algorithm", "framework",
    "procedure", "methodology", "protocol", "experiment", "analysis"
  ]

  const METHODS_FALLBACK: string := "Methodology details not clearly identified in the text."

  const RESULT_KEYWORDS: seq<string> := [
    "result", "finding", "outcome", "conclusion", "demonstrate",
    "show", "achieve", "performance", "accuracy", "improvement"
  ]

  const RESULTS_FALLBACK: string := "Specific results not clearly identified in the text."

  /** `_extract_methods`. */
  method ExtractMethods(original: string, summary: string) returns (r: string)
    ensures r == Section(summary, original, METHOD_KEYWORDS, METHODS_FALLBACK)
  {
    r := ExtractSection(original, summary, METHOD_KEYWORDS, METHODS_FALLBACK);
  }

  /** `_extract_results`. */
  method ExtractResults(original: string, summary: string) returns (r: string)
    ensures r == Section(summary, original, RESULT_KEYWORDS, RESULTS_FALLBACK)
  {
    r := ExtractSection(original, summary, RESULT_KEYWORDS, RESULTS_FALLBACK);
  }

  /** The keyword lists hold no empty keyword. */
  lemma KeywordListsNonEmpty()
    ensures NonEmptyKeywords(METHOD_KEYWORDS)
    ensures NonEmptyKeywords(RESULT_KEYWORDS)
    ensures NonEmptyKeywords(LIMITATION_KEYWORDS)
  {
  }

  // ---------------------------------------------------------------------------
  // _extract_limitations
  // ---------------------------------------------------------------------------

  const LIMITATION_KEYWORDS: seq<string> := [
    "limitation", "limit", "constraint", "drawback", "challenge",
    "future work", "further research", "improvement", "weakness"
  ]

  const LIMITATIONS_FALLBACK: string := "Limitations not explicitly discussed in the available text."

  /** The most limitations listed. */
  const MAX_LIMITATIONS: nat := 5

  /** What `_extract_limitations` returns. */
  function Limitations(summary: string, original: string): seq<string> {
    FirstFound(summary, original, LIMITATION_KEYWORDS)
  }

  /**
   * The first five keyword sentences of the summary, else of the original
   * text, else the fallback message alone.
   */
  function FirstFound(summary: string, original: string, keywords: seq<string>): seq<string> {
    var fromSummary := Matches(Pieces(summary), keywords);
    var fromOriginal := Matches(Pieces(original), keywords);
    if fromSummary != [] then Take(fromSummary, MAX_LIMITATIONS)
    else if fromOriginal != [] then Take(fromOriginal, MAX_LIMITATIONS)
    else [LIMITATIONS_FALLBACK]
  }

  /**
   * The inner loop of `_extract_limitations` over one text: collect the
   * stripped pieces that contain a keyword and stop at five.
   */
  method CollectLimitations(sentences: seq<string>, keywords: seq<string>) returns (limitations: seq<string>)
    ensures limitations == Take(Matches(sentences, keywords), MAX_LIMITATIONS)
  {
    limitations := [];
    var i := 0;
    while i < |sentences|
      invariant 0 <= i <= |sentences|
      invariant limitations == Matches(sentences[..i], keywords)
      invariant |limitations| < MAX_LIMITATIONS
    {
      var sentence := Strip(sentences[i]);
      MatchesStep(sentences, keywords, i);
      if ContainsAny(Lower(sentence), keywords) {
        limitations := limitations + [sentence];
        if |limitations| >= MAX_LIMITATIONS {
          MatchesPrefix(sentences, keywords, i + 1);
          break;
        }
      }
      i := i + 1;
    }
    if i == |sentences| {
      assert sentences[..i] == sentences;
    }
  }

  /**
   * `_extract_limitations`: collect keyword sentences from the summary, and
   * from the original text only when the summary has none, stopping at five;
   * with none at all, the single fallback message.
   */
  method ExtractLimitations(original: string, summary: string) returns (limitations: seq<string>)
    ensures limitations == Limitations(summary, original)
  {
    var keywords := LIMITATION_KEYWORDS;
    ghost var fromSummary, fromOriginal := Matches(Pieces(summary), keywords), Matches(Pieces(original), keywords);
    limitations := [];
    var sources := [summary, original];
    var k := 0;
    while k < |sources|
      invariant 0 <= k <= |sources|
      invariant limitations == []
      invariant k >= 1 ==> fromSummary == []
      invariant k >= 2 ==> fromOriginal == []
    {
      limitations := CollectLimitations(Pieces(sources[k]), keywords);
      if limitations != [] {
        break;
      }
      k := k + 1;
    }
    if limitations == [] {
      limitations := [LIMITATIONS_FALLBACK];
    } else {
      assert limitations == Take(if k == 0 then fromSummary else fromOriginal, MAX_LIMITATIONS);
    }
    limitations := Take(limitations, MAX_LIMITATIONS);
  }

  /**
   * One to five items: the summary's keyword sentences when it has any, else
   * the original text's, from the first on; else the fallback alone.
   */
  lemma FirstFoundShape(summary: string, original: string, keywords: seq<string>)
    requires NonEmptyKeywords(keywords)
    ensures var l := FirstFound(summary, original, keywords);
            var s := WithKeyword(Sentences(summary), keywords);
            var o := WithKeyword(Sentences(original), keywords);
            && 1 <= |l| <= MAX_LIMITATIONS
            && (s != [] ==> |l| <= |s| && l == s[..|l|] && (|l| < MAX_LIMITATIONS ==> l == s))
            && (s == [] && o != [] ==> |l| <= |o| && l == o[..|l|] && (|l| < MAX_LIMITATIONS ==> l == o))
            && (s == [] && o == [] ==> l == [LIMITATIONS_FALLBACK])
  {
    MatchesAreKeywordSentences(Pieces(summary), keywords);
    MatchesAreKeywordSentences(Pieces(original), keywords);
  }

  /**
   * `_extract_limitations` lists one to five limitations: the summary's
   * keyword sentences when it has any, else the original text's, else the
   * fallback message.
   */
  lemma LimitationsShape(summary: string, original: string)
    ensures var l := Limitations(summary, original);
            var s := WithKeyword(Sentences(summary), LIMITATION_KEYWORDS);
            var o := WithKeyword(Sentences(original), LIMITATION_KEYWORDS);
            && 1 <= |l| <= MAX_LIMITATIONS
            && (s != [] ==> |l| <= |s| && l == s[..|l|] && (|l| < MAX_LIMITATIONS ==> l == s))
            && (s == [] && o != [] ==> |l| <= |o| && l == o[..|l|] && (|l| < MAX_LIMITATIONS ==> l == o))
            && (s == [] && o == [] ==> l == [LIMITATIONS_FALLBACK])
  {
    KeywordListsNonEmpty();
    FirstFoundShape(summary, original, LIMITATION_KEYWORDS);
  }
}
