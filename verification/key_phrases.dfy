/**
 * Key phrases of a paper (app/services/summarizer.py): the filter applied to
 * the ranked phrases of the keyword ranker for English text, and the
 * frequency-based fallback that picks repeated capitalised words otherwise.
 */
module KeyPhrases {
  import opened Wrappers
  import opened TextOps

  // ---------------------------------------------------------------------------
  // The ranked-phrase filter of _extract_key_phrases
  // ---------------------------------------------------------------------------

  /** How many ranked phrases are looked at, and how many are kept. */
  const MAX_RANKED: nat := 15
  const MAX_KEY_PHRASES: nat := 8

  const KEY_PHRASES_UNAVAILABLE: string := "Key phrase extraction unavailable"

  /** `len(phrase.split()) <= 4 and len(phrase) > 3`. */
  predicate ReasonableLength(phrase: string) {
    WordCount(phrase) <= 4 && |phrase| > 3
  }

  /** The title-cased phrases of reasonable length, in order. */
  function KeptPhrases(phrases: seq<string>, title: string -> string): seq<string>
    decreases |phrases|
  {
    if phrases == [] then []
    else
      var p := phrases[|phrases| - 1];
      KeptPhrases(phrases[..|phrases| - 1], title) + (if ReasonableLength(p) then [title(p)] else [])
  }

  /**
   * The filter loop of `_extract_key_phrases`: of the first 15 ranked
   * phrases, keep those of reasonable length, title-cased, and return the
   * first 8 kept.
   */
  method FilterKeyPhrases(phrases: seq<string>, title: string -> string) returns (kept: seq<string>)
    ensures kept == Take(KeptPhrases(Take(phrases, MAX_RANKED), title), MAX_KEY_PHRASES)
  {
    var top := Take(phrases, MAX_RANKED);
    var clean: seq<string> := [];
    for i := 0 to |top|
      invariant clean == KeptPhrases(top[..i], title)
    {
      var phrase := top[i];
      if WordCount(phrase) <= 4 && |phrase| > 3 {
        clean := clean + [title(phrase)];
      }
      assert top[..i + 1][..i] == top[..i];
    }
    assert top[..|top|] == top;
    kept := Take(clean, MAX_KEY_PHRASES);
  }

  /** A phrase is kept exactly when it is of reasonable length: its title-cased form then appears. */
  lemma KeptPhrasesMembers(phrases: seq<string>, title: string -> string)
    ensures forall x :: x in KeptPhrases(phrases, title) ==>
              exists j :: 0 <= j < |phrases| && ReasonableLength(phrases[j]) && x == title(phrases[j])
    ensures forall j :: 0 <= j < |phrases| && ReasonableLength(phrases[j]) ==> title(phrases[j]) in KeptPhrases(phrases, title)
  {
    KeptPhrasesSound(phrases, title);
    KeptPhrasesComplete(phrases, title);
  }

  /** Every kept phrase is the title-cased form of a phrase of reasonable length. */
  lemma {:induction false} KeptPhrasesSound(phrases: seq<string>, title: string -> string)
    ensures forall x :: x in KeptPhrases(phrases, title) ==>
              exists j :: 0 <= j < |phrases| && ReasonableLength(phrases[j]) && x == title(phrases[j])
    decreases |phrases|
  {
    if phrases != [] {
      var init, last := phrases[..|phrases| - 1], phrases[|phrases| - 1];
      KeptPhrasesSound(init, title);
      assert KeptPhrases(phrases, title) == KeptPhrases(init, title) + (if ReasonableLength(last) then [title(last)] else []);
      forall x | x in KeptPhrases(phrases, title)
        ensures exists j :: 0 <= j < |phrases| && ReasonableLength(phrases[j]) && x == title(phrases[j])
      {
        if x in KeptPhrases(init, title) {
          var j :| 0 <= j < |init| && ReasonableLength(init[j]) && x == title(init[j]);
          assert phrases[j] == init[j];
        } else {
          assert ReasonableLength(phrases[|phrases| - 1]) && x == title(phrases[|phrases| - 1]);
        }
      }
    }
  }

  /** The title-cased form of every phrase of reasonable length is kept. */
  lemma {:induction false} KeptPhrasesComplete(phrases: seq<string>, title: string -> string)
    ensures forall j :: 0 <= j < |phrases| && ReasonableLength(phrases[j]) ==> title(phrases[j]) in KeptPhrases(phrases, title)
    decreases |phrases|
  {
    if phrases != [] {
      var init, last := phrases[..|phrases| - 1], phrases[|phrases| - 1];
      KeptPhrasesComplete(init, title);
      assert KeptPhrases(phrases, title) == KeptPhrases(init, title) + (if ReasonableLength(last) then [title(last)] else []);
      forall j | 0 <= j < |phrases| && ReasonableLength(phrases[j])
        ensures title(phrases[j]) in KeptPhrases(phrases, title)
      {
        if j < |init| {
          assert phrases[j] == init[j];
        }
      }
    }
  }

  /**
   * The filtered key phrases: at most 8, each the title-cased form of one of
   * the first 15 ranked phrases of reasonable length; when fewer than 8 are
   * returned, every such phrase is among them.
   */
  lemma FilterKeyPhrasesShape(phrases: seq<string>, title: string -> string)
    ensures var top := Take(phrases, MAX_RANKED);
            var kept := Take(KeptPhrases(top, title), MAX_KEY_PHRASES);
            && |kept| <= MAX_KEY_PHRASES
            && (forall x :: x in kept ==>
                  exists j :: 0 <= j < |top| && ReasonableLength(top[j]) && x == title(top[j]))
            && (|kept| < MAX_KEY_PHRASES ==>
                  forall j :: 0 <= j < |top| && ReasonableLength(top[j]) ==> title(top[j]) in kept)
  {
    var top := Take(phrases, MAX_RANKED);
    var all := KeptPhrases(top, title);
    var kept := Take(all, MAX_KEY_PHRASES);
    KeptPhrasesMembers(top, title);
    assert forall x :: x in kept ==> x in all by {
      assert kept == all[..|kept|];
    }
    if |kept| < MAX_KEY_PHRASES {
      assert kept == all;
    }
  }

  // ---------------------------------------------------------------------------
  // re.findall(r'\b[A-Z][a-z]+\b', text)
  // ---------------------------------------------------------------------------

  /** A character `\w` matches (ASCII letters, digits and the underscore). */
  predicate IsWordChar(c: char) {
    ('a' <= c <= 'z') || ('A' <= c <= 'Z') || ('0' <= c <= '9') || c == '_'
  }

  /** One upper-case ASCII letter followed by one or more lower-case ones. */
  predicate IsCapitalized(w: string) {
    |w| >= 2 && 'A' <= w[0] <= 'Z' && forall i :: 1 <= i < |w| ==> 'a' <= w[i] <= 'z'
  }

  /** The length of the run of word characters at the start of `s`. */
  function RunLen(s: string): (n: nat)
    ensures n <= |s|
    ensures forall i :: 0 <= i < n ==> IsWordChar(s[i])
    ensures n < |s| ==> !IsWordChar(s[n])
    decreases |s|
  {
    if s == [] || !IsWordChar(s[0]) then 0 else 1 + RunLen(s[1..])
  }

  /** The maximal runs of word characters, in order. */
  function WordRuns(s: string): seq<string>
    decreases |s|
  {
    if s == [] then []
    else if !IsWordChar(s[0]) then WordRuns(s[1..])
    else [s[..RunLen(s)]] + WordRuns(s[RunLen(s)..])
  }

  /** The capitalised runs among `runs`. */
  function CapitalizedRuns(runs: seq<string>): (r: seq<string>)
    ensures forall k :: 0 <= k < |r| ==> IsCapitalized(r[k])
    decreases |runs|
  {
    if runs == [] then []
    else (if IsCapitalized(runs[0]) then [runs[0]] else []) + CapitalizedRuns(runs[1..])
  }

  /**
   * `re.findall(r'\b[A-Z][a-z]+\b', text)`: a match must start and end at a
   * word boundary, so it is a whole run of word characters of the form
   * `[A-Z][a-z]+`.
   */
  function CapitalizedWords(text: string): seq<string> {
    CapitalizedRuns(WordRuns(text))
  }

  // ---------------------------------------------------------------------------
  // Counting: the word_freq dict
  // ---------------------------------------------------------------------------

  /** The words longer than three characters, in order. */
  function Long(words: seq<string>): seq<string>
    decreases |words|
  {
    if words == [] then []
    else
      var w := words[|words| - 1];
      Long(words[..|words| - 1]) + (if |w| > 3 then [w] else [])
  }

  /** The different elements of `xs` in order of first occurrence (a dict's key order). */
  function Distinct(xs: seq<string>): seq<string>
    decreases |xs|
  {
    if xs == [] then []
    else
      var d := Distinct(xs[..|xs| - 1]);
      if xs[|xs| - 1] in d then d else d + [xs[|xs| - 1]]
  }

  /** `Distinct` keeps exactly the elements, each once. */
  lemma {:induction false} DistinctMembers(xs: seq<string>)
    ensures forall x :: x in Distinct(xs) <==> x in xs
    ensures forall a, b :: 0 <= a < b < |Distinct(xs)| ==> Distinct(xs)[a] != Distinct(xs)[b]
    decreases |xs|
  {
    if xs != [] {
      var init, last := xs[..|xs| - 1], xs[|xs| - 1];
      DistinctMembers(init);
      assert xs == init + [last];
      var d, d0 := Distinct(xs), Distinct(init);
      if last !in d0 {
        forall a, b | 0 <= a < b < |d| ensures d[a] != d[b] {
          assert d[a] == d0[a];
          if b < |d0| {
            assert d[b] == d0[b];
          } else {
            assert d[b] == last;
          }
        }
      }
    }
  }

  /** Appending a word to the list extends `Distinct` by it when it is new. */
  lemma DistinctSnoc(xs: seq<string>, w: string)
    ensures Distinct(xs + [w]) == if w in xs then Distinct(xs) else Distinct(xs) + [w]
  {
    assert (xs + [w])[..|xs|] == xs;
    DistinctMembers(xs);
  }

  /** `Long` of one more word. */
  lemma LongSnoc(words: seq<string>, i: nat)
    requires i < |words|
    ensures |words[i]| > 3 ==> Long(words[..i + 1]) == Long(words[..i]) + [words[i]]
    ensures |words[i]| <= 3 ==> Long(words[..i + 1]) == Long(words[..i])
  {
    assert words[..i + 1][..i] == words[..i];
    assert Long(words[..i]) + [] == Long(words[..i]);
  }

  /** Where `w` first occurs in `xs`. */
  function FirstSeen(xs: seq<string>, w: string): (r: nat)
    requires w in xs
    ensures r < |xs| && xs[r] == w
    ensures forall j :: 0 <= j < r ==> xs[j] != w
    decreases |xs|
  {
    if xs[0] == w then 0 else 1 + FirstSeen(xs[1..], w)
  }

  /** `Distinct` lists the elements in the order they first occur. */
  lemma {:induction false} DistinctOrder(xs: seq<string>)
    ensures forall a, b :: 0 <= a < b < |Distinct(xs)| ==>
              Distinct(xs)[a] in xs && Distinct(xs)[b] in xs
              && FirstSeen(xs, Distinct(xs)[a]) < FirstSeen(xs, Distinct(xs)[b])
    decreases |xs|
  {
    if xs != [] {
      var init, last := xs[..|xs| - 1], xs[|xs| - 1];
      assert xs == init + [last];
      DistinctOrder(init);
      DistinctMembers(init);
      DistinctMembers(xs);
      var d, d0 := Distinct(xs), Distinct(init);
      forall v | v in init ensures FirstSeen(xs, v) == FirstSeen(init, v) {
        assert xs[FirstSeen(init, v)] == v;
      }
      forall a, b | 0 <= a < b < |d|
        ensures d[a] in xs && d[b] in xs && FirstSeen(xs, d[a]) < FirstSeen(xs, d[b])
      {
        assert a < |d0|;
        assert d[a] == d0[a];
        if b < |d0| {
          assert d[b] == d0[b];
        } else {
          assert d[b] == last && last !in init;
          assert FirstSeen(xs, last) == |init|;
        }
      }
    } else {
      assert Distinct(xs) == [];
    }
  }

  /** The number of times `w` occurs in `xs`. */
  function Count(xs: seq<string>, w: string): nat {
    multiset(xs)[w]
  }

  /** One more occurrence of `w` counts once more for `w` and for nothing else. */
  lemma CountSnoc(xs: seq<string>, w: string)
    ensures forall v :: Count(xs + [w], v) == Count(xs, v) + (if v == w then 1 else 0)
  {
    assert multiset(xs + [w]) == multiset(xs) + multiset{w};
  }

  /** `keys` and `freq` are the dict of counts of `xs`, in insertion order. */
  ghost predicate Tally(xs: seq<string>, keys: seq<string>, freq: map<string, nat>) {
    && keys == Distinct(xs)
    && (forall w :: w in freq <==> w in keys)
    && (forall w :: w in freq ==> freq[w] == Count(xs, w))
  }

  /** Counting a word already seen: the keys stay, its count goes up by one. */
  lemma CountKnown(xs: seq<string>, word: string, keys: seq<string>, freq: map<string, nat>)
    requires Tally(xs, keys, freq) && word in freq
    ensures Tally(xs + [word], keys, freq[word := freq[word] + 1])
  {
    DistinctMembers(xs);
    assert word in xs;
    DistinctSnoc(xs, word);
    CountSnoc(xs, word);
    var f := freq[word := freq[word] + 1];
    forall w | w in f ensures f[w] == Count(xs + [word], w) {
    }
  }

  /** Counting a new word: it is appended to the keys with count 1. */
  lemma CountNew(xs: seq<string>, word: string, keys: seq<string>, freq: map<string, nat>)
    requires Tally(xs, keys, freq) && word !in freq
    ensures Tally(xs + [word], keys + [word], freq[word := 1])
  {
    DistinctMembers(xs);
    assert word !in xs;
    DistinctSnoc(xs, word);
    CountSnoc(xs, word);
    var f := freq[word := 1];
    forall w ensures w in f <==> w in keys + [word] {
    }
    forall w | w in f ensures f[w] == Count(xs + [word], w) {
    }
  }

  /** Counting one more word: a new one is appended to the keys with count 1, a known one counts once more. */
  lemma CountStep(xs: seq<string>, word: string, keys: seq<string>, freq: map<string, nat>)
    requires Tally(xs, keys, freq)
    ensures word in freq ==> Tally(xs + [word], keys, freq[word := freq[word] + 1])
    ensures word !in freq ==> Tally(xs + [word], keys + [word], freq[word := 1])
  {
    if word in freq {
      CountKnown(xs, word, keys, freq);
    } else {
      CountNew(xs, word, keys, freq);
    }
  }

  /**
   * The counting loop of `_extract_noun_phrases_fallback`: `keys` is the
   * dict's key order and `freq` its contents.
   */
  method CountWords(words: seq<string>) returns (keys: seq<string>, freq: map<string, nat>)
    ensures Tally(Long(words), keys, freq)
  {
    keys, freq := [], map[];
    for i := 0 to |words|
      invariant Tally(Long(words[..i]), keys, freq)
    {
      var word := words[i];
      LongSnoc(words, i);
      if |word| > 3 {
        CountStep(Long(words[..i]), word, keys, freq);
        if word in freq {
          freq := freq[word := freq[word] + 1];
        } else {
          keys := keys + [word];
          freq := freq[word := 1];
        }
      }
    }
    assert words[..|words|] == words;
  }

  // ---------------------------------------------------------------------------
  // sorted(word_freq.items(), key=lambda x: x[1], reverse=True)
  // ---------------------------------------------------------------------------

  /** Index `i` goes before index `j`: a higher count, or the same count and inserted earlier. */
  predicate Before(counts: seq<nat>, i: nat, j: nat)
    requires i < |counts| && j < |counts|
  {
    counts[i] > counts[j] || (counts[i] == counts[j] && i < j)
  }

  /** `order` lists indices of `counts`, each pair in `Before` order. */
  predicate SortedIndices(counts: seq<nat>, order: seq<nat>) {
    && (forall a :: 0 <= a < |order| ==> order[a] < |counts|)
    && (forall a, b :: 0 <= a < b < |order| ==> Before(counts, order[a], order[b]))
  }

  /**
   * Python's stable descending sort on the counts, as an insertion sort of
   * the indices: each index goes after every earlier index with a count at
   * least as high.
   */
  method SortByCount(counts: seq<nat>) returns (order: seq<nat>)
    ensures |order| == |counts|
    ensures SortedIndices(counts, order)
    ensures forall x :: 0 <= x < |counts| ==> x in order
  {
    order := [];
    for i := 0 to |counts|
      invariant |order| == i
      invariant forall a :: 0 <= a < |order| ==> order[a] < i
      invariant forall a, b :: 0 <= a < b < |order| ==> Before(counts, order[a], order[b])
      invariant forall x :: 0 <= x < i ==> x in order
    {
      var p := 0;
      while p < |order| && counts[order[p]] >= counts[i]
        invariant 0 <= p <= |order|
        invariant forall a :: 0 <= a < p ==> counts[order[a]] >= counts[i]
      {
        p := p + 1;
      }
      InsertSorted(counts, order, i, p);
      order := order[..p] + [i] + order[p..];
    }
  }

  /** Inserting index `i` at the first place with a lower count keeps the order. */
  lemma InsertSorted(counts: seq<nat>, order: seq<nat>, i: nat, p: nat)
    requires i < |counts| && p <= |order|
    requires forall a :: 0 <= a < |order| ==> order[a] < i
    requires forall a, b :: 0 <= a < b < |order| ==> Before(counts, order[a], order[b])
    requires forall a :: 0 <= a < p ==> counts[order[a]] >= counts[i]
    requires p < |order| ==> counts[order[p]] < counts[i]
    ensures var o := order[..p] + [i] + order[p..];
            && (forall a :: 0 <= a < |o| ==> o[a] < i + 1)
            && (forall a, b :: 0 <= a < b < |o| ==> Before(counts, o[a], o[b]))
            && (forall x :: x in order ==> x in o)
            && i in o
  {
    var o := order[..p] + [i] + order[p..];
    InsertShape(order, i, p);
    forall a | p <= a < |order| ensures counts[order[a]] < counts[i] {
      if a > p {
        assert Before(counts, order[p], order[a]);
      }
    }
    forall a, b | 0 <= a < b < |o| ensures Before(counts, o[a], o[b]) {
      if b < p {
        assert Before(counts, order[a], order[b]);
      } else if b == p {
        assert o[a] == order[a] && order[a] < i;
      } else if a < p {
        assert Before(counts, order[a], order[b - 1]);
      } else if a == p {
        assert counts[o[b]] < counts[i];
      } else {
        assert Before(counts, order[a - 1], order[b - 1]);
      }
    }
  }

  /** Where everything sits after inserting `i` at position `p`. */
  lemma InsertShape(order: seq<nat>, i: nat, p: nat)
    requires p <= |order|
    ensures var o := order[..p] + [i] + order[p..];
            && |o| == |order| + 1 && o[p] == i
            && (forall a :: 0 <= a < p ==> o[a] == order[a])
            && (forall a :: p < a < |o| ==> o[a] == order[a - 1])
            && (forall x :: x in o <==> x in order || x == i)
  {
    assert order == order[..p] + order[p..];
  }

  // ---------------------------------------------------------------------------
  // _extract_noun_phrases_fallback
  // ---------------------------------------------------------------------------

  /** `[word for word, freq in top if freq > 1]`, with the entries given as indices. */
  function Select(top: seq<nat>, keys: seq<string>, counts: seq<nat>): seq<string>
    requires |keys| == |counts|
    requires forall a :: 0 <= a < |top| ==> top[a] < |keys|
    decreases |top|
  {
    if top == [] then []
    else
      var j := top[|top| - 1];
      Select(top[..|top| - 1], keys, counts) + (if counts[j] > 1 then [keys[j]] else [])
  }

  /**
   * `u` ranks before `w` among `words`: seen more often, or as often and seen
   * first. This is the order of the stable descending sort of the counts.
   */
  predicate Ranks(words: seq<string>, u: string, w: string) {
    && u in words && w in words
    && (Count(words, u) > Count(words, w)
        || (Count(words, u) == Count(words, w) && FirstSeen(words, u) < FirstSeen(words, w)))
  }

  /**
   * `terms` are the top-ranked repeated words of `words`: at most 8 different
   * words, each seen more than once, in rank order; a word seen more than
   * once is left out only when 8 words ranking before it are returned.
   */
  predicate TopRanked(words: seq<string>, terms: seq<string>) {
    && |terms| <= MAX_KEY_PHRASES
    && (forall k :: 0 <= k < |terms| ==> terms[k] in words && Count(words, terms[k]) > 1)
    && (forall a, b :: 0 <= a < b < |terms| ==> terms[a] != terms[b] && Ranks(words, terms[a], terms[b]))
    && (forall w :: w in words && Count(words, w) > 1 && w !in terms ==>
          |terms| == MAX_KEY_PHRASES && forall k :: 0 <= k < |terms| ==> Ranks(words, terms[k], w))
  }

  /**
   * The terms `_extract_noun_phrases_fallback` returns for `text`: the
   * top-ranked repeated capitalised words longer than three characters.
   */
  predicate IsFrequentTerms(text: string, terms: seq<string>) {
    && TopRanked(Long(CapitalizedWords(text)), terms)
    && (forall k :: 0 <= k < |terms| ==> |terms[k]| > 3)
  }

  /** `_extract_noun_phrases_fallback`: count the long capitalised words, sort by count, keep the top 8 seen twice or more. */
  method FrequentTerms(text: string) returns (terms: seq<string>)
    ensures IsFrequentTerms(text, terms)
  {
    var words := CapitalizedWords(text);
    var keys, freq := CountWords(words);
    var counts := seq(|keys|, k requires 0 <= k < |keys| => freq[keys[k]]);
    var order := SortByCount(counts);
    var top := Take(order, MAX_KEY_PHRASES);
    terms := Select(top, keys, counts);
    FrequentTermsCorrect(text, keys, counts, order);
  }

  /** Every selected word is the word of an entry of `top` whose count exceeds one. */
  lemma {:induction false} SelectSound(top: seq<nat>, keys: seq<string>, counts: seq<nat>)
    requires |keys| == |counts|
    requires forall a :: 0 <= a < |top| ==> top[a] < |keys|
    ensures |Select(top, keys, counts)| <= |top|
    ensures forall x :: x in Select(top, keys, counts) ==>
              exists a :: 0 <= a < |top| && x == keys[top[a]] && counts[top[a]] > 1
    decreases |top|
  {
    if top != [] {
      var init := top[..|top| - 1];
      SelectSound(init, keys, counts);
      forall x | x in Select(top, keys, counts)
        ensures exists a :: 0 <= a < |top| && x == keys[top[a]] && counts[top[a]] > 1
      {
        if x in Select(init, keys, counts) {
          var a :| 0 <= a < |init| && x == keys[init[a]] && counts[init[a]] > 1;
          assert top[a] == init[a];
        } else {
          assert x == keys[top[|top| - 1]] && counts[top[|top| - 1]] > 1;
        }
      }
    }
  }

  /** Every entry of `top` whose count exceeds one has its word selected. */
  lemma {:induction false} SelectComplete(top: seq<nat>, keys: seq<string>, counts: seq<nat>)
    requires |keys| == |counts|
    requires forall a :: 0 <= a < |top| ==> top[a] < |keys|
    ensures forall a :: 0 <= a < |top| && counts[top[a]] > 1 ==> keys[top[a]] in Select(top, keys, counts)
    decreases |top|
  {
    if top != [] {
      var init := top[..|top| - 1];
      SelectComplete(init, keys, counts);
      forall a | 0 <= a < |top| && counts[top[a]] > 1 ensures keys[top[a]] in Select(top, keys, counts) {
        if a < |init| {
          assert top[a] == init[a];
        }
      }
    }
  }

  /** When every count of `top` exceeds one, the selection is the words of `top`, in order. */
  lemma {:induction false} SelectAllPass(top: seq<nat>, keys: seq<string>, counts: seq<nat>)
    requires |keys| == |counts|
    requires forall a :: 0 <= a < |top| ==> top[a] < |keys| && counts[top[a]] > 1
    ensures |Select(top, keys, counts)| == |top|
    ensures forall a :: 0 <= a < |top| ==> Select(top, keys, counts)[a] == keys[top[a]]
    decreases |top|
  {
    if top != [] {
      var init := top[..|top| - 1];
      assert forall a :: 0 <= a < |init| ==> init[a] == top[a];
      SelectAllPass(init, keys, counts);
    }
  }

  /** Two selected words come from two entries of `top` in the same order. */
  lemma {:induction false} SelectOrdered(top: seq<nat>, keys: seq<string>, counts: seq<nat>, a: nat, b: nat)
    returns (c: nat, d: nat)
    requires |keys| == |counts|
    requires forall k :: 0 <= k < |top| ==> top[k] < |keys|
    requires a < b < |Select(top, keys, counts)|
    ensures c < d < |top|
    ensures Select(top, keys, counts)[a] == keys[top[c]] && Select(top, keys, counts)[b] == keys[top[d]]
    decreases |top|
  {
    var init, last := top[..|top| - 1], top[|top| - 1];
    var s, s0 := Select(top, keys, counts), Select(init, keys, counts);
    assert s == s0 + (if counts[last] > 1 then [keys[last]] else []);
    assert s[a] == s0[a];
    if b < |s0| {
      c, d := SelectOrdered(init, keys, counts, a, b);
      assert s[b] == s0[b];
    } else {
      SelectSound(init, keys, counts);
      assert s0[a] in s0;
      var k :| 0 <= k < |init| && s0[a] == keys[init[k]] && counts[init[k]] > 1;
      c, d := k, |top| - 1;
    }
  }

  /** `keys` is the dict of `words` in insertion order and `counts` its values. */
  predicate Counted(words: seq<string>, keys: seq<string>, counts: seq<nat>) {
    && keys == Distinct(words)
    && |counts| == |keys|
    && (forall k :: 0 <= k < |keys| ==> counts[k] == Count(words, keys[k]))
  }

  /** The selected terms are words of the text seen more than once. */
  lemma TermsRepeated(words: seq<string>, keys: seq<string>, counts: seq<nat>, top: seq<nat>)
    requires Counted(words, keys, counts)
    requires forall a :: 0 <= a < |top| ==> top[a] < |keys|
    ensures forall k :: 0 <= k < |Select(top, keys, counts)| ==>
              Select(top, keys, counts)[k] in words && Count(words, Select(top, keys, counts)[k]) > 1
  {
    var terms := Select(top, keys, counts);
    SelectSound(top, keys, counts);
    DistinctMembers(words);
    forall k | 0 <= k < |terms| ensures terms[k] in words && Count(words, terms[k]) > 1 {
      assert terms[k] in terms;
      var a :| 0 <= a < |top| && terms[k] == keys[top[a]] && counts[top[a]] > 1;
      assert keys[top[a]] in keys;
    }
  }

  /** Selected from sorted entries, the terms are different and in rank order. */
  lemma TermsOrdered(words: seq<string>, keys: seq<string>, counts: seq<nat>, top: seq<nat>)
    requires Counted(words, keys, counts)
    requires SortedIndices(counts, top)
    ensures var terms := Select(top, keys, counts);
            forall a, b :: 0 <= a < b < |terms| ==> terms[a] != terms[b] && Ranks(words, terms[a], terms[b])
  {
    var terms := Select(top, keys, counts);
    forall a, b | 0 <= a < b < |terms| ensures terms[a] != terms[b] && Ranks(words, terms[a], terms[b]) {
      var c, d := SelectOrdered(top, keys, counts, a, b);
      KeysOrdered(words, keys, counts, top[c], top[d]);
    }
  }

  /** Two dict entries in sort order hold different words, the first ranking before the second. */
  lemma KeysOrdered(words: seq<string>, keys: seq<string>, counts: seq<nat>, i: nat, j: nat)
    requires Counted(words, keys, counts)
    requires i < |keys| && j < |keys| && Before(counts, i, j)
    ensures keys[i] != keys[j] && Ranks(words, keys[i], keys[j])
  {
    DistinctMembers(words);
    DistinctOrder(words);
    if counts[i] == counts[j] {
      assert i < j;
    }
  }

  /** A word seen more than once is missing only behind 8 terms that rank before it. */
  lemma TermsComplete(words: seq<string>, keys: seq<string>, counts: seq<nat>, order: seq<nat>)
    requires Counted(words, keys, counts)
    requires |order| == |counts| && SortedIndices(counts, order)
    requires forall x :: 0 <= x < |counts| ==> x in order
    ensures var terms := Select(Take(order, MAX_KEY_PHRASES), keys, counts);
            forall w :: w in words && Count(words, w) > 1 && w !in terms ==>
              |terms| == MAX_KEY_PHRASES && forall k :: 0 <= k < |terms| ==> Ranks(words, terms[k], w)
  {
    var top := Take(order, MAX_KEY_PHRASES);
    var terms := Select(top, keys, counts);
    DistinctMembers(words);
    forall w | w in words && Count(words, w) > 1 && w !in terms
      ensures |terms| == MAX_KEY_PHRASES && forall k :: 0 <= k < |terms| ==> Ranks(words, terms[k], w)
    {
      assert w in keys;
      var x :| 0 <= x < |keys| && keys[x] == w;
      assert x in order;
      var q :| 0 <= q < |order| && order[q] == x;
      assert counts[order[q]] > 1;
      OutsideTop(order, keys, counts, q);
      BehindTop(counts, order, q);
      SelectAllPass(top, keys, counts);
      forall k | 0 <= k < |terms| ensures Ranks(words, terms[k], w) {
        KeysOrdered(words, keys, counts, top[k], x);
      }
    }
  }

  /** An index of count above one whose key is not selected lies outside the first eight sorted indices. */
  lemma OutsideTop(order: seq<nat>, keys: seq<string>, counts: seq<nat>, q: nat)
    requires |keys| == |counts| && SortedIndices(counts, order)
    requires q < |order| && counts[order[q]] > 1
    requires keys[order[q]] !in Select(Take(order, MAX_KEY_PHRASES), keys, counts)
    ensures q >= |Take(order, MAX_KEY_PHRASES)|
  {
    var top := Take(order, MAX_KEY_PHRASES);
    SelectComplete(top, keys, counts);
    assert forall a :: 0 <= a < |top| ==> top[a] == order[a];
  }

  /** An index of count above one that the first eight sorted indices leave out comes after all eight, each counted more than once. */
  lemma BehindTop(counts: seq<nat>, order: seq<nat>, q: nat)
    requires SortedIndices(counts, order)
    requires |Take(order, MAX_KEY_PHRASES)| <= q < |order| && counts[order[q]] > 1
    ensures var top := Take(order, MAX_KEY_PHRASES);
            && |top| == MAX_KEY_PHRASES
            && forall a :: 0 <= a < |top| ==>
                 top[a] < |counts| && counts[top[a]] > 1 && Before(counts, top[a], order[q])
  {
    var top := Take(order, MAX_KEY_PHRASES);
    forall a | 0 <= a < |top| ensures top[a] < |counts| && counts[top[a]] > 1 && Before(counts, top[a], order[q]) {
      assert top[a] == order[a];
      assert Before(counts, order[a], order[q]);
    }
  }

  /** The pieces of `FrequentTerms` put together give terms with the promised properties. */
  lemma FrequentTermsCorrect(text: string, keys: seq<string>, counts: seq<nat>, order: seq<nat>)
    requires Counted(Long(CapitalizedWords(text)), keys, counts)
    requires |order| == |counts| && SortedIndices(counts, order)
    requires forall x :: 0 <= x < |counts| ==> x in order
    ensures IsFrequentTerms(text, Select(Take(order, MAX_KEY_PHRASES), keys, counts))
  {
    var words := Long(CapitalizedWords(text));
    var top := Take(order, MAX_KEY_PHRASES);
    var terms := Select(top, keys, counts);
    assert forall a :: 0 <= a < |top| ==> top[a] == order[a];
    SelectSound(top, keys, counts);
    TermsRepeated(words, keys, counts, top);
    TermsOrdered(words, keys, counts, top);
    TermsComplete(words, keys, counts, order);
    forall k | 0 <= k < |terms| ensures |terms[k]| > 3 {
      LongIsLong(CapitalizedWords(text), terms[k]);
    }
  }

  /** The set of elements of `s`. */
  function Elems(s: seq<string>): (r: set<string>)
    ensures forall x :: x in r <==> x in s
  {
    set x | x in s
  }

  /** A list has at most as many different elements as entries, and exactly as many when they differ. */
  lemma {:induction false} ElemsCard(s: seq<string>)
    ensures |Elems(s)| <= |s|
    ensures (forall a, b :: 0 <= a < b < |s| ==> s[a] != s[b]) ==> |Elems(s)| == |s|
    decreases |s|
  {
    if s != [] {
      var init, last := s[..|s| - 1], s[|s| - 1];
      assert s == init + [last];
      ElemsCard(init);
      assert Elems(s) == Elems(init) + {last};
      if forall a, b :: 0 <= a < b < |s| ==> s[a] != s[b] {
        assert last !in Elems(init);
      }
    }
  }

  /** A list of different words inside a list no longer than it holds every word of that list. */
  lemma FullInside(small: seq<string>, big: seq<string>)
    requires forall a, b :: 0 <= a < b < |small| ==> small[a] != small[b]
    requires |big| <= |small|
    requires forall v :: v in small ==> v in big
    ensures forall u :: u in big ==> u in small
  {
    var A, B := Elems(small), Elems(big);
    ElemsCard(small);
    ElemsCard(big);
    assert A <= B;
    assert B == A + (B - A) && A * (B - A) == {};
    assert |B| == |A| + |B - A|;
    assert B - A == {};
  }

  /** Two top-ranked lists of the same words hold the same words. */
  lemma TopRankedMembers(words: seq<string>, t1: seq<string>, t2: seq<string>)
    requires TopRanked(words, t1) && TopRanked(words, t2)
    ensures forall u :: u in t1 ==> u in t2
  {
    if v :| v in t2 && v !in t1 {
      // `t1` is full and ranks everything before `v`, which `t2` ranks before whatever it leaves out.
      forall u | u in t1 ensures u in t2 {
        var k :| 0 <= k < |t1| && t1[k] == u;
        assert Ranks(words, u, v);
      }
    } else if |t2| == MAX_KEY_PHRASES {
      FullInside(t2, t1);
    }
  }

  /** Two lists in strict rank order with the same words are equal. */
  lemma {:induction false} RankedUnique(words: seq<string>, t1: seq<string>, t2: seq<string>)
    requires forall a, b :: 0 <= a < b < |t1| ==> t1[a] != t1[b] && Ranks(words, t1[a], t1[b])
    requires forall a, b :: 0 <= a < b < |t2| ==> t2[a] != t2[b] && Ranks(words, t2[a], t2[b])
    requires forall u :: u in t1 <==> u in t2
    ensures t1 == t2
    decreases |t1|
  {
    assert t1 != [] ==> t1[0] in t2;
    assert t2 != [] ==> t2[0] in t1;
    if t1 != [] && t2 != [] {
      var i :| 0 <= i < |t1| && t1[i] == t2[0];
      var j :| 0 <= j < |t2| && t2[j] == t1[0];
      assert i > 0 ==> Ranks(words, t1[0], t2[0]);
      assert j > 0 ==> Ranks(words, t2[0], t1[0]);
      assert t1[0] == t2[0];
      forall u ensures u in t1[1..] <==> u in t2[1..] {
        assert u in t1[1..] <==> u in t1 && u != t1[0];
        assert u in t2[1..] <==> u in t2 && u != t2[0];
      }
      RankedUnique(words, t1[1..], t2[1..]);
      assert t1 == [t1[0]] + t1[1..] && t2 == [t2[0]] + t2[1..];
    }
  }

  /** `_extract_noun_phrases_fallback` has exactly one possible result: the frequent terms are determined by the text. */
  lemma FrequentTermsUnique(text: string, t1: seq<string>, t2: seq<string>)
    requires IsFrequentTerms(text, t1) && IsFrequentTerms(text, t2)
    ensures t1 == t2
  {
    var words := Long(CapitalizedWords(text));
    TopRankedMembers(words, t1, t2);
    TopRankedMembers(words, t2, t1);
    RankedUnique(words, t1, t2);
  }

  /** Every word of `Long(words)` has more than three characters. */
  lemma {:induction false} LongIsLong(words: seq<string>, w: string)
    requires w in Long(words)
    ensures |w| > 3
    decreases |words|
  {
    var init := words[..|words| - 1];
    if w in Long(init) {
      LongIsLong(init, w);
    }
  }

  // ---------------------------------------------------------------------------
  // _extract_key_phrases
  // ---------------------------------------------------------------------------

  /**
   * `_extract_key_phrases`: for English, the filtered ranked phrases (`None`
   * when the ranker raised, which yields the single "unavailable" entry); for
   * any other language, the frequency fallback.
   */
  method ExtractKeyPhrases(text: string, language: string, ranked: Option<seq<string>>, title: string -> string)
    returns (phrases: seq<string>)
    ensures language == "en" && ranked.None? ==> phrases == [KEY_PHRASES_UNAVAILABLE]
    ensures language == "en" && ranked.Some? ==>
              phrases == Take(KeptPhrases(Take(ranked.value, MAX_RANKED), title), MAX_KEY_PHRASES)
    ensures language != "en" ==> IsFrequentTerms(text, phrases)
  {
    if language == "en" {
      if ranked.None? {
        return [KEY_PHRASES_UNAVAILABLE];
      }
      phrases := FilterKeyPhrases(ranked.value, title);
    } else {
      phrases := FrequentTerms(text);
    }
  }
}
