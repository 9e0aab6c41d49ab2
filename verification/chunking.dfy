/**
 * Splitting a paper into summarisation chunks (`_chunk_text` in
 * app/services/summarizer.py) and the sentence fallback `_summarize_chunk`
 * returns when the model fails on a chunk.
 *
 * Sentences are packed greedily: a sentence joins the current chunk unless the
 * chunk is non-empty and the estimated token count (characters / 4) of the
 * chunk, a space and the sentence would exceed `CHUNK_SIZE`.
 */
module Chunking {
  import opened Wrappers
  import opened Config
  import opened TextOps

  // ---------------------------------------------------------------------------
  // Specification of the packing
  // ---------------------------------------------------------------------------

  /** `current_chunk += " " + sentence if current_chunk else sentence`. */
  function Extend(current: string, sentence: string): string {
    if current != "" then current + " " + sentence else sentence
  }

  /** The `current_chunk` text the loop builds from a group of sentences. */
  function Accumulate(group: seq<string>): string
    decreases |group|
  {
    if group == [] then "" else Extend(Accumulate(group[..|group| - 1]), group[|group| - 1])
  }

  /** The loop's test for closing the current chunk before `sentence`. */
  predicate Overflows(current: string, sentence: string) {
    |current + " " + sentence| / 4 > CHUNK_SIZE && current != ""
  }

  /** The sentence groups of the chunks closed so far, and the group still open. */
  datatype Packing = Packing(closed: seq<seq<string>>, open: seq<string>)

  /** One turn of the loop: close the open group before `s` when `s` overflows it, else add `s` to it. */
  function Step(p: Packing, s: string): Packing {
    if Overflows(Accumulate(p.open), s) then Packing(p.closed + [p.open], [s])
    else Packing(p.closed, p.open + [s])
  }

  /** The grouping after the loop has seen `sentences`. */
  function Pack(sentences: seq<string>): Packing
    decreases |sentences|
  {
    if sentences == [] then Packing([], [])
    else Step(Pack(sentences[..|sentences| - 1]), sentences[|sentences| - 1])
  }

  /** The stripped text of each group. */
  function StripAll(groups: seq<seq<string>>): (r: seq<string>)
    ensures |r| == |groups|
    decreases |groups|
  {
    if groups == [] then []
    else StripAll(groups[..|groups| - 1]) + [Strip(Accumulate(groups[|groups| - 1]))]
  }

  /** The `k`-th chunk of `StripAll` is the stripped text of the `k`-th group. */
  lemma {:induction false} StripAllAt(groups: seq<seq<string>>, k: nat)
    requires k < |groups|
    ensures StripAll(groups)[k] == Strip(Accumulate(groups[k]))
    decreases |groups|
  {
    var init := groups[..|groups| - 1];
    var x := Strip(Accumulate(groups[|groups| - 1]));
    if k < |init| {
      assert StripAll(groups)[k] == StripAll(init)[k] by {
        assert StripAll(groups) == StripAll(init) + [x];
      }
      StripAllAt(init, k);
      assert groups[k] == init[k];
    } else {
      assert StripAll(groups)[k] == x by {
        assert StripAll(groups) == StripAll(init) + [x];
      }
    }
  }

  /** The chunks `_chunk_text` returns for `sentences`: the closed groups, then the open one unless blank. */
  function Chunks(sentences: seq<string>): seq<string> {
    var p := Pack(sentences);
    var last := Strip(Accumulate(p.open));
    StripAll(p.closed) + (if last != "" then [last] else [])
  }

  /** Every group of the packing, the open one included. */
  function Groups(sentences: seq<string>): seq<seq<string>> {
    if sentences == [] then [] else Pack(sentences).closed + [Pack(sentences).open]
  }

  /** All the groups one after the other. */
  function Concat(groups: seq<seq<string>>): seq<string>
    decreases |groups|
  {
    if groups == [] then [] else Concat(groups[..|groups| - 1]) + groups[|groups| - 1]
  }

  // ---------------------------------------------------------------------------
  // _chunk_text
  // ---------------------------------------------------------------------------

  /**
   * The packing loop of `_chunk_text`, given the sentences the tokenizer (or
   * the fallback splitter) produced.
   */
  method ChunkText(sentences: seq<string>) returns (chunks: seq<string>)
    ensures chunks == Chunks(sentences)
  {
    chunks := [];
    var current := "";
    for i := 0 to |sentences|
      invariant chunks == StripAll(Pack(sentences[..i]).closed)
      invariant current == Accumulate(Pack(sentences[..i]).open)
    {
      var sentence := sentences[i];
      assert sentences[..i + 1][..i] == sentences[..i];
      var estimatedTokens := |current + " " + sentence| / 4;
      if estimatedTokens > CHUNK_SIZE && current != "" {
        StripAllSnoc(Pack(sentences[..i]).closed, Pack(sentences[..i]).open);
        chunks := chunks + [Strip(current)];
        current := sentence;
        assert Accumulate([sentence]) == Extend(Accumulate([]), sentence);
      } else {
        current := if current != "" then current + " " + sentence else sentence;
        assert (Pack(sentences[..i]).open + [sentence])[..|Pack(sentences[..i]).open|] == Pack(sentences[..i]).open;
      }
    }
    assert sentences[..|sentences|] == sentences;
    if Strip(current) != "" {
      chunks := chunks + [Strip(current)];
    }
  }

  lemma StripAllSnoc(groups: seq<seq<string>>, g: seq<string>)
    ensures StripAll(groups + [g]) == StripAll(groups) + [Strip(Accumulate(g))]
  {
    assert (groups + [g])[..|groups|] == groups;
  }

  /** `_chunk_text` with its sentence source: the tokenizer's sentences, or the fallback splitter's when it raised. */
  method ChunkTextOf(text: string, tokenized: Option<seq<string>>) returns (chunks: seq<string>)
    ensures tokenized.Some? ==> chunks == Chunks(tokenized.value)
    ensures tokenized.None? ==> chunks == Chunks(Sentences(text))
  {
    var sentences := if tokenized.Some? then tokenized.value else Sentences(text);
    chunks := ChunkText(sentences);
  }

  // ---------------------------------------------------------------------------
  // What the packing promises
  // ---------------------------------------------------------------------------

  /** No sentences, no chunks. */
  lemma ChunksOfNothing()
    ensures Chunks([]) == []
  {
    assert Accumulate([]) == "";
  }

  /** A step keeps closed groups non-empty and leaves a non-empty open group. */
  lemma StepNonEmpty(p: Packing, s: string)
    requires forall k :: 0 <= k < |p.closed| ==> p.closed[k] != []
    ensures forall k :: 0 <= k < |Step(p, s).closed| ==> Step(p, s).closed[k] != []
    ensures Step(p, s).open != []
  {
    if Overflows(Accumulate(p.open), s) {
      assert p.open != [];
    }
  }

  /** A step appends `s` to the sentences the groups hold. */
  lemma StepPartition(p: Packing, s: string)
    ensures Concat(Step(p, s).closed) + Step(p, s).open == Concat(p.closed) + p.open + [s]
  {
    if Overflows(Accumulate(p.open), s) {
      var c := p.closed + [p.open];
      assert c[..|c| - 1] == p.closed;
    }
  }

  /** No closed group is empty, and the open group is empty only before the first sentence. */
  lemma {:induction false} PackNonEmpty(sentences: seq<string>)
    ensures forall k :: 0 <= k < |Pack(sentences).closed| ==> Pack(sentences).closed[k] != []
    ensures Pack(sentences).open == [] <==> sentences == []
    decreases |sentences|
  {
    if sentences != [] {
      var init := sentences[..|sentences| - 1];
      PackNonEmpty(init);
      StepNonEmpty(Pack(init), sentences[|sentences| - 1]);
    }
  }

  /** The groups hold every sentence once, in order, and no group is empty. */
  lemma {:induction false} PackPartition(sentences: seq<string>)
    ensures Concat(Pack(sentences).closed) + Pack(sentences).open == sentences
    ensures forall k :: 0 <= k < |Pack(sentences).closed| ==> Pack(sentences).closed[k] != []
    ensures Pack(sentences).open == [] <==> sentences == []
    decreases |sentences|
  {
    PackNonEmpty(sentences);
    if sentences != [] {
      var init, s := sentences[..|sentences| - 1], sentences[|sentences| - 1];
      PackPartition(init);
      StepPartition(Pack(init), s);
      assert sentences == init + [s];
    }
  }

  /** The groups as a list: every sentence once, in order, in non-empty groups. */
  lemma GroupsPartition(sentences: seq<string>)
    ensures Concat(Groups(sentences)) == sentences
    ensures forall k :: 0 <= k < |Groups(sentences)| ==> Groups(sentences)[k] != []
  {
    PackPartition(sentences);
    if sentences != [] {
      var p := Pack(sentences);
      assert (p.closed + [p.open])[..|p.closed|] == p.closed;
    }
  }

  /** A group of non-empty sentences builds non-empty text. */
  lemma AccumulateNonEmpty(group: seq<string>)
    requires group != [] && group[|group| - 1] != ""
    ensures Accumulate(group) != ""
  {
  }

  /**
   * With non-empty sentences, a group of two or more sentences stays within
   * the budget: its text has at most `CHUNK_SIZE` estimated tokens.
   */
  lemma {:induction false} PackFits(sentences: seq<string>)
    requires forall k :: 0 <= k < |sentences| ==> sentences[k] != ""
    ensures forall k :: 0 <= k < |Pack(sentences).closed| && |Pack(sentences).closed[k]| >= 2
              ==> |Accumulate(Pack(sentences).closed[k])| / 4 <= CHUNK_SIZE
    ensures |Pack(sentences).open| >= 2 ==> |Accumulate(Pack(sentences).open)| / 4 <= CHUNK_SIZE
    decreases |sentences|
  {
    if sentences != [] {
      var init, s := sentences[..|sentences| - 1], sentences[|sentences| - 1];
      var p := Pack(init);
      PackFits(init);
      if !Overflows(Accumulate(p.open), s) && p.open != [] {
        AccumulateNonEmpty(p.open);
        assert (p.open + [s])[..|p.open|] == p.open;
      }
    }
  }

  /** Each group after the first starts with the sentence that did not fit behind the group before it. */
  predicate OverflowChain(groups: seq<seq<string>>) {
    forall j, k :: 0 <= j < |groups| && k == j + 1 && k < |groups| ==> Follows(groups[j], groups[k])
  }

  /** `next` starts with the sentence that did not fit behind `group`. */
  predicate Follows(group: seq<string>, next: seq<string>) {
    next != [] && Overflows(Accumulate(group), next[0])
  }

  /** Each closed group, and then the open one, starts with the sentence that overflowed the group before it. */
  predicate Chained(p: Packing) {
    && OverflowChain(p.closed)
    && (p.closed != [] ==> Follows(p.closed[|p.closed| - 1], p.open))
  }

  /** Closing the open group of a chained packing keeps the chain. */
  lemma CloseChained(p: Packing)
    requires Chained(p)
    ensures OverflowChain(p.closed + [p.open])
  {
    var closed := p.closed + [p.open];
    forall j, k | 0 <= j < |closed| && k == j + 1 && k < |closed|
      ensures Follows(closed[j], closed[k])
    {
      assert closed[j] == p.closed[j];
      if k < |p.closed| {
        assert closed[k] == p.closed[k];
      } else {
        assert closed[k] == p.open;
      }
    }
    assert OverflowChain(closed);
  }

  /** A step keeps the groups chained. */
  lemma StepChained(p: Packing, s: string)
    requires Chained(p)
    ensures Chained(Step(p, s))
  {
    if Overflows(Accumulate(p.open), s) {
      CloseChained(p);
    } else if p.closed != [] {
      assert (p.open + [s])[0] == p.open[0];
    }
  }

  /** Each closed group, and then the open one, starts with the sentence that did not fit behind the group before it. */
  lemma {:induction false} PackOverflows(sentences: seq<string>)
    ensures Chained(Pack(sentences))
    decreases |sentences|
  {
    if sentences != [] {
      var init := sentences[..|sentences| - 1];
      PackOverflows(init);
      StepChained(Pack(init), sentences[|sentences| - 1]);
    }
  }

  /** Each group after the first starts with the sentence that did not fit behind the group before it. */
  lemma GroupsOverflow(sentences: seq<string>)
    ensures OverflowChain(Groups(sentences))
  {
    if sentences != [] {
      PackOverflows(sentences);
      CloseChained(Pack(sentences));
    }
  }

  /** With non-empty sentences every group of the packing meets the budget when it has two or more sentences. */
  lemma GroupsFit(sentences: seq<string>)
    requires forall k :: 0 <= k < |sentences| ==> sentences[k] != ""
    ensures forall k :: 0 <= k < |Groups(sentences)| && |Groups(sentences)[k]| >= 2
              ==> |Accumulate(Groups(sentences)[k])| / 4 <= CHUNK_SIZE
  {
    PackFits(sentences);
    if sentences != [] {
      var p := Pack(sentences);
      forall k | 0 <= k < |Groups(sentences)| && |Groups(sentences)[k]| >= 2
        ensures |Accumulate(Groups(sentences)[k])| / 4 <= CHUNK_SIZE
      {
        if k < |p.closed| {
          assert Groups(sentences)[k] == p.closed[k];
        }
      }
    }
  }

  /** The text built from non-empty sentences is the sentences joined by single spaces. */
  lemma {:induction false} AccumulateIsJoin(group: seq<string>)
    requires forall k :: 0 <= k < |group| ==> group[k] != ""
    ensures Accumulate(group) == Join(" ", group)
    decreases |group|
  {
    if |group| >= 2 {
      var init := group[..|group| - 1];
      AccumulateIsJoin(init);
      JoinSnoc(" ", init, group[|group| - 1]);
      assert init + [group[|group| - 1]] == group;
    } else if |group| == 1 {
      assert group[..0] == [];
    }
  }

  /** Sentences with no whitespace at either end, joined by single spaces, need no stripping. */
  lemma {:induction false} JoinTrimmed(group: seq<string>)
    requires forall k :: 0 <= k < |group| ==> group[k] != "" && Trimmed(group[k])
    ensures Trimmed(Join(" ", group))
    ensures group != [] ==> Join(" ", group) != ""
    decreases |group|
  {
    if |group| >= 2 {
      JoinTrimmed(group[1..]);
      var rest := Join(" ", group[1..]);
      assert Join(" ", group) == group[0] + " " + rest;
    }
  }

  /** The chunk made of a group of stripped, non-empty sentences is the sentences joined by single spaces. */
  lemma ChunkOfGroup(group: seq<string>)
    requires group != [] && StrippedSentences(group)
    ensures Strip(Accumulate(group)) == Join(" ", group)
    ensures Join(" ", group) != ""
  {
    AccumulateIsJoin(group);
    JoinTrimmed(group);
    StripTrimmed(Join(" ", group));
  }

  /** The text of each group joined by single spaces. */
  function JoinAll(groups: seq<seq<string>>): (r: seq<string>)
    ensures |r| == |groups|
    ensures forall k :: 0 <= k < |r| ==> r[k] == Join(" ", groups[k])
  {
    seq(|groups|, k requires 0 <= k < |groups| => Join(" ", groups[k]))
  }

  /** Sentences with no whitespace at either end and something in between. */
  predicate StrippedSentences(xs: seq<string>) {
    forall k :: 0 <= k < |xs| ==> xs[k] != "" && Trimmed(xs[k])
  }

  /** The groups of stripped sentences hold stripped sentences. */
  lemma {:induction false} ConcatStripped(groups: seq<seq<string>>)
    requires StrippedSentences(Concat(groups))
    ensures forall k :: 0 <= k < |groups| ==> StrippedSentences(groups[k])
    decreases |groups|
  {
    if groups != [] {
      var init, last := groups[..|groups| - 1], groups[|groups| - 1];
      var a := Concat(init);
      forall j | 0 <= j < |a| ensures a[j] != "" && Trimmed(a[j]) {
        assert a[j] == (a + last)[j];
      }
      forall j | 0 <= j < |last| ensures last[j] != "" && Trimmed(last[j]) {
        assert last[j] == (a + last)[|a| + j];
      }
      ConcatStripped(init);
      forall k | 0 <= k < |groups| ensures StrippedSentences(groups[k]) {
        if k < |init| {
          assert groups[k] == init[k];
        }
      }
    }
  }

  /** Stripping the text of groups of stripped sentences gives each group joined by single spaces. */
  lemma StripAllJoined(groups: seq<seq<string>>)
    requires forall k :: 0 <= k < |groups| ==> groups[k] != [] && StrippedSentences(groups[k])
    ensures StripAll(groups) == JoinAll(groups)
  {
    forall k | 0 <= k < |groups| ensures StripAll(groups)[k] == JoinAll(groups)[k] {
      StripAllAt(groups, k);
      ChunkOfGroup(groups[k]);
    }
  }

  /**
   * For stripped, non-empty sentences (as the fallback splitter produces), the
   * chunks are exactly the groups, each joined by single spaces.
   */
  lemma ChunksAreJoinedGroups(sentences: seq<string>)
    requires StrippedSentences(sentences)
    ensures Chunks(sentences) == JoinAll(Groups(sentences))
  {
    if sentences == [] {
      ChunksOfNothing();
    } else {
      var p, g := Pack(sentences), Groups(sentences);
      GroupsPartition(sentences);
      ConcatStripped(g);
      ChunkOfGroup(p.open);
      StripAllSnoc(p.closed, p.open);
      StripAllJoined(g);
    }
  }

  /**
   * The fallback sentence splitter feeds the packing stripped, non-empty
   * sentences, so its chunks are those sentences, grouped in order, each group
   * joined by single spaces.
   */
  lemma FallbackChunks(text: string)
    ensures Concat(Groups(Sentences(text))) == Sentences(text)
    ensures Chunks(Sentences(text)) == JoinAll(Groups(Sentences(text)))
  {
    SentencesAreSentences(text);
    GroupsPartition(Sentences(text));
    ChunksAreJoinedGroups(Sentences(text));
  }

  // ---------------------------------------------------------------------------
  // _summarize_chunk
  // ---------------------------------------------------------------------------

  /** Where the first `". "` of `s` starts, or `|s|` when there is none. */
  function SepIndex(s: string): (i: nat)
    ensures i <= |s|
    ensures i < |s| ==> i + 1 < |s| && s[i] == '.' && s[i + 1] == ' '
    decreases |s|
  {
    if |s| < 2 then |s|
    else if s[0] == '.' && s[1] == ' ' then 0
    else 1 + SepIndex(s[1..])
  }

  /** No `". "` starts before `SepIndex(s)`. */
  lemma {:induction false} SepIndexIsFirst(s: string, j: nat)
    requires j < SepIndex(s) && j + 1 < |s|
    ensures !(s[j] == '.' && s[j + 1] == ' ')
    decreases |s|
  {
    if j > 0 {
      SepIndexIsFirst(s[1..], j - 1);
    }
  }

  /** Python's `s.split('. ')`. */
  function SplitDot(s: string): (parts: seq<string>)
    ensures |parts| >= 1
    decreases |s|
  {
    var i := SepIndex(s);
    if i == |s| then [s] else [s[..i]] + SplitDot(s[i + 2..])
  }

  /** The text around a `". "` at position `i`. */
  lemma SplitAround(s: string, i: nat)
    requires i + 1 < |s| && s[i] == '.' && s[i + 1] == ' '
    ensures s == s[..i] + ". " + s[i + 2..]
  {
    assert s[i..i + 2] == ". ";
    assert s == s[..i] + s[i..i + 2] + s[i + 2..];
  }

  /** Joining three or more parts: the first two joined, the separator, then the rest joined. */
  lemma JoinFirstTwo(sep: string, xs: seq<string>)
    requires |xs| >= 3
    ensures Join(sep, xs) == Join(sep, xs[..2]) + sep + Join(sep, xs[2..])
  {
    assert xs == [xs[0]] + ([xs[1]] + xs[2..]);
    assert xs[..2] == [xs[0]] + [xs[1]];
    JoinCons(sep, xs[1], xs[2..]);
    JoinCons(sep, xs[0], [xs[1]] + xs[2..]);
    JoinCons(sep, xs[0], [xs[1]]);
  }

  /** Joining the parts back with `". "` gives the text that was split. */
  lemma {:induction false} JoinSplitDot(s: string)
    ensures Join(". ", SplitDot(s)) == s
    decreases |s|
  {
    var i := SepIndex(s);
    if i < |s| {
      var rest := s[i + 2..];
      JoinSplitDot(rest);
      JoinCons(". ", s[..i], SplitDot(rest));
      SplitAround(s, i);
    }
  }

  /** The text before the first `". "` holds no `". "` of its own. */
  lemma {:induction false} SepIndexPrefix(s: string)
    ensures SepIndex(s[..SepIndex(s)]) == SepIndex(s)
    decreases |s|
  {
    var i := SepIndex(s);
    if |s| >= 2 && !(s[0] == '.' && s[1] == ' ') {
      SepIndexPrefix(s[1..]);
      assert s[..i][1..] == s[1..][..i - 1];
    } else if |s| >= 2 {
      assert s[..i] == [];
    } else {
      assert s[..i] == s;
    }
  }

  /** No part holds the separator. */
  lemma {:induction false} SplitDotParts(s: string)
    ensures forall k :: 0 <= k < |SplitDot(s)| ==> SepIndex(SplitDot(s)[k]) == |SplitDot(s)[k]|
    decreases |s|
  {
    var i := SepIndex(s);
    if i < |s| {
      SplitDotParts(s[i + 2..]);
      SepIndexPrefix(s);
    } else {
      assert SplitDot(s) == [s];
    }
  }

  /** The fallback of `_summarize_chunk`: `'. '.join(chunk.split('. ')[:2]) + '.'`. */
  function ChunkFallback(chunk: string): string {
    Join(". ", Take(SplitDot(chunk), 2)) + "."
  }

  /**
   * The fallback keeps the chunk up to its second `". "` separator (all of it
   * when there are fewer than two) and adds a final full stop.
   */
  lemma ChunkFallbackIsPrefix(chunk: string) returns (n: nat)
    ensures n <= |chunk| && ChunkFallback(chunk) == chunk[..n] + "."
    ensures n == |chunk| <==> |SplitDot(chunk)| <= 2
  {
    if |SplitDot(chunk)| <= 2 {
      FallbackWhole(chunk);
      n := |chunk|;
      assert chunk[..n] == chunk;
    } else {
      n := FallbackCut(chunk);
    }
  }

  /** With at most two parts the fallback is the whole chunk and a full stop. */
  lemma FallbackWhole(chunk: string)
    requires |SplitDot(chunk)| <= 2
    ensures ChunkFallback(chunk) == chunk + "."
  {
    JoinSplitDot(chunk);
    assert Take(SplitDot(chunk), 2) == SplitDot(chunk);
  }

  /** With three parts or more the fallback is a proper prefix of the chunk and a full stop. */
  lemma FallbackCut(chunk: string) returns (n: nat)
    requires |SplitDot(chunk)| > 2
    ensures n < |chunk| && ChunkFallback(chunk) == chunk[..n] + "."
  {
    JoinSplitDot(chunk);
    n := JoinTwoPrefix(SplitDot(chunk));
  }

  /** The first two of three or more parts, joined, are a proper prefix of all of them joined. */
  lemma JoinTwoPrefix(parts: seq<string>) returns (n: nat)
    requires |parts| > 2
    ensures n < |Join(". ", parts)| && Join(". ", Take(parts, 2)) == Join(". ", parts)[..n]
  {
    JoinFirstTwo(". ", parts);
    var kept, more := Join(". ", parts[..2]), Join(". ", parts[2..]);
    assert Take(parts, 2) == parts[..2];
    var whole := Join(". ", parts);
    assert whole == kept + (". " + more);
    n := |kept|;
    assert whole[..n] == kept;
  }

  /** What `_summarize_chunk` asks of the model: `(min_length, max_length)` for a style. */
  function SummaryLengths(style: string): (r: (nat, nat))
    ensures r.0 < r.1
    ensures style == "executive" ==> r == (30, 100)
    ensures style != "executive" ==> r == (50, 200)
  {
    if style == "executive" then (30, 100) else (50, 200)
  }

  /**
   * `_summarize_chunk`: the model, called with the style's length bounds,
   * gives the summary; when it fails (`None`) the first two `". "`-separated
   * parts of the chunk stand in.
   */
  function SummarizeChunk(chunk: string, style: string, model: (string, nat, nat) -> Option<string>): (r: string)
    ensures model(chunk, SummaryLengths(style).0, SummaryLengths(style).1).Some? ==>
              r == model(chunk, SummaryLengths(style).0, SummaryLengths(style).1).value
    ensures model(chunk, SummaryLengths(style).0, SummaryLengths(style).1).None? ==>
              r == ChunkFallback(chunk)
  {
    var (minLength, maxLength) := SummaryLengths(style);
    match model(chunk, minLength, maxLength)
    case Some(summary) => summary
    case None => ChunkFallback(chunk)
  }
}
