/**
 * The summarization pipeline of `TextSummarizer` (app/services/summarizer.py):
 * look up the language's summarizer, chunk the text, summarize every chunk,
 * and structure the combined summary into TL;DR, key points, methods, results
 * and limitations.
 *
 * What the libraries compute is given as parameters: `run` applies a loaded
 * pipeline to a chunk with the requested length bounds (`None` when it
 * raises), `tokenized` is the sentence tokenizer's output (`None` when it
 * raises), `ranked` the keyword ranker's phrases (`None` when it raises), and
 * `title` is `str.title`.
 */
module Summarizer {
  import opened Wrappers
  import opened TextOps
  import opened Chunking
  import opened Sections
  import opened KeyPhrases
  import opened ModelRegistry

  datatype SummaryResult = SummaryResult(
    tlDr: string,
    keyPoints: seq<string>,
    methods: string,
    results: string,
    limitations: seq<string>)

  /** `summarize` raises when the language has no summarizer. */
  datatype SummarizeError = NoSummarizer(language: string)

  /** The chunks `_chunk_text` makes of `text`. */
  function ChunksOf(text: string, tokenized: Option<seq<string>>): seq<string> {
    Chunks(if tokenized.Some? then tokenized.value else Sentences(text))
  }

  /** The pipeline as the model `_summarize_chunk` calls. */
  function Bound(pipeline: Pipeline, run: (Pipeline, string, nat, nat) -> Option<string>): (string, nat, nat) -> Option<string> {
    (chunk: string, minLength: nat, maxLength: nat) => run(pipeline, chunk, minLength, maxLength)
  }

  /** The summary of every chunk, in order, by the given pipeline. */
  function ChunkSummaries(chunks: seq<string>, style: string, pipeline: Pipeline,
                          run: (Pipeline, string, nat, nat) -> Option<string>): seq<string>
  {
    seq(|chunks|, k requires 0 <= k < |chunks| =>
      SummarizeChunk(chunks[k], style, Bound(pipeline, run)))
  }

  /** Summarizing one more chunk appends its summary. */
  lemma ChunkSummariesSnoc(chunks: seq<string>, i: nat, style: string, pipeline: Pipeline,
                           run: (Pipeline, string, nat, nat) -> Option<string>)
    requires i < |chunks|
    ensures ChunkSummaries(chunks[..i + 1], style, pipeline, run)
            == ChunkSummaries(chunks[..i], style, pipeline, run) + [SummarizeChunk(chunks[i], style, Bound(pipeline, run))]
  {
  }

  /** The key points `_extract_key_phrases` gives for the text (at most 8, so `[:8]` keeps them all). */
  predicate KeyPointsOf(text: string, language: string, ranked: Option<seq<string>>, title: string -> string,
                        keyPoints: seq<string>)
  {
    if language != "en" then IsFrequentTerms(text, keyPoints)
    else if ranked.None? then keyPoints == [KEY_PHRASES_UNAVAILABLE]
    else keyPoints == Take(KeptPhrases(Take(ranked.value, MAX_RANKED), title), MAX_KEY_PHRASES)
  }

  /** `key_phrases[:8]` keeps every key phrase: there are never more than 8. */
  lemma KeyPointsWhole(text: string, language: string, ranked: Option<seq<string>>, title: string -> string,
                       phrases: seq<string>)
    requires language == "en" && ranked.None? ==> phrases == [KEY_PHRASES_UNAVAILABLE]
    requires language == "en" && ranked.Some? ==>
               phrases == Take(KeptPhrases(Take(ranked.value, MAX_RANKED), title), MAX_KEY_PHRASES)
    requires language != "en" ==> IsFrequentTerms(text, phrases)
    ensures KeyPointsOf(text, language, ranked, title, Take(phrases, MAX_KEY_PHRASES))
  {
    assert |phrases| <= MAX_KEY_PHRASES;
    assert phrases[..|phrases|] == phrases;
  }

  /** What `_structure_summary` builds from the original text and the combined chunk summaries. */
  predicate StructuredFrom(original: string, combined: string, language: string, ranked: Option<seq<string>>,
                           title: string -> string, r: SummaryResult)
  {
    && r.tlDr == GenerateTldr(combined)
    && KeyPointsOf(original, language, ranked, title, r.keyPoints)
    && r.methods == Section(combined, original, METHOD_KEYWORDS, METHODS_FALLBACK)
    && r.results == Section(combined, original, RESULT_KEYWORDS, RESULTS_FALLBACK)
    && r.limitations == Limitations(combined, original)
  }

  /**
   * `_structure_summary`: join the chunk summaries with spaces; the TL;DR and
   * the sections come from that combined summary (sections falling back to
   * the original text), the key points from the original text.
   */
  method StructureSummary(original: string, chunkSummaries: seq<string>, language: string,
                          ranked: Option<seq<string>>, title: string -> string)
    returns (r: SummaryResult)
    ensures StructuredFrom(original, Join(" ", chunkSummaries), language, ranked, title, r)
  {
    var combined := Join(" ", chunkSummaries);
    var keyPhrases := ExtractKeyPhrases(original, language, ranked, title);
    var tlDr := GenerateTldr(combined);
    var methods := ExtractMethods(original, combined);
    var results := ExtractResults(original, combined);
    var limitations := ExtractLimitations(original, combined);
    KeyPointsWhole(original, language, ranked, title, keyPhrases);
    r := SummaryResult(tlDr, Take(keyPhrases, MAX_KEY_PHRASES), methods, results, limitations);
  }

  /**
   * `summarize`: fail when the manager has no summarizer for the language;
   * otherwise summarize the chunks one by one and structure the result.
   * `max_tokens` is accepted and not used.
   */
  method Summarize(manager: ModelManager, text: string, style: string, language: string, maxTokens: int,
                   run: (Pipeline, string, nat, nat) -> Option<string>, tokenized: Option<seq<string>>,
                   ranked: Option<seq<string>>, title: string -> string)
    returns (r: Result<SummaryResult, SummarizeError>)
    ensures manager.GetSummarizer(language).None? ==> r == Failure(NoSummarizer(language))
    ensures manager.GetSummarizer(language).Some? ==>
              && r.Success?
              && StructuredFrom(text,
                   Join(" ", ChunkSummaries(ChunksOf(text, tokenized), style, manager.GetSummarizer(language).value, run)),
                   language, ranked, title, r.value)
  {
    var summarizer := manager.GetSummarizer(language);
    if summarizer.None? {
      return Failure(NoSummarizer(language));
    }
    var pipeline := summarizer.value;
    var chunks := ChunkTextOf(text, tokenized);
    assert chunks == ChunksOf(text, tokenized);
    var chunkSummaries: seq<string> := [];
    for i := 0 to |chunks|
      invariant chunkSummaries == ChunkSummaries(chunks[..i], style, pipeline, run)
    {
      var chunkSummary := SummarizeChunk(chunks[i], style, Bound(pipeline, run));
      ChunkSummariesSnoc(chunks, i, style, pipeline, run);
      chunkSummaries := chunkSummaries + [chunkSummary];
    }
    assert chunks[..|chunks|] == chunks;
    var structured := StructureSummary(text, chunkSummaries, language, ranked, title);
    return Success(structured);
  }

  /**
   * Every chunk summary is the pipeline's output for that chunk or, when the
   * pipeline raised, a prefix of the chunk ending in a full stop.
   */
  lemma ChunkSummariesShape(chunks: seq<string>, style: string, pipeline: Pipeline,
                            run: (Pipeline, string, nat, nat) -> Option<string>)
    ensures var summaries := ChunkSummaries(chunks, style, pipeline, run);
            && |summaries| == |chunks|
            && forall k :: 0 <= k < |chunks| ==>
                 var (minLength, maxLength) := SummaryLengths(style);
                 || run(pipeline, chunks[k], minLength, maxLength) == Some(summaries[k])
                 || (run(pipeline, chunks[k], minLength, maxLength).None?
                     && exists n :: 0 <= n <= |chunks[k]| && summaries[k] == chunks[k][..n] + ".")
  {
    var summaries := ChunkSummaries(chunks, style, pipeline, run);
    forall k | 0 <= k < |chunks|
      ensures var (minLength, maxLength) := SummaryLengths(style);
              || run(pipeline, chunks[k], minLength, maxLength) == Some(summaries[k])
              || (run(pipeline, chunks[k], minLength, maxLength).None?
                  && exists n :: 0 <= n <= |chunks[k]| && summaries[k] == chunks[k][..n] + ".")
    {
      var n := ChunkFallbackIsPrefix(chunks[k]);
    }
  }

  /**
   * The structured summary: at most 8 key points; one to five limitations; a
   * summary of at most 60 words is its own TL;DR.
   */
  lemma StructuredShape(original: string, combined: string, language: string, ranked: Option<seq<string>>,
                        title: string -> string, r: SummaryResult)
    requires StructuredFrom(original, combined, language, ranked, title, r)
    ensures |r.keyPoints| <= MAX_KEY_PHRASES
    ensures 1 <= |r.limitations| <= MAX_LIMITATIONS
    ensures WordCount(combined) <= 60 ==> r.tlDr == combined
  {
    KeyPointsBound(original, language, ranked, title, r.keyPoints);
    assert 1 <= |r.limitations| <= MAX_LIMITATIONS by {
      LimitationsShape(combined, original);
    }
  }

  /** There are never more than eight key points. */
  lemma KeyPointsBound(text: string, language: string, ranked: Option<seq<string>>, title: string -> string,
                       keyPoints: seq<string>)
    requires KeyPointsOf(text, language, ranked, title, keyPoints)
    ensures |keyPoints| <= MAX_KEY_PHRASES
  {
    if language == "en" && ranked.Some? {
      var kept := KeptPhrases(Take(ranked.value, MAX_RANKED), title);
      assert |Take(kept, MAX_KEY_PHRASES)| <= MAX_KEY_PHRASES;
    }
  }
}
