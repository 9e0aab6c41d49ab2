# ScholarLens NLP service: a Dafny model of its text core

This project models the text-processing core of the ScholarLens NLP service.
Its four parts:

- **Extraction.** Turn a PDF URL into clean text. A malformed URL, a failed download, a PDF over 50 MB, unreadable content and text that is too short are all errors. Text over 1,000,000 characters is truncated.
- **Summarization.** Split the text into chunks of about 1500 estimated tokens, summarize each chunk with a transformer pipeline (or a two-sentence fallback), and structure the combined summary into a TL;DR, key points, a methods paragraph, a results paragraph and a list of limitations.
- **The model manager.** Holds the loaded summarization pipelines per language.
- **Request validation.** Checks a summarization request and fills in its defaults.

Every operation keeps the source's form:

- Pure computations are functions.
- The loops of the source are methods with loop invariants, each proved equal to a specification function.
- The model manager is a class whose methods update its fields.

The properties the service relies on are proved as lemmas about those functions:

- The clean-text normal form.
- The greedy chunk packing.
- The sentence round trip of the TL;DR and the sections.
- The ordering, completeness and uniqueness of the frequent-term fallback: its result is the one list the stable sort determines.
- The field-by-field validation.

Modules:

- `Wrappers`: `Option`, `Result`, `Outcome`.
- `Config`: the constants of `app/core/config.py`.
- `TextOps`: the Python string operations the core uses: `str.strip`, `str.split()`, `str.split(c)`, `" ".join`, `re.sub(r'\s+', ' ', …)`, `re.split(r'[.!?]+', …)`, `str.lower`, substring tests and slicing. Each is written out on `seq<char>` with its own lemmas.
- `TextExtractor`: `_clean_text` and the checks of `extract_from_url` and `_download_pdf`.
- `Chunking`: `_chunk_text` and `_summarize_chunk`.
- `Sections`: `_generate_tldr`, `_extract_methods`, `_extract_results` and `_extract_limitations`.
- `KeyPhrases`: `_extract_key_phrases` and `_extract_noun_phrases_fallback`.
- `ModelRegistry`: the `ModelManager` class.
- `Summarizer`: `summarize` and `_structure_summary`.
- `Schemas`: `SummarizeRequest`.

The calls into libraries become parameters:

- the PDF text (`Option<string>`, `None` when pdfminer raises);
- the HTTP response (`None` when the request fails);
- the sentence tokenizer's output;
- the keyword ranker's ranked phrases;
- `str.title`;
- the model loader and the pipeline call.

## Model

| member | source | states |
|---|---|---|
| TextOps.StripLeftSpec | app/services/text_extractor.py:148 | the left strip drops exactly a whitespace prefix and leaves no leading whitespace |
| TextOps.StripRightSpec | app/services/text_extractor.py:148 | the right strip drops exactly a whitespace suffix and leaves no trailing whitespace |
| TextOps.Strip | app/services/text_extractor.py:148 | `str.strip` gives a trimmed string that is empty exactly when the input is all whitespace |
| TextOps.StripSlice | app/services/text_extractor.py:148 | the stripped string is a contiguous slice of the input with only whitespace on either side |
| TextOps.StripTrimmed | app/services/text_extractor.py:159 | stripping a string without outer whitespace changes nothing |
| TextOps.StripPadded | app/services/summarizer.py:221 | stripping removes leading whitespace padding from a trimmed non-empty string |
| TextOps.WordsAreWords | app/services/summarizer.py:216 | `str.split()` yields non-empty words without whitespace |
| TextOps.WordsStrip | app/services/summarizer.py:216 | stripping does not change the words of a string |
| TextOps.WordsJoin | app/services/text_extractor.py:153 | the words of a whitespace-joined list are the words of its parts, concatenated |
| TextOps.NormalJoin | app/services/text_extractor.py:153 | words joined by single spaces form a trimmed, single-spaced string starting with the first word |
| TextOps.NormalIsJoinOfWords | app/services/text_extractor.py:153-159 | a trimmed single-spaced string is its own words joined by single spaces |
| TextOps.Collapse | app/services/text_extractor.py:157 | `re.sub(r'\s+', ' ', s)` is empty only for empty input and starts with whitespace exactly when the input does |
| TextOps.CollapseSingleSpaced | app/services/text_extractor.py:157 | after the substitution no whitespace other than single spaces remains |
| TextOps.WordsCollapse | app/services/text_extractor.py:157 | the substitution keeps the words of the string |
| TextOps.SplitOn | app/services/text_extractor.py:147 | `str.split('\n')` yields at least one part |
| TextOps.IndexOfIsFirst | app/services/text_extractor.py:147 | no separator occurs before the index where `str.split` cuts |
| TextOps.WordsSplitOn | app/services/text_extractor.py:147 | splitting on a whitespace character keeps every word, in order |
| TextOps.ConcatWordsNonBlank | app/services/text_extractor.py:149-150 | dropping blank lines loses no word |
| TextOps.TerminatorIndex | app/services/summarizer.py:220 | the first `.`, `!` or `?` of a string: nothing before it is a terminator |
| TextOps.Pieces | app/services/summarizer.py:220 | `re.split(r'[.!?]+', s)` gives at least one piece and no piece holds a terminator |
| TextOps.SentencesAreSentences | app/services/summarizer.py:220-221 | every stripped non-blank piece is a non-empty trimmed string without terminators |
| TextOps.SentencesOfRender | app/services/summarizer.py:231 | joining sentences with `". "` and appending `"."` splits back into exactly those sentences |
| TextOps.Lower | app/services/summarizer.py:249 | ASCII lower-casing maps each capital to its small letter and keeps the length |
| TextOps.ContainsAnyNonEmpty | app/services/summarizer.py:249 | proof helper, not behaviour of its own: a string that holds a non-empty keyword is non-empty |
| TextOps.NonSpaceIsFlattenedWords | app/services/text_extractor.py:140-159 | the non-whitespace characters of a string are its words concatenated |
| TextOps.Take | app/services/summarizer.py:190 | `xs[:n]` has length min(len(xs), n) and is a prefix of `xs` |
| TextExtractor.CleanText | app/services/text_extractor.py:140-159 | the strip-and-join loop followed by collapsing and stripping returns the clean form: the words of the text joined by single spaces |
| TextExtractor.CleanNormal | app/services/text_extractor.py:140-159 | the clean text is trimmed and single-spaced and has exactly the words of the input |
| TextExtractor.CleanEmpty | app/services/text_extractor.py:142-143 | the clean text is empty exactly when the input is empty or all whitespace |
| TextExtractor.CleanUnique | app/services/text_extractor.py:140-159 | the clean form is the only trimmed single-spaced string with the input's words |
| TextExtractor.CleanOfNormal | app/services/text_extractor.py:140-159 | already clean text is returned unchanged |
| TextExtractor.CleanIdempotent | app/services/text_extractor.py:140-159 | cleaning twice equals cleaning once |
| TextExtractor.CleanKeepsNonSpace | app/services/text_extractor.py:140-159 | cleaning keeps every non-whitespace character, in order, and adds none |
| TextExtractor.CleanHasNoNewline | app/services/text_extractor.py:146-153 | the clean text contains no newline |
| TextExtractor.CleanPipeline | app/services/text_extractor.py:146-159 | joining the non-blank stripped lines, collapsing whitespace and stripping gives the clean form |
| TextExtractor.SizeCheck | app/services/text_extractor.py:86-90 | a missing Content-Length passes; a declared one fails exactly when it exceeds 50 MiB, reporting the size; an unparsable one fails |
| TextExtractor.DownloadPdf | app/services/text_extractor.py:71-109 | the download passes exactly when a response arrived with a 2xx status and passes the size check; an oversized declared length fails with TooLarge |
| TextExtractor.ExtractFromUrl | app/services/text_extractor.py:28-69 | a URL without scheme or host fails first, then a failed download, then a failed extraction |
| TextExtractor.CheckText | app/services/text_extractor.py:55-62 | the text passes exactly when it has at least 100 characters once stripped; it is then truncated and its length returned; otherwise EmptyText |
| TextExtractor.Truncate | app/services/text_extractor.py:58-60 | the kept text is a prefix of length min(len, 1000000) |
| TextExtractor.ExtractSuccess | app/services/text_extractor.py:28-62 | extraction succeeds exactly when the URL is valid, the download passes and the clean text has at least 100 characters; the result is the truncated clean text and its length |
| TextExtractor.ExtractedTextShape | app/services/text_extractor.py:28-62 | extracted text is a prefix of the clean text of 100 to 1000000 characters that starts with a non-space character and is single-spaced |
| TextExtractor.ShortTextRejected | app/services/text_extractor.py:55-56 | text shorter than 100 characters once stripped is rejected with EmptyText |
| TextExtractor.ShortEnoughKeptWhole | app/services/text_extractor.py:58-62 | clean text of 100 to 1000000 characters is returned whole with its length |
| Chunking.ChunkText | app/services/summarizer.py:95-111 | the packing loop returns the chunks of the greedy packing specification |
| Chunking.ChunkTextOf | app/services/summarizer.py:85-111 | the tokenizer's sentences are used when it succeeds, otherwise the stripped non-blank pieces of the fallback split |
| Chunking.ChunksOfNothing | app/services/summarizer.py:95-111 | no sentences give no chunks |
| Chunking.StepPartition | app/services/summarizer.py:98-106 | one turn of the loop neither loses, duplicates nor reorders a sentence |
| Chunking.StepChained | app/services/summarizer.py:102-104 | one turn of the loop closes a chunk only before the sentence that overflows it |
| Chunking.PackPartition | app/services/summarizer.py:95-108 | the groups and the open group together hold every sentence once, in order, and no closed group is empty |
| Chunking.GroupsPartition | app/services/summarizer.py:95-111 | the final groups partition the sentences, in order, with no empty group |
| Chunking.PackFits | app/services/summarizer.py:101-108 | a group of two or more non-empty sentences stays within 1500 estimated tokens |
| Chunking.PackOverflows | app/services/summarizer.py:101-105 | each group was closed because the next sentence would have pushed it past 1500 estimated tokens |
| Chunking.GroupsOverflow | app/services/summarizer.py:101-105 | every group after the first starts with the sentence that overflowed the previous one |
| Chunking.GroupsFit | app/services/summarizer.py:101-108 | every multi-sentence group fits the token budget |
| Chunking.ChunkOfGroup | app/services/summarizer.py:103-110 | a group of stripped sentences becomes the sentences joined by single spaces, never empty |
| Chunking.ChunksAreJoinedGroups | app/services/summarizer.py:95-111 | for stripped sentences, the chunks are exactly the groups joined by spaces |
| Chunking.FallbackChunks | app/services/summarizer.py:90-111 | with the fallback splitter the groups partition the sentences and the chunks are the joined groups |
| Chunking.JoinSplitDot | app/services/summarizer.py:143-144 | `". ".join(chunk.split(". "))` gives back the chunk |
| Chunking.SepIndexIsFirst | app/services/summarizer.py:143 | no `". "` occurs before the point where `chunk.split(". ")` cuts |
| Chunking.SplitDotParts | app/services/summarizer.py:143 | no part of `chunk.split(". ")` contains `". "` |
| Chunking.ChunkFallbackIsPrefix | app/services/summarizer.py:142-144 | the fallback summary is a prefix of the chunk followed by `"."`; it is the whole chunk exactly when the chunk has at most two `". "`-parts |
| Chunking.SummaryLengths | app/services/summarizer.py:117-122 | executive asks for 30 to 100 tokens, every other style for 50 to 200 |
| Chunking.SummarizeChunk | app/services/summarizer.py:113-144 | the pipeline's summary at the style's lengths, or the two-part fallback when it raises |
| Sections.GenerateTldr | app/services/summarizer.py:213-224 | a summary of at most 60 words is returned as is; a longer one without sentences gives "Summary unavailable" |
| Sections.TldrSentences | app/services/summarizer.py:226-233 | a longer summary gives its first sentence, or its first two exactly when the first has at most 40 words and both together at most 60; the TL;DR splits back into exactly those sentences |
| Sections.NoKeywordInEmpty | app/services/summarizer.py:249 | proof helper, not behaviour of its own: an empty piece matches no keyword |
| Sections.MatchesAreKeywordSentences | app/services/summarizer.py:244-250 | the stripped pieces that contain a keyword are the keyword sentences of the text |
| Sections.WithKeywordMembers | app/services/summarizer.py:247-250 | each collected sentence is a sentence of the text and contains a keyword |
| Sections.MatchesPrefix | app/services/summarizer.py:247-252 | the matches of a prefix of the pieces are a prefix of the matches |
| Sections.CutFromSpec | app/services/summarizer.py:251-252 | the cut is the first point at which the collected sentences exceed 100 words, or the end |
| Sections.PickLemma | app/services/summarizer.py:247-252 | the loop collects matches up to and including the one that pushes past 100 words, and nothing only when nothing matches |
| Sections.PickLenUnique | app/services/summarizer.py:247-252 | the collected count is determined by the 100-word rule |
| Sections.PickSentences | app/services/summarizer.py:244-252 | the collecting loop with its early break returns the specified matches |
| Sections.ExtractSection | app/services/summarizer.py:242-257 | the summary is searched before the original text; the first with a keyword sentence gives at most three sentences rendered with `". "` and `"."`, otherwise the fallback |
| Sections.ShownSentences | app/services/summarizer.py:254-255 | one to three shown sentences, a prefix of the text's keyword sentences, each with a keyword, rendering back to themselves |
| Sections.SectionShape | app/services/summarizer.py:243-257 | the section is rendered from the summary's keyword sentences if any, else from the original's, else it is the fallback |
| Sections.ExtractMethods | app/services/summarizer.py:235-257 | the methods paragraph for the ten method keywords |
| Sections.ExtractResults | app/services/summarizer.py:259-280 | the results paragraph for the ten result keywords |
| Sections.KeywordListsNonEmpty | app/services/summarizer.py:237-287 | proof helper, a fact about the constants: no keyword is the empty string |
| Sections.CollectLimitations | app/services/summarizer.py:294-299 | the inner loop keeps the first five keyword pieces of one text |
| Sections.ExtractLimitations | app/services/summarizer.py:282-307 | the outer loop stops at the first text with a limitation; none gives the fallback message |
| Sections.FirstFoundShape | app/services/summarizer.py:289-307 | one to five items: a prefix of the summary's keyword sentences, else of the original's, else the fallback alone; all of them when fewer than five |
| Sections.LimitationsShape | app/services/summarizer.py:282-307 | the same shape for the limitation keywords |
| KeyPhrases.FilterKeyPhrases | app/services/summarizer.py:185-190 | the loop returns the first 8 title-cased phrases of reasonable length among the first 15 ranked |
| KeyPhrases.KeptPhrasesMembers | app/services/summarizer.py:186-188 | a phrase's title-cased form is kept exactly when the phrase has at most 4 words and more than 3 characters |
| KeyPhrases.FilterKeyPhrasesShape | app/services/summarizer.py:185-190 | at most 8 key phrases, each from a reasonable phrase among the first 15; all of them when fewer than 8 |
| KeyPhrases.RunLen | app/services/summarizer.py:202 | the leading run of `\w` characters is maximal |
| KeyPhrases.CapitalizedRuns | app/services/summarizer.py:202 | every word found has one upper-case letter followed by lower-case letters |
| KeyPhrases.DistinctMembers | app/services/summarizer.py:203-207 | the dict's keys are exactly the counted words, each once |
| KeyPhrases.DistinctOrder | app/services/summarizer.py:203-207 | the dict's keys are in order of first occurrence |
| KeyPhrases.FirstSeen | app/services/summarizer.py:207 | the position of the first occurrence of a word |
| KeyPhrases.CountStep | app/services/summarizer.py:207 | `word_freq.get(word, 0) + 1`: a new word is appended with count 1, a known one counts once more |
| KeyPhrases.CountKnown | app/services/summarizer.py:207 | a known word's count goes up by one and the key order stays |
| KeyPhrases.CountNew | app/services/summarizer.py:207 | a new word is added last with count 1 |
| KeyPhrases.CountWords | app/services/summarizer.py:203-207 | the counting loop yields the dict of occurrence counts of the words longer than 3, in insertion order |
| KeyPhrases.SortByCount | app/services/summarizer.py:210 | the stable descending sort by count: a permutation in which higher counts come first and equal counts keep insertion order |
| KeyPhrases.InsertSorted | app/services/summarizer.py:210 | inserting before the first lower count keeps the stable order |
| KeyPhrases.SelectSound | app/services/summarizer.py:211 | every selected term comes from the top entries and has count above one |
| KeyPhrases.SelectComplete | app/services/summarizer.py:211 | every top entry with count above one is selected |
| KeyPhrases.SelectAllPass | app/services/summarizer.py:211 | when every top count exceeds one, all top words are selected, in order |
| KeyPhrases.SelectOrdered | app/services/summarizer.py:211 | the selection keeps the order of the sort |
| KeyPhrases.TermsRepeated | app/services/summarizer.py:199-211 | each term occurs more than once among the long capitalised words |
| KeyPhrases.KeysOrdered | app/services/summarizer.py:210 | two entries in sort order are different words and the first ranks before the second: a higher count, or the same count and seen first |
| KeyPhrases.TermsOrdered | app/services/summarizer.py:210-211 | the terms are different and in rank order: by decreasing count, ties in order of first occurrence |
| KeyPhrases.TermsComplete | app/services/summarizer.py:210-211 | a repeated word is left out only when 8 terms are returned that each rank before it: seen more often, or as often and seen earlier, as the stable sort keeps tied words |
| KeyPhrases.FrequentTermsCorrect | app/services/summarizer.py:199-211 | the counted, sorted and selected terms satisfy the whole frequent-term specification |
| KeyPhrases.LongIsLong | app/services/summarizer.py:206 | every counted word has more than 3 characters |
| KeyPhrases.FrequentTerms | app/services/summarizer.py:199-211 | at most 8 different capitalised words of more than 3 letters seen more than once, by decreasing count then first occurrence, missing a repeated word only behind 8 that rank before it, so at a tie across the cut the earliest seen are kept |
| KeyPhrases.TopRankedMembers | app/services/summarizer.py:210-211 | two lists that both meet the top-8 ranking rule hold the same words |
| KeyPhrases.RankedUnique | app/services/summarizer.py:210 | two lists in strict rank order with the same words are equal |
| KeyPhrases.FrequentTermsUnique | app/services/summarizer.py:199-211 | exactly one list meets the frequent-term specification, so it pins down the source's result |
| KeyPhrases.ExtractKeyPhrases | app/services/summarizer.py:177-197 | English uses the ranked-phrase filter, or "Key phrase extraction unavailable" when the ranker raised; other languages use the frequent terms |
| ModelRegistry.SummarizerKey | app/services/model_manager.py:127 | proof helper for the key format: the key is the language followed by `_summarizer` |
| ModelRegistry.SummarizerKeyInjective | app/services/model_manager.py:125-128 | only "en" maps to `en_summarizer` and only "zh" to `zh_summarizer` |
| ModelRegistry.EnModelName | app/services/model_manager.py:57-61 | the distilled model when small models are configured, else the large one; never the Chinese model |
| ModelRegistry.ModelManager.constructor | app/services/model_manager.py:26-29 | no models, no tokenizers, not initialized |
| ModelRegistry.ModelManager.Initialize | app/services/model_manager.py:34-53 | a no-op once initialized; otherwise store the English pipeline and set the flag, or report the load failure and stay uninitialized |
| ModelRegistry.ModelManager.LoadEnSummarizer | app/services/model_manager.py:55-90 | the loaded pipeline is stored under `en_summarizer`; a failure is reported with the model name and changes nothing |
| ModelRegistry.ModelManager.LoadZhSummarizer | app/services/model_manager.py:92-123 | the loaded pipeline is stored under `zh_summarizer`; a failure is swallowed and changes nothing |
| ModelRegistry.ModelManager.GetSummarizer | app/services/model_manager.py:125-128 | the stored pipeline for the language's key, or none |
| ModelRegistry.ModelManager.HealthCheck | app/services/model_manager.py:130-155 | healthy exactly when an English summarizer is loaded and the test summarization succeeds |
| ModelRegistry.ModelManager.Cleanup | app/services/model_manager.py:157-172 | both tables are emptied, the flag is kept, and no language has a summarizer |
| ModelRegistry.ModelManager.AvailableLanguages | app/services/model_manager.py:179-187 | "en" then "zh", each listed exactly when its summarizer is loaded, no language twice, one entry per loaded summarizer |
| ModelRegistry.AvailableMeansLoaded | app/services/model_manager.py:125-128 | a language is listed as available exactly when `get_summarizer` finds a pipeline |
| ModelRegistry.HealthyMeansEnglish | app/services/model_manager.py:130-136 | a healthy manager lists English as available |
| ModelRegistry.CleanupThenInitialize | app/services/model_manager.py:34-37 | after cleanup the flag stays set, so initialize reloads nothing and the health check fails |
| Summarizer.KeyPointsWhole | app/services/summarizer.py:171 | `key_phrases[:8]` keeps every key phrase |
| Summarizer.StructureSummary | app/services/summarizer.py:146-175 | TL;DR and sections from the space-joined chunk summaries (sections falling back to the original), key points from the original |
| Summarizer.Summarize | app/services/summarizer.py:49-83 | fails when the language has no summarizer; otherwise structures the summaries of the text's chunks, in order |
| Summarizer.ChunkSummariesShape | app/services/summarizer.py:77-80 | one summary per chunk: the pipeline's output or, when it raised, a prefix of the chunk ending in `"."` |
| Summarizer.StructuredShape | app/services/summarizer.py:146-175 | at most 8 key points, one to five limitations, and a summary of at most 60 words is its own TL;DR |
| Schemas.AnchoredMatchAcceptsNewline | app/models/schemas.py:37-38 | the pattern check as written accepts "technical\n" and "en\n" |
| Schemas.ExactMatchIsAnchored | app/models/schemas.py:37-38 | the exact check and the pattern check differ only on a value with one trailing newline |
| Schemas.Validate | app/models/schemas.py:34-45 | a request passes exactly when no field fails; it then carries the given values or the defaults and is valid; otherwise every failing field, and only those, is reported |
| Schemas.ErrorsPerField | app/models/schemas.py:36-45 | the collected errors name a field exactly when that field fails |
| Schemas.ValidateRoundTrip | app/models/schemas.py:34-45 | a valid request given in full validates to itself |
| Schemas.DefaultsApplied | app/models/schemas.py:36-39 | with only the text given, style "technical", language "en" and 1200 tokens are filled in |

## Left out

- Library internals are not modelled, only their outputs, given as parameters:
  - PDF parsing (pdfminer)
  - the HTTP client and its redirects and timeouts
  - the NLTK sentence tokenizer
  - the RAKE keyword ranker
  - `str.title`
  - the transformer pipelines and the thread-pool execution around them
- Temporary files, their deletion, and the cache directory creation in `ModelManager.__init__` are not modelled.
- Logging, asyncio and the wording of error messages are not modelled.
- `TextExtractor.ExtractFromUrl` receives the URL already split into scheme and host, because `urlparse` is not modelled.
- `TextExtractor.SizeCheck` receives the Content-Length header as absent, a number, or unparsable, because `int()` parsing of the header text is not modelled.
- `TextExtractor.DownloadPdf` treats every non-2xx status as the `raise_for_status` failure, because redirects are followed inside the client and are not modelled.
- The content-type check in `_download_pdf` only logs a warning and is not modelled.
- `TextOps.IsSpace` uses the Python `str.isspace` set.
- TextOps.Lower: folds ASCII letters only and keeps the length. Python's `str.lower` also folds non-ASCII letters, and for some (`"\u0130"`) returns two code points; Unicode case mapping is not modelled.
- `KeyPhrases.IsWordChar` treats `\w` as ASCII letters, digits and `_`; Unicode word characters are not modelled.
- `Summarizer.Summarize` accepts `max_tokens` and, like the source, does not use it.
- The language passed to the NLTK tokenizer (`english`, or `german` for other languages) is part of the tokenizer parameter.
- `ModelManager.initialize` never calls `_load_zh_summarizer`. `LoadZhSummarizer` is modelled but nothing in the model calls it.
- `ModelManager.is_initialized` is modelled as the getter `IsInitialized` and has no contract of its own.
- `TextSummarizer.health_check` (app/services/summarizer.py:309-334) is not modelled; it only runs `summarize` on a fixed text.
- Pydantic's type coercion is not modelled. For example, "1200" or 1200.0 become the integer 1200 before the range check. `Schemas.Validate` receives values already of the field's type.
- The other request and response schemas only declare fields and are not modelled.
- The HTTP routes in app/api/routes.py are not part of this model.

## Findings

| source | as written | input that shows it | evidently intended | confidence | as-written member | corrected member |
|---|---|---|---|---|---|---|
| app/models/schemas.py:37-38 | `Field(regex="^(technical\|executive)$")` and `"^(en\|zh)$"` are checked with `re.match`; `$` there also matches just before a final newline | style `"technical\n"` or lang `"en\n"` is accepted; the style then falls to the technical lengths only by accident, and `get_summarizer("en\n")` finds no model | only the listed values are accepted | not executed | Schemas.AnchoredMatchAcceptsNewline | Schemas.Validate |
