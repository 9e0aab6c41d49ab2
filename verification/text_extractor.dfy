/**
 * The text side of PDF extraction (app/services/text_extractor.py): whitespace
 * normalisation of the extracted text and the guards that turn a URL, an HTTP
 * response and the extracted text into a result or an error.
 */
module TextExtractor {
  import opened Wrappers
  import opened Config
  import opened TextOps

  // ---------------------------------------------------------------------------
  // _clean_text
  // ---------------------------------------------------------------------------

  /**
   * What cleaning means: the words of the text (its maximal runs of
   * non-whitespace characters), in order, separated by single spaces.
   */
  function Clean(text: string): string {
    Join(" ", Words(text))
  }

  /** The clean form is normal (trimmed, single-spaced) and has exactly the words of the text. */
  lemma CleanNormal(text: string)
    ensures Normal(Clean(text))
    ensures Words(Clean(text)) == Words(text)
  {
    WordsAreWords(text);
    NormalJoin(Words(text));
    WordsJoin(" ", Words(text));
    ConcatWordsOfWords(Words(text));
  }

  /**
   * `_clean_text`: strip every line, keep the non-blank ones, join them with
   * single spaces, collapse whitespace runs to one space and strip the result.
   */
  method CleanText(text: string) returns (cleaned: string)
    ensures cleaned == Clean(text)
  {
    if text == "" {
      WordsOfSpace(text);
      return "";
    }
    var pieces := SplitOn(text, '\n');
    var lines: seq<string> := [];
    var i := 0;
    while i < |pieces|
      invariant 0 <= i <= |pieces|
      invariant lines == NonBlank(pieces[..i])
    {
      var line := Strip(pieces[i]);
      if line != "" {
        lines := lines + [line];
      }
      NonBlankPrefix(pieces, i);
      i := i + 1;
    }
    assert pieces[..i] == pieces;
    cleaned := Join(" ", lines);
    cleaned := Collapse(cleaned);
    cleaned := Strip(cleaned);
    CleanPipeline(text);
  }

  /** One more part of the prefix adds its stripped form, when that is not blank. */
  lemma NonBlankPrefix(parts: seq<string>, i: nat)
    requires i < |parts|
    ensures NonBlank(parts[..i + 1]) == NonBlank(parts[..i]) + KeepIfNonBlank(parts[i])
  {
    assert parts[..i + 1][..i] == parts[..i];
  }

  /** Joining the stripped non-blank lines keeps the words of the text. */
  lemma JoinedLinesWords(text: string)
    ensures Words(Join(" ", NonBlank(SplitOn(text, '\n')))) == Words(text)
  {
    var pieces := SplitOn(text, '\n');
    WordsSplitOn(text, '\n');
    ConcatWordsNonBlank(pieces);
    WordsJoin(" ", NonBlank(pieces));
  }

  /** Collapsing and stripping any text gives a normal string with the same words. */
  lemma StripCollapseNormal(s: string)
    ensures Normal(Strip(Collapse(s)))
    ensures Words(Strip(Collapse(s))) == Words(s)
  {
    var c := Collapse(s);
    assert Words(Strip(c)) == Words(s) by {
      WordsCollapse(s);
      WordsStrip(c);
    }
    assert SingleSpaced(Strip(c)) by {
      CollapseSingleSpaced(s);
      var k := StripSlice(c);
      SingleSpacedSlice(c, k, k + |Strip(c)|);
    }
  }

  /** The three steps after the line loop produce the clean form of the text. */
  lemma CleanPipeline(text: string)
    ensures Strip(Collapse(Join(" ", NonBlank(SplitOn(text, '\n'))))) == Clean(text)
  {
    var joined := Join(" ", NonBlank(SplitOn(text, '\n')));
    JoinedLinesWords(text);
    StripCollapseNormal(joined);
    CleanUnique(text, Strip(Collapse(joined)));
  }

  /** Text with a non-whitespace character has at least one word. */
  lemma {:induction false} WordsOfNonSpace(s: string)
    requires !AllSpace(s)
    ensures Words(s) != []
    decreases |s|
  {
    var i :| 0 <= i < |s| && !IsSpace(s[i]);
    if IsSpace(s[0]) {
      assert s[1..][i - 1] == s[i];
      WordsOfNonSpace(s[1..]);
    }
  }

  /** Cleaning yields "" exactly for blank text (in particular for the empty text). */
  lemma CleanEmpty(text: string)
    ensures Clean(text) == "" <==> AllSpace(text)
  {
    if AllSpace(text) {
      WordsOfSpace(text);
    } else {
      WordsOfNonSpace(text);
      WordsAreWords(text);
      NormalJoin(Words(text));
    }
  }

  /** The clean form is the only normal string with the same words as the text. */
  lemma CleanUnique(text: string, s: string)
    requires Normal(s) && Words(s) == Words(text)
    ensures s == Clean(text)
  {
    NormalIsJoinOfWords(s);
  }

  /** A normal string is already clean. */
  lemma CleanOfNormal(s: string)
    requires Normal(s)
    ensures Clean(s) == s
  {
    CleanUnique(s, s);
  }

  /** Cleaning twice is cleaning once. */
  lemma CleanIdempotent(text: string)
    ensures Clean(Clean(text)) == Clean(text)
  {
    CleanNormal(text);
    CleanOfNormal(Clean(text));
  }

  /** Cleaning keeps every non-whitespace character, in order, and adds none. */
  lemma CleanKeepsNonSpace(text: string)
    ensures NonSpace(Clean(text)) == NonSpace(text)
  {
    CleanNormal(text);
    NonSpaceIsFlattenedWords(text);
    NonSpaceIsFlattenedWords(Clean(text));
  }

  /** The clean form holds no newline (nor any whitespace other than single spaces). */
  lemma CleanHasNoNewline(text: string)
    ensures forall i :: 0 <= i < |Clean(text)| ==> Clean(text)[i] != '\n'
  {
    var r := Clean(text);
    CleanNormal(text);
    forall i | 0 <= i < |r| ensures r[i] != '\n' {
      if IsSpace(r[i]) {
        assert r[i] == ' ';
      }
    }
  }

  // ---------------------------------------------------------------------------
  // Guards of extract_from_url and _download_pdf
  // ---------------------------------------------------------------------------

  /** The two parts of `urlparse(pdf_url)` the service looks at. */
  datatype ParsedUrl = ParsedUrl(scheme: string, netloc: string)

  /** `all([parsed_url.scheme, parsed_url.netloc])`. */
  predicate ValidUrl(u: ParsedUrl) {
    u.scheme != "" && u.netloc != ""
  }

  /** The `content-length` header: missing, an integer `int()` accepts, or text it rejects. */
  datatype ContentLength = Absent | Declared(n: int) | Unparsable

  /** The parts of the HTTP response the service checks. */
  datatype Response = Response(status: int, contentLength: ContentLength)

  datatype ExtractError =
    | InvalidUrl
    | DownloadFailed
    | TooLarge(size: int)
    | BadContentLength
    | ExtractionFailed
    | EmptyText

  /** `settings.MAX_PDF_SIZE_MB * 1024 * 1024`. */
  const MAX_PDF_BYTES: nat := MAX_PDF_SIZE_MB * 1024 * 1024

  /** `int(headers.get("content-length", 0))` followed by the size comparison. */
  function SizeCheck(len: ContentLength): (r: Outcome<ExtractError>)
    ensures len.Absent? ==> r == Pass
    ensures len.Declared? ==> (r.Fail? <==> len.n > MAX_PDF_BYTES)
    ensures len.Declared? && r.Fail? ==> r.error == TooLarge(len.n)
    ensures len.Unparsable? ==> r.Fail?
  {
    match len
    case Absent => Pass
    case Declared(n) => if n > MAX_PDF_BYTES then Fail(TooLarge(n)) else Pass
    case Unparsable => Fail(BadContentLength)
  }

  /** `response.raise_for_status()`: anything outside 2xx raises. */
  predicate IsSuccessStatus(status: int) {
    200 <= status < 300
  }

  /**
   * `_download_pdf` without the file: a transport failure (`None`) or an error
   * status is a download failure, then the declared size is checked.
   */
  function DownloadPdf(response: Option<Response>): (r: Outcome<ExtractError>)
    ensures r == Pass <==> response.Some? && IsSuccessStatus(response.value.status)
                            && SizeCheck(response.value.contentLength) == Pass
    ensures response.Some? && IsSuccessStatus(response.value.status)
            && response.value.contentLength.Declared? && response.value.contentLength.n > MAX_PDF_BYTES
            ==> r == Fail(TooLarge(response.value.contentLength.n))
  {
    if response.None? || !IsSuccessStatus(response.value.status) then Fail(DownloadFailed)
    else SizeCheck(response.value.contentLength)
  }

  /** `(text, len(text))` as `extract_from_url` returns it. */
  datatype Extracted = Extracted(text: string, count: nat)

  /**
   * `extract_from_url`: `url` is the parsed URL, `response` what the download
   * got (`None` for a transport error) and `extracted` what pdfminer returned
   * (`None` when it failed). The extracted text is cleaned, rejected when
   * shorter than 100 characters once stripped, and cut to `MAX_TEXT_LENGTH`.
   */
  function ExtractFromUrl(url: ParsedUrl, response: Option<Response>, extracted: Option<string>)
    : (r: Result<Extracted, ExtractError>)
    ensures !ValidUrl(url) ==> r == Failure(InvalidUrl)
    ensures ValidUrl(url) && DownloadPdf(response).Fail? ==> r == Failure(DownloadPdf(response).error)
    ensures ValidUrl(url) && DownloadPdf(response) == Pass && extracted.None? ==> r == Failure(ExtractionFailed)
  {
    if !ValidUrl(url) then Failure(InvalidUrl)
    else if DownloadPdf(response).Fail? then Failure(DownloadPdf(response).error)
    else if extracted.None? then Failure(ExtractionFailed)
    else
      CleanStripped(extracted.value);
      CheckText(Clean(extracted.value))
  }

  /** The checks on the cleaned text: rejected when blank or shorter than 100 once stripped, else truncated. */
  function CheckText(text: string): (r: Result<Extracted, ExtractError>)
    ensures r.Success? <==> |Strip(text)| >= 100
    ensures r.Failure? ==> r.error == EmptyText
    ensures r.Success? ==> r.value.text == Truncate(text) && r.value.count == |r.value.text|
  {
    if text == "" || |Strip(text)| < 100 then Failure(EmptyText)
    else
      var kept := Truncate(text);
      Success(Extracted(kept, |kept|))
  }

  /** The clean form has nothing to strip. */
  lemma CleanStripped(text: string)
    ensures Strip(Clean(text)) == Clean(text)
  {
    CleanNormal(text);
    StripTrimmed(Clean(text));
  }

  /** `text[:settings.MAX_TEXT_LENGTH]` when the text is longer than that. */
  function Truncate(text: string): (r: string)
    ensures |r| == if |text| > MAX_TEXT_LENGTH then MAX_TEXT_LENGTH else |text|
    ensures r == text[..|r|]
  {
    if |text| > MAX_TEXT_LENGTH then text[..MAX_TEXT_LENGTH] else text
  }

  /**
   * What a successful extraction hands back: a prefix of the clean text of at
   * most `MAX_TEXT_LENGTH` characters that starts with a non-whitespace
   * character and never holds two whitespace characters in a row.
   */
  lemma ExtractedTextShape(url: ParsedUrl, response: Option<Response>, raw: string)
    requires ExtractFromUrl(url, response, Some(raw)).Success?
    ensures var t := ExtractFromUrl(url, response, Some(raw)).value.text;
            && t == Clean(raw)[..|t|]
            && 100 <= |t| <= MAX_TEXT_LENGTH
            && !IsSpace(t[0])
            && SingleSpaced(t)
  {
    var text := Clean(raw);
    var t := Truncate(text);
    CleanNormal(raw);
    SingleSpacedSlice(text, 0, |t|);
    assert t[0] == text[0];
  }

  /**
   * Extraction succeeds exactly when the URL is valid, the download passes and
   * the clean text has at least 100 characters; it then hands back the clean
   * text cut to `MAX_TEXT_LENGTH`, with its length.
   */
  lemma ExtractSuccess(url: ParsedUrl, response: Option<Response>, raw: string)
    ensures var r := ExtractFromUrl(url, response, Some(raw));
            && (r.Success? <==> ValidUrl(url) && DownloadPdf(response) == Pass && |Clean(raw)| >= 100)
            && (r.Success? ==> r.value.text == Truncate(Clean(raw)) && r.value.count == |r.value.text|)
  {
    CleanStripped(raw);
  }

  /** Text that is blank, or shorter than 100 characters once stripped, is rejected. */
  lemma ShortTextRejected(url: ParsedUrl, response: Option<Response>, raw: string)
    requires ValidUrl(url) && DownloadPdf(response) == Pass
    requires |Strip(Clean(raw))| < 100
    ensures ExtractFromUrl(url, response, Some(raw)) == Failure(EmptyText)
  {
    CleanNormal(raw);
    StripTrimmed(Clean(raw));
  }

  /** Truncation only cuts: text up to the limit comes back whole, together with its length. */
  lemma ShortEnoughKeptWhole(url: ParsedUrl, response: Option<Response>, raw: string)
    requires ValidUrl(url) && DownloadPdf(response) == Pass
    requires 100 <= |Clean(raw)| <= MAX_TEXT_LENGTH
    ensures ExtractFromUrl(url, response, Some(raw)) == Success(Extracted(Clean(raw), |Clean(raw)|))
  {
    ExtractSuccess(url, response, raw);
  }
}
