/**
 * Validation of a summarization request (`SummarizeRequest`,
 * app/models/schemas.py): the text is required and between 50 and 500000
 * characters, the style and the language come from fixed lists and default to
 * "technical" and "en", and `max_tokens` lies in [100, 2000] and defaults to
 * 1200. Every failing field is reported.
 */
module Schemas {
  import opened Wrappers

  const MIN_TEXT_LENGTH: nat := 50
  const MAX_TEXT_LENGTH: nat := 500000
  const MIN_MAX_TOKENS: int := 100
  const MAX_MAX_TOKENS: int := 2000

  const DEFAULT_STYLE: string := "technical"
  const DEFAULT_LANG: string := "en"
  const DEFAULT_MAX_TOKENS: int := 1200

  /** The alternatives of `^(technical|executive)$` and `^(en|zh)$`. */
  const STYLES: seq<string> := ["technical", "executive"]
  const LANGUAGES: seq<string> := ["en", "zh"]

  /** A validated request. */
  datatype SummarizeRequest = SummarizeRequest(text: string, style: string, lang: string, maxTokens: int)

  /** A request as received: every field may be absent. */
  datatype RawRequest = RawRequest(text: Option<string>, style: Option<string>, lang: Option<string>, maxTokens: Option<int>)

  datatype FieldName = Text | Style | Lang | MaxTokens

  datatype ErrorKind =
    | Missing
    | TooShort(minLength: nat)
    | TooLong(maxLength: nat)
    | PatternMismatch(alternatives: seq<string>)
    | BelowMinimum(minimum: int)
    | AboveMaximum(maximum: int)

  datatype FieldError = FieldError(field: FieldName, kind: ErrorKind)

  // ---------------------------------------------------------------------------
  // Matching `^(a|b)$`
  // ---------------------------------------------------------------------------

  /**
   * `re.match('^(a|b)$', v)` as the validator runs it: `$` matches at the end
   * of the string and also just before a final newline, so an alternative
   * followed by one "\n" matches too.
   */
  predicate AnchoredMatch(v: string, alternatives: seq<string>) {
    exists k :: 0 <= k < |alternatives| && (v == alternatives[k] || v == alternatives[k] + "\n")
  }

  /** The evidently intended check: the value is one of the alternatives. */
  predicate ExactMatch(v: string, alternatives: seq<string>) {
    v in alternatives
  }

  /** The anchored match lets a trailing newline through: "technical\n" and "en\n" are accepted. */
  lemma AnchoredMatchAcceptsNewline()
    ensures AnchoredMatch("technical\n", STYLES) && !ExactMatch("technical\n", STYLES)
    ensures AnchoredMatch("en\n", LANGUAGES) && !ExactMatch("en\n", LANGUAGES)
  {
    assert "technical\n" == STYLES[0] + "\n";
    assert "en\n" == LANGUAGES[0] + "\n";
    assert "technical\n" != STYLES[0] && "technical\n" != STYLES[1];
    assert "en\n" != LANGUAGES[0] && "en\n" != LANGUAGES[1];
  }

  /** Every exact match is an anchored match; the converse fails only for a trailing newline. */
  lemma ExactMatchIsAnchored(v: string, alternatives: seq<string>)
    ensures ExactMatch(v, alternatives) ==> AnchoredMatch(v, alternatives)
    ensures AnchoredMatch(v, alternatives) && !ExactMatch(v, alternatives) ==>
              |v| > 0 && v[|v| - 1] == '\n' && ExactMatch(v[..|v| - 1], alternatives)
  {
    if ExactMatch(v, alternatives) {
      var k :| 0 <= k < |alternatives| && alternatives[k] == v;
    }
    if AnchoredMatch(v, alternatives) && !ExactMatch(v, alternatives) {
      var k :| 0 <= k < |alternatives| && (v == alternatives[k] || v == alternatives[k] + "\n");
      assert v == alternatives[k] + "\n";
      assert v[..|v| - 1] == alternatives[k];
    }
  }

  // ---------------------------------------------------------------------------
  // Field by field
  // ---------------------------------------------------------------------------

  /** `Field(..., min_length=50)` and then `validate_text_length`. */
  function TextErrors(text: Option<string>): seq<FieldError> {
    match text
    case None => [FieldError(Text, Missing)]
    case Some(t) =>
      if |t| < MIN_TEXT_LENGTH then [FieldError(Text, TooShort(MIN_TEXT_LENGTH))]
      else if |t| > MAX_TEXT_LENGTH then [FieldError(Text, TooLong(MAX_TEXT_LENGTH))]
      else []
  }

  /** An absent field takes its default, which is not checked; a given one must match. */
  function ChoiceErrors(field: FieldName, value: Option<string>, alternatives: seq<string>): seq<FieldError> {
    if value.Some? && !ExactMatch(value.value, alternatives) then [FieldError(field, PatternMismatch(alternatives))]
    else []
  }

  /** `Field(1200, ge=100, le=2000)`. */
  function MaxTokensErrors(maxTokens: Option<int>): seq<FieldError> {
    if maxTokens.None? then []
    else if maxTokens.value < MIN_MAX_TOKENS then [FieldError(MaxTokens, BelowMinimum(MIN_MAX_TOKENS))]
    else if maxTokens.value > MAX_MAX_TOKENS then [FieldError(MaxTokens, AboveMaximum(MAX_MAX_TOKENS))]
    else []
  }

  /** Whether the raw value of `field` is refused, stated on its own. */
  predicate FieldFails(raw: RawRequest, field: FieldName) {
    match field
    case Text => raw.text.None? || !(MIN_TEXT_LENGTH <= |raw.text.value| <= MAX_TEXT_LENGTH)
    case Style => raw.style.Some? && raw.style.value !in STYLES
    case Lang => raw.lang.Some? && raw.lang.value !in LANGUAGES
    case MaxTokens => raw.maxTokens.Some? && !(MIN_MAX_TOKENS <= raw.maxTokens.value <= MAX_MAX_TOKENS)
  }

  /** A request whose every field is acceptable. */
  predicate ValidRequest(req: SummarizeRequest) {
    && MIN_TEXT_LENGTH <= |req.text| <= MAX_TEXT_LENGTH
    && req.style in STYLES
    && req.lang in LANGUAGES
    && MIN_MAX_TOKENS <= req.maxTokens <= MAX_MAX_TOKENS
  }

  /**
   * Building a `SummarizeRequest`: the request with defaults filled in when
   * no field fails, otherwise every field's error, in field order.
   */
  function Validate(raw: RawRequest): (r: Result<SummarizeRequest, seq<FieldError>>)
    ensures r.Success? <==> forall field :: !FieldFails(raw, field)
    ensures r.Success? ==>
              && raw.text.Some?
              && r.value == SummarizeRequest(raw.text.value, raw.style.GetOr(DEFAULT_STYLE),
                                             raw.lang.GetOr(DEFAULT_LANG), raw.maxTokens.GetOr(DEFAULT_MAX_TOKENS))
              && ValidRequest(r.value)
    ensures r.Failure? ==>
              && r.error != []
              && forall field :: FieldFails(raw, field) <==> exists k :: 0 <= k < |r.error| && r.error[k].field == field
  {
    var errors := TextErrors(raw.text) + ChoiceErrors(Style, raw.style, STYLES)
                  + ChoiceErrors(Lang, raw.lang, LANGUAGES) + MaxTokensErrors(raw.maxTokens);
    ErrorsPerField(raw, errors);
    if errors == [] then
      Success(SummarizeRequest(raw.text.value, raw.style.GetOr(DEFAULT_STYLE),
                               raw.lang.GetOr(DEFAULT_LANG), raw.maxTokens.GetOr(DEFAULT_MAX_TOKENS)))
    else Failure(errors)
  }

  /** Some error in `errors` is about `field`. */
  predicate Names(errors: seq<FieldError>, field: FieldName) {
    exists k :: 0 <= k < |errors| && errors[k].field == field
  }

  /** An error list names a field when one of its two parts does. */
  lemma NamesAppend(a: seq<FieldError>, b: seq<FieldError>, field: FieldName)
    ensures Names(a + b, field) <==> Names(a, field) || Names(b, field)
  {
    if Names(a + b, field) {
      var k :| 0 <= k < |a + b| && (a + b)[k].field == field;
      if k >= |a| { assert b[k - |a|] == (a + b)[k]; }
    }
    if Names(b, field) {
      var k :| 0 <= k < |b| && b[k].field == field;
      assert (a + b)[|a| + k] == b[k];
    }
    if Names(a, field) {
      var k :| 0 <= k < |a| && a[k].field == field;
      assert (a + b)[k] == a[k];
    }
  }

  /** A field's own error list names only that field, and names it when it is not empty. */
  lemma NamesOwn(own: seq<FieldError>, owner: FieldName, field: FieldName)
    requires |own| <= 1 && forall k :: 0 <= k < |own| ==> own[k].field == owner
    ensures Names(own, field) <==> own != [] && field == owner
  {
    if own != [] {
      assert own[0].field == owner;
    }
  }

  /** The concatenated field errors name a field exactly when it fails. */
  lemma ErrorsPerField(raw: RawRequest, errors: seq<FieldError>)
    requires errors == TextErrors(raw.text) + ChoiceErrors(Style, raw.style, STYLES)
                       + ChoiceErrors(Lang, raw.lang, LANGUAGES) + MaxTokensErrors(raw.maxTokens)
    ensures forall field :: FieldFails(raw, field) <==> Names(errors, field)
    ensures errors != [] ==> FieldFails(raw, errors[0].field)
  {
    var t, s, l, m := TextErrors(raw.text), ChoiceErrors(Style, raw.style, STYLES),
                      ChoiceErrors(Lang, raw.lang, LANGUAGES), MaxTokensErrors(raw.maxTokens);
    forall field ensures FieldFails(raw, field) <==> Names(errors, field) {
      NamesAppend(t + s + l, m, field);
      NamesAppend(t + s, l, field);
      NamesAppend(t, s, field);
      NamesOwn(t, Text, field);
      NamesOwn(s, Style, field);
      NamesOwn(l, Lang, field);
      NamesOwn(m, MaxTokens, field);
    }
    if errors != [] {
      assert Names(errors, errors[0].field);
    }
  }

  /** A valid request, given in full, validates to itself. */
  lemma ValidateRoundTrip(req: SummarizeRequest)
    requires ValidRequest(req)
    ensures Validate(RawRequest(Some(req.text), Some(req.style), Some(req.lang), Some(req.maxTokens))) == Success(req)
  {
    var raw := RawRequest(Some(req.text), Some(req.style), Some(req.lang), Some(req.maxTokens));
    assert forall field :: !FieldFails(raw, field);
  }

  /** Only the text is required: with the rest absent, the defaults are taken. */
  lemma DefaultsApplied(text: string)
    requires MIN_TEXT_LENGTH <= |text| <= MAX_TEXT_LENGTH
    ensures Validate(RawRequest(Some(text), None, None, None))
            == Success(SummarizeRequest(text, DEFAULT_STYLE, DEFAULT_LANG, DEFAULT_MAX_TOKENS))
  {
    var raw := RawRequest(Some(text), None, None, None);
    assert forall field :: !FieldFails(raw, field);
  }
}
