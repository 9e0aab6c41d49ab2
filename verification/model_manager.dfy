/**
 * The registry of loaded summarization pipelines (app/services/model_manager.py).
 * Loading a pipeline is a parameter `load` from a model name to the pipeline,
 * `None` when loading raised; running one in the health check is a parameter
 * `probe`.
 */
module ModelRegistry {
  import opened Wrappers
  import opened Config

  /** A loaded summarization pipeline, known by the model it was loaded from. */
  datatype Pipeline = Pipeline(modelName: string)

  /** A tokenizer; the manager keeps a table of them that nothing fills. */
  datatype Tokenizer = Tokenizer(modelName: string)

  /** Loading the named model raised. */
  datatype LoadError = LoadError(modelName: string)

  const SUFFIX: string := "_summarizer"
  const EN_KEY: string := "en_summarizer"
  const ZH_KEY: string := "zh_summarizer"

  /** `f"{language}_summarizer"`. */
  function SummarizerKey(language: string): (key: string)
    ensures |key| == |language| + |SUFFIX| && key[..|language|] == language
  {
    language + SUFFIX
  }

  /** Different languages have different keys; only "en" and "zh" have the two keys the manager fills. */
  lemma SummarizerKeyInjective(language: string)
    ensures SummarizerKey(language) == EN_KEY <==> language == "en"
    ensures SummarizerKey(language) == ZH_KEY <==> language == "zh"
  {
    var key := SummarizerKey(language);
    if key == EN_KEY {
      assert |language| == 2 && language == key[..2];
    }
    if key == ZH_KEY {
      assert |language| == 2 && language == key[..2];
    }
  }

  /** The English model to load: the distilled one when small models are configured. */
  function EnModelName(useSmallModels: bool): (name: string)
    ensures useSmallModels ==> name == EN_SUMMARIZER_MODEL_SMALL
    ensures !useSmallModels ==> name == EN_SUMMARIZER_MODEL
    ensures name != ZH_SUMMARIZER_MODEL
  {
    if useSmallModels then EN_SUMMARIZER_MODEL_SMALL else EN_SUMMARIZER_MODEL
  }

  class ModelManager {
    var models: map<string, Pipeline>
    var tokenizers: map<string, Tokenizer>
    var initialized: bool

    /** The manager only ever holds the English and the Chinese summarizer. */
    predicate Valid()
      reads this
    {
      forall key :: key in models ==> key == EN_KEY || key == ZH_KEY
    }

    /** `__init__`: no models, no tokenizers, not initialized. */
    constructor()
      ensures Valid()
      ensures models == map[] && tokenizers == map[] && !initialized
    {
      models := map[];
      tokenizers := map[];
      initialized := false;
    }

    /**
     * `initialize`: a no-op once initialized; otherwise load the English
     * summarizer and become initialized, or, when loading raises, re-raise and
     * stay uninitialized. The Chinese summarizer is not loaded.
     */
    method Initialize(useSmallModels: bool, load: string -> Option<Pipeline>) returns (outcome: Outcome<LoadError>)
      requires Valid()
      modifies this
      ensures Valid()
      ensures tokenizers == old(tokenizers)
      ensures old(initialized) ==> outcome == Pass && initialized && models == old(models)
      ensures !old(initialized) && load(EnModelName(useSmallModels)).Some? ==>
                && outcome == Pass && initialized
                && models == old(models)[EN_KEY := load(EnModelName(useSmallModels)).value]
      ensures !old(initialized) && load(EnModelName(useSmallModels)).None? ==>
                && outcome == Fail(LoadError(EnModelName(useSmallModels))) && !initialized
                && models == old(models)
    {
      if initialized {
        return Pass;
      }
      outcome := LoadEnSummarizer(useSmallModels, load);
      if outcome.Pass? {
        initialized := true;
      }
    }

    /** `_load_en_summarizer`: store the loaded English pipeline, or fail with the model's name. */
    method LoadEnSummarizer(useSmallModels: bool, load: string -> Option<Pipeline>) returns (outcome: Outcome<LoadError>)
      requires Valid()
      modifies this
      ensures Valid()
      ensures tokenizers == old(tokenizers) && initialized == old(initialized)
      ensures load(EnModelName(useSmallModels)).Some? ==>
                outcome == Pass && models == old(models)[EN_KEY := load(EnModelName(useSmallModels)).value]
      ensures load(EnModelName(useSmallModels)).None? ==>
                outcome == Fail(LoadError(EnModelName(useSmallModels))) && models == old(models)
    {
      var modelName := EnModelName(useSmallModels);
      var pipeline := load(modelName);
      if pipeline.None? {
        return Fail(LoadError(modelName));
      }
      models := models[EN_KEY := pipeline.value];
      return Pass;
    }

    /** `_load_zh_summarizer`: store the loaded Chinese pipeline; a failure is swallowed. */
    method LoadZhSummarizer(load: string -> Option<Pipeline>)
      requires Valid()
      modifies this
      ensures Valid()
      ensures tokenizers == old(tokenizers) && initialized == old(initialized)
      ensures load(ZH_SUMMARIZER_MODEL).Some? ==> models == old(models)[ZH_KEY := load(ZH_SUMMARIZER_MODEL).value]
      ensures load(ZH_SUMMARIZER_MODEL).None? ==> models == old(models)
    {
      var pipeline := load(ZH_SUMMARIZER_MODEL);
      if pipeline.Some? {
        models := models[ZH_KEY := pipeline.value];
      }
    }

    /** `get_summarizer`: the pipeline stored for the language, if any. */
    function GetSummarizer(language: string): (r: Option<Pipeline>)
      reads this
      ensures r.Some? <==> SummarizerKey(language) in models
      ensures r.Some? ==> r.value == models[SummarizerKey(language)]
    {
      if SummarizerKey(language) in models then Some(models[SummarizerKey(language)]) else None
    }

    /**
     * `health_check`: unhealthy without an English summarizer; otherwise
     * whatever the test summarization reports (`probe`, false when it raised).
     */
    function HealthCheck(probe: Pipeline -> bool): (healthy: bool)
      reads this
      ensures healthy ==> GetSummarizer("en").Some? && probe(GetSummarizer("en").value)
      ensures GetSummarizer("en").Some? && probe(GetSummarizer("en").value) ==> healthy
    {
      var en := GetSummarizer("en");
      if en.None? then false else probe(en.value)
    }

    /** `cleanup`: drop every model and tokenizer; the initialized flag stays as it was. */
    method Cleanup()
      requires Valid()
      modifies this
      ensures Valid()
      ensures models == map[] && tokenizers == map[] && initialized == old(initialized)
      ensures forall language :: GetSummarizer(language).None?
    {
      models := map[];
      tokenizers := map[];
    }

    /** The `is_initialized` property. */
    function IsInitialized(): bool
      reads this
    {
      initialized
    }

    /** The `available_languages` property: "en" then "zh", each when its summarizer is loaded. */
    function AvailableLanguages(): (languages: seq<string>)
      reads this
      ensures |languages| == (if EN_KEY in models then 1 else 0) + (if ZH_KEY in models then 1 else 0)
      ensures forall a, b :: 0 <= a < b < |languages| ==> languages[a] != languages[b]
      ensures forall language :: language in languages <==>
                (language == "en" && EN_KEY in models) || (language == "zh" && ZH_KEY in models)
      ensures EN_KEY in models ==> |languages| > 0 && languages[0] == "en"
    {
      (if EN_KEY in models then ["en"] else []) + (if ZH_KEY in models then ["zh"] else [])
    }
  }

  /** A language is listed as available exactly when `get_summarizer` finds a pipeline for it. */
  lemma AvailableMeansLoaded(manager: ModelManager, language: string)
    requires manager.Valid()
    ensures language in manager.AvailableLanguages() <==> manager.GetSummarizer(language).Some?
  {
    SummarizerKeyInjective(language);
  }

  /** A healthy manager lists English as available. */
  lemma HealthyMeansEnglish(manager: ModelManager, probe: Pipeline -> bool)
    requires manager.Valid()
    ensures manager.HealthCheck(probe) ==> "en" in manager.AvailableLanguages()
  {
    AvailableMeansLoaded(manager, "en");
  }

  /**
   * `initialize` after `cleanup` changes nothing: the flag survives the
   * cleanup, so the English summarizer is not loaded again and the manager
   * stays unhealthy.
   */
  method CleanupThenInitialize(manager: ModelManager, useSmallModels: bool, load: string -> Option<Pipeline>, probe: Pipeline -> bool)
    returns (healthy: bool)
    requires manager.Valid() && manager.initialized
    modifies manager
    ensures manager.models == map[] && manager.initialized
    ensures !healthy
  {
    manager.Cleanup();
    var _ := manager.Initialize(useSmallModels, load);
    healthy := manager.HealthCheck(probe);
  }
}
