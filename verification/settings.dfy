/** The `Config` class of config.py: the settings read from the environment
    and `Config.validate`, which runs a fixed sequence of checks, collects
    the message of every check that fails, and raises one `ValueError`
    listing them all. */
module Settings {
  import opened Common
  import opened Text

  /** The class attributes of `Config`, as strings. `LLM_TEMPERATURE` is a
      float and is not part of this model; `DEFAULT_RETRIEVAL_COUNT` is kept
      as the integer it was parsed to. */
  datatype Config = Config(
    emailId: string,
    appPassword: string,
    startDate: string,
    endDate: string,
    llmProvider: string,
    ollamaBaseUrl: string,
    ollamaLlmModel: string,
    ollamaEmbeddingModel: string,
    googleApiKey: string,
    chromaPersistDirectory: string,
    chromaCollectionName: string,
    defaultRetrievalCount: int)

  /** `os.getenv(key, default)`: a variable that is set, even to "", wins. */
  function Getenv(env: map<string, string>, key: string, default: string): (r: string)
    ensures key in env ==> r == env[key]
    ensures key !in env ==> r == default
  {
    if key in env then env[key] else default
  }

  /** The attributes as read at import time (lines 16-42): the provider is
      lower-cased, the Ollama settings and the Chroma settings have defaults,
      everything else defaults to "". */
  function FromEnv(env: map<string, string>, retrievalCount: int): (c: Config)
    ensures c.llmProvider == Lower(Getenv(env, "LLM_PROVIDER", ""))
    ensures c.defaultRetrievalCount == retrievalCount
  {
    Config(
      Getenv(env, "EMAIL_ID", ""),
      Getenv(env, "APP_PASSWORD", ""),
      Getenv(env, "START_DATE", ""),
      Getenv(env, "END_DATE", ""),
      Lower(Getenv(env, "LLM_PROVIDER", "")),
      Getenv(env, "OLLAMA_BASE_URL", "http://localhost:11434"),
      Getenv(env, "OLLAMA_LLM_MODEL", "llama3.1:8b"),
      Getenv(env, "OLLAMA_EMBEDDING_MODEL", "llama3.1:8b"),
      Getenv(env, "GOOGLE_API_KEY", ""),
      Getenv(env, "CHROMA_PERSIST_DIRECTORY", "chroma_store"),
      Getenv(env, "CHROMA_COLLECTION_NAME", "emails"),
      retrievalCount)
  }

  // ---------------------------------------------------------------------------
  // The checks of `validate`, in the order they are written

  const EmailIdRequired := "EMAIL_ID is required"
  const AppPasswordRequired := "APP_PASSWORD is required"
  const StartDateRequired := "START_DATE is required (format: YYYY-MM-DD)"
  const EndDateRequired := "END_DATE is required (format: YYYY-MM-DD)"
  const ProviderRequired := "LLM_PROVIDER is required (must be 'ollama' or 'gemini')"
  const OllamaBaseUrlRequired := "OLLAMA_BASE_URL is required when LLM_PROVIDER=ollama"
  const OllamaLlmModelRequired := "OLLAMA_LLM_MODEL is required when LLM_PROVIDER=ollama"
  const OllamaEmbeddingModelRequired := "OLLAMA_EMBEDDING_MODEL is required when LLM_PROVIDER=ollama"
  const GoogleApiKeyRequired := "GOOGLE_API_KEY is required when LLM_PROVIDER=gemini"

  function ProviderUnsupported(p: string): string {
    "LLM_PROVIDER must be 'ollama' or 'gemini', got '" + p + "'"
  }

  predicate KnownProvider(p: string) { p == "ollama" || p == "gemini" }

  /** What one check appends: its message when it fails, nothing otherwise. */
  function Reported(fails: bool, message: string): (r: seq<string>)
    ensures |r| == if fails then 1 else 0
  {
    if fails then [message] else []
  }

  /** Lines 50-59: one check per required field. */
  function RequiredErrors(c: Config): seq<string> {
    Reported(c.emailId == "", EmailIdRequired)
    + Reported(c.appPassword == "", AppPasswordRequired)
    + Reported(c.startDate == "", StartDateRequired)
    + Reported(c.endDate == "", EndDateRequired)
  }

  /** Lines 62-67: the `if`/`elif` on the provider name. */
  function ProviderErrors(p: string): seq<string> {
    if p == "" then [ProviderRequired]
    else if !KnownProvider(p) then [ProviderUnsupported(p)]
    else []
  }

  /** Lines 70-81: the settings the chosen provider needs. */
  function ProviderSettingErrors(c: Config): seq<string> {
    if c.llmProvider == "ollama" then
      Reported(c.ollamaBaseUrl == "", OllamaBaseUrlRequired)
      + Reported(c.ollamaLlmModel == "", OllamaLlmModelRequired)
      + Reported(c.ollamaEmbeddingModel == "", OllamaEmbeddingModelRequired)
    else if c.llmProvider == "gemini" then
      Reported(c.googleApiKey == "", GoogleApiKeyRequired)
    else []
  }

  /** The error list `validate` collects, in the order of the checks. */
  function ValidationErrors(c: Config): seq<string> {
    RequiredErrors(c) + ProviderErrors(c.llmProvider) + ProviderSettingErrors(c)
  }

  /** The `ValueError` message of lines 84-87. */
  function Report(errs: seq<string>): string {
    "Configuration validation failed:\n" + JoinWith("\n", Bullets(errs))
  }

  function Bullets(errs: seq<string>): (r: seq<string>)
    ensures |r| == |errs|
    ensures forall k :: 0 <= k < |r| ==> r[k] == "  - " + errs[k]
  {
    seq(|errs|, k requires 0 <= k < |errs| => "  - " + errs[k])
  }

  /** The report names every collected error on a bullet of its own. */
  lemma ReportListsEveryError(errs: seq<string>, k: nat)
    requires k < |errs|
    ensures exists off: nat :: SliceAt(Report(errs), off, "  - " + errs[k])
  {
    var header := "Configuration validation failed:\n";
    var body := JoinWith("\n", Bullets(errs));
    var line := "  - " + errs[k];
    JoinContains("\n", Bullets(errs), k);
    var off: nat :| SliceAt(body, off, line);
    assert Report(errs) == header + body;
    assert Report(errs)[|header| + off..|header| + off + |line|] == line;
    assert SliceAt(Report(errs), |header| + off, line);
  }

  /** `Config.validate` (lines 44-89). */
  method Validate(c: Config) returns (r: Result<bool>)
    ensures r.Ok? <==> ValidationErrors(c) == []
    ensures r.Ok? ==> r.value
    ensures r.Err? ==> r.error == ValueError(Report(ValidationErrors(c)))
  {
    var errors: seq<string> := [];
    errors := CheckRequired(c, errors);
    assert [] + RequiredErrors(c) == RequiredErrors(c);
    errors := CheckProvider(c, errors);
    errors := CheckProviderSettings(c, errors);
    if errors != [] {
      return Err(ValueError(Report(errors)));
    }
    return Ok(true);
  }

  /** Lines 50-59, appending to the collected errors. */
  method CheckRequired(c: Config, errors0: seq<string>) returns (errors: seq<string>)
    ensures errors == errors0 + RequiredErrors(c)
  {
    errors := errors0;
    if c.emailId == "" {
      errors := errors + [EmailIdRequired];
    }
    if c.appPassword == "" {
      errors := errors + [AppPasswordRequired];
    }
    if c.startDate == "" {
      errors := errors + [StartDateRequired];
    }
    if c.endDate == "" {
      errors := errors + [EndDateRequired];
    }
  }

  /** Lines 62-67, appending to the collected errors. */
  method CheckProvider(c: Config, errors0: seq<string>) returns (errors: seq<string>)
    ensures errors == errors0 + ProviderErrors(c.llmProvider)
  {
    errors := errors0;
    if c.llmProvider == "" {
      errors := errors + [ProviderRequired];
    } else if !KnownProvider(c.llmProvider) {
      errors := errors + [ProviderUnsupported(c.llmProvider)];
    }
  }

  /** Lines 70-81, appending to the collected errors. */
  method CheckProviderSettings(c: Config, errors0: seq<string>) returns (errors: seq<string>)
    ensures errors == errors0 + ProviderSettingErrors(c)
  {
    errors := errors0;
    if c.llmProvider == "ollama" {
      if c.ollamaBaseUrl == "" {
        errors := errors + [OllamaBaseUrlRequired];
      }
      if c.ollamaLlmModel == "" {
        errors := errors + [OllamaLlmModelRequired];
      }
      if c.ollamaEmbeddingModel == "" {
        errors := errors + [OllamaEmbeddingModelRequired];
      }
    } else if c.llmProvider == "gemini" {
      if c.googleApiKey == "" {
        errors := errors + [GoogleApiKeyRequired];
      }
    }
  }

  // ---------------------------------------------------------------------------
  // What the checks add up to

  /** The number of required fields left empty. */
  function EmptyRequired(c: Config): (n: nat)
    ensures n <= 4
  {
    (if c.emailId == "" then 1 else 0) + (if c.appPassword == "" then 1 else 0)
    + (if c.startDate == "" then 1 else 0) + (if c.endDate == "" then 1 else 0)
  }

  /** Validation passes exactly when the four required fields are set, the
      provider is known, and the settings of that provider are set. */
  lemma ValidIff(c: Config)
    ensures ValidationErrors(c) == [] <==>
      c.emailId != "" && c.appPassword != "" && c.startDate != "" && c.endDate != ""
      && KnownProvider(c.llmProvider)
      && (c.llmProvider == "ollama" ==>
            c.ollamaBaseUrl != "" && c.ollamaLlmModel != "" && c.ollamaEmbeddingModel != "")
      && (c.llmProvider == "gemini" ==> c.googleApiKey != "")
  {
    assert |ValidationErrors(c)| == |RequiredErrors(c)| + |ProviderErrors(c.llmProvider)| + |ProviderSettingErrors(c)|;
  }

  /** Each empty required field contributes its own error, a field that is
      set contributes none, and there is one error per empty field. */
  lemma RequiredFieldErrors(c: Config)
    ensures |RequiredErrors(c)| == EmptyRequired(c)
    ensures EmailIdRequired in ValidationErrors(c) <==> c.emailId == ""
    ensures AppPasswordRequired in ValidationErrors(c) <==> c.appPassword == ""
    ensures StartDateRequired in ValidationErrors(c) <==> c.startDate == ""
    ensures EndDateRequired in ValidationErrors(c) <==> c.endDate == ""
  {
    var rest := ProviderErrors(c.llmProvider) + ProviderSettingErrors(c);
    assert ValidationErrors(c) == RequiredErrors(c) + rest;
    RestHasNoRequiredMessage(c);
    MessageLengths();
  }

  lemma RestHasNoRequiredMessage(c: Config)
    ensures EmailIdRequired !in ProviderErrors(c.llmProvider) + ProviderSettingErrors(c)
    ensures AppPasswordRequired !in ProviderErrors(c.llmProvider) + ProviderSettingErrors(c)
    ensures StartDateRequired !in ProviderErrors(c.llmProvider) + ProviderSettingErrors(c)
    ensures EndDateRequired !in ProviderErrors(c.llmProvider) + ProviderSettingErrors(c)
  {
    ProviderMessagesDiffer(c.llmProvider);
    MessageLengths();
  }

  lemma MessageLengths()
    ensures |EmailIdRequired| == 20 && |AppPasswordRequired| == 24
    ensures |StartDateRequired| == 43 && |EndDateRequired| == 41
    ensures |ProviderRequired| == 55 && |OllamaBaseUrlRequired| == 52 && |OllamaLlmModelRequired| == 53
    ensures |OllamaEmbeddingModelRequired| == 59 && |GoogleApiKeyRequired| == 51
  {
  }

  /** The "must be" message differs from the "required" one, and its
      length sets it apart from the messages about single settings. */
  lemma ProviderMessagesDiffer(p: string)
    ensures ProviderUnsupported(p) != ProviderRequired
    ensures |ProviderUnsupported(p)| == 49 + |p|
  {
    var u := ProviderUnsupported(p);
    assert u[13] == 'm';
    assert ProviderRequired[13] == 'i';
  }

  /** An empty provider yields the "required" error, an unknown one the
      "must be" error, and never both. */
  lemma ProviderNameErrors(c: Config)
    ensures ProviderRequired in ValidationErrors(c) <==> c.llmProvider == ""
    ensures ProviderUnsupported(c.llmProvider) in ValidationErrors(c)
            <==> c.llmProvider != "" && !KnownProvider(c.llmProvider)
    ensures !(ProviderRequired in ValidationErrors(c) && ProviderUnsupported(c.llmProvider) in ValidationErrors(c))
  {
    ProviderMessagesDiffer(c.llmProvider);
    MessageLengths();
    assert ValidationErrors(c) == RequiredErrors(c) + ProviderErrors(c.llmProvider) + ProviderSettingErrors(c);
  }

  /** The provider-specific checks: three for Ollama, one for Gemini, none
      for any other provider, whose name error is then the only other one. */
  lemma ProviderSpecificErrors(c: Config)
    ensures c.llmProvider == "ollama" ==>
              |ValidationErrors(c)| == EmptyRequired(c) + (if c.ollamaBaseUrl == "" then 1 else 0)
                + (if c.ollamaLlmModel == "" then 1 else 0) + (if c.ollamaEmbeddingModel == "" then 1 else 0)
    ensures c.llmProvider == "gemini" ==>
              |ValidationErrors(c)| == EmptyRequired(c) + (if c.googleApiKey == "" then 1 else 0)
    ensures !KnownProvider(c.llmProvider) ==> |ValidationErrors(c)| == EmptyRequired(c) + 1
  {
    assert |ValidationErrors(c)| == |RequiredErrors(c)| + |ProviderErrors(c.llmProvider)| + |ProviderSettingErrors(c)|;
  }

  /** The provider is read case-insensitively: with the four required
      fields set and the Ollama settings left at their defaults, "OLLAMA"
      passes validation. */
  lemma UpperCaseOllamaPasses(env: map<string, string>, retrievalCount: int)
    requires "EMAIL_ID" in env && env["EMAIL_ID"] != ""
    requires "APP_PASSWORD" in env && env["APP_PASSWORD"] != ""
    requires "START_DATE" in env && env["START_DATE"] != ""
    requires "END_DATE" in env && env["END_DATE"] != ""
    requires "LLM_PROVIDER" in env && env["LLM_PROVIDER"] == "OLLAMA"
    requires "OLLAMA_BASE_URL" !in env && "OLLAMA_LLM_MODEL" !in env && "OLLAMA_EMBEDDING_MODEL" !in env
    ensures FromEnv(env, retrievalCount).llmProvider == "ollama"
    ensures ValidationErrors(FromEnv(env, retrievalCount)) == []
  {
    assert Lower("OLLAMA") == "ollama";
    ValidIff(FromEnv(env, retrievalCount));
  }
}
