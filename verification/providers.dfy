/** Provider dispatch: `get_embeddings` (defined identically in
    agent_email_vector.py and agent_email_query.py), `get_llm`, and
    `load_vector_store` with its existence check. The constructed LangChain
    objects are represented by the arguments they are built with. */
module Providers {
  import opened Common
  import opened Settings

  /** An embeddings client and the settings it is built with. */
  datatype Embeddings =
    | OllamaEmbeddings(model: string, baseUrl: string)
    | GoogleEmbeddings(model: string, apiKey: string)

  /** A chat model and the settings it is built with. */
  datatype ChatModel =
    | ChatOllama(model: string, baseUrl: string)
    | ChatGemini(model: string, apiKey: string)

  const GeminiEmbeddingModel := "models/text-embedding-004"
  const GeminiChatModel := "gemini-2.0-flash-exp"

  function UnsupportedProvider(p: string): string {
    "Unsupported LLM_PROVIDER: " + p + ". Must be 'ollama' or 'gemini'"
  }

  /** `get_embeddings`: the Ollama or Google client, or `ValueError` for any
      other provider name. */
  function GetEmbeddings(c: Config): (r: Result<Embeddings>)
    ensures r.Ok? <==> KnownProvider(c.llmProvider)
    ensures r.Ok? ==> (r.value.OllamaEmbeddings? <==> c.llmProvider == "ollama")
    ensures r.Ok? && r.value.OllamaEmbeddings? ==>
              r.value.model == c.ollamaEmbeddingModel && r.value.baseUrl == c.ollamaBaseUrl
    ensures r.Ok? && r.value.GoogleEmbeddings? ==> r.value.apiKey == c.googleApiKey
    ensures r.Err? ==> r.error == ValueError(UnsupportedProvider(c.llmProvider))
  {
    if c.llmProvider == "ollama" then Ok(OllamaEmbeddings(c.ollamaEmbeddingModel, c.ollamaBaseUrl))
    else if c.llmProvider == "gemini" then Ok(GoogleEmbeddings(GeminiEmbeddingModel, c.googleApiKey))
    else Err(ValueError(UnsupportedProvider(c.llmProvider)))
  }

  /** `get_llm`: the Ollama or Gemini chat model, or `ValueError` for any
      other provider name. */
  function GetLlm(c: Config): (r: Result<ChatModel>)
    ensures r.Ok? <==> KnownProvider(c.llmProvider)
    ensures r.Ok? ==> (r.value.ChatOllama? <==> c.llmProvider == "ollama")
    ensures r.Ok? && r.value.ChatOllama? ==>
              r.value.model == c.ollamaLlmModel && r.value.baseUrl == c.ollamaBaseUrl
    ensures r.Ok? && r.value.ChatGemini? ==> r.value.apiKey == c.googleApiKey
    ensures r.Err? ==> r.error == ValueError(UnsupportedProvider(c.llmProvider))
  {
    if c.llmProvider == "ollama" then Ok(ChatOllama(c.ollamaLlmModel, c.ollamaBaseUrl))
    else if c.llmProvider == "gemini" then Ok(ChatGemini(GeminiChatModel, c.googleApiKey))
    else Err(ValueError(UnsupportedProvider(c.llmProvider)))
  }

  /** Once `validate` has passed, both constructors succeed, and every
      setting they are handed is non-empty. */
  lemma ValidatedConfigBuildsClients(c: Config)
    requires ValidationErrors(c) == []
    ensures GetEmbeddings(c).Ok? && GetLlm(c).Ok?
    ensures GetEmbeddings(c).value.OllamaEmbeddings? ==>
              GetEmbeddings(c).value.model != "" && GetEmbeddings(c).value.baseUrl != ""
    ensures GetEmbeddings(c).value.GoogleEmbeddings? ==> GetEmbeddings(c).value.apiKey != ""
    ensures GetLlm(c).value.ChatOllama? ==> GetLlm(c).value.model != "" && GetLlm(c).value.baseUrl != ""
    ensures GetLlm(c).value.ChatGemini? ==> GetLlm(c).value.apiKey != ""
  {
    ValidIff(c);
  }

  /** `persist_directory or config.CHROMA_PERSIST_DIRECTORY`: a missing or
      empty argument falls back to the configured directory. */
  function PersistDirectory(arg: Option<string>, c: Config): (dir: string)
    ensures arg.Some? && arg.value != "" ==> dir == arg.value
    ensures arg.None? || arg.value == "" ==> dir == c.chromaPersistDirectory
  {
    if arg.Some? && arg.value != "" then arg.value else c.chromaPersistDirectory
  }

  /** A Chroma collection opened on a directory with an embeddings client. */
  datatype VectorStore = VectorStore(collection: string, embeddings: Embeddings, directory: string)

  function StoreNotFound(dir: string): string {
    "Vector store not found at '" + dir + "'. Please run the workflow to fetch and index emails first."
  }

  /** `load_vector_store` (agent_email_query.py:82-115), with
      `os.path.exists` given as `pathExists`. */
  function LoadVectorStore(arg: Option<string>, c: Config, pathExists: string -> bool): (r: Result<VectorStore>)
    ensures !pathExists(PersistDirectory(arg, c)) ==>
              r == Err(FileNotFoundError(StoreNotFound(PersistDirectory(arg, c))))
    ensures pathExists(PersistDirectory(arg, c)) && GetEmbeddings(c).Err? ==>
              r == Err(Wrap("Failed to load vector store", GetEmbeddings(c).error))
    ensures r.Ok? <==> pathExists(PersistDirectory(arg, c)) && KnownProvider(c.llmProvider)
    ensures r.Ok? ==> r.value.directory == PersistDirectory(arg, c)
                      && r.value.collection == c.chromaCollectionName
                      && Ok(r.value.embeddings) == GetEmbeddings(c)
  {
    var dir := PersistDirectory(arg, c);
    if !pathExists(dir) then Err(FileNotFoundError(StoreNotFound(dir)))
    else match GetEmbeddings(c)
      case Err(e) => Err(Wrap("Failed to load vector store", e))
      case Ok(emb) => Ok(VectorStore(c.chromaCollectionName, emb, dir))
  }
}
