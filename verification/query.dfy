/** The query side of agent_email_query.py: the session memory, the `k`
    defaulting rule, the numbered context assembly and `query_emails`.
    Similarity search and the chat model's `invoke` are external services,
    given as functions that return a result or fail. */
module Query {
  import opened Common
  import opened Text
  import opened Settings
  import opened Providers

  // ---------------------------------------------------------------------------
  // SimpleConversationMemory (lines 13-25)

  /** One message of the chat history. */
  datatype ChatMessage = UserMessage(content: string) | AiMessage(content: string)

  /** What one `save_context` call appends: the user message when `inputs`
      has an "input" key, then the AI message when `outputs` has an "output"
      key. */
  function SavedTurn(inputs: map<string, string>, outputs: map<string, string>): (r: seq<ChatMessage>)
    ensures |r| == (if "input" in inputs then 1 else 0) + (if "output" in outputs then 1 else 0)
    ensures "input" in inputs ==> r[0] == UserMessage(inputs["input"])
    ensures "output" in outputs ==> r[|r| - 1] == AiMessage(outputs["output"])
    ensures forall m :: m in r ==> (m.UserMessage? ==> "input" in inputs) && (m.AiMessage? ==> "output" in outputs)
  {
    (if "input" in inputs then [UserMessage(inputs["input"])] else [])
      + (if "output" in outputs then [AiMessage(outputs["output"])] else [])
  }

  /** A full turn saves exactly the user message followed by the answer. */
  lemma FullTurn(question: string, answer: string)
    ensures SavedTurn(map["input" := question], map["output" := answer])
              == [UserMessage(question), AiMessage(answer)]
  {
  }

  /** Session memory: an append-only list of chat messages. */
  class SimpleConversationMemory {
    var messages: seq<ChatMessage>
    const memoryKey: string

    constructor ()
      ensures messages == [] && memoryKey == "chat_history"
    {
      messages := [];
      memoryKey := "chat_history";
    }

    /** `save_context`: appends the turn and changes nothing else; the
        earlier history is kept as a prefix. */
    method SaveContext(inputs: map<string, string>, outputs: map<string, string>)
      modifies this
      ensures messages == old(messages) + SavedTurn(inputs, outputs)
      ensures old(messages) <= messages
    {
      if "input" in inputs {
        messages := messages + [UserMessage(inputs["input"])];
      }
      if "output" in outputs {
        messages := messages + [AiMessage(outputs["output"])];
      }
    }
  }

  // ---------------------------------------------------------------------------
  // k defaulting (line 134)

  /** `k or config.DEFAULT_RETRIEVAL_COUNT`: `None` and `0` are falsy and
      fall back to the default; any other count is kept. */
  function EffectiveK(k: Option<int>, default: int): (r: int)
    ensures k.Some? && k.value != 0 ==> r == k.value
    ensures k.None? || k.value == 0 ==> r == default
  {
    if k.Some? && k.value != 0 then k.value else default
  }

  /** Asking for zero documents does not give an empty retrieval when the
      default is positive: it gives the default count. */
  lemma ZeroKRetrievesDefault(default: int)
    requires default > 0
    ensures EffectiveK(Some(0), default) == default == EffectiveK(None, default)
    ensures EffectiveK(Some(0), default) != 0
  {
  }

  // ---------------------------------------------------------------------------
  // Context assembly (lines 141-145)

  /** The block for the `i`-th retrieved document, numbered from 1. */
  function EmailBlock(i: nat, content: string): (b: string)
    ensures |b| > |content| + 1
    ensures |b| >= 11 && b[..11] == "\n--- Email " && b[|b| - 1] == '\n'
    ensures SliceAt(b, 11, NatToString(i))
    ensures SliceAt(b, |b| - |content| - 1, content)
  {
    "\n--- Email " + NatToString(i) + " ---\n" + content + "\n"
  }

  /** The context for `docs`: the blocks of the documents numbered 1..n, in
      retrieval order. */
  function ContextOf(docs: seq<string>): string
    decreases |docs|
  {
    if docs == [] then ""
    else ContextOf(docs[..|docs| - 1]) + EmailBlock(|docs|, docs[|docs| - 1])
  }

  /** The loop `context += ...` over `enumerate(relevant_docs, 1)`. */
  method BuildContext(docs: seq<string>) returns (context: string)
    ensures context == ContextOf(docs)
  {
    context := "";
    var i := 0;
    while i < |docs|
      invariant 0 <= i <= |docs|
      invariant context == ContextOf(docs[..i])
    {
      assert docs[..i + 1][..i] == docs[..i];
      context := context + "\n--- Email " + NatToString(i + 1) + " ---\n";
      context := context + docs[i];
      context := context + "\n";
      i := i + 1;
    }
    assert docs[..i] == docs;
  }

  /** No documents give the empty context, and any document gives a
      non-empty one. */
  lemma ContextEmptyIff(docs: seq<string>)
    ensures ContextOf(docs) == "" <==> docs == []
  {
  }

  /** The context for the first `j` documents is a prefix of the context
      for all of them: later documents only add blocks at the end. */
  lemma {:induction false} ContextPrefix(docs: seq<string>, j: nat)
    requires j <= |docs|
    ensures ContextOf(docs[..j]) <= ContextOf(docs)
    decreases |docs|
  {
    if j < |docs| {
      var init := docs[..|docs| - 1];
      assert init[..j] == docs[..j];
      ContextPrefix(init, j);
      assert ContextOf(docs) == ContextOf(init) + EmailBlock(|docs|, docs[|docs| - 1]);
    } else {
      assert docs[..j] == docs;
    }
  }

  /** The `k`-th document (from 0) appears in the context in its own block,
      numbered `k + 1`, right after the blocks of the documents before it. */
  lemma ContextBlockAt(docs: seq<string>, k: nat)
    requires k < |docs|
    ensures SliceAt(ContextOf(docs), |ContextOf(docs[..k])|, EmailBlock(k + 1, docs[k]))
  {
    var pre := docs[..k + 1];
    assert pre[..k] == docs[..k];
    assert ContextOf(pre) == ContextOf(docs[..k]) + EmailBlock(k + 1, docs[k]);
    ContextPrefix(docs, k + 1);
    PrefixSlice(ContextOf(docs), ContextOf(docs[..k]), EmailBlock(k + 1, docs[k]));
  }

  /** The second half of a prefix `a + b` sits right after `a`. */
  lemma PrefixSlice(c: string, a: string, b: string)
    requires a + b <= c
    ensures SliceAt(c, |a|, b)
  {
    assert c[|a|..|a| + |b|] == (a + b)[|a|..];
  }

  // ---------------------------------------------------------------------------
  // query_emails (lines 118-213)

  const SystemPrompt :=
    "You are an intelligent email assistant. Answer the user's question based on the provided email context.\n"
    + "Be concise, accurate, and helpful. If the context doesn't contain enough information to answer the question, say so.\n"
    + "When counting or listing emails, be specific and accurate based on the provided context."

  /** The system prompt used with memory: one more sentence about follow-up
      questions. */
  const MemorySystemPrompt :=
    SystemPrompt + "\nYou can refer to previous conversation context when answering follow-up questions."

  /** The user message of both templates, with `{context}` and `{question}`
      filled in. */
  function UserPrompt(context: string, question: string): string {
    "Context (Retrieved Emails):\n" + context + "\n\nQuestion: " + question + "\n\nAnswer:"
  }

  /** A rendered prompt: the system message, the chat history placeholder
      (present only in the template with memory), and the user message. */
  datatype Prompt = Prompt(system: string, history: Option<seq<ChatMessage>>, user: string)

  /** The prompt for one query: with a history, the memory template; without
      one, the plain template. */
  function PromptFor(context: string, question: string, history: Option<seq<ChatMessage>>): (p: Prompt)
    ensures p.history == history
    ensures p.user == UserPrompt(context, question)
    ensures p.system == (if history.Some? then MemorySystemPrompt else SystemPrompt)
  {
    if history.Some? then Prompt(MemorySystemPrompt, history, UserPrompt(context, question))
    else Prompt(SystemPrompt, None, UserPrompt(context, question))
  }

  const QueryFailed := "Failed to query emails"

  /** What `query_emails` returns or raises, given the history the memory
      held before the call (`None` without memory). Any failure of the
      search, of `get_llm` or of `invoke` is re-raised as
      "Failed to query emails: ...". */
  function QueryOutcome(store: VectorStore, question: string, history: Option<seq<ChatMessage>>,
                        k: Option<int>, c: Config,
                        search: (VectorStore, string, int) -> Result<seq<string>>,
                        invoke: (ChatModel, Prompt) -> Result<string>): (r: Result<string>)
    ensures r.Err? ==> r.error.Exception?
    ensures search(store, question, EffectiveK(k, c.defaultRetrievalCount)).Err? ==>
              r == Err(Wrap(QueryFailed, search(store, question, EffectiveK(k, c.defaultRetrievalCount)).error))
    ensures search(store, question, EffectiveK(k, c.defaultRetrievalCount)).Ok? && GetLlm(c).Err? ==>
              r == Err(Wrap(QueryFailed, GetLlm(c).error))
    ensures r.Ok? <==>
              search(store, question, EffectiveK(k, c.defaultRetrievalCount)).Ok? && GetLlm(c).Ok?
              && invoke(GetLlm(c).value, PromptFor(ContextOf(search(store, question, EffectiveK(k, c.defaultRetrievalCount)).value), question, history)).Ok?
    ensures r.Ok? ==>
              Ok(r.value) == invoke(GetLlm(c).value,
                                    PromptFor(ContextOf(search(store, question, EffectiveK(k, c.defaultRetrievalCount)).value), question, history))
  {
    match search(store, question, EffectiveK(k, c.defaultRetrievalCount))
    case Err(e) => Err(Wrap(QueryFailed, e))
    case Ok(docs) =>
      match GetLlm(c)
      case Err(e) => Err(Wrap(QueryFailed, e))
      case Ok(llm) =>
        match invoke(llm, PromptFor(ContextOf(docs), question, history))
        case Err(e) => Err(Wrap(QueryFailed, e))
        case Ok(answer) => Ok(answer)
  }

  /** `query_emails`. With a memory, the history it held is passed to the
      model, and the question and answer are appended only once the model
      has answered; a failure leaves the history as it was. Without a
      memory, no history is passed. */
  method QueryEmails(store: VectorStore, question: string, memory: SimpleConversationMemory?,
                     k: Option<int>, c: Config,
                     search: (VectorStore, string, int) -> Result<seq<string>>,
                     invoke: (ChatModel, Prompt) -> Result<string>) returns (r: Result<string>)
    modifies memory
    ensures memory == null ==> r == QueryOutcome(store, question, None, k, c, search, invoke)
    ensures memory != null ==> r == QueryOutcome(store, question, Some(old(memory.messages)), k, c, search, invoke)
    ensures memory != null && r.Ok? ==>
              memory.messages == old(memory.messages) + [UserMessage(question), AiMessage(r.value)]
    ensures memory != null && r.Err? ==> memory.messages == old(memory.messages)
  {
    var n := EffectiveK(k, c.defaultRetrievalCount);
    var found := search(store, question, n);
    if found.Err? {
      return Err(Wrap(QueryFailed, found.error));
    }
    var context := BuildContext(found.value);
    var llm := GetLlm(c);
    if llm.Err? {
      return Err(Wrap(QueryFailed, llm.error));
    }
    if memory != null {
      var response := invoke(llm.value, PromptFor(context, question, Some(memory.messages)));
      if response.Err? {
        return Err(Wrap(QueryFailed, response.error));
      }
      FullTurn(question, response.value);
      memory.SaveContext(map["input" := question], map["output" := response.value]);
      r := Ok(response.value);
    } else {
      var response := invoke(llm.value, PromptFor(context, question, None));
      if response.Err? {
        return Err(Wrap(QueryFailed, response.error));
      }
      r := Ok(response.value);
    }
  }

  /** `k = 0` and no `k` run the same query. */
  lemma ZeroKSameAsNone(store: VectorStore, question: string, history: Option<seq<ChatMessage>>, c: Config,
                        search: (VectorStore, string, int) -> Result<seq<string>>,
                        invoke: (ChatModel, Prompt) -> Result<string>)
    ensures QueryOutcome(store, question, history, Some(0), c, search, invoke)
            == QueryOutcome(store, question, history, None, c, search, invoke)
  {
  }

  /** An unsupported provider makes every query fail once the search has
      succeeded, with the provider error wrapped. */
  lemma UnknownProviderFailsQuery(store: VectorStore, question: string, history: Option<seq<ChatMessage>>,
                                  k: Option<int>, c: Config,
                                  search: (VectorStore, string, int) -> Result<seq<string>>,
                                  invoke: (ChatModel, Prompt) -> Result<string>)
    requires !KnownProvider(c.llmProvider)
    requires search(store, question, EffectiveK(k, c.defaultRetrievalCount)).Ok?
    ensures QueryOutcome(store, question, history, k, c, search, invoke)
            == Err(Exception(QueryFailed + ": " + UnsupportedProvider(c.llmProvider)))
  {
  }
}
