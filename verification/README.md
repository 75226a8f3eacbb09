# Email query bot — a Dafny model of its ingestion, cleaning and query core

The repository is an email assistant. It fetches a Gmail mailbox over IMAP
for a date range, turns every message into a plain-text record, indexes the
records in a Chroma vector store, and answers questions with a chat model
over the retrieved emails, optionally keeping a conversation history. This
project models the logic that sits between the external services:

- **`Fetch`** (`agent_email_fetch.py`, `fetch_emails`):
  - the IMAP search window, built from `datetime.strptime` and the day
    after the end date, rendered as the `DD-Mon-YYYY` date text of RFC 3501
    (sections 6.4.4 and 9); the calendar is in `Calendar`;
  - the best-effort message loop;
  - the choice of a body among the MIME parts;
  - the HTML-to-text rewrite chain.
- **`Vector`** (`agent_email_vector.py`):
  - `clean_email`, an ordered chain of regex substitutions and
    `str.replace` calls ending in a fixed header;
  - `build_vector_store`, the empty-list check, the key check and the
    parallel texts/metadatas lists.
- **`Query`** (`agent_email_query.py`):
  - `SimpleConversationMemory`, a class whose `messages` field is appended
    to;
  - the `k` defaulting rule;
  - the numbered context builder, a loop;
  - `query_emails`.
- **`Providers`**: `get_embeddings`, `get_llm` and `load_vector_store`.
- **`Settings`** (`config.py`): the configuration record read from the
  environment, and `Config.validate`, which collects errors step by step.
- **`Workflow`**: the build-time hand-over from `fetch_emails` to
  `build_vector_store`.

The regular expressions are modelled as dedicated left-to-right matchers,
one per pattern, in `Patterns`. A single scanner `Sub` models `re.sub`:

- at each position it tries the pattern, and replaces and jumps past the
  match when there is one;
- otherwise it copies one character.

`str.replace` is `Sub` with a literal pattern. `PatternFacts` proves what
each pattern does and does not remove. `Text` holds Python's notions of
whitespace, `str.split`, `" ".join`, `str.strip` and decimal rendering.
`Common` holds `Option`, `Result` and the Python exception kinds.

External services are parameters:

- the IMAP SEARCH and FETCH replies;
- the reply parser `EmailReplyParser.parse_reply`;
- `uuid.uuid4()`, an id source indexed by position;
- `os.path.exists`;
- the similarity search and the chat model's `invoke`.

Constructed LangChain objects are data holding the arguments they are built
with.

Behaviour kept as the code has it:

- `k = 0` is falsy, so it falls back to `DEFAULT_RETRIEVAL_COUNT` rather than
  retrieving nothing (`Query.ZeroKRetrievesDefault`).
- In a multipart message the HTML fallback is the last decodable `text/html`
  part before the first decodable `text/plain` part, not the first one
  (`Fetch.LastHtmlIsLast`).
- The two comment removals of agent_email_fetch.py:140-141 rewrite
  `html_body`, which is never read again. They are not part of the fetch
  chain (`Fetch.HtmlToText`).
- Tags are stripped before entities are decoded, so `&lt;b&gt;` survives
  cleaning as a literal `<b>` (`Vector.EscapedTagSurvives`).
- `&amp;` is decoded before `&lt;`, so `&amp;lt;` becomes `<`
  (`Fetch.DoubleEscapedDecoded`).
- `\s+\d+\s+` consumes the blank after a number, so of two numbers
  separated by one blank only the first is removed: `a 1 2 b` becomes
  `a 2 b` (`PatternFacts.AdjacentNumbersExample`).

## Model

| member | source | states |
|---|---|---|
| Text.Lower | config.py:24 | lower-casing keeps the length and lower-cases every character |
| Text.Normalize | agent_email_fetch.py:147 | `" ".join(s.split())` is in normal form (no edge whitespace, single spaces between words) and is empty exactly when `s` has no word |
| Text.NormalizeIdempotent | agent_email_fetch.py:147 | normalising keeps the words of the text, and normalising twice is normalising once |
| Text.SplitJoin | agent_email_fetch.py:147 | splitting the single-space join of words gives back the words |
| Text.Strip | agent_email_vector.py:83 | the stripped text is a slice of the input that neither starts nor ends with whitespace, and everything cut off before and after it is whitespace |
| Text.DecimalRoundTrip | agent_email_query.py:143 | the decimal rendering of a document number reads back as that number |
| Text.JoinContains | config.py:86 | every joined part occurs as a contiguous slice of the joined text |
| Patterns.Find | agent_email_vector.py:46-47 | a lazy `.*?close` stops at the first occurrence of `close` after the start, and finds none only when there is none |
| Patterns.SubSkip | agent_email_vector.py:46-73 | positions where the pattern does not match are copied unchanged |
| Patterns.SubUnchanged | agent_email_vector.py:46-73 | a pattern that matches nowhere leaves the text unchanged |
| Patterns.DeleteKeepsOnlyInput | agent_email_vector.py:50 | deleting matches never lengthens the text and never introduces a character |
| Patterns.SubWithoutLeadChar | agent_email_vector.py:46-69 | a pattern whose matches must start with a given character changes nothing in text without that character |
| Patterns.ChainAppend | agent_email_vector.py:53-56 | running the replacement table in two parts is running it whole |
| Patterns.ChainWithoutLeadChar | agent_email_fetch.py:123-138 | entity replacements all start with `&`, so text without `&` passes the whole table unchanged |
| PatternFacts.StripTagsIdempotent | agent_email_vector.py:50 | after `<[^>]+>` is removed no tag is left, and removing tags again changes nothing |
| PatternFacts.BlockRemoved | agent_email_vector.py:46-47 | the first `<style ...>...</style>` (or script) block of the text, with tag names in any letter case and any body in which no closing tag of that name starts, is deleted with everything inside it: the text before it is kept and the scan resumes right after its closing tag |
| PatternFacts.BlockRemovedFrom | agent_email_vector.py:46-47 | the same for a block met later in the scan: text without a match before the block is kept, the block is deleted, and the scan resumes after its closing tag, so every block is removed |
| PatternFacts.BlockMatch | agent_email_vector.py:46-47 | a block matches from `<tag` (any case) through `[^>]*>` up to the end of the first closing tag after it, the shortest match across any characters |
| PatternFacts.BlockBetweenText | agent_email_vector.py:46-47 | a block with no match before it, followed by text that contains no `<tag` in any case, is deleted and the text on both sides is kept as it is |
| PatternFacts.FirstCloseTagEndsBlock | agent_email_vector.py:46 | `<style>a</style>b</style>` becomes `b</style>`: the match stops at the first closing tag |
| PatternFacts.UpperCaseBlockRemoved | agent_email_vector.py:46 | `a<STYLE x>b</Style>c` becomes `ac`: tag names match in any case, with attributes |
| PatternFacts.CommentedBlockRemoved | agent_email_vector.py:46 | `<!--<style>x</style>-->` becomes `<!---->`: a block inside an HTML comment is removed before comments are |
| PatternFacts.EveryBlockRemoved | agent_email_vector.py:46 | `<style>a</style>b<style>c</style>d` becomes `bd`: every block is removed, not only the first |
| PatternFacts.CollapseShape | agent_email_vector.py:82 | replacing every whitespace run by one space yields the normal form `" ".join(s.split())` with one space added in front when the text starts with whitespace and one at the end when it ends with whitespace after a word |
| PatternFacts.CollapseThenStrip | agent_email_vector.py:82-83 | collapsing every whitespace run to one space and then stripping equals `" ".join(s.split())` |
| PatternFacts.LeadingNumberRemoved | agent_email_vector.py:72 | a leading digit run and the whitespace after it are removed, and the rest is kept |
| PatternFacts.LeadingNumberAbsent | agent_email_vector.py:72 | text that does not start with a digit run followed by whitespace is left as it is |
| PatternFacts.SpacedNumberNeedsDigit | agent_email_vector.py:73 | text without digits keeps its whitespace runs as they are |
| PatternFacts.SpacedNumberReplaced | agent_email_vector.py:73 | whitespace, a digit run and whitespace, with no match before them, become a single space, and the scan resumes after the whole trailing whitespace run |
| PatternFacts.SpacedNumberBeforeText | agent_email_vector.py:73 | when the text after such a run holds no digit, the result is the text before, one space, and the text after unchanged |
| PatternFacts.AdjacentNumbersShareBlank | agent_email_vector.py:73 | of two numbers separated by one whitespace run, the first match consumes that run, so the second number and the whitespace after it are kept |
| PatternFacts.AdjacentNumbersExample | agent_email_vector.py:73 | `a 1 2 b` becomes `a 2 b` |
| PatternFacts.CssDeclarationMatched | agent_email_vector.py:65 | `name: value;` at the start of the text is matched up to and including the semicolon |
| PatternFacts.CssDeclarationNeedsColon | agent_email_vector.py:65 | text without `:` contains no CSS declaration |
| PatternFacts.HtmlCommentNeedsBang | agent_email_vector.py:59 | text without `!` contains no HTML comment |
| PatternFacts.LiteralNeedsChar | agent_email_vector.py:53-56 | `str.replace` of a string with a character missing from the text changes nothing |
| PatternFacts.DecodeLeading | agent_email_vector.py:53 | a search string at the front, whose rest lacks the string's second character, is replaced exactly once |
| PatternFacts.DecodeTrailing | agent_email_vector.py:54 | a search string at the end, whose front lacks its first character, is replaced exactly once |
| PatternFacts.ChainRestWithoutLeadChar | agent_email_vector.py:53-56 | once the first entries leave no `&`, the remaining entity replacements change nothing |
| Calendar.DaysInMonth | agent_email_fetch.py:50 | months have 28 to 31 days, and 29 exactly for February of a Gregorian leap year |
| Calendar.BeforeIsOrdinalOrder | agent_email_fetch.py:48-50 | calendar order is the order of day numbers, and equal days have equal numbers |
| Calendar.NextDay | agent_email_fetch.py:50 | `+ timedelta(days=1)` gives a valid day, and fails only after 9999-12-31 (an `OverflowError`) |
| Calendar.NextDayOrdinal | agent_email_fetch.py:50 | the next day's number is one more |
| Calendar.NextDayIsSuccessor | agent_email_fetch.py:50 | a day is before the next day of `d` exactly when it is not after `d` |
| Calendar.ParseIsoDate | agent_email_fetch.py:49-51 | a successful `strptime(s, "%Y-%m-%d")` returns a valid day whose year is the four leading digits, whose month is the month field after the first `-`, and whose day is the day field after the second `-`, which must end the text |
| Calendar.ParseIsoDateOk | agent_email_fetch.py:49-51 | conversely, four digits, `-`, a month field, `-` and a day field ending the text that name an existing day are parsed as that day |
| Calendar.IsoRoundTrip | agent_email_fetch.py:49 | every valid day written `YYYY-MM-DD` parses back to itself |
| Calendar.ImapDateRoundTrip | agent_email_fetch.py:50-51 | the `DD-Mon-YYYY` text of a day reads back as that day |
| Calendar.SearchWindowOf | agent_email_fetch.py:48-53 | the search uses the start day unchanged and the day after the end day, both as `DD-Mon-YYYY` in `(SINCE "…" BEFORE "…")`, and fails only when a date does not parse or the end day is the last representable one |
| Calendar.WindowIsInclusive | agent_email_fetch.py:48-53 | a day is inside the SINCE/BEFORE window exactly when it lies from the start date to the end date, both included |
| Fetch.FirstPlain | agent_email_fetch.py:76-83 | the walk stops at the first `text/plain` part whose payload decodes, even to "", and parts before it are not such parts |
| Fetch.LastHtmlIsLast | agent_email_fetch.py:84-91 | the HTML fallback holds the payload of the last decodable HTML part met |
| Fetch.LastHtmlNone | agent_email_fetch.py:84-91 | with no decodable HTML part the fallback stays "" |
| Fetch.SelectMultipartBodies | agent_email_fetch.py:75-91 | the walk loop with `break` yields the first decoded plain payload and the last decoded HTML payload before it |
| Fetch.SinglePartBodies | agent_email_fetch.py:92-103 | an empty or undecodable payload leaves both bodies empty; an HTML payload goes to `html_body`; any other type goes to `body` |
| Fetch.HtmlToText | agent_email_fetch.py:106-147 | the converted HTML is in whitespace normal form |
| Fetch.BodyOf | agent_email_fetch.py:105-147 | a non-empty plain body is stored verbatim; otherwise a non-empty HTML body is converted; otherwise the body is "" |
| Fetch.HtmlToTextOfPlainText | agent_email_fetch.py:106-147 | text without `<`, `&`, `:` or `{` is only whitespace-normalised by the chain |
| Fetch.EntitiesOfPlainText | agent_email_fetch.py:123-138 | text without `&` passes the entity replacements unchanged |
| Fetch.DoubleEscapedDecoded | agent_email_fetch.py:123-128 | `&amp;` is replaced before `&lt;`, so `&amp;lt;` comes out as `<` |
| Fetch.HtmlToTextNormalised | agent_email_fetch.py:147 | normalising the converted body again changes nothing |
| Fetch.RecordOf | agent_email_fetch.py:66-70 | a record exists exactly when From and Subject are present; it carries them, the raw Date and the chosen body |
| Fetch.DecodeMessage | agent_email_fetch.py:66-156 | decoding one message step by step gives exactly the record (or the `TypeError` of a missing header) |
| Fetch.CollectStep | agent_email_fetch.py:61-64 | a non-OK fetch is skipped, an OK fetch appends its record, and a header failure aborts |
| Fetch.CollectKeepsOkInOrder | agent_email_fetch.py:59-64 | on success there is one record per OK-fetched id, in search order, so at most one per id |
| Fetch.CollectFailsOnMissingHeader | agent_email_fetch.py:61-69 | the loop fails exactly when some OK-fetched message lacks From or Subject |
| Fetch.FetchEmails | agent_email_fetch.py:48-163 | the loop over the searched ids returns the records of the specification function, errors wrapped as "Failed to fetch emails" |
| Fetch.SearchNotOkGivesNoEmails | agent_email_fetch.py:56-57 | a non-OK search status returns no emails and raises nothing |
| Fetch.FetchedEmailsInOrder | agent_email_fetch.py:56-64 | the returned records are those of the OK-fetched ids, in search order |
| Settings.Getenv | config.py:16-42 | `os.getenv(key, default)` gives the set value, or the default when unset |
| Settings.FromEnv | config.py:24 | the provider is read lower-cased, and the retrieval count is the parsed one |
| Settings.Bullets | config.py:86 | one `  - ` bullet per error, in order |
| Settings.ReportListsEveryError | config.py:83-87 | the raised message contains every collected error as a bullet |
| Settings.Validate | config.py:44-89 | returns True exactly when no check fails, and otherwise raises `ValueError` listing every error in check order |
| Settings.CheckRequired | config.py:49-59 | appends the required-field errors in field order |
| Settings.CheckProvider | config.py:61-67 | appends the provider-name error, if any |
| Settings.CheckProviderSettings | config.py:69-81 | appends the chosen provider's setting errors |
| Settings.ValidIff | config.py:44-89 | validation passes exactly when the four required fields are set, the provider is ollama or gemini, and that provider's settings are set |
| Settings.RequiredFieldErrors | config.py:50-59 | each empty required field contributes exactly one error, and its message appears exactly when the field is empty |
| Settings.RestHasNoRequiredMessage | config.py:62-81 | the provider checks never produce a required-field message |
| Settings.ProviderNameErrors | config.py:62-67 | an empty provider gives the "required" error, an unknown one the "must be" error, and never both |
| Settings.ProviderSpecificErrors | config.py:70-81 | ollama adds one error per empty base URL, LLM model or embedding model; gemini one for an empty API key; other providers none |
| Settings.UpperCaseOllamaPasses | config.py:24-29 | `LLM_PROVIDER=OLLAMA`, with the four required fields set and the three Ollama settings left at their defaults, is read as "ollama" and passes validation |
| Providers.GetEmbeddings | agent_email_query.py:28-51 | "ollama" and "gemini" select the matching client with the configured settings; any other provider raises `ValueError` |
| Providers.GetLlm | agent_email_query.py:54-79 | "ollama" and "gemini" select the matching chat model; any other provider raises `ValueError` |
| Providers.ValidatedConfigBuildsClients | agent_email_query.py:28-79 | after validation both constructors succeed with non-empty settings |
| Providers.PersistDirectory | agent_email_query.py:95 | a missing or empty directory argument falls back to the configured one |
| Providers.LoadVectorStore | agent_email_query.py:82-115 | a missing directory raises `FileNotFoundError` before any embeddings are built; provider errors are wrapped as "Failed to load vector store" |
| Vector.CleanBody | agent_email_vector.py:46-83 | the cleaned body is the normal form of the parsed reply of the rewritten text |
| Vector.CleanBodyNormalised | agent_email_vector.py:82-83 | the cleaned body is a fixed point of whitespace normalisation |
| Vector.Render | agent_email_vector.py:85-90 | an f-string shows a string as itself and `None` as "None" |
| Vector.CleanEmail | agent_email_vector.py:42-92 | succeeds exactly when the four keys are present and the body is a string; a missing body raises `KeyError('body')`; the result is the fixed header followed by the cleaned body |
| Vector.IndexedTextRoundTrip | agent_email_vector.py:85-90 | sender, subject, date and body can be read back off the indexed text when the fields have no line break |
| Vector.IndexEntitiesExtendFetch | agent_email_vector.py:53-56 | the indexing entity table is the fetch table followed by `&copy;` and `&reg;` |
| Vector.PrepareOutcome | agent_email_vector.py:119-135 | a missing key is reported as an invalid structure, and a passing email yields its cleaned text and its sender/subject/date metadata |
| Vector.PrepareAllParallel | agent_email_vector.py:119-135 | on success the texts and metadatas run parallel to the input, the i-th from the i-th email and the i-th id |
| Vector.PrepareAllStep | agent_email_vector.py:119-135 | one loop turn appends one text and one metadata entry, or raises |
| Vector.PrepareAllFirstFailure | agent_email_vector.py:119-124 | the loop succeeds exactly when every email passes, and otherwise raises the first failing email's error |
| Vector.PrepareAllStops | agent_email_vector.py:119-124 | once the loop has raised, later emails do not change the outcome |
| Vector.PrepareEmails | agent_email_vector.py:115-135 | the loop builds exactly the two lists of the specification function or raises its error |
| Vector.BuildVectorStore | agent_email_vector.py:95-150 | an empty list raises `ValueError`; otherwise the prepared lists, the embeddings and the collection are handed to Chroma, and errors are wrapped as "Failed to build vector store" |
| Vector.EmptyListNotWrapped | agent_email_vector.py:110-111 | an empty list raises `ValueError("Email list cannot be empty")`, raised before the `try` block and therefore not wrapped |
| Vector.InvalidEmailReportedBeforeProvider | agent_email_vector.py:119-150 | a malformed email raises the structure error even when the provider is unsupported, so embeddings are never requested |
| Vector.AfterEntitiesUnchanged | agent_email_vector.py:58-73 | text without `!`, `/`, `:`, `@`, `{` or digits passes the comment, CSS and number steps unchanged |
| Vector.EscapedTagDecoded | agent_email_vector.py:53-54 | the first four replacements turn `&lt;b&gt;` into `<b>` |
| Vector.BasicEntitiesDecideAmp | agent_email_vector.py:53-56 | once the first four replacements leave no `&`, the rest of the table changes nothing |
| Vector.PreReplyOfTagFreeText | agent_email_vector.py:46-73 | tag-free text whose decoded form has no comment, CSS or digit character leaves the pre-parser steps as that decoded form |
| Vector.EscapedTagSurvives | agent_email_vector.py:46-56 | tags are removed before entities are decoded, so `&lt;b&gt;` survives as `<b>` |
| Workflow.AsEmail | agent_email_fetch.py:149-156 | a fetched record becomes a dictionary with the four keys and a string body |
| Workflow.FetchedRecordCleans | agent_email_vector.py:42-92 | every fetched record passes `clean_email`, giving its header and cleaned body |
| Workflow.AsEmails | agent_email_fetch.py:149-158 | the fetched list keeps one dictionary per record, in order |
| Workflow.FetchedBatchIndexes | agent_email_vector.py:110-150 | a non-empty fetched batch is indexed exactly when the provider is supported, with one text and one metadata entry per record |
| Query.SavedTurn | agent_email_query.py:20-25 | a saved turn is the user message when "input" is given, then the AI message when "output" is given |
| Query.FullTurn | agent_email_query.py:185 | a full turn saves exactly the question and then the answer |
| Query.SimpleConversationMemory.constructor | agent_email_query.py:16-18 | a new memory is empty, with key "chat_history" |
| Query.SimpleConversationMemory.SaveContext | agent_email_query.py:20-25 | appends the saved turn and keeps the earlier history as a prefix |
| Query.EffectiveK | agent_email_query.py:134 | a missing or zero `k` falls back to the default; any other `k` is kept |
| Query.ZeroKRetrievesDefault | agent_email_query.py:134 | `k = 0` retrieves the default count, not zero documents |
| Query.EmailBlock | agent_email_query.py:143-145 | a block starts with `\n--- Email ` followed by the document number, ends with a line break, and holds the document text right before that final line break |
| Query.BuildContext | agent_email_query.py:141-145 | the `context +=` loop builds the numbered blocks of the documents in retrieval order |
| Query.ContextEmptyIff | agent_email_query.py:141-145 | the context is empty exactly when no document was retrieved |
| Query.ContextPrefix | agent_email_query.py:141-145 | the context of the first j documents is a prefix of the whole context |
| Query.ContextBlockAt | agent_email_query.py:142-145 | the k-th document sits in its own block numbered k + 1, right after the blocks before it |
| Query.PromptFor | agent_email_query.py:151-208 | with memory the prompt carries the history and the follow-up system text; without memory it carries no history |
| Query.QueryOutcome | agent_email_query.py:118-213 | the answer is the model's reply to the prompt built from the retrieved context; any search, provider or model failure is raised as "Failed to query emails" |
| Query.QueryEmails | agent_email_query.py:118-213 | with memory the history is appended with the question and the answer only on success and is unchanged on failure; the result is the specification's |
| Query.ZeroKSameAsNone | agent_email_query.py:134-138 | a query with `k = 0` behaves as one without `k` |
| Query.UnknownProviderFailsQuery | agent_email_query.py:148 | an unsupported provider makes the query fail with the wrapped provider error |

## Left out

- IMAP transport is left out, because it is network I/O. This covers the connection, login, `select`, the `close`/`logout` clean-up, and the "IMAP authentication failed" wrapping of `imaplib` errors. SEARCH and FETCH replies are inputs.
- The Python `email` library is left out, because it is a foreign library: `message_from_bytes`, `walk`, `get_payload(decode=True)`, charset decoding, and RFC 2047 header decoding in `decode`. Decoded headers and part payloads are inputs, and an absent From/Subject header stands for the `TypeError` its decoding raises.
- `EmailReplyParser.parse_reply` is a third-party heuristic. It is the parameter `parseReply`.
- Chroma, the embedding models, the chat models, and LangChain's prompt and chain objects are external services. The similarity search and `invoke` are parameters; clients and prompts are data. Failures inside the Chroma constructors are not modelled.
- `uuid.uuid4()` is randomness. It is the id source `newId`, indexed by the email's position.
- `load_dotenv`, `os.getenv` and `os.path.exists` are I/O. The environment is a map and the existence check a parameter.
- The `__main__` agent demo of agent_email_fetch.py is not part of this model.
- Settings.FromEnv: the float parse of `LLM_TEMPERATURE` is not modelled, because it uses floating point. The `int` parse of `DEFAULT_RETRIEVAL_COUNT` is given as the parameter `retrievalCount`.
- Text.Lower: models `str.lower()` on ASCII letters only, because Unicode case mapping is outside the model. `\d`, `\w`, `\b` and `re.IGNORECASE` are likewise ASCII.
- Fetch.HtmlToText: its contract states only the normal form of the result. Exactly what the chain removes is stated by the pattern lemmas instead, because the heuristic CSS patterns have no simpler characterisation.
- Calendar.NoMatchError: the text is quoted with `'…'`, while `strptime` writes it with `repr`. The two differ only when the text holds a quote, a backslash or an unprintable character.
