/** The indexing side of agent_email_vector.py: `clean_email`, an ordered
    chain of rewrites ending in whitespace normalisation and a fixed header,
    and `build_vector_store`, which checks the batch and prepares the
    parallel lists of texts and metadata handed to Chroma. */
module Vector {
  import opened Common
  import opened Text
  import opened Patterns
  import opened PatternFacts
  import opened Settings
  import opened Providers
  import opened Fetch

  /** The entity replacements of lines 53-56, in the order they run. */
  const IndexEntities: seq<(string, string)> := [
    ("&nbsp;", " "), ("&amp;", "&"), ("&lt;", "<"), ("&gt;", ">"),
    ("&quot;", "\""), ("&#39;", "'"), ("&apos;", "'"),
    ("&mdash;", "\U{2014}"), ("&ndash;", "\U{2013}"), ("&hellip;", "..."),
    ("&copy;", "(c)"), ("&reg;", "(R)")
  ]

  /** Steps 1-6 of `clean_email` (lines 46-73): style and script blocks,
      tags, entities, comments, CSS, and stray numbers. */
  function PreReply(body: string): string {
    var noStyle := Sub(Block("style"), body, "");
    var noScript := Sub(Block("script"), noStyle, "");
    var noTags := Sub(Tag, noScript, "");
    var decoded := ReplaceChain(noTags, IndexEntities);
    var noHtmlComments := Sub(HtmlComment, decoded, "");
    var noCssComments := Sub(CssComment, noHtmlComments, "");
    var noDecls := Sub(CssDeclaration, noCssComments, "");
    var noAtRules := Sub(AtRule, noDecls, "");
    var noBraces := Sub(BraceBlock, noAtRules, "");
    var noLeadingNumber := Sub(LeadingNumber, noBraces, "");
    Sub(SpacedNumber, noLeadingNumber, " ")
  }

  /** The cleaned body: the reply parser (an opaque third-party heuristic,
      given as `parseReply`) runs on the rewritten text, then every
      whitespace run becomes one space and the ends are stripped
      (lines 76-83). The result is the words of the parsed reply joined by
      single spaces. */
  function CleanBody(body: string, parseReply: string -> string): (r: string)
    ensures r == Normalize(parseReply(PreReply(body)))
    ensures NormalForm(r)
  {
    var reply := parseReply(PreReply(body));
    CollapseThenStrip(reply);
    Strip(Sub(WhitespaceRun, reply, " "))
  }

  /** The cleaned body is a fixed point of whitespace normalisation. */
  lemma CleanBodyNormalised(body: string, parseReply: string -> string)
    ensures Normalize(CleanBody(body, parseReply)) == CleanBody(body, parseReply)
  {
    NormalizeIdempotent(parseReply(PreReply(body)));
  }

  // ---------------------------------------------------------------------------
  // clean_email

  /** An email dictionary: a key maps to a string or to Python's `None`. */
  type Email = map<string, Option<string>>

  predicate HasRequiredKeys(e: Email) {
    "sender" in e && "subject" in e && "date" in e && "body" in e
  }

  /** How an f-string renders a value. */
  function Render(v: Option<string>): (r: string)
    ensures v.Some? ==> r == v.value
    ensures v.None? ==> r == "None"
  {
    if v.Some? then v.value else "None"
  }

  /** The fixed header of lines 85-90. */
  function Header(sender: string, subject: string, date: string): string {
    "Sender: " + sender + "\nSubject: " + subject + "\nDate: " + date + "\n\n"
  }

  /** `clean_email(email)`: a missing key raises `KeyError` at its first
      use (`body` is read first), and a `None` body makes `re.sub` raise
      `TypeError`. */
  function CleanEmail(e: Email, parseReply: string -> string): (r: Result<string>)
    ensures r.Ok? <==> HasRequiredKeys(e) && e["body"].Some?
    ensures "body" !in e ==> r == Err(KeyError("'body'"))
    ensures r.Ok? ==> r.value == Header(Render(e["sender"]), Render(e["subject"]), Render(e["date"]))
                                 + CleanBody(e["body"].value, parseReply)
  {
    if "body" !in e then Err(KeyError("'body'"))
    else if e["body"].None? then Err(TypeError(NoneTypeMessage))
    else
      var body := CleanBody(e["body"].value, parseReply);
      if "sender" !in e then Err(KeyError("'sender'"))
      else if "subject" !in e then Err(KeyError("'subject'"))
      else if "date" !in e then Err(KeyError("'date'"))
      else Ok(Header(Render(e["sender"]), Render(e["subject"]), Render(e["date"])) + body)
  }

  /** The text before the first line break and the text after it, or
      `None` when there is no line break. */
  function SplitLine(s: string): (r: Option<(string, string)>)
    ensures r.Some? ==> '\n' !in r.value.0 && s == r.value.0 + "\n" + r.value.1
    decreases |s|
  {
    if s == [] then None
    else if s[0] == '\n' then Some(("", s[1..]))
    else match SplitLine(s[1..])
      case None => None
      case Some(split) => Some(([s[0]] + split.0, split.1))
  }

  /** A line `tag + value` ending in a line break: its value and the rest. */
  function ReadField(s: string, tag: string): Option<(string, string)> {
    if |tag| <= |s| && s[..|tag|] == tag then SplitLine(s[|tag|..]) else None
  }

  /** Reads the header back off an indexed text: sender, subject, date,
      and the cleaned body. */
  function ParseIndexed(t: string): Option<(string, string, string, string)> {
    match ReadField(t, "Sender: ")
    case None => None
    case Some(f1) =>
      match ReadField(f1.1, "Subject: ")
      case None => None
      case Some(f2) =>
        match ReadField(f2.1, "Date: ")
        case None => None
        case Some(f3) =>
          if f3.1 != [] && f3.1[0] == '\n' then Some((f1.0, f2.0, f3.0, f3.1[1..])) else None
  }

  lemma {:induction false} SplitLineOf(line: string, rest: string)
    requires '\n' !in line
    ensures SplitLine(line + "\n" + rest) == Some((line, rest))
  {
    var s := line + "\n" + rest;
    if line == [] {
      assert s == "\n" + rest;
    } else {
      assert s[1..] == line[1..] + "\n" + rest;
      SplitLineOf(line[1..], rest);
      assert [line[0]] + line[1..] == line;
    }
  }

  lemma ReadFieldOf(tag: string, value: string, rest: string)
    requires '\n' !in value
    ensures ReadField(tag + value + "\n" + rest, tag) == Some((value, rest))
  {
    var s := tag + value + "\n" + rest;
    assert s[..|tag|] == tag;
    assert s[|tag|..] == value + "\n" + rest;
    SplitLineOf(value, rest);
  }

  /** The header is unambiguous: when sender, subject and date contain no
      line break, the indexed text gives back all four parts. */
  lemma IndexedTextRoundTrip(sender: string, subject: string, date: string, body: string)
    requires '\n' !in sender && '\n' !in subject && '\n' !in date
    ensures ParseIndexed(Header(sender, subject, date) + body) == Some((sender, subject, date, body))
  {
    var r3 := "\n" + body;
    var r2 := "Date: " + date + "\n" + r3;
    var r1 := "Subject: " + subject + "\n" + r2;
    HeaderLines(sender, subject, date, body);
    ReadFieldOf("Sender: ", sender, r1);
    ReadFieldOf("Subject: ", subject, r2);
    ReadFieldOf("Date: ", date, r3);
    assert r3[1..] == body;
  }

  /** The header as three lines and a blank line. */
  lemma HeaderLines(sender: string, subject: string, date: string, body: string)
    ensures Header(sender, subject, date) + body
         == "Sender: " + sender + "\n" + ("Subject: " + subject + "\n" + ("Date: " + date + "\n" + ("\n" + body)))
  {
  }

  /** The two replacements of lines 53-56 that the fetch side does not
      have. */
  const IndexOnlyEntities: seq<(string, string)> := [("&copy;", "(c)"), ("&reg;", "(R)")]

  /** The index-side entity chain is the fetch-side chain followed by the
      copyright and registered-mark replacements. */
  lemma IndexEntitiesExtendFetch(s: string)
    ensures ReplaceChain(s, IndexEntities) == ReplaceChain(ReplaceChain(s, FetchEntities), IndexOnlyEntities)
  {
    assert IndexEntities == FetchEntities + IndexOnlyEntities;
    ChainAppend(s, FetchEntities, IndexOnlyEntities);
  }

  // ---------------------------------------------------------------------------
  // build_vector_store

  /** The metadata stored beside each text. */
  datatype Metadata = Metadata(sender: Option<string>, subject: Option<string>, date: Option<string>, id: string)

  /** What is handed to `Chroma.from_texts`. */
  datatype StoreRequest = StoreRequest(
    texts: seq<string>, metadatas: seq<Metadata>,
    embeddings: Embeddings, collection: string, directory: string)

  const EmptyListMessage := "Email list cannot be empty"
  const InvalidStructureMessage := "Invalid email structure. Required keys: sender, subject, date, body"

  /** `clean_email` with a given reply parser. */
  function Cleaner(parseReply: string -> string): Email -> Result<string> {
    e => CleanEmail(e, parseReply)
  }

  /** One turn of the loop of lines 119-135: the structure check, the
      cleaned text (by `clean`), and the metadata with a new id. */
  function Prepare(e: Email, clean: Email -> Result<string>, id: string): Result<(string, Metadata)> {
    if !HasRequiredKeys(e) then Err(ValueError(InvalidStructureMessage))
    else match clean(e)
      case Err(err) => Err(err)
      case Ok(text) => Ok((text, Metadata(e["sender"], e["subject"], e["date"], id)))
  }

  /** An email passes `clean_email` exactly when it has the four keys and
      a body; a missing key is reported as an invalid structure, and a
      passing email gives its cleaned text and its sender, subject and date. */
  lemma PrepareOutcome(e: Email, parseReply: string -> string, id: string)
    ensures Prepare(e, Cleaner(parseReply), id).Ok? <==> HasRequiredKeys(e) && e["body"].Some?
    ensures !HasRequiredKeys(e) ==> Prepare(e, Cleaner(parseReply), id) == Err(ValueError(InvalidStructureMessage))
    ensures Prepare(e, Cleaner(parseReply), id).Ok? ==>
              Ok(Prepare(e, Cleaner(parseReply), id).value.0) == CleanEmail(e, parseReply)
              && Prepare(e, Cleaner(parseReply), id).value.1 == Metadata(e["sender"], e["subject"], e["date"], id)
  {
  }

  /** The two lists after the loop has run over `emails`, the i-th email
      taking the i-th id of `newId`; the first failing email stops it. */
  function PrepareAll(emails: seq<Email>, clean: Email -> Result<string>, newId: nat -> string)
    : Result<(seq<string>, seq<Metadata>)>
  {
    if emails == [] then Ok(([], []))
    else match PrepareAll(emails[..|emails| - 1], clean, newId)
      case Err(err) => Err(err)
      case Ok(lists) =>
        match Prepare(emails[|emails| - 1], clean, newId(|emails| - 1))
        case Err(err) => Err(err)
        case Ok(entry) => Ok((lists.0 + [entry.0], lists.1 + [entry.1]))
  }

  /** On success the two lists run parallel to the input: one entry per
      email, in input order, the i-th text and metadata being what the i-th
      email gives with the i-th new id (so, by `Prepare`, the cleaned i-th
      email and its sender, subject and date). */
  lemma {:induction false} PrepareAllParallel(emails: seq<Email>, clean: Email -> Result<string>, newId: nat -> string)
    requires PrepareAll(emails, clean, newId).Ok?
    ensures var (texts, metas) := PrepareAll(emails, clean, newId).value;
      |texts| == |emails| && |metas| == |emails|
      && forall i :: 0 <= i < |emails| ==> Prepare(emails[i], clean, newId(i)) == Ok((texts[i], metas[i]))
  {
    if emails != [] {
      var init := emails[..|emails| - 1];
      PrepareAllParallel(init, clean, newId);
      assert forall i :: 0 <= i < |init| ==> init[i] == emails[i];
    }
  }

  /** One more turn of the loop. */
  lemma PrepareAllStep(emails: seq<Email>, i: nat, clean: Email -> Result<string>, newId: nat -> string,
                       texts: seq<string>, metas: seq<Metadata>)
    requires i < |emails| && PrepareAll(emails[..i], clean, newId) == Ok((texts, metas))
    ensures Prepare(emails[i], clean, newId(i)).Err? ==>
      PrepareAll(emails[..i + 1], clean, newId) == Err(Prepare(emails[i], clean, newId(i)).error)
    ensures Prepare(emails[i], clean, newId(i)).Ok? ==>
      PrepareAll(emails[..i + 1], clean, newId)
      == Ok((texts + [Prepare(emails[i], clean, newId(i)).value.0],
             metas + [Prepare(emails[i], clean, newId(i)).value.1]))
  {
    assert emails[..i + 1][..i] == emails[..i];
    assert emails[..i + 1][i] == emails[i];
  }

  /** The loop succeeds exactly when every email passes, and otherwise
      fails with the error of the first email that does not. */
  lemma {:induction false} PrepareAllFirstFailure(emails: seq<Email>, clean: Email -> Result<string>, newId: nat -> string)
    ensures PrepareAll(emails, clean, newId).Ok? <==>
              forall i :: 0 <= i < |emails| ==> Prepare(emails[i], clean, newId(i)).Ok?
    ensures forall k :: 0 <= k < |emails| && Prepare(emails[k], clean, newId(k)).Err?
              && (forall i :: 0 <= i < k ==> Prepare(emails[i], clean, newId(i)).Ok?)
              ==> PrepareAll(emails, clean, newId) == Err(Prepare(emails[k], clean, newId(k)).error)
  {
    if emails != [] {
      var init := emails[..|emails| - 1];
      PrepareAllFirstFailure(init, clean, newId);
      assert forall i :: 0 <= i < |init| ==> init[i] == emails[i];
    }
  }

  /** What `build_vector_store` hands to Chroma, or raises. */
  function BuildOutcome(emails: seq<Email>, arg: Option<string>, c: Config,
                        parseReply: string -> string, newId: nat -> string): Result<StoreRequest>
  {
    if emails == [] then Err(ValueError(EmptyListMessage))
    else match PrepareAll(emails, Cleaner(parseReply), newId)
      case Err(err) => Err(Wrap("Failed to build vector store", err))
      case Ok(lists) =>
        match GetEmbeddings(c)
        case Err(err) => Err(Wrap("Failed to build vector store", err))
        case Ok(emb) =>
          Ok(StoreRequest(lists.0, lists.1, emb, c.chromaCollectionName, PersistDirectory(arg, c)))
  }

  /** `build_vector_store` (lines 95-150), with `uuid.uuid4()` given as the
      id source `newId` and the Chroma call represented by its arguments. */
  method BuildVectorStore(emails: seq<Email>, arg: Option<string>, c: Config,
                          parseReply: string -> string, newId: nat -> string)
    returns (r: Result<StoreRequest>)
    ensures r == BuildOutcome(emails, arg, c, parseReply, newId)
  {
    if emails == [] {
      return Err(ValueError(EmptyListMessage));
    }
    var dir := PersistDirectory(arg, c);
    var lists := PrepareEmails(emails, Cleaner(parseReply), newId);
    if lists.Err? {
      return Err(Wrap("Failed to build vector store", lists.error));
    }
    var embeddings := GetEmbeddings(c);
    if embeddings.Err? {
      return Err(Wrap("Failed to build vector store", embeddings.error));
    }
    r := Ok(StoreRequest(lists.value.0, lists.value.1, embeddings.value, c.chromaCollectionName, dir));
  }

  /** The loop of lines 119-135: each email is checked, cleaned and given
      its metadata; the first invalid one raises. */
  method PrepareEmails(emails: seq<Email>, clean: Email -> Result<string>, newId: nat -> string)
    returns (r: Result<(seq<string>, seq<Metadata>)>)
    ensures r == PrepareAll(emails, clean, newId)
  {
    var texts: seq<string> := [];
    var metas: seq<Metadata> := [];
    var i := 0;
    while i < |emails|
      invariant 0 <= i <= |emails|
      invariant PrepareAll(emails[..i], clean, newId) == Ok((texts, metas))
    {
      var e := emails[i];
      PrepareAllStep(emails, i, clean, newId, texts, metas);
      if !HasRequiredKeys(e) {
        PrepareAllStops(emails, i + 1, clean, newId, ValueError(InvalidStructureMessage));
        return Err(ValueError(InvalidStructureMessage));
      }
      var cleaned := clean(e);
      if cleaned.Err? {
        PrepareAllStops(emails, i + 1, clean, newId, cleaned.error);
        return Err(cleaned.error);
      }
      texts := texts + [cleaned.value];
      metas := metas + [Metadata(e["sender"], e["subject"], e["date"], newId(i))];
      i := i + 1;
    }
    assert emails[..i] == emails;
    r := Ok((texts, metas));
  }

  /** Once the loop has failed on a prefix, it fails on the whole list. */
  lemma {:induction false} PrepareAllStops(emails: seq<Email>, i: nat, clean: Email -> Result<string>,
                                           newId: nat -> string, err: Failure)
    requires i <= |emails| && PrepareAll(emails[..i], clean, newId) == Err(err)
    ensures PrepareAll(emails, clean, newId) == Err(err)
    decreases |emails| - i
  {
    if i == |emails| {
      assert emails[..i] == emails;
    } else {
      assert emails[..i + 1][..i] == emails[..i];
      PrepareAllStops(emails, i + 1, clean, newId, err);
    }
  }

  /** An empty list is reported as such, and is the one error that is not
      wrapped. */
  lemma EmptyListNotWrapped(arg: Option<string>, c: Config, parseReply: string -> string,
                            newId: nat -> string)
    ensures BuildOutcome([], arg, c, parseReply, newId) == Err(ValueError(EmptyListMessage))
  {
  }

  /** An invalid email is reported before the provider is consulted, so it
      is reported even under an unsupported provider. */
  lemma InvalidEmailReportedBeforeProvider(emails: seq<Email>, arg: Option<string>, c: Config,
                                           parseReply: string -> string, newId: nat -> string, k: nat)
    requires k < |emails| && !HasRequiredKeys(emails[k])
    requires forall i :: 0 <= i < k ==> Prepare(emails[i], Cleaner(parseReply), newId(i)).Ok?
    ensures BuildOutcome(emails, arg, c, parseReply, newId)
            == Err(Exception("Failed to build vector store: " + InvalidStructureMessage))
  {
    var clean := Cleaner(parseReply);
    assert Prepare(emails[k], clean, newId(k)) == Err(ValueError(InvalidStructureMessage));
    PrepareAllFailsAt(emails, clean, newId, k);
    BuildFailsWith(emails, arg, c, parseReply, newId, ValueError(InvalidStructureMessage));
  }

  /** A failing loop fails the whole build, with its error wrapped. */
  lemma BuildFailsWith(emails: seq<Email>, arg: Option<string>, c: Config,
                       parseReply: string -> string, newId: nat -> string, err: Failure)
    requires emails != [] && PrepareAll(emails, Cleaner(parseReply), newId) == Err(err)
    ensures BuildOutcome(emails, arg, c, parseReply, newId) == Err(Wrap("Failed to build vector store", err))
  {
  }

  /** The loop fails with the error of its first failing email. */
  lemma PrepareAllFailsAt(emails: seq<Email>, clean: Email -> Result<string>, newId: nat -> string, k: nat)
    requires k < |emails| && Prepare(emails[k], clean, newId(k)).Err?
    requires forall i :: 0 <= i < k ==> Prepare(emails[i], clean, newId(i)).Ok?
    ensures PrepareAll(emails, clean, newId) == Err(Prepare(emails[k], clean, newId(k)).error)
  {
    PrepareAllFirstFailure(emails, clean, newId);
  }

  /** Text without `!`, `/`, `:`, `@`, `{` or digits is left alone by the
      comment, CSS and number steps (lines 59-73). */
  lemma AfterEntitiesUnchanged(s: string)
    requires '!' !in s && '/' !in s && ':' !in s && '@' !in s && '{' !in s
    requires forall k :: 0 <= k < |s| ==> !IsDigit(s[k])
    ensures Sub(SpacedNumber, Sub(LeadingNumber, Sub(BraceBlock, Sub(AtRule, Sub(CssDeclaration,
              Sub(CssComment, Sub(HtmlComment, s, ""), ""), ""), ""), ""), ""), " ") == s
  {
    HtmlCommentNeedsBang(s);
    SubWithoutLeadChar(CssComment, s, "");
    CssDeclarationNeedsColon(s);
    SubWithoutLeadChar(AtRule, s, "");
    SubWithoutLeadChar(BraceBlock, s, "");
    LeadingNumberAbsent(s);
    SpacedNumberNeedsDigit(s);
  }

  /** The first four replacements turn an escaped `b` tag into a literal
      one. */
  lemma EscapedTagDecoded(s: string)
    requires s == "&lt;b&gt;"
    ensures ReplaceChain(s, IndexEntities[..4]) == "<b>"
  {
    var head := IndexEntities[..4];
    assert head == [("&nbsp;", " "), ("&amp;", "&"), ("&lt;", "<"), ("&gt;", ">")];
    ChainOfFour(s, head);
    EscapedTagSkips(s);
    EscapedTagSteps(s);
  }

  /** Neither `&nbsp;` nor `&amp;` occurs in `&lt;b&gt;`. */
  lemma EscapedTagSkips(s: string)
    requires s == "&lt;b&gt;"
    ensures ReplaceAll(ReplaceAll(s, "&nbsp;", " "), "&amp;", "&") == s
  {
    LiteralNeedsChar("&nbsp;", s, " ", 1);
    LiteralNeedsChar("&amp;", s, "&", 1);
  }

  /** `&lt;` and then `&gt;` are decoded in `&lt;b&gt;`. */
  lemma EscapedTagSteps(s: string)
    requires s == "&lt;b&gt;"
    ensures ReplaceAll(ReplaceAll(s, "&lt;", "<"), "&gt;", ">") == "<b>"
  {
    DecodeLeading(s, "&lt;", "<", "b&gt;");
    var u := "<b&gt;";
    assert ReplaceAll(s, "&lt;", "<") == u;
    DecodeTrailing(u, "<b", "&gt;", ">");
  }

  /** Once the first four entries leave no `&`, the rest of the table has
      nothing to replace. */
  lemma BasicEntitiesDecideAmp(s: string, u: string)
    requires ReplaceChain(s, IndexEntities[..4]) == u && '&' !in u
    ensures ReplaceChain(s, IndexEntities) == u
  {
    IndexEntitiesStartWithAmp();
    ChainRestWithoutLeadChar(s, IndexEntities, 4, u, '&');
  }

  lemma IndexEntitiesStartWithAmp()
    ensures forall k :: 0 <= k < |IndexEntities| ==> IndexEntities[k].0 != [] && IndexEntities[k].0[0] == '&'
  {
  }

  /** Text without `<` whose first four entity replacements leave no `&`
      and none of the characters the later steps look for comes out of the
      rewrite chain exactly as those four replacements left it. */
  lemma PreReplyOfTagFreeText(s: string, u: string)
    requires '<' !in s && ReplaceChain(s, IndexEntities[..4]) == u
    requires '&' !in u && '!' !in u && '/' !in u && ':' !in u && '@' !in u && '{' !in u
    requires forall k :: 0 <= k < |u| ==> !IsDigit(u[k])
    ensures PreReply(s) == u
  {
    TagsOfPlainText(s);
    BasicEntitiesDecideAmp(s, u);
    AfterEntitiesUnchanged(u);
  }

  /** Tags are stripped before entities are decoded, so an escaped tag
      comes out of the rewrite chain as a literal tag. */
  lemma EscapedTagSurvives(s: string)
    requires s == "&lt;b&gt;"
    ensures PreReply(s) == "<b>"
  {
    var u := "<b>";
    assert '<' !in s;
    assert forall k :: 0 <= k < |u| ==> !IsDigit(u[k]);
    EscapedTagDecoded(s);
    PreReplyOfTagFreeText(s, u);
  }
}
