/** `fetch_emails` of agent_email_fetch.py without the IMAP connection: the
    search window, the best-effort message loop, the choice of a body among
    the MIME parts, and the HTML-to-text chain used when only HTML is
    available. The mailbox is given as two functions: the SEARCH reply for a
    criteria string and the FETCH reply for a message id. */
module Fetch {
  import opened Common
  import opened Text
  import opened Patterns
  import opened PatternFacts
  import opened Calendar

  /** One part met by `msg.walk()`: its content type and its payload as
      decoded text, or `None` when decoding it raises. */
  datatype Part = Part(contentType: string, payload: Option<string>)

  /** The content of a parsed message. A single-part payload is `None` when
      `get_payload(decode=True)` gives nothing. */
  datatype Content =
    | Multipart(parts: seq<Part>)
    | SinglePart(contentType: string, payload: Option<string>)

  /** A parsed message: its decoded From and Subject headers (`None` when
      the header is absent), its raw Date header, and its content. */
  datatype Message = Message(from: Option<string>, subject: Option<string>, date: Option<string>, content: Content)

  /** The dictionary appended for each message. */
  datatype EmailRecord = EmailRecord(sender: string, subject: string, date: Option<string>, body: string)

  datatype SearchReply = SearchReply(status: string, ids: seq<string>)
  datatype FetchReply = FetchReply(status: string, message: Message)

  // ---------------------------------------------------------------------------
  // MIME body selection (lines 75-103)

  predicate IsDecodedPlain(p: Part) { p.contentType == "text/plain" && p.payload.Some? }
  predicate IsDecodedHtml(p: Part) { p.contentType == "text/html" && p.payload.Some? }

  /** The first part that is plain text and decodes. */
  function FirstPlain(parts: seq<Part>): (r: Option<nat>)
    ensures r.Some? ==> r.value < |parts| && IsDecodedPlain(parts[r.value])
    ensures r.Some? ==> forall j :: 0 <= j < r.value ==> !IsDecodedPlain(parts[j])
    ensures r.None? ==> forall j :: 0 <= j < |parts| ==> !IsDecodedPlain(parts[j])
  {
    if parts == [] then None
    else if IsDecodedPlain(parts[0]) then Some(0)
    else match FirstPlain(parts[1..])
      case None => None
      case Some(i) => Some(i + 1)
  }

  /** The only part that is plain text and decodes before `i`, when it is
      one, is the first. */
  lemma FirstPlainAt(parts: seq<Part>, i: nat)
    requires i < |parts| && IsDecodedPlain(parts[i])
    requires forall j :: 0 <= j < i ==> !IsDecodedPlain(parts[j])
    ensures FirstPlain(parts) == Some(i)
  {
  }

  /** The payload of the last HTML part that decodes, or "". */
  function LastHtml(parts: seq<Part>): string {
    if parts == [] then ""
    else if IsDecodedHtml(parts[|parts| - 1]) then parts[|parts| - 1].payload.value
    else LastHtml(parts[..|parts| - 1])
  }

  /** The HTML fallback is the payload of the LAST decodable HTML part (a
      later HTML alternative overwrites an earlier one), and "" when there
      is none. */
  lemma {:induction false} LastHtmlIsLast(parts: seq<Part>, j: nat)
    requires j < |parts| && IsDecodedHtml(parts[j])
    requires forall k :: j < k < |parts| ==> !IsDecodedHtml(parts[k])
    ensures LastHtml(parts) == parts[j].payload.value
    decreases |parts|
  {
    if j < |parts| - 1 {
      var init := parts[..|parts| - 1];
      assert init[j] == parts[j];
      assert forall k :: j < k < |init| ==> init[k] == parts[k];
      LastHtmlIsLast(init, j);
    }
  }

  lemma {:induction false} LastHtmlNone(parts: seq<Part>)
    requires forall k :: 0 <= k < |parts| ==> !IsDecodedHtml(parts[k])
    ensures LastHtml(parts) == ""
    decreases |parts|
  {
    if parts != [] {
      var init := parts[..|parts| - 1];
      assert forall k :: 0 <= k < |init| ==> init[k] == parts[k];
      LastHtmlNone(init);
    }
  }

  /** `(body, html_body)` after the walk over the parts of a multipart
      message: the first decodable plain part stops the walk, and every
      decodable HTML part met before it overwrites the HTML fallback. */
  function MultipartBodies(parts: seq<Part>): (string, string) {
    match FirstPlain(parts)
    case Some(i) => (parts[i].payload.value, LastHtml(parts[..i]))
    case None => ("", LastHtml(parts))
  }

  /** The walk of lines 76-91. */
  method SelectMultipartBodies(parts: seq<Part>) returns (body: string, html: string)
    ensures (body, html) == MultipartBodies(parts)
  {
    body := "";
    html := "";
    var i := 0;
    while i < |parts|
      invariant 0 <= i <= |parts|
      invariant body == ""
      invariant forall j :: 0 <= j < i ==> !IsDecodedPlain(parts[j])
      invariant html == LastHtml(parts[..i])
    {
      var part := parts[i];
      if part.contentType == "text/plain" {
        if part.payload.Some? {
          body := part.payload.value;
          FirstPlainAt(parts, i);
          break;
        }
      } else if part.contentType == "text/html" && body == "" {
        if part.payload.Some? {
          html := part.payload.value;
        }
      }
      assert parts[..i + 1][..i] == parts[..i];
      i := i + 1;
    }
    if i == |parts| {
      assert parts[..i] == parts;
    }
  }

  /** Lines 92-103: a non-empty payload goes to `html_body` when the type is
      text/html and to `body` otherwise; no payload leaves both empty. */
  function SinglePartBodies(contentType: string, payload: Option<string>): (r: (string, string))
    ensures payload.None? || payload.value == "" ==> r == ("", "")
    ensures payload.Some? && contentType == "text/html" ==> r == ("", payload.value)
    ensures payload.Some? && contentType != "text/html" ==> r == (payload.value, "")
  {
    if payload.Some? && payload.value != "" then
      if contentType == "text/html" then ("", payload.value) else (payload.value, "")
    else ("", "")
  }

  function ContentBodies(c: Content): (string, string) {
    match c
    case Multipart(parts) => MultipartBodies(parts)
    case SinglePart(t, p) => SinglePartBodies(t, p)
  }

  // ---------------------------------------------------------------------------
  // HTML to text (lines 106-147)

  /** The entity replacements of lines 123-138, in the order they run. */
  const FetchEntities: seq<(string, string)> := [
    ("&nbsp;", " "), ("&amp;", "&"), ("&lt;", "<"), ("&gt;", ">"),
    ("&quot;", "\""), ("&#39;", "'"), ("&apos;", "'"),
    ("&mdash;", "\U{2014}"), ("&ndash;", "\U{2013}"), ("&hellip;", "...")
  ]

  /** Style and script blocks are removed, then every tag, then entities are
      decoded, then CSS declarations and brace blocks are removed, and the
      whitespace is normalised. The two comment removals of lines 140-141
      rewrite `html_body`, which is not read afterwards, so they are not part
      of the chain. */
  function HtmlToText(html: string): (r: string)
    ensures NormalForm(r)
  {
    var noStyle := Sub(Block("style"), html, "");
    var noScript := Sub(Block("script"), noStyle, "");
    var noTags := Sub(Tag, noScript, "");
    var decoded := ReplaceChain(noTags, FetchEntities);
    var noDecls := Sub(CssDeclaration, decoded, "");
    var noBraces := Sub(BraceBlock, noDecls, "");
    Normalize(noBraces)
  }

  /** The body stored for a message: a non-empty plain body verbatim, else
      the cleaned HTML fallback, else "". */
  function BodyOf(c: Content): (r: string)
    ensures ContentBodies(c).0 != "" ==> r == ContentBodies(c).0
    ensures ContentBodies(c).0 == "" && ContentBodies(c).1 != "" ==> NormalForm(r)
    ensures ContentBodies(c).0 == "" && ContentBodies(c).1 == "" ==> r == ""
  {
    var (body, html) := ContentBodies(c);
    if body == "" && html != "" then HtmlToText(html) else body
  }

  /** Text with none of `<`, `&`, `:`, `{` goes through the HTML chain with
      only its whitespace normalised: in particular a CSS comment `/* .. */`
      is kept, since the fetch side never removes comments from `body`. */
  lemma HtmlToTextOfPlainText(s: string)
    requires '<' !in s && '&' !in s && ':' !in s && '{' !in s
    ensures HtmlToText(s) == Normalize(s)
  {
    TagsOfPlainText(s);
    EntitiesOfPlainText(s);
    CssOfPlainText(s);
  }

  lemma TagsOfPlainText(s: string)
    requires '<' !in s
    ensures Sub(Tag, Sub(Block("script"), Sub(Block("style"), s, ""), ""), "") == s
  {
    SubWithoutLeadChar(Block("style"), s, "");
    SubWithoutLeadChar(Block("script"), s, "");
    SubWithoutLeadChar(Tag, s, "");
  }

  lemma EntitiesOfPlainText(s: string)
    requires '&' !in s
    ensures ReplaceChain(s, FetchEntities) == s
  {
    FetchEntitiesStartWithAmp();
    ChainWithoutLeadChar(s, FetchEntities, '&');
  }

  lemma CssOfPlainText(s: string)
    requires ':' !in s && '{' !in s
    ensures Sub(BraceBlock, Sub(CssDeclaration, s, ""), "") == s
  {
    CssDeclarationNeedsColon(s);
    SubWithoutLeadChar(BraceBlock, s, "");
  }

  lemma FetchEntitiesStartWithAmp()
    ensures forall k :: 0 <= k < |FetchEntities| ==> FetchEntities[k].0 != [] && FetchEntities[k].0[0] == '&'
  {
  }

  /** The first four replacements decode `&amp;` before `&lt;`, so they
      unescape a doubly escaped `<` completely. */
  lemma DoubleEscapedHead(s: string)
    requires s == "&amp;lt;"
    ensures ReplaceChain(s, FetchEntities[..4]) == "<"
  {
    var head := FetchEntities[..4];
    assert head == [("&nbsp;", " "), ("&amp;", "&"), ("&lt;", "<"), ("&gt;", ">")];
    ChainOfFour(s, head);
    LiteralNeedsChar("&nbsp;", s, " ", 1);
    DecodeLeading(s, "&amp;", "&", "lt;");
    var once := "&lt;";
    assert ReplaceAll(s, "&amp;", "&") == once;
    DecodeLeading(once, "&lt;", "<", "");
    var twice := "<";
    assert ReplaceAll(once, "&lt;", "<") == twice;
    LiteralNeedsChar("&gt;", twice, ">", 0);
  }

  /** Entity decoding runs in table order, `&amp;` before `&lt;`: the text
      `&amp;lt;`, which stands for the characters `&lt;`, comes out as `<`. */
  lemma DoubleEscapedDecoded(s: string)
    requires s == "&amp;lt;"
    ensures ReplaceChain(s, FetchEntities) == "<"
  {
    DoubleEscapedHead(s);
    FetchEntitiesStartWithAmp();
    ChainRestWithoutLeadChar(s, FetchEntities, 4, "<", '&');
  }

  /** Decoding the message a second time changes nothing: the chain's
      output is already normalised. */
  lemma HtmlToTextNormalised(html: string)
    ensures Normalize(HtmlToText(html)) == HtmlToText(html)
  {
    var noStyle := Sub(Block("style"), html, "");
    var noScript := Sub(Block("script"), noStyle, "");
    var noTags := Sub(Tag, noScript, "");
    var decoded := ReplaceChain(noTags, FetchEntities);
    var noDecls := Sub(CssDeclaration, decoded, "");
    NormalizeIdempotent(Sub(BraceBlock, noDecls, ""));
  }

  // ---------------------------------------------------------------------------
  // Records and the message loop

  /** The record of lines 68-156, or the error raised while decoding an
      absent From or Subject header. */
  function RecordOf(m: Message): (r: Result<EmailRecord>)
    ensures r.Ok? <==> m.from.Some? && m.subject.Some?
    ensures r.Ok? ==> r.value.sender == m.from.value && r.value.subject == m.subject.value
                      && r.value.date == m.date && r.value.body == BodyOf(m.content)
  {
    if m.from.None? || m.subject.None? then Err(TypeError(NoneTypeMessage))
    else Ok(EmailRecord(m.from.value, m.subject.value, m.date, BodyOf(m.content)))
  }

  /** Lines 66-156 for one fetched message, with the multipart walk as a loop. */
  method DecodeMessage(m: Message) returns (r: Result<EmailRecord>)
    ensures r == RecordOf(m)
  {
    if m.from.None? || m.subject.None? {
      return Err(TypeError(NoneTypeMessage));
    }
    var body, html;
    match m.content {
      case Multipart(parts) =>
        body, html := SelectMultipartBodies(parts);
      case SinglePart(t, p) =>
        body, html := SinglePartBodies(t, p).0, SinglePartBodies(t, p).1;
    }
    BodyOfBodies(m.content, body, html);
    if body == "" && html != "" {
      body := HtmlToText(html);
    }
    r := Ok(EmailRecord(m.from.value, m.subject.value, m.date, body));
  }

  /** The body kept for a message, from the two candidates its parts give. */
  lemma BodyOfBodies(c: Content, body: string, html: string)
    requires (body, html) == ContentBodies(c)
    ensures BodyOf(c) == if body == "" && html != "" then HtmlToText(html) else body
  {
  }

  /** The outcome of the message loop over `ids`: messages whose FETCH
      status is not OK are skipped, the others appended in order, and the
      first header failure aborts. */
  function Collect(ids: seq<string>, fetch: string -> FetchReply): Result<seq<EmailRecord>>
    decreases |ids|
  {
    if ids == [] then Ok([])
    else match Collect(ids[..|ids| - 1], fetch)
      case Err(e) => Err(e)
      case Ok(rs) =>
        var reply := fetch(ids[|ids| - 1]);
        if reply.status != "OK" then Ok(rs)
        else match RecordOf(reply.message)
          case Err(e) => Err(e)
          case Ok(rec) => Ok(rs + [rec])
  }

  /** One more turn of the loop. */
  lemma CollectStep(ids: seq<string>, i: nat, fetch: string -> FetchReply, rs: seq<EmailRecord>)
    requires i < |ids| && Collect(ids[..i], fetch) == Ok(rs)
    ensures fetch(ids[i]).status != "OK" ==> Collect(ids[..i + 1], fetch) == Ok(rs)
    ensures fetch(ids[i]).status == "OK" && RecordOf(fetch(ids[i]).message).Err? ==>
      Collect(ids[..i + 1], fetch) == Err(RecordOf(fetch(ids[i]).message).error)
    ensures fetch(ids[i]).status == "OK" && RecordOf(fetch(ids[i]).message).Ok? ==>
      Collect(ids[..i + 1], fetch) == Ok(rs + [RecordOf(fetch(ids[i]).message).value])
  {
    assert ids[..i + 1][..i] == ids[..i];
    assert ids[..i + 1][i] == ids[i];
  }

  /** Once the loop has failed, it has failed for good. */
  lemma {:induction false} CollectErrPersists(ids: seq<string>, i: nat, fetch: string -> FetchReply, e: Failure)
    requires i <= |ids| && Collect(ids[..i], fetch) == Err(e)
    ensures Collect(ids, fetch) == Err(e)
    decreases |ids| - i
  {
    if i == |ids| {
      assert ids[..i] == ids;
    } else {
      assert ids[..i + 1][..i] == ids[..i];
      CollectErrPersists(ids, i + 1, fetch, e);
    }
  }

  /** The positions of `ids` whose FETCH status is OK, in order. */
  function OkPositions(ids: seq<string>, fetch: string -> FetchReply): (ps: seq<nat>)
    ensures forall k :: 0 <= k < |ps| ==> ps[k] < |ids| && fetch(ids[ps[k]]).status == "OK"
    ensures forall k, l :: 0 <= k < l < |ps| ==> ps[k] < ps[l]
    ensures forall j :: 0 <= j < |ids| && fetch(ids[j]).status == "OK" ==> j in ps
    decreases |ids|
  {
    if ids == [] then []
    else
      var ps := OkPositions(ids[..|ids| - 1], fetch);
      if fetch(ids[|ids| - 1]).status == "OK" then ps + [|ids| - 1] else ps
  }

  /** A successful loop yields exactly one record per OK message, in search
      order: the k-th record is the record of the k-th OK id. */
  lemma {:induction false} CollectKeepsOkInOrder(ids: seq<string>, fetch: string -> FetchReply)
    requires Collect(ids, fetch).Ok?
    ensures var rs := Collect(ids, fetch).value;
      var ps := OkPositions(ids, fetch);
      |rs| == |ps| <= |ids|
      && forall k :: 0 <= k < |rs| ==> Ok(rs[k]) == RecordOf(fetch(ids[ps[k]]).message)
    decreases |ids|
  {
    if ids != [] {
      var init := ids[..|ids| - 1];
      CollectKeepsOkInOrder(init, fetch);
      assert forall j :: 0 <= j < |init| ==> init[j] == ids[j];
    }
  }

  /** The loop fails exactly when some OK message lacks a From or Subject
      header. */
  lemma {:induction false} CollectFailsOnMissingHeader(ids: seq<string>, fetch: string -> FetchReply)
    ensures Collect(ids, fetch).Err? <==>
      exists j :: 0 <= j < |ids| && fetch(ids[j]).status == "OK" && RecordOf(fetch(ids[j]).message).Err?
    decreases |ids|
  {
    if ids != [] {
      var init := ids[..|ids| - 1];
      CollectFailsOnMissingHeader(init, fetch);
      assert forall j :: 0 <= j < |init| ==> init[j] == ids[j];
      if Collect(ids, fetch).Err? && Collect(init, fetch).Ok? {
        assert RecordOf(fetch(ids[|ids| - 1]).message).Err?;
      }
    }
  }

  /** What `fetch_emails` returns or raises, mailbox I/O aside. */
  function FetchOutcome(startDate: string, endDate: string,
                        search: string -> SearchReply, fetch: string -> FetchReply): Result<seq<EmailRecord>>
  {
    match SearchWindowOf(startDate, endDate)
    case Err(e) => Err(Wrap("Failed to fetch emails", e))
    case Ok(w) =>
      var reply := search(w.criteria);
      if reply.status != "OK" then Ok([])
      else match Collect(reply.ids, fetch)
        case Err(e) => Err(Wrap("Failed to fetch emails", e))
        case Ok(rs) => Ok(rs)
  }

  /** Lines 48-163: the search window, the search, and the message loop. */
  method FetchEmails(startDate: string, endDate: string,
                     search: string -> SearchReply, fetch: string -> FetchReply)
    returns (r: Result<seq<EmailRecord>>)
    ensures r == FetchOutcome(startDate, endDate, search, fetch)
  {
    var window := SearchWindowOf(startDate, endDate);
    if window.Err? {
      return Err(Wrap("Failed to fetch emails", window.error));
    }
    var reply := search(window.value.criteria);
    if reply.status != "OK" {
      return Ok([]);
    }
    var ids := reply.ids;
    var emails: seq<EmailRecord> := [];
    var i := 0;
    while i < |ids|
      invariant 0 <= i <= |ids|
      invariant Collect(ids[..i], fetch) == Ok(emails)
    {
      CollectStep(ids, i, fetch, emails);
      var answer := fetch(ids[i]);
      if answer.status != "OK" {
        i := i + 1;
        continue;
      }
      var rec := DecodeMessage(answer.message);
      if rec.Err? {
        CollectErrPersists(ids, i + 1, fetch, rec.error);
        return Err(Wrap("Failed to fetch emails", rec.error));
      }
      emails := emails + [rec.value];
      i := i + 1;
    }
    assert ids[..i] == ids;
    r := Ok(emails);
  }

  /** A search that does not answer OK gives an empty list, not an error. */
  lemma SearchNotOkGivesNoEmails(startDate: string, endDate: string,
                                 search: string -> SearchReply, fetch: string -> FetchReply)
    requires SearchWindowOf(startDate, endDate).Ok?
    requires search(SearchWindowOf(startDate, endDate).value.criteria).status != "OK"
    ensures FetchOutcome(startDate, endDate, search, fetch) == Ok([])
  {
  }

  /** The fetched list has one record per OK message, in search order. The
      ids are the server's reply to the criteria of `SearchWindowOf`, whose
      window `WindowIsInclusive` describes. */
  lemma FetchedEmailsInOrder(startDate: string, endDate: string,
                             search: string -> SearchReply, fetch: string -> FetchReply)
    requires FetchOutcome(startDate, endDate, search, fetch).Ok?
    requires search(SearchWindowOf(startDate, endDate).value.criteria).status == "OK"
    ensures var ids := search(SearchWindowOf(startDate, endDate).value.criteria).ids;
      var rs := FetchOutcome(startDate, endDate, search, fetch).value;
      var ps := OkPositions(ids, fetch);
      |rs| == |ps| <= |ids|
      && forall k :: 0 <= k < |rs| ==> Ok(rs[k]) == RecordOf(fetch(ids[ps[k]]).message)
  {
    var ids := search(SearchWindowOf(startDate, endDate).value.criteria).ids;
    CollectKeepsOkInOrder(ids, fetch);
  }
}
