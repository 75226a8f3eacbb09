/** The build-time data flow: the records `fetch_emails` returns are the
    email dictionaries `build_vector_store` indexes. */
module Workflow {
  import opened Common
  import opened Settings
  import opened Providers
  import opened Fetch
  import opened Vector

  /** The dictionary appended for a fetched message
      (agent_email_fetch.py:149-156). */
  function AsEmail(rec: EmailRecord): (e: Email)
    ensures HasRequiredKeys(e)
    ensures e["sender"] == Some(rec.sender) && e["subject"] == Some(rec.subject)
    ensures e["date"] == rec.date && e["body"] == Some(rec.body)
  {
    map["sender" := Some(rec.sender), "subject" := Some(rec.subject), "date" := rec.date, "body" := Some(rec.body)]
  }

  /** A fetched record always passes `clean_email`: its indexed text is the
      header of its fields (a missing date rendered as `None`) followed by
      its cleaned body. */
  lemma FetchedRecordCleans(rec: EmailRecord, parseReply: string -> string)
    ensures CleanEmail(AsEmail(rec), parseReply)
            == Ok(Header(rec.sender, rec.subject, Render(rec.date)) + CleanBody(rec.body, parseReply))
  {
  }

  /** The fetched batch as the list handed to `build_vector_store`. */
  function AsEmails(recs: seq<EmailRecord>): (es: seq<Email>)
    ensures |es| == |recs|
    ensures forall i :: 0 <= i < |recs| ==> es[i] == AsEmail(recs[i])
  {
    seq(|recs|, i requires 0 <= i < |recs| => AsEmail(recs[i]))
  }

  /** No fetched record is rejected by the structure check or by
      `clean_email`: a non-empty fetched batch reaches the embedding step,
      and is indexed exactly when the provider is supported, one text and
      one metadata entry per record. */
  lemma FetchedBatchIndexes(recs: seq<EmailRecord>, arg: Option<string>, c: Config,
                            parseReply: string -> string, newId: nat -> string)
    requires recs != []
    ensures BuildOutcome(AsEmails(recs), arg, c, parseReply, newId).Ok? <==> KnownProvider(c.llmProvider)
    ensures BuildOutcome(AsEmails(recs), arg, c, parseReply, newId).Ok? ==>
              |BuildOutcome(AsEmails(recs), arg, c, parseReply, newId).value.texts| == |recs|
              && |BuildOutcome(AsEmails(recs), arg, c, parseReply, newId).value.metadatas| == |recs|
  {
    var es := AsEmails(recs);
    forall i | 0 <= i < |es| ensures Prepare(es[i], Cleaner(parseReply), newId(i)).Ok? {
      PrepareOutcome(es[i], parseReply, newId(i));
    }
    PrepareAllFirstFailure(es, Cleaner(parseReply), newId);
    PrepareAllParallel(es, Cleaner(parseReply), newId);
  }
}
