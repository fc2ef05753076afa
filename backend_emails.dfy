/** The two e-mail rounds of the back end: the one that follows `POST /parse-resumes` over the
    candidates just parsed, and `POST /auto-process-candidates` over the stored table. Each
    mails every candidate it keeps, records whether the mail went out, and hands the kept
    candidates to the HR report. The SMTP sends are oracles: `sent(k)` says whether the k-th
    candidate mail went out, `reportSent` whether the HR report did. */
module BackendEmails {
  import opened Base
  import opened Seqs
  import opened Text
  import opened Records

  /** The letter `send_candidate_email` writes: an invitation exactly for "Interview Scheduled",
      a rejection for every other status. */
  datatype Letter = Invitation | Rejection

  function LetterFor(status: Option<string>): (r: Letter)
    ensures r == Invitation <==> status == Some(InterviewScheduled)
  {
    if status == Some(InterviewScheduled) then Invitation else Rejection
  }

  /** A candidate handed to the HR report and mailed (the processing date is left out). */
  datatype Entry = Entry(name: Option<string>, email: string, score: int, status: Option<string>)

  /** A mail `send_candidate_email` composes: the address, the name in the greeting, and the letter. */
  datatype CandidateMail = CandidateMail(to: string, name: Option<string>, letter: Letter)

  /** The candidate mails of a round, one per entry and in order; each entry's status picks its
      letter. */
  function MailsFor(entries: seq<Entry>): (r: seq<CandidateMail>)
    ensures |r| == |entries|
    ensures forall k :: 0 <= k < |entries| ==>
      r[k].to == entries[k].email && r[k].name == entries[k].name &&
      (r[k].letter == Invitation <==> entries[k].status == Some(InterviewScheduled))
  {
    seq(|entries|, k requires 0 <= k < |entries| => CandidateMail(entries[k].email, entries[k].name, LetterFor(entries[k].status)))
  }

  lemma MailsSnoc(entries: seq<Entry>, e: Entry)
    ensures MailsFor(entries + [e]) == MailsFor(entries) + [CandidateMail(e.email, e.name, LetterFor(e.status))]
  {
  }

  /** One entry of `email_results`. */
  datatype EmailRecord = EmailRecord(name: Option<string>, email: string, sent: bool)

  /** The `results` part of the reply. */
  datatype AutoSummary = AutoSummary(totalCandidates: nat, emailsSent: nat, emailsFailed: nat, hrReportSent: bool, emailResults: seq<EmailRecord>)

  /** The mail records of the entries, in order. */
  function MailRecords(entries: seq<Entry>, sent: nat -> bool): (r: seq<EmailRecord>)
    ensures |r| == |entries|
    ensures forall k :: 0 <= k < |entries| ==> r[k] == EmailRecord(entries[k].name, entries[k].email, sent(k))
  {
    seq(|entries|, k requires 0 <= k < |entries| => EmailRecord(entries[k].name, entries[k].email, sent(k)))
  }

  lemma RecordsSnoc(entries: seq<Entry>, e: Entry, sent: nat -> bool)
    ensures MailRecords(entries + [e], sent) == MailRecords(entries, sent) + [EmailRecord(e.name, e.email, sent(|entries|))]
  {
  }

  predicate WasSent(r: EmailRecord) {
    r.sent
  }

  /** `successful_emails`, `emails_failed` and the rest of the counts, once the loop is done. */
  function SummaryFor(total: nat, records: seq<EmailRecord>, hrReportSent: bool): (r: AutoSummary)
    ensures r.emailsSent + r.emailsFailed == |records|
  {
    var ok := Count(records, WasSent);
    AutoSummary(total, ok, |records| - ok, hrReportSent, records)
  }

  /** `send_hr_report` is only reached for a non-empty list. */
  function ReportOutcome(entries: seq<Entry>, reportSent: bool): bool {
    entries != [] && reportSent
  }

  predicate QualifiedEntry(e: Entry) {
    Qualifies(e.score)
  }

  /** The "Qualified Candidates" figure in the body of the HR report. */
  function QualifiedCount(entries: seq<Entry>): (n: nat)
    ensures n <= |entries|
  {
    KeepLength(entries, QualifiedEntry);
    Count(entries, QualifiedEntry)
  }

  /** The figure counts the entries scoring 70 or more: it is the length of their list, it is
      positive exactly when one of them qualifies, and it equals the total exactly when all do. */
  lemma {:induction false} QualifiedCountSpec(entries: seq<Entry>)
    ensures QualifiedCount(entries) == |Keep(entries, QualifiedEntry)|
    ensures QualifiedCount(entries) >= 1 <==> exists i :: 0 <= i < |entries| && Qualifies(entries[i].score)
    ensures QualifiedCount(entries) == |entries| <==> forall i :: 0 <= i < |entries| ==> Qualifies(entries[i].score)
    decreases |entries|
  {
    KeepLength(entries, QualifiedEntry);
    CountPositive(entries, QualifiedEntry);
    if entries != [] {
      var tail := entries[1..];
      QualifiedCountSpec(tail);
      assert forall i :: 0 < i < |entries| ==> entries[i] == tail[i - 1];
      if forall i :: 0 <= i < |tail| ==> Qualifies(tail[i].score) {
        assert forall i :: 0 < i < |entries| ==> Qualifies(entries[i].score) by {
          forall i | 0 < i < |entries| ensures Qualifies(entries[i].score) {
            assert entries[i] == tail[i - 1];
          }
        }
      }
    }
  }

  /** What `send_hr_report` mails: the spreadsheet rows and the two figures of the body. */
  datatype HrReport = HrReport(rows: seq<Entry>, total: nat, qualified: nat)

  function ReportFor(entries: seq<Entry>): (r: HrReport)
    ensures r.qualified <= r.total == |r.rows|
  {
    HrReport(entries, |entries|, QualifiedCount(entries))
  }

  /** The mails counted as sent are exactly the sends that succeeded. */
  lemma {:induction false} SentCountsSuccesses(entries: seq<Entry>, sent: nat -> bool)
    ensures Count(MailRecords(entries, sent), WasSent) == CountTrue(sent, |entries|)
    decreases |entries|
  {
    if entries != [] {
      var n := |entries| - 1;
      var front := entries[..n];
      SentCountsSuccesses(front, sent);
      assert entries == front + [entries[n]];
      RecordsSnoc(front, entries[n], sent);
      CountAppend(MailRecords(front, sent), [MailRecords(entries, sent)[n]], WasSent);
    }
  }

  // ----- after parsing: the candidates just parsed -----

  /** The `email` value of a parsed candidate, as the JSON reply gave it: a falsy value (missing,
      null, 0, an empty list), a string, or a truthy value that is not a string, whose type name
      is kept for the error text. */
  datatype EmailValue = Falsy | Text(text: string) | NonText(typeName: string)

  /** The candidate dictionary of a parsed resume, every expected key filled in. */
  datatype ParsedCandidate = ParsedCandidate(name: Option<string>, email: EmailValue, score: int, status: Option<string>)

  /** One entry of the parse `results`. */
  datatype ParseResult = Parsed(candidate: ParsedCandidate) | Failed(error: string)

  /** `if email and email.strip()`, for an email that is not a truthy non-string. */
  predicate HasAddress(email: EmailValue) {
    email.Text? && email.text != "" && !IsBlank(email.text)
  }

  predicate Mailable(r: ParseResult) {
    r.Parsed? && HasAddress(r.candidate.email)
  }

  /** `email.strip()` on a truthy value that is not a string raises `AttributeError`. */
  predicate Raises(r: ParseResult) {
    r.Parsed? && r.candidate.email.NonText?
  }

  /** The text of that `AttributeError`. */
  function StripError(typeName: string): string {
    "'" + typeName + "' object has no attribute 'strip'"
  }

  /** The position of the first result whose address check raises, if any. */
  function FirstRaise(results: seq<ParseResult>): (r: Option<nat>)
    ensures r.None? <==> forall i :: 0 <= i < |results| ==> !Raises(results[i])
    ensures r.Some? ==>
      r.value < |results| && Raises(results[r.value]) &&
      (forall i :: 0 <= i < r.value ==> !Raises(results[i]))
  {
    if results == [] then None
    else if Raises(results[0]) then Some(0)
    else match FirstRaise(results[1..]) {
      case None => None
      case Some(j) => Some(j + 1)
    }
  }

  function EntryOf(r: ParseResult): Entry
    requires Mailable(r)
  {
    Entry(r.candidate.name, r.candidate.email.text, r.candidate.score, r.candidate.status)
  }

  /** The entries of the parsed candidates with an address, in parse order. */
  function ParsedEntries(results: seq<ParseResult>): seq<Entry> {
    if results == [] then []
    else
      var last := results[|results| - 1];
      ParsedEntries(results[..|results| - 1]) + if Mailable(last) then [EntryOf(last)] else []
  }

  /** Exactly the resumes that parsed and carry a non-blank address are mailed and reported. */
  lemma {:induction false} ParsedEntriesSpec(results: seq<ParseResult>, e: Entry)
    ensures e in ParsedEntries(results) <==> exists i :: 0 <= i < |results| && Mailable(results[i]) && EntryOf(results[i]) == e
    decreases |results|
  {
    if results != [] {
      var n := |results| - 1;
      ParsedEntriesSpec(results[..n], e);
      if exists i :: 0 <= i < |results| && Mailable(results[i]) && EntryOf(results[i]) == e {
        var i :| 0 <= i < |results| && Mailable(results[i]) && EntryOf(results[i]) == e;
        if i < n {
          assert results[..n][i] == results[i];
        }
      }
      if exists i :: 0 <= i < n && Mailable(results[..n][i]) && EntryOf(results[..n][i]) == e {
        var i :| 0 <= i < n && Mailable(results[..n][i]) && EntryOf(results[..n][i]) == e;
        assert results[i] == results[..n][i];
      }
    }
  }

  /** No mail goes to a missing or blank address. */
  lemma {:induction false} ParsedEntriesHaveAddresses(results: seq<ParseResult>)
    ensures forall e :: e in ParsedEntries(results) ==> HasAddress(Text(e.email))
  {
    forall e | e in ParsedEntries(results) ensures HasAddress(Text(e.email)) {
      ParsedEntriesSpec(results, e);
    }
  }

  /** The `auto_processing` part of the parse reply: the summary of the round, or the
      `{"success": False, "error": ...}` of the enclosing handler. */
  datatype ParsedReply = Processed(message: string, summary: AutoSummary) | ProcessingFailed(error: string)

  /** The processing that follows the parse. A non-string address stops the round with the
      handler's error, after the mails to the candidates before it went out; then no HR report is
      sent. Otherwise every candidate with an address is mailed and, when there is one, reported. */
  method AutoProcessParsed(results: seq<ParseResult>, sent: nat -> bool, reportSent: bool)
    returns (reply: ParsedReply, report: Option<HrReport>, mailed: seq<CandidateMail>)
    ensures FirstRaise(results).None? ==>
      var entries := ParsedEntries(results);
      reply == Processed("Auto-processing completed for " + NatToString(|entries|) + " newly parsed candidates",
        SummaryFor(|entries|, MailRecords(entries, sent), ReportOutcome(entries, reportSent))) &&
      report == (if entries == [] then None else Some(ReportFor(entries))) &&
      mailed == MailsFor(entries)
    ensures FirstRaise(results).Some? ==>
      var i := FirstRaise(results).value;
      reply == ProcessingFailed(StripError(results[i].candidate.email.typeName)) &&
      report.None? &&
      mailed == MailsFor(ParsedEntries(results[..i]))
  {
    var candidatesData: seq<Entry> := [];
    var emailResults: seq<EmailRecord> := [];
    mailed := [];
    var k := 0;
    while k < |results|
      invariant 0 <= k <= |results|
      invariant forall i :: 0 <= i < k ==> !Raises(results[i])
      invariant candidatesData == ParsedEntries(results[..k])
      invariant emailResults == MailRecords(candidatesData, sent)
      invariant mailed == MailsFor(candidatesData)
    {
      var r := results[k];
      if r.Parsed? && r.candidate.email.NonText? {
        return ProcessingFailed(StripError(r.candidate.email.typeName)), None, mailed;
      }
      assert results[..k + 1][..k] == results[..k];
      if r.Parsed? && HasAddress(r.candidate.email) {
        var e := Entry(r.candidate.name, r.candidate.email.text, r.candidate.score, r.candidate.status);
        RecordsSnoc(candidatesData, e, sent);
        MailsSnoc(candidatesData, e);
        mailed := mailed + [CandidateMail(e.email, e.name, LetterFor(e.status))];
        emailResults := emailResults + [EmailRecord(e.name, e.email, sent(|candidatesData|))];
        candidatesData := candidatesData + [e];
      }
      k := k + 1;
    }
    assert results[..k] == results;
    var hrReportSent := false;
    report := None;
    if candidatesData != [] {
      report := Some(ReportFor(candidatesData));
      hrReportSent := reportSent;
    }
    var successful := Count(emailResults, WasSent);
    reply := Processed("Auto-processing completed for " + NatToString(|candidatesData|) + " newly parsed candidates",
      AutoSummary(|candidatesData|, successful, |emailResults| - successful, hrReportSent, emailResults));
  }

  // ----- POST /auto-process-candidates: the stored table -----

  /** `email IS NOT NULL AND email != ''`; `score IS NOT NULL` always holds, as a model score is never NULL. */
  predicate StoredMailable(c: Candidate) {
    c.email.Some? && c.email.value != ""
  }

  function StoredEntry(c: Candidate): Entry
    requires StoredMailable(c)
  {
    Entry(c.name, c.email.value, c.score, c.status)
  }

  /** The entries of the selected rows, in table order. */
  function StoredEntries(table: seq<Candidate>): seq<Entry> {
    if table == [] then []
    else
      var last := table[|table| - 1];
      StoredEntries(table[..|table| - 1]) +
        if StoredMailable(last) then [StoredEntry(last)] else []
  }

  lemma {:induction false} StoredEntriesSpec(table: seq<Candidate>, e: Entry)
    ensures e in StoredEntries(table) <==>
      exists i :: 0 <= i < |table| && StoredMailable(table[i]) && StoredEntry(table[i]) == e
    decreases |table|
  {
    if table != [] {
      var n := |table| - 1;
      var front := table[..n];
      StoredEntriesSpec(front, e);
      if exists i :: 0 <= i < |table| && StoredMailable(table[i]) && StoredEntry(table[i]) == e {
        var i :| 0 <= i < |table| && StoredMailable(table[i]) && StoredEntry(table[i]) == e;
        if i < n {
          assert front[i] == table[i];
        }
      }
      if exists i :: 0 <= i < n && StoredMailable(front[i]) && StoredEntry(front[i]) == e {
        var i :| 0 <= i < n && StoredMailable(front[i]) && StoredEntry(front[i]) == e;
        assert table[i] == front[i];
      }
    }
  }

  /** The reply of the endpoint: nothing to do, or the summary of the round. */
  datatype AutoReply = NothingToProcess(message: string) | Completed(message: string, summary: AutoSummary)

  const NoCandidatesMessage: string := "No candidates found for processing"

  /** `POST /auto-process-candidates`; the HR report is attempted whenever a row was found. */
  method AutoProcessStored(table: seq<Candidate>, sent: nat -> bool, reportSent: bool)
    returns (reply: AutoReply, report: Option<HrReport>, mailed: seq<CandidateMail>)
    ensures var entries := StoredEntries(table);
      (entries == [] ==> reply == NothingToProcess(NoCandidatesMessage) && report.None? && mailed == []) &&
      (entries != [] ==>
        reply == Completed("Auto-processing completed", SummaryFor(|entries|, MailRecords(entries, sent), reportSent)) &&
        report == Some(ReportFor(entries)) &&
        mailed == MailsFor(entries))
  {
    var candidates: seq<Entry> := [];
    var k := 0;
    while k < |table|
      invariant 0 <= k <= |table|
      invariant candidates == StoredEntries(table[..k])
    {
      assert table[..k + 1][..k] == table[..k];
      var c := table[k];
      if c.email.Some? && c.email.value != "" {
        candidates := candidates + [Entry(c.name, c.email.value, c.score, c.status)];
      }
      k := k + 1;
    }
    assert table[..k] == table;
    if candidates == [] {
      return NothingToProcess(NoCandidatesMessage), None, [];
    }
    var candidatesData: seq<Entry> := [];
    var emailResults: seq<EmailRecord> := [];
    mailed := [];
    var j := 0;
    while j < |candidates|
      invariant 0 <= j <= |candidates|
      invariant candidatesData == candidates[..j]
      invariant emailResults == MailRecords(candidatesData, sent)
      invariant mailed == MailsFor(candidatesData)
    {
      var e := candidates[j];
      RecordsSnoc(candidatesData, e, sent);
      MailsSnoc(candidatesData, e);
      mailed := mailed + [CandidateMail(e.email, e.name, LetterFor(e.status))];
      emailResults := emailResults + [EmailRecord(e.name, e.email, sent(|candidatesData|))];
      candidatesData := candidatesData + [e];
      assert candidates[..j + 1] == candidates[..j] + [e];
      j := j + 1;
    }
    assert candidates[..j] == candidates;
    report := Some(ReportFor(candidatesData));
    var successful := Count(emailResults, WasSent);
    reply := Completed("Auto-processing completed",
      AutoSummary(|candidates|, successful, |emailResults| - successful, reportSent, emailResults));
  }

  /** A stored address of spaces only is mailed, while the same address on a fresh parse is
      skipped: the two rounds test the address differently. */
  lemma BlankAddressDiffers(name: Option<string>, score: int, status: Option<string>)
    ensures var c := Candidate(0, name, None, None, None, None, Some(" "), None, None, score, status);
      StoredEntries([c]) == [Entry(name, " ", score, status)] &&
      ParsedEntries([Parsed(ParsedCandidate(name, Text(" "), score, status))]) == []
  {
    var c := Candidate(0, name, None, None, None, None, Some(" "), None, None, score, status);
    assert [c][..0] == [];
    var p := Parsed(ParsedCandidate(name, Text(" "), score, status));
    assert [p][..0] == [];
    assert IsBlank(" ");
  }

  /** The counts of a round add up, and the report is only sent for a non-empty round. */
  lemma SummaryCounts(entries: seq<Entry>, sent: nat -> bool, reportSent: bool)
    ensures var s := SummaryFor(|entries|, MailRecords(entries, sent), ReportOutcome(entries, reportSent));
      s.emailsSent + s.emailsFailed == s.totalCandidates == |s.emailResults| &&
      (s.hrReportSent ==> entries != []) &&
      (entries != [] ==> s.hrReportSent == reportSent) &&
      forall k :: 0 <= k < |entries| ==> s.emailResults[k].email == entries[k].email && s.emailResults[k].sent == sent(k)
  {
  }
}
