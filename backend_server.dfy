/** The state the FastAPI back end keeps between requests (the `conversations` dictionary,
    the global `prospect_name`, and the candidates table it reads and updates) and the
    endpoints that change it: the Twilio webhooks and the bulk prescreening call. */
module BackendServer {
  import opened Base
  import opened Seqs
  import opened Text
  import opened Records
  import opened Backend

  // ----- the conversation of one call -----

  /** One entry of `conversations`, keyed by the Twilio call SID. */
  datatype Conversation = Conversation(responses: seq<string>, questionCount: int, prospectName: Option<string>)

  /** The TwiML a webhook returns: gather the answer with the given number, or thank the
      candidate and hang up. */
  datatype Twiml = Gather(answerNum: int) | HangUp

  /** The number of the last answer gathered before the call ends. */
  const LastQuestion: int := 3

  /** What follows answer `questionNum`. */
  function NextStep(questionNum: int): (r: Twiml)
    ensures r.Gather? <==> questionNum < LastQuestion
    ensures r.Gather? ==> r.answerNum == questionNum + 1
  {
    if questionNum < 3 then Gather(questionNum + 1) else HangUp
  }

  /** The update of `conversations` when answer `questionNum` arrives for `callSid`. */
  function RecordAnswer(convs: map<string, Conversation>, callSid: string, questionNum: int, speech: string): (r: map<string, Conversation>)
    ensures r.Keys == convs.Keys
    ensures forall sid :: sid in convs && sid != callSid ==> r[sid] == convs[sid]
    ensures callSid in convs ==>
      r[callSid].responses == convs[callSid].responses + [speech] &&
      r[callSid].questionCount == questionNum + 1 &&
      r[callSid].prospectName == convs[callSid].prospectName
  {
    if callSid in convs then
      var c := convs[callSid];
      convs[callSid := c.(responses := c.responses + [speech], questionCount := questionNum + 1)]
    else convs
  }

  /** The answers of a call arriving in order, numbered from `first` on. */
  function Replay(convs: map<string, Conversation>, callSid: string, first: int, speeches: seq<string>): map<string, Conversation>
    decreases |speeches|
  {
    if speeches == [] then convs
    else Replay(RecordAnswer(convs, callSid, first, speeches[0]), callSid, first + 1, speeches[1..])
  }

  /** A call that starts with no answers and follows the webhook chain from answer 0 ends up
      holding exactly the answers spoken, in order, and counts them. No other call changes. */
  lemma {:induction false} ReplayRecordsAnswers(convs: map<string, Conversation>, callSid: string, first: int, prior: seq<string>, speeches: seq<string>)
    requires callSid in convs && convs[callSid].responses == prior
    ensures var r := Replay(convs, callSid, first, speeches);
      r.Keys == convs.Keys &&
      r[callSid].responses == prior + speeches &&
      r[callSid].prospectName == convs[callSid].prospectName &&
      (speeches != [] ==> r[callSid].questionCount == first + |speeches|) &&
      forall sid :: sid in convs && sid != callSid ==> r[sid] == convs[sid]
    decreases |speeches|
  {
    if speeches == [] {
      assert prior + speeches == prior;
    } else {
      var next := RecordAnswer(convs, callSid, first, speeches[0]);
      ReplayRecordsAnswers(next, callSid, first + 1, prior + [speeches[0]], speeches[1..]);
      assert prior + [speeches[0]] + speeches[1..] == prior + speeches;
    }
  }

  /** A call that starts with no answers and follows the webhook chain from answer 0 holds,
      after each answer, every answer so far; the webhook hangs up exactly once it holds four. */
  lemma CallHangsUpAfterFourAnswers(convs: map<string, Conversation>, callSid: string, speeches: seq<string>)
    requires callSid in convs && convs[callSid].responses == [] && speeches != []
    ensures var r := Replay(convs, callSid, 0, speeches);
      callSid in r && r[callSid].responses == speeches && r[callSid].questionCount == |speeches| &&
      (NextStep(|speeches| - 1) == HangUp <==> |r[callSid].responses| >= 4) &&
      (NextStep(|speeches| - 1).Gather? ==> NextStep(|speeches| - 1).answerNum == |r[callSid].responses|)
  {
    ReplayRecordsAnswers(convs, callSid, 0, [], speeches);
    assert [] + speeches == speeches;
  }

  /** The `name` of a posted JSON body: no such key, a JSON null, or a string. */
  datatype PostedName = Missing | Null | Given(text: string)

  // ----- process_call_results -----

  /** `SELECT * FROM candidates WHERE name = ?` followed by `fetchone()`: the first row with that
      name. A missing name matches nothing, as SQL `= NULL` never holds. */
  function FirstByName(table: seq<Candidate>, name: Option<string>): (r: Option<Candidate>)
    ensures r.Some? ==> r.value in table && r.value.name == name
  {
    if name.None? || table == [] then None
    else if table[0].name == name then Some(table[0])
    else FirstByName(table[1..], name)
  }

  /** The lookup finds a row exactly when some row has the name, and then it is the first one. */
  lemma {:induction false} FirstByNameSpec(table: seq<Candidate>, name: Option<string>)
    ensures var r := FirstByName(table, name);
      (r.Some? <==> name.Some? && exists i :: 0 <= i < |table| && table[i].name == name) &&
      (r.Some? ==> exists i :: (0 <= i < |table| && table[i] == r.value &&
        forall j :: 0 <= j < i ==> table[j].name != name))
  {
    if name.Some? && table != [] && table[0].name != name {
      var rest := table[1..];
      FirstByNameSpec(rest, name);
      if exists i :: 0 <= i < |table| && table[i].name == name {
        var i :| 0 <= i < |table| && table[i].name == name;
        assert rest[i - 1].name == name;
      }
      var r := FirstByName(rest, name);
      if r.Some? {
        var i :| 0 <= i < |rest| && rest[i] == r.value && forall j :: 0 <= j < i ==> rest[j].name != name;
        assert table[i + 1] == r.value;
        forall j | 0 <= j < i + 1 ensures table[j].name != name {
          if j > 0 {
            assert table[j] == rest[j - 1];
          }
        }
      }
    }
  }

  /** What processing a finished call decides: the candidate row it found, the call score, the
      new status, and the address the candidate email and the HR summary go to (None: no email
      is sent). */
  datatype CallResult = CallResult(candidateId: int, name: Option<string>, callScore: int, newStatus: string, notify: Option<string>)

  /** `process_call_results`; `scoreReply` is the model's reply to the scoring prompt. */
  function ProcessCallResults(convs: map<string, Conversation>, callSid: string, table: seq<Candidate>, scoreReply: Option<string>): Option<CallResult> {
    if callSid !in convs then None
    else
      var conv := convs[callSid];
      var row := FirstByName(table, conv.prospectName);
      if row.None? then None
      else
        var callScore := ScoreCall(conv.responses, scoreReply);
        var email := row.value.email;
        Some(CallResult(row.value.id, row.value.name, callScore, CallStatusForScore(callScore),
          if email.Some? && email.value != "" then email else None))
  }

  /** A finished call is processed exactly when it is known and its prospect's name is in the
      table; it then scores from 1 to 10, schedules an interview exactly from 7, and mails
      exactly when the candidate has an email address. */
  lemma ProcessCallResultsSpec(convs: map<string, Conversation>, callSid: string, table: seq<Candidate>, scoreReply: Option<string>)
    ensures var r := ProcessCallResults(convs, callSid, table, scoreReply);
      (r.Some? <==> (callSid in convs && convs[callSid].prospectName.Some? &&
        exists i :: 0 <= i < |table| && table[i].name == convs[callSid].prospectName)) &&
      (r.Some? ==>
        1 <= r.value.callScore <= 10 &&
        r.value.callScore == ScoreCall(convs[callSid].responses, scoreReply) &&
        r.value.candidateId == FirstByName(table, convs[callSid].prospectName).value.id &&
        (r.value.newStatus == InterviewScheduled <==> Advances(r.value.callScore)) &&
        (r.value.newStatus == NotScheduled <==> !Advances(r.value.callScore)) &&
        r.value.name == convs[callSid].prospectName &&
        exists i :: 0 <= i < |table| && table[i].id == r.value.candidateId && table[i].name == r.value.name &&
          (r.value.notify.Some? <==> table[i].email.Some? && table[i].email.value != "") &&
          (r.value.notify.Some? ==> r.value.notify == table[i].email))
  {
    var r := ProcessCallResults(convs, callSid, table, scoreReply);
    if callSid in convs {
      FirstByNameSpec(table, convs[callSid].prospectName);
      if r.Some? {
        var row := FirstByName(table, convs[callSid].prospectName).value;
        var i :| 0 <= i < |table| && table[i] == row;
      }
    }
  }

  /** The call summary `send_call_summary_to_hr` mails to HR: the candidate's name, the call
      score, the stored status, the answers numbered from Q1, and the recommendation. */
  datatype HrCallSummary = HrCallSummary(name: Option<string>, callScore: int, status: string, answers: seq<string>, recommendation: string)

  function CallSummaryForHr(res: CallResult, responses: seq<string>): (r: HrCallSummary)
    ensures |r.answers| == |responses|
  {
    HrCallSummary(res.name, res.callScore, res.newStatus,
      seq(|responses|, i requires 0 <= i < |responses| => "Q" + NatToString(i + 1) + ": " + responses[i]),
      Recommendation(res.callScore))
  }

  /** The summary HR gets for a processed call lists the call's answers in order and states the
      status that was stored; its recommendation is to proceed exactly when that status is
      "Interview Scheduled". */
  lemma StatusAgreesWithRecommendation(convs: map<string, Conversation>, callSid: string, table: seq<Candidate>, scoreReply: Option<string>)
    requires callSid in convs && ProcessCallResults(convs, callSid, table, scoreReply).Some?
    ensures var res := ProcessCallResults(convs, callSid, table, scoreReply).value;
      var s := CallSummaryForHr(res, convs[callSid].responses);
      s.status == res.newStatus && s.callScore == res.callScore && 1 <= s.callScore <= 10 &&
      s.name == convs[callSid].prospectName &&
      (s.recommendation == "Proceed to next round" <==> s.status == InterviewScheduled) &&
      (s.recommendation == "Not suitable for this position" <==> s.status == NotScheduled) &&
      forall i :: 0 <= i < |convs[callSid].responses| ==>
        s.answers[i] == "Q" + NatToString(i + 1) + ": " + convs[callSid].responses[i]
  {
    ProcessCallResultsSpec(convs, callSid, table, scoreReply);
  }

  /** A call without answers is scored 3 and never schedules an interview. */
  lemma SilentCallNotScheduled(convs: map<string, Conversation>, callSid: string, table: seq<Candidate>, scoreReply: Option<string>)
    requires callSid in convs && convs[callSid].responses == []
    requires ProcessCallResults(convs, callSid, table, scoreReply).Some?
    ensures ProcessCallResults(convs, callSid, table, scoreReply).value.callScore == NoResponsesScore
    ensures ProcessCallResults(convs, callSid, table, scoreReply).value.newStatus == NotScheduled
  {
  }

  /** `UPDATE candidates SET status = ? WHERE id = ?`. */
  function SetStatus(table: seq<Candidate>, id: int, status: string): (r: seq<Candidate>)
    ensures |r| == |table|
    ensures forall i :: 0 <= i < |table| ==>
      r[i] == if table[i].id == id then table[i].(status := Some(status)) else table[i]
  {
    seq(|table|, i requires 0 <= i < |table| => if table[i].id == id then table[i].(status := Some(status)) else table[i])
  }

  /** The table after a processing decision. */
  function ApplyCallResult(table: seq<Candidate>, result: Option<CallResult>): seq<Candidate> {
    if result.None? then table else SetStatus(table, result.value.candidateId, result.value.newStatus)
  }

  /** Processing a call changes the status of the rows of one candidate and nothing else. */
  lemma ApplyCallResultChangesOnlyStatus(table: seq<Candidate>, result: Option<CallResult>)
    ensures var t := ApplyCallResult(table, result);
      |t| == |table| &&
      forall i :: 0 <= i < |table| ==>
        t[i].(status := table[i].status) == table[i] &&
        (t[i] != table[i] ==> result.Some? && table[i].id == result.value.candidateId && t[i].status == Some(result.value.newStatus))
  {
  }

  // ----- bulk_prescreening_process -----

  /** The one number every prescreening call dials, whatever the candidate's phone. */
  const VerifiedPhone: string := "+918971820623"

  const CallFailed: string := "Call failed"
  const InterviewCompleted: string := "Interview Completed"

  /** One entry of `results`. */
  datatype BulkResult = BulkResult(
    candidateId: int, name: Option<string>, email: Option<string>, phone: Option<string>, score: int,
    callStatus: string, interviewSummary: string, newStatus: string)

  datatype BulkSummary = BulkSummary(totalProcessed: nat, successfulCalls: nat, failedCalls: nat)

  /** The response of a successful request (`"success": True`). */
  datatype BulkResponse = BulkResponse(message: string, results: seq<BulkResult>, summary: BulkSummary)

  datatype HttpError = HttpError(statusCode: int, detail: string)

  /** A call placed through Twilio, with the value `prospect_name` held when it was placed. */
  datatype Dial = Dial(to: string, prospectName: Option<string>)

  /** The 400 for an empty selection, caught by the outer handler and re-raised as a 500 whose
      detail is the first exception's text. */
  const NoCandidatesError: HttpError := HttpError(500, "400: No candidates selected")

  /** `WHERE id IN (...)`: the rows whose id was asked for, in table order, each once. */
  function Fetched(table: seq<Candidate>, ids: seq<int>): seq<Candidate> {
    Keep(table, (c: Candidate) => c.id in ids)
  }

  /** The result of one row, given whether its call went through. */
  function BulkRow(c: Candidate, placed: bool): BulkResult {
    var status := if placed then CallInitiated else CallFailed;
    BulkResult(c.id, c.name, c.email, DisplayPhone(c.phone), c.score, status, CallSummary(status), InterviewCompleted)
  }

  /** The `interview_summary` written for a call status. */
  function CallSummary(status: string): string {
    "Call " + Lower(status)
  }

  /** The results of the fetched rows; `placed(k)` says whether the k-th call went through. */
  function BulkRows(rows: seq<Candidate>, placed: nat -> bool): (r: seq<BulkResult>)
    ensures |r| == |rows|
    ensures forall k :: 0 <= k < |rows| ==> r[k] == BulkRow(rows[k], placed(k))
  {
    seq(|rows|, k requires 0 <= k < |rows| => BulkRow(rows[k], placed(k)))
  }

  /** The results of one more row. */
  lemma BulkRowsSnoc(rows: seq<Candidate>, k: nat, placed: nat -> bool)
    requires k < |rows|
    ensures BulkRows(rows[..k + 1], placed) == BulkRows(rows[..k], placed) + [BulkRow(rows[k], placed(k))]
  {
  }

  /** The calls the loop places: one per row, each to the verified number. */
  function DialsFor(rows: seq<Candidate>): (r: seq<Dial>)
    ensures |r| == |rows|
    ensures forall k :: 0 <= k < |rows| ==> r[k] == Dial(VerifiedPhone, rows[k].name)
  {
    seq(|rows|, k requires 0 <= k < |rows| => Dial(VerifiedPhone, rows[k].name))
  }

  lemma DialsForSnoc(rows: seq<Candidate>, k: nat)
    requires k < |rows|
    ensures DialsFor(rows[..k + 1]) == DialsFor(rows[..k]) + [Dial(VerifiedPhone, rows[k].name)]
  {
  }

  function BulkResponseFor(rows: seq<Candidate>, ids: seq<int>, placed: nat -> bool): BulkResponse {
    var ok := CountTrue(placed, |rows|);
    BulkResponse("Prescreening completed for " + NatToString(|ids|) + " candidates",
      BulkRows(rows, placed),
      BulkSummary(|ids|, ok, |rows| - ok))
  }

  /** The whole reply: the 500 for an empty selection, otherwise the response over the
      fetched rows. */
  function BulkReply(table: seq<Candidate>, ids: seq<int>, placed: nat -> bool): (r: Result<BulkResponse, HttpError>)
    ensures r.Err? <==> ids == []
  {
    if ids == [] then Err(NoCandidatesError) else Ok(BulkResponseFor(Fetched(table, ids), ids, placed))
  }

  /** `prospect_name` after the loop: the name of the last row called, if any. */
  function LastProspect(rows: seq<Candidate>, before: Option<string>): Option<string> {
    if rows == [] then before else rows[|rows| - 1].name
  }

  /** The loop over the fetched rows: one result and one call per row, every call to the
      verified number, while `prospect_name` holds that row's name. */
  method CallRows(rows: seq<Candidate>, placed: nat -> bool) returns (results: seq<BulkResult>, successful: nat, failed: nat, dials: seq<Dial>)
    ensures results == BulkRows(rows, placed)
    ensures successful == CountTrue(placed, |rows|)
    ensures successful + failed == |rows|
    ensures dials == DialsFor(rows)
  {
    results, successful, failed, dials := [], 0, 0, [];
    var k := 0;
    while k < |rows|
      invariant 0 <= k <= |rows|
      invariant results == BulkRows(rows[..k], placed)
      invariant successful == CountTrue(placed, k)
      invariant successful + failed == k
      invariant dials == DialsFor(rows[..k])
    {
      var c := rows[k];
      dials := dials + [Dial(VerifiedPhone, c.name)];
      if placed(k) {
        successful := successful + 1;
      } else {
        failed := failed + 1;
      }
      BulkRowsSnoc(rows, k, placed);
      DialsForSnoc(rows, k);
      results := results + [BulkRow(c, placed(k))];
      k := k + 1;
    }
    assert rows[..k] == rows;
  }

  /** The response to a non-empty selection whose rows were fetched. */
  method Respond(rows: seq<Candidate>, ids: seq<int>, placed: nat -> bool) returns (response: BulkResponse, dials: seq<Dial>)
    ensures response == BulkResponseFor(rows, ids, placed)
    ensures dials == DialsFor(rows)
  {
    var results, successful, failed;
    results, successful, failed, dials := CallRows(rows, placed);
    response := BulkResponse("Prescreening completed for " + NatToString(|ids|) + " candidates",
      results, BulkSummary(|ids|, successful, failed));
  }

  /** The rows reported are exactly the table rows whose id was asked for, in table order; the
      k-th result is the k-th such row's, with its call status; the counters add up to the
      number of results. */
  lemma BulkRowsSpec(table: seq<Candidate>, ids: seq<int>, placed: nat -> bool)
    ensures var rows := Fetched(table, ids);
      IsSubsequence(rows, table) &&
      (forall c :: c in rows <==> c in table && c.id in ids)
    ensures var rows := Fetched(table, ids);
      var r := BulkResponseFor(rows, ids, placed);
      |r.results| == |rows| &&
      r.summary.successfulCalls + r.summary.failedCalls == |r.results| &&
      r.summary.totalProcessed == |ids| &&
      forall k :: 0 <= k < |r.results| ==>
        r.results[k].candidateId == rows[k].id &&
        r.results[k].name == rows[k].name &&
        r.results[k].email == rows[k].email &&
        r.results[k].score == rows[k].score &&
        r.results[k].phone == DisplayPhone(rows[k].phone) &&
        (r.results[k].callStatus == CallInitiated <==> placed(k)) &&
        (r.results[k].callStatus == CallFailed <==> !placed(k)) &&
        r.results[k].newStatus == InterviewCompleted
  {
    var p := (c: Candidate) => c.id in ids;
    KeepIsSubsequence(table, p);
    forall c ensures c in Keep(table, p) <==> c in table && c.id in ids {
      KeepMembers(table, p, c);
    }
  }

  /** An id asked for twice still gives one result, and an id not in the table none, so the
      number of results can differ from `total_processed`. */
  lemma BulkTotalCountsIdsNotResults(c: Candidate, placed: nat -> bool)
    ensures var r := BulkResponseFor(Fetched([c], [c.id, c.id]), [c.id, c.id], placed);
      |r.results| == 1 && r.summary.totalProcessed == 2
    ensures var r := BulkResponseFor(Fetched([c], [c.id + 1]), [c.id + 1], placed);
      |r.results| == 0 && r.summary.totalProcessed == 1
  {
  }

  /** The summary of every result repeats the word: "Call call initiated" or "Call call failed". */
  lemma BulkSummaryText(c: Candidate)
    ensures BulkRow(c, true).interviewSummary == "Call call initiated"
    ensures BulkRow(c, false).interviewSummary == "Call call failed"
  {
    assert Lower(CallInitiated) == "call initiated";
    assert Lower(CallFailed) == "call failed";
  }

  // ----- the server -----

  class Server {
    /** `conversations`, keyed by call SID. */
    var conversations: map<string, Conversation>
    /** The global `prospect_name`. */
    var prospectName: Option<string>
    /** The `candidates` table, in table order. */
    var candidates: seq<Candidate>

    constructor (table: seq<Candidate>)
      ensures conversations == map[] && prospectName == Some("") && candidates == table
    {
      conversations := map[];
      prospectName := Some("");
      candidates := table;
    }

    /** `POST /set-prospect`: `data.get('name', '')` gives "" for a missing key and None for
        a JSON null. */
    method SetProspect(name: PostedName) returns (echo: Option<string>)
      modifies this
      ensures name.Missing? ==> prospectName == Some("")
      ensures name.Null? ==> prospectName.None?
      ensures name.Given? ==> prospectName == Some(name.text)
      ensures echo == prospectName
      ensures conversations == old(conversations) && candidates == old(candidates)
    {
      match name {
        case Missing => prospectName := Some("");
        case Null => prospectName := None;
        case Given(text) => prospectName := Some(text);
      }
      echo := prospectName;
    }

    /** `POST /outgoing-call`: opens the conversation of the call, tagged with the current
        prospect, and asks for answer 0. A form without a `CallSid` is filed under "unknown". */
    method OutgoingCall(callSid: Option<string>) returns (reply: Twiml)
      modifies this
      ensures conversations == old(conversations)[callSid.GetOr("unknown") := Conversation([], 0, old(prospectName))]
      ensures prospectName == old(prospectName) && candidates == old(candidates)
      ensures reply == Gather(0)
    {
      conversations := conversations[callSid.GetOr("unknown") := Conversation([], 0, prospectName)];
      reply := Gather(0);
    }

    /** `POST /gather-response/{call_sid}/{question_num}`: records the answer of a known call,
        then either asks for the next one or hangs up and processes the call. */
    method HandleGather(callSid: string, questionNum: int, speech: string, scoreReply: Option<string>) returns (reply: Twiml, processed: Option<CallResult>)
      modifies this
      ensures conversations == RecordAnswer(old(conversations), callSid, questionNum, speech)
      ensures reply == NextStep(questionNum)
      ensures questionNum < LastQuestion ==> processed.None? && candidates == old(candidates)
      ensures questionNum >= LastQuestion ==>
        processed == ProcessCallResults(conversations, callSid, old(candidates), scoreReply) &&
        candidates == ApplyCallResult(old(candidates), processed)
      ensures prospectName == old(prospectName)
    {
      conversations := RecordAnswer(conversations, callSid, questionNum, speech);
      reply := NextStep(questionNum);
      processed := None;
      if questionNum >= 3 {
        processed := ProcessCallResults(conversations, callSid, candidates, scoreReply);
        candidates := ApplyCallResult(candidates, processed);
      }
    }

    /** `POST /prescreening/bulk-process`. `placed(k)` is whether Twilio accepted the k-th
        call. An empty selection fails before the table is read or any call is placed. */
    method BulkProcess(ids: seq<int>, placed: nat -> bool) returns (r: Result<BulkResponse, HttpError>, dials: seq<Dial>)
      modifies this
      ensures r == BulkReply(candidates, ids, placed)
      ensures dials == if ids == [] then [] else DialsFor(Fetched(candidates, ids))
      ensures prospectName == if ids == [] then old(prospectName) else LastProspect(Fetched(candidates, ids), old(prospectName))
      ensures conversations == old(conversations) && candidates == old(candidates)
    {
      if ids == [] {
        return Err(NoCandidatesError), [];
      }
      var rows := Fetched(candidates, ids);
      var response;
      response, dials := Respond(rows, ids, placed);
      prospectName := LastProspect(rows, prospectName);
      r := Ok(response);
    }
  }
}
