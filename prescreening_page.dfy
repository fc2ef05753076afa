/** The React prescreening page: the eligible candidates, the selection the HR user builds
    by ticking rows, the guards before the bulk call request, and the call-status chips. */
module PrescreeningPage {
  import opened Base
  import opened Seqs
  import opened Records
  import BackendServer

  // ----- eligibility -----

  /** Qualified by the resume score and already marked for an interview. */
  predicate EligibleForCall(c: Candidate) {
    Qualifies(c.score) && c.status == Some(InterviewScheduled)
  }

  /** The list the page shows: the fetched candidates that are eligible, in fetched order. */
  function Eligible(fetched: seq<Candidate>): seq<Candidate> {
    Keep(fetched, EligibleForCall)
  }

  lemma EligibleSpec(fetched: seq<Candidate>)
    ensures IsSubsequence(Eligible(fetched), fetched)
    ensures forall c :: c in Eligible(fetched) <==> c in fetched && c.score >= 70 && c.status == Some(InterviewScheduled)
  {
    KeepIsSubsequence(fetched, EligibleForCall);
    forall c ensures c in Eligible(fetched) <==> c in fetched && EligibleForCall(c) {
      KeepMembers(fetched, EligibleForCall, c);
    }
  }

  function Ids(cs: seq<Candidate>): (r: seq<int>)
    ensures |r| == |cs|
    ensures forall i :: 0 <= i < |cs| ==> r[i] == cs[i].id
  {
    seq(|cs|, i requires 0 <= i < |cs| => cs[i].id)
  }

  // ----- the selection -----

  /** `handleCandidateSelection`: drop the id when it is selected, append it otherwise. */
  function Toggled(prev: seq<int>, id: int): seq<int> {
    if id in prev then Keep(prev, (x: int) => x != id) else prev + [id]
  }

  /** Toggling flips whether `id` is selected and leaves every other id as it was. */
  lemma ToggledMembership(prev: seq<int>, id: int)
    ensures id in Toggled(prev, id) <==> id !in prev
    ensures forall x :: x != id ==> (x in Toggled(prev, id) <==> x in prev)
  {
    var p := (x: int) => x != id;
    forall x ensures x in Keep(prev, p) <==> x in prev && p(x) {
      KeepMembers(prev, p, x);
    }
  }

  /** A selection without repeats stays without repeats. */
  lemma ToggledNoDup(prev: seq<int>, id: int)
    requires NoDup(prev)
    ensures NoDup(Toggled(prev, id))
  {
    var p := (x: int) => x != id;
    if id in prev {
      KeepNoDup(prev, p);
    } else {
      assert forall i :: 0 <= i < |prev| ==> prev[i] != id;
    }
  }

  /** Ticking an unticked row and unticking it again restores the selection exactly. */
  lemma ToggleTwiceRestores(prev: seq<int>, id: int)
    requires id !in prev
    ensures Toggled(Toggled(prev, id), id) == prev
  {
    var p := (x: int) => x != id;
    assert id in prev + [id];
    KeepAppend(prev, [id], p);
    KeepAll(prev, p);
    assert Keep([id], p) == [];
  }

  /** Unticking and ticking again selects the same ids, though the id moves to the end. */
  lemma UntickTwiceKeepsIds(prev: seq<int>, id: int)
    requires id in prev
    ensures forall x :: x in Toggled(Toggled(prev, id), id) <==> x in prev
    ensures Toggled(Toggled(prev, id), id) == Keep(prev, (x: int) => x != id) + [id]
  {
    ToggledMembership(prev, id);
    ToggledMembership(Toggled(prev, id), id);
  }

  /** `handleSelectAll`: clear when as many ids are selected as rows are shown, otherwise
      select every shown row in list order. */
  function SelectAll(selected: seq<int>, shown: seq<Candidate>): seq<int> {
    if |selected| == |shown| then [] else Ids(shown)
  }

  lemma SelectAllSpec(selected: seq<int>, shown: seq<Candidate>)
    ensures SelectAll(selected, shown) == [] <==> |selected| == |shown| || shown == []
    ensures SelectAll(selected, shown) != [] ==> SelectAll(selected, shown) == Ids(shown)
    ensures SelectAll(SelectAll(selected, shown), shown) == if |selected| == |shown| then Ids(shown) else []
  {
  }

  // ----- the bulk call request -----

  /** The body of `POST /prescreening/bulk-process`. */
  datatype BulkRequest = BulkRequest(candidateIds: seq<int>, jobDescriptionId: int)

  datatype RunOutcome = Warn(message: string) | Send(request: BulkRequest)

  const NoSelectionWarning: string := "Please select at least one candidate"
  const NoJobWarning: string := "Please select a job description"

  /** `runPrescreeningCalls` up to the request it sends. */
  function RunRequest(selected: seq<int>, jobId: Option<int>): (r: RunOutcome)
    ensures r.Send? <==> selected != [] && JobChosen(jobId)
    ensures r.Send? ==> r.request == BulkRequest(selected, jobId.value)
    ensures selected == [] ==> r == Warn(NoSelectionWarning)
    ensures selected != [] && !JobChosen(jobId) ==> r == Warn(NoJobWarning)
  {
    if |selected| == 0 then Warn(NoSelectionWarning)
    else if jobId.None? || jobId.value == 0 then Warn(NoJobWarning)
    else Send(BulkRequest(selected, jobId.value))
  }

  // ----- the call-status chips -----

  /** `getCallStatusColor`. */
  function CallStatusColor(status: string): (r: Color)
    ensures r == Success <==> status == CallInitiated
    ensures r == Error <==> status == "Failed"
    ensures r == Warning <==> status == "Skipped"
    ensures r == Info <==> status != CallInitiated && status != "Failed" && status != "Skipped"
  {
    if status == CallInitiated then Success
    else if status == "Failed" then Error
    else if status == "Skipped" then Warning
    else Info
  }

  /** The icons of `getCallStatusIcon`, each drawn in one colour. */
  datatype Icon = CheckCircle | Cancel | WarningSign | InfoSign

  function IconColor(icon: Icon): Color {
    match icon
    case CheckCircle => Success
    case Cancel => Error
    case WarningSign => Warning
    case InfoSign => Info
  }

  /** `getCallStatusIcon`. */
  function CallStatusIcon(status: string): Icon {
    match status
    case "Call initiated" => CheckCircle
    case "Failed" => Cancel
    case "Skipped" => WarningSign
    case _ => InfoSign
  }

  /** The icon of a status is drawn in the colour of its chip. */
  lemma IconMatchesChip(status: string)
    ensures IconColor(CallStatusIcon(status)) == CallStatusColor(status)
  {
  }

  /** The back end reports a failed call as "Call failed", which the page shows as neutral
      information, never as an error. */
  lemma FailedCallsShowAsInfo(c: Candidate)
    ensures CallStatusColor(BackendServer.BulkRow(c, false).callStatus) == Info
    ensures CallStatusColor(BackendServer.BulkRow(c, true).callStatus) == Success
  {
    assert BackendServer.CallFailed != "Failed";
  }

  // ----- the page -----

  class PrescreeningView {
    var candidates: seq<Candidate>
    var selected: seq<int>
    var jobId: Option<int>

    constructor ()
      ensures candidates == [] && selected == [] && jobId.None?
    {
      candidates := [];
      selected := [];
      jobId := None;
    }

    /** A successful `fetchCandidates`. */
    method SetFetched(fetched: seq<Candidate>)
      modifies this
      ensures candidates == Eligible(fetched) && selected == old(selected) && jobId == old(jobId)
    {
      candidates := Keep(fetched, EligibleForCall);
    }

    method SelectJob(id: Option<int>)
      modifies this
      ensures jobId == id && candidates == old(candidates) && selected == old(selected)
    {
      jobId := id;
    }

    method ToggleCandidate(id: int)
      modifies this
      ensures selected == Toggled(old(selected), id)
      ensures candidates == old(candidates) && jobId == old(jobId)
    {
      if id in selected {
        selected := Keep(selected, (x: int) => x != id);
      } else {
        selected := selected + [id];
      }
    }

    method ToggleAll()
      modifies this
      ensures selected == SelectAll(old(selected), candidates)
      ensures candidates == old(candidates) && jobId == old(jobId)
    {
      if |selected| == |candidates| {
        selected := [];
      } else {
        selected := Ids(candidates);
      }
    }

    /** `runPrescreeningCalls`; `accepted` is whether the back end answered with success. On
        success the selection is cleared (the list is fetched again, which is left out). */
    method RunCalls(accepted: bool) returns (outcome: RunOutcome)
      modifies this
      ensures outcome == RunRequest(old(selected), jobId)
      ensures selected == if outcome.Send? && accepted then [] else old(selected)
      ensures candidates == old(candidates) && jobId == old(jobId)
    {
      if |selected| == 0 {
        return Warn(NoSelectionWarning);
      }
      if jobId.None? || jobId.value == 0 {
        return Warn(NoJobWarning);
      }
      outcome := Send(BulkRequest(selected, jobId.value));
      if accepted {
        selected := [];
      }
    }
  }
}
