/** The candidate list page of the React front end: the filter pipeline, the status choices and
    the chip colours. */
module CandidatesPage {
  import opened Base
  import opened Seqs
  import opened Text
  import opened Records
  import opened Filtering

  /** `applyFilters`: the four stages in the page's order, each one filtering what the previous
      one kept; the search and skill stages only run when their text is non-empty, the status
      stage only when a status other than "All" is chosen. */
  function FilterCandidates(candidates: seq<Candidate>, f: Criteria): seq<Candidate> {
    var bySearch := if f.search != "" then Keep(candidates, (c: Candidate) => MatchesSearch(c, f.search)) else candidates;
    var bySkills := if f.skills != "" then Keep(bySearch, (c: Candidate) => AllTokensIn(c.skills, JsSkillTokens(f.skills))) else bySearch;
    var byScore := Keep(bySkills, (c: Candidate) => InScoreRange(c.score, f.lo, f.hi));
    if f.status != "All" then Keep(byScore, (c: Candidate) => c.status == Some(f.status)) else byScore
  }

  /** A candidate passes the page's filter when it passes every active stage. */
  predicate Passes(f: Criteria, c: Candidate) {
    && (f.search != "" ==> MatchesSearch(c, f.search))
    && (f.skills != "" ==> AllTokensIn(c.skills, JsSkillTokens(f.skills)))
    && InScoreRange(c.score, f.lo, f.hi)
    && StatusMatches(c.status, f.status)
  }

  /** The staged pipeline is one filter by the conjunction of the active stages. */
  lemma FilterIsConjunction(candidates: seq<Candidate>, f: Criteria)
    ensures FilterCandidates(candidates, f) == Keep(candidates, (c: Candidate) => Passes(f, c))
  {
    var p1 := (c: Candidate) => f.search != "" ==> MatchesSearch(c, f.search);
    var p2 := (c: Candidate) => f.skills != "" ==> AllTokensIn(c.skills, JsSkillTokens(f.skills));
    var p3 := (c: Candidate) => InScoreRange(c.score, f.lo, f.hi);
    var p4 := (c: Candidate) => StatusMatches(c.status, f.status);
    KeepWhen(candidates, f.search != "", (c: Candidate) => MatchesSearch(c, f.search), p1);
    var s1 := Keep(candidates, p1);
    KeepWhen(s1, f.skills != "", (c: Candidate) => AllTokensIn(c.skills, JsSkillTokens(f.skills)), p2);
    var s2 := Keep(s1, p2);
    KeepCongruent(s2, (c: Candidate) => InScoreRange(c.score, f.lo, f.hi), p3);
    var s3 := Keep(s2, p3);
    KeepWhen(s3, f.status != "All", (c: Candidate) => c.status == Some(f.status), p4);
    KeepStages(candidates, p1, p2, p3, p4, (c: Candidate) => Passes(f, c));
  }

  /** The filtered list is an order-preserving subsequence of the candidates, and it holds
      exactly the candidates that pass every active stage. */
  lemma FilterSpec(candidates: seq<Candidate>, f: Criteria)
    ensures IsSubsequence(FilterCandidates(candidates, f), candidates)
    ensures forall c :: c in FilterCandidates(candidates, f) <==> c in candidates && Passes(f, c)
  {
    FilterIsConjunction(candidates, f);
    KeepIsSubsequence(candidates, (c: Candidate) => Passes(f, c));
    forall c ensures c in FilterCandidates(candidates, f) <==> c in candidates && Passes(f, c) {
      KeepMembers(candidates, (c: Candidate) => Passes(f, c), c);
    }
  }

  /** With the page's initial criteria nothing is filtered out (scores lie in [0, 100]). */
  lemma DefaultCriteriaKeepAll(candidates: seq<Candidate>)
    requires forall i :: 0 <= i < |candidates| ==> 0 <= candidates[i].score <= 100
    ensures FilterCandidates(candidates, DefaultCriteria) == candidates
  {
    FilterIsConjunction(candidates, DefaultCriteria);
    KeepAll(candidates, (c: Candidate) => Passes(DefaultCriteria, c));
  }

  /** A non-empty skill filter turns away every candidate without a skills value: splitting
      always yields at least one token. */
  lemma MissingSkillsExcluded(c: Candidate, f: Criteria)
    requires f.skills != "" && c.skills.None?
    ensures !Passes(f, c)
  {
    var tokens := JsSkillTokens(f.skills);
    assert |tokens| >= 1 && tokens[0] == tokens[0];
  }

  /** The present, non-empty status values, in candidate order (`map(c => c.status).filter(Boolean)`). */
  function TruthyStatuses(candidates: seq<Candidate>): seq<string> {
    if candidates == [] then []
    else
      var c := candidates[0];
      (if c.status.Some? && c.status.value != "" then [c.status.value] else []) + TruthyStatuses(candidates[1..])
  }

  lemma {:induction false} TruthyStatusesMembers(candidates: seq<Candidate>, s: string)
    ensures s in TruthyStatuses(candidates) <==>
            s != "" && exists i :: 0 <= i < |candidates| && candidates[i].status == Some(s)
  {
    if candidates != [] {
      var c := candidates[0];
      var head := if c.status.Some? && c.status.value != "" then [c.status.value] else [];
      var rest := candidates[1..];
      assert TruthyStatuses(candidates) == head + TruthyStatuses(rest);
      TruthyStatusesMembers(rest, s);
      if s in TruthyStatuses(candidates) {
        if s in head {
          assert candidates[0].status == Some(s);
        } else {
          var j :| 0 <= j < |rest| && rest[j].status == Some(s);
          assert candidates[j + 1] == rest[j];
        }
        assert s != "" && exists i :: 0 <= i < |candidates| && candidates[i].status == Some(s);
      }
      if s != "" && exists i :: 0 <= i < |candidates| && candidates[i].status == Some(s) {
        var i :| 0 <= i < |candidates| && candidates[i].status == Some(s);
        if i > 0 {
          assert rest[i - 1] == candidates[i];
        } else {
          assert s in head;
        }
        assert s in TruthyStatuses(candidates);
      }
    }
  }

  /** `statusOptions`: "All" followed by the distinct present statuses. */
  function StatusOptions(candidates: seq<Candidate>): seq<string> {
    ["All"] + Dedup(TruthyStatuses(candidates))
  }

  /** The choices after "All" are every distinct present, non-empty status. */
  lemma StatusOptionsMembers(candidates: seq<Candidate>)
    ensures forall s :: s in StatusOptions(candidates)[1..] <==>
              s != "" && exists i :: 0 <= i < |candidates| && candidates[i].status == Some(s)
  {
    var t := TruthyStatuses(candidates);
    assert StatusOptions(candidates)[1..] == Dedup(t);
    forall s ensures s in Dedup(t) <==> s != "" && exists i :: 0 <= i < |candidates| && candidates[i].status == Some(s) {
      DedupMembers(t, s);
      TruthyStatusesMembers(candidates, s);
    }
  }

  /** The choices after "All" appear in the order in which the statuses first occur. */
  lemma StatusOptionsOrder(candidates: seq<Candidate>)
    ensures forall i, j :: 1 <= i < j < |StatusOptions(candidates)| ==>
              var t := TruthyStatuses(candidates);
              StatusOptions(candidates)[i] in t && StatusOptions(candidates)[j] in t &&
              FirstIndex(t, StatusOptions(candidates)[i]) < FirstIndex(t, StatusOptions(candidates)[j])
  {
    var t := TruthyStatuses(candidates);
    var r := StatusOptions(candidates);
    forall i, j | 1 <= i < j < |r|
      ensures r[i] in t && r[j] in t && FirstIndex(t, r[i]) < FirstIndex(t, r[j])
    {
      assert r[i] == Dedup(t)[i - 1] && r[j] == Dedup(t)[j - 1];
      DedupFirstOccurrenceOrder(t, i - 1, j - 1);
    }
  }

  /** The choices are "All" and then every distinct present, non-empty status exactly once, in
      the order in which the statuses first appear among the candidates. */
  lemma StatusOptionsSpec(candidates: seq<Candidate>)
    ensures StatusOptions(candidates)[0] == "All"
    ensures forall s :: s in StatusOptions(candidates)[1..] <==>
              s != "" && exists i :: 0 <= i < |candidates| && candidates[i].status == Some(s)
    ensures NoDup(StatusOptions(candidates)[1..])
    ensures forall i, j :: 1 <= i < j < |StatusOptions(candidates)| ==>
              var t := TruthyStatuses(candidates);
              StatusOptions(candidates)[i] in t && StatusOptions(candidates)[j] in t &&
              FirstIndex(t, StatusOptions(candidates)[i]) < FirstIndex(t, StatusOptions(candidates)[j])
  {
    var t := TruthyStatuses(candidates);
    assert StatusOptions(candidates)[1..] == Dedup(t);
    DedupNoDup(t);
    StatusOptionsMembers(candidates);
    StatusOptionsOrder(candidates);
  }

  /** `getScoreColor`: five bands of ten points from 90 down. */
  function ScoreColor(score: int): Color {
    if score >= 90 then Success
    else if score >= 80 then Primary
    else if score >= 70 then Warning
    else if score >= 60 then Info
    else Error
  }

  /** The rank of a band, lowest first. */
  function BandRank(c: Color): nat {
    match c
    case Error => 0
    case Info => 1
    case Warning => 2
    case Primary => 3
    case Success => 4
    case Default => 0
  }

  /** A higher score never gets a lower band, and a score gets one of the three upper bands
      exactly when it qualifies for a prescreening call. */
  lemma ScoreColorBands(a: int, b: int)
    ensures a <= b ==> BandRank(ScoreColor(a)) <= BandRank(ScoreColor(b))
    ensures BandRank(ScoreColor(a)) >= 2 <==> Qualifies(a)
    ensures ScoreColor(a) != Default
  {
  }

  /** `getStatusColor`. */
  function StatusColor(status: Option<string>): (r: Color)
    ensures r == Success <==> status == Some(InterviewScheduled)
    ensures r == Default <==> status == Some(NotScheduled)
    ensures r == Info <==> status != Some(InterviewScheduled) && status != Some(NotScheduled)
  {
    if status == Some(InterviewScheduled) then Success
    else if status == Some(NotScheduled) then Default
    else Info
  }

  /** The page's React state: the fetched candidates, the four filter inputs and the list shown.
      Whenever the candidates or a filter input change, the effect on lines 59-61 re-runs
      `applyFilters`, so the list shown is always the filter of the current inputs. */
  class CandidatesView {
    var candidates: seq<Candidate>
    var criteria: Criteria
    var filteredCandidates: seq<Candidate>

    ghost predicate Valid()
      reads this
    {
      filteredCandidates == FilterCandidates(candidates, criteria)
    }

    constructor ()
      ensures Valid()
      ensures candidates == [] && criteria == DefaultCriteria && filteredCandidates == []
    {
      candidates := [];
      criteria := DefaultCriteria;
      filteredCandidates := [];
    }

    /** `applyFilters`: rebinds a local list stage by stage, then stores it. */
    method ApplyFilters()
      modifies this`filteredCandidates
      ensures filteredCandidates == FilterCandidates(candidates, criteria)
      ensures Valid()
    {
      var f := criteria;
      var filtered := candidates;
      if f.search != "" {
        filtered := Keep(filtered, (c: Candidate) => MatchesSearch(c, f.search));
      }
      if f.skills != "" {
        var skills := JsSkillTokens(f.skills);
        filtered := Keep(filtered, (c: Candidate) => AllTokensIn(c.skills, skills));
      }
      filtered := Keep(filtered, (c: Candidate) => InScoreRange(c.score, f.lo, f.hi));
      if f.status != "All" {
        filtered := Keep(filtered, (c: Candidate) => c.status == Some(f.status));
      }
      filteredCandidates := filtered;
    }

    /** A successful `fetchCandidates` replaces the list. */
    method SetCandidates(fetched: seq<Candidate>)
      modifies this
      ensures candidates == fetched && criteria == old(criteria)
      ensures Valid()
    {
      candidates := fetched;
      ApplyFilters();
    }

    method SetSearchName(query: string)
      modifies this
      ensures criteria == old(criteria).(search := query) && candidates == old(candidates)
      ensures Valid()
    {
      criteria := criteria.(search := query);
      ApplyFilters();
    }

    method SetFilterSkill(skills: string)
      modifies this
      ensures criteria == old(criteria).(skills := skills) && candidates == old(candidates)
      ensures Valid()
    {
      criteria := criteria.(skills := skills);
      ApplyFilters();
    }

    method SetScoreRange(lo: int, hi: int)
      modifies this
      ensures criteria == old(criteria).(lo := lo, hi := hi) && candidates == old(candidates)
      ensures Valid()
    {
      criteria := criteria.(lo := lo, hi := hi);
      ApplyFilters();
    }

    method SetFilterStatus(status: string)
      modifies this
      ensures criteria == old(criteria).(status := status) && candidates == old(candidates)
      ensures Valid()
    {
      criteria := criteria.(status := status);
      ApplyFilters();
    }
  }
}
