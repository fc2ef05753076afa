/** The Streamlit application: its text helpers, the score rule of the parser tab, the
    prescreening tab's call-and-notify loop over the session's data frame, and the search of the
    HR management tab. */
module HrApp {
  import opened Base
  import opened Seqs
  import opened Text
  import opened Records
  import opened Filtering
  import opened CandidatesPage

  // ----- truncate_text -----

  /** Python's slice `s[:n]` for any integer `n`: a negative bound counts from the end. */
  function PyPrefix<T>(s: seq<T>, n: int): (r: seq<T>)
    ensures |r| <= |s| && r == s[..|r|]
    ensures 0 <= n ==> |r| == if n <= |s| then n else |s|
    ensures n < 0 ==> |r| == if |s| + n >= 0 then |s| + n else 0
  {
    if n >= |s| then s
    else if n >= 0 then s[..n]
    else if |s| + n >= 0 then s[..|s| + n]
    else []
  }

  /** `truncate_text`: the text itself when it fits, otherwise its first `maxChars` characters
      and an ellipsis. */
  function TruncateText(text: string, maxChars: int): (r: string)
    ensures |text| <= maxChars ==> r == text
    ensures 0 <= maxChars < |text| ==> r == text[..maxChars] + "..."
    ensures maxChars < |text| ==> EndsWith(r, "...") && StartsWith(text, r[..|r| - 3])
  {
    PyPrefix(text, maxChars) + (if |text| > maxChars then "..." else "")
  }

  /** The limit `conduct_interview_call` applies to the job description. */
  const InterviewJobDescriptionLimit: int := 1500

  // ----- min_questions_answered -----

  /** A question counts when it is non-empty and occurs in the transcript. */
  predicate Answered(transcript: string, q: string) {
    q != "" && Contains(transcript, q)
  }

  /** `min_questions_answered`: at least two of the listed questions occur in the transcript;
      a question listed twice counts twice. */
  predicate MinQuestionsAnswered(questions: seq<string>, transcript: string) {
    Count(questions, (q: string) => Answered(transcript, q)) >= 2
  }

  lemma MinQuestionsAnsweredSpec(questions: seq<string>, transcript: string)
    ensures MinQuestionsAnswered(questions, transcript) <==>
      exists i, j :: 0 <= i < j < |questions| && Answered(transcript, questions[i]) && Answered(transcript, questions[j])
  {
    CountAtLeastTwo(questions, (q: string) => Answered(transcript, q));
  }

  // ----- the parser tab's status column -----

  /** The `Status` column derived from the coerced score. */
  function StatusForScore(score: int): (r: string)
    ensures r == InterviewScheduled <==> Qualifies(score)
    ensures r == NotScheduled <==> !Qualifies(score)
  {
    if score >= 70 then InterviewScheduled else NotScheduled
  }

  // ----- the HR management tab -----

  /** The exceptions pandas raises in the tab: `TypeError` from a substring test against a
      missing value, `KeyError` from a lookup of the `score` column in a frame that lost its
      columns. */
  datatype PyError = TypeError | KeyError

  function SearchStage(rows: seq<Candidate>, f: Criteria): seq<Candidate> {
    if f.search != "" then Keep(rows, (c: Candidate) => MatchesSearch(c, f.search)) else rows
  }

  /** The skill stage tests `skill in x` on each row that reached it; a missing skills value
      (NaN after `str.lower`) raises as soon as there is one token to test. */
  predicate SkillStageRaises(rows: seq<Candidate>, f: Criteria) {
    f.skills != "" && PySkillTokens(f.skills) != [] && exists i | 0 <= i < |rows| :: rows[i].skills.None?
  }

  /** The skill stage over a search that kept no row: `apply` on the empty column gives an
      empty mask of object dtype, which pandas does not take for a boolean mask, so the frame is
      indexed by it as a list of columns and keeps none; the score stage then looks up a column
      that is gone. The tab only runs on a table with rows. */
  predicate SkillStageEmptiesFrame(rows: seq<Candidate>, f: Criteria) {
    rows != [] && f.skills != "" && SearchStage(rows, f) == []
  }

  /** The tab's filter: the same four stages as the React page, with the blank skill tokens
      dropped, a TypeError when a row without skills meets a token, and a KeyError when the
      skill stage runs on a search that kept nothing. */
  function FilterTab(rows: seq<Candidate>, f: Criteria): Result<seq<Candidate>, PyError> {
    if SkillStageRaises(SearchStage(rows, f), f) then Err(TypeError)
    else if SkillStageEmptiesFrame(rows, f) then Err(KeyError)
    else Ok(PyPipeline(rows, f))
  }

  /** The tab's stages after the search, when no row raises. */
  function PyPipeline(rows: seq<Candidate>, f: Criteria): seq<Candidate> {
    var bySearch := SearchStage(rows, f);
    var bySkills := if f.skills != "" then Keep(bySearch, (c: Candidate) => AllTokensIn(c.skills, PySkillTokens(f.skills))) else bySearch;
    var byScore := Keep(bySkills, (c: Candidate) => InScoreRange(c.score, f.lo, f.hi));
    if f.status != "All" then Keep(byScore, (c: Candidate) => c.status == Some(f.status)) else byScore
  }

  /** A row passes the tab's filter when it passes every active stage. */
  predicate PyPasses(f: Criteria, c: Candidate) {
    && (f.search != "" ==> MatchesSearch(c, f.search))
    && (f.skills != "" ==> AllTokensIn(c.skills, PySkillTokens(f.skills)))
    && InScoreRange(c.score, f.lo, f.hi)
    && StatusMatches(c.status, f.status)
  }

  /** The search stage keeps the rows that pass it. */
  lemma SearchStageKeeps(rows: seq<Candidate>, f: Criteria)
    ensures SearchStage(rows, f) == Keep(rows, (c: Candidate) => f.search != "" ==> MatchesSearch(c, f.search))
  {
    var p1 := (c: Candidate) => f.search != "" ==> MatchesSearch(c, f.search);
    if f.search != "" {
      KeepCongruent(rows, p1, (c: Candidate) => MatchesSearch(c, f.search));
    } else {
      KeepAll(rows, p1);
    }
  }

  /** The filter raises a TypeError exactly when there is a skill token and some row that
      passes the search has no skills, and a KeyError exactly when the table has rows, the skill
      box is filled and no row passes the search. */
  lemma FilterTabRaises(rows: seq<Candidate>, f: Criteria)
    ensures FilterTab(rows, f) == Err(TypeError) <==>
      f.skills != "" && PySkillTokens(f.skills) != [] &&
      exists c :: c in rows && (f.search != "" ==> MatchesSearch(c, f.search)) && c.skills.None?
    ensures FilterTab(rows, f) == Err(KeyError) <==>
      rows != [] && f.skills != "" && f.search != "" &&
      forall c :: c in rows ==> !MatchesSearch(c, f.search)
    ensures FilterTab(rows, f).Err? ==> FilterTab(rows, f) == Err(TypeError) || FilterTab(rows, f) == Err(KeyError)
  {
    SearchEmptied(rows, f);
    var p1 := (c: Candidate) => f.search != "" ==> MatchesSearch(c, f.search);
    SearchStageKeeps(rows, f);
    var s1 := SearchStage(rows, f);
    if exists i | 0 <= i < |s1| :: s1[i].skills.None? {
      var i :| 0 <= i < |s1| && s1[i].skills.None?;
      KeepMembers(rows, p1, s1[i]);
    }
    if exists c :: c in rows && p1(c) && c.skills.None? {
      var c :| c in rows && p1(c) && c.skills.None?;
      KeepMembers(rows, p1, c);
      var i :| 0 <= i < |s1| && s1[i] == c;
    }
  }

  /** The search keeps no row exactly when a search is given and no row matches it. */
  lemma SearchEmptied(rows: seq<Candidate>, f: Criteria)
    ensures SearchStage(rows, f) == [] <==>
      rows == [] || (f.search != "" && forall c :: c in rows ==> !MatchesSearch(c, f.search))
  {
    var p := (c: Candidate) => MatchesSearch(c, f.search);
    if f.search != "" {
      if forall c :: c in rows ==> !MatchesSearch(c, f.search) {
        KeepNone(rows, p);
      } else {
        var c :| c in rows && MatchesSearch(c, f.search);
        KeepMembers(rows, p, c);
      }
    }
  }

  /** When the filter does not raise it keeps, in order, exactly the rows that pass every
      active stage. */
  lemma FilterTabKeeps(rows: seq<Candidate>, f: Criteria)
    ensures FilterTab(rows, f).Ok? ==> FilterTab(rows, f).value == Keep(rows, (c: Candidate) => PyPasses(f, c))
  {
    PyPipelineIsConjunction(rows, f);
  }

  lemma PyPipelineIsConjunction(rows: seq<Candidate>, f: Criteria)
    ensures PyPipeline(rows, f) == Keep(rows, (c: Candidate) => PyPasses(f, c))
  {
    var p1 := (c: Candidate) => f.search != "" ==> MatchesSearch(c, f.search);
    var p2 := (c: Candidate) => f.skills != "" ==> AllTokensIn(c.skills, PySkillTokens(f.skills));
    var p3 := (c: Candidate) => InScoreRange(c.score, f.lo, f.hi);
    var p4 := (c: Candidate) => StatusMatches(c.status, f.status);
    KeepWhen(rows, f.search != "", (c: Candidate) => MatchesSearch(c, f.search), p1);
    var s1 := Keep(rows, p1);
    KeepWhen(s1, f.skills != "", (c: Candidate) => AllTokensIn(c.skills, PySkillTokens(f.skills)), p2);
    var s2 := Keep(s1, p2);
    KeepCongruent(s2, (c: Candidate) => InScoreRange(c.score, f.lo, f.hi), p3);
    var s3 := Keep(s2, p3);
    KeepWhen(s3, f.status != "All", (c: Candidate) => c.status == Some(f.status), p4);
    KeepStages(rows, p1, p2, p3, p4, (c: Candidate) => PyPasses(f, c));
  }

  /** A result of the filter is an order-preserving subsequence of the rows holding exactly
      those that pass every active stage. */
  lemma FilterTabSpec(rows: seq<Candidate>, f: Criteria)
    requires FilterTab(rows, f).Ok?
    ensures IsSubsequence(FilterTab(rows, f).value, rows)
    ensures forall c :: c in FilterTab(rows, f).value <==> c in rows && PyPasses(f, c)
  {
    FilterTabKeeps(rows, f);
    KeepIsSubsequence(rows, (c: Candidate) => PyPasses(f, c));
    forall c ensures c in FilterTab(rows, f).value <==> c in rows && PyPasses(f, c) {
      KeepMembers(rows, (c: Candidate) => PyPasses(f, c), c);
    }
  }

  /** When every row has a skills value the tab keeps exactly what the React page keeps
      (dropping the blank tokens only matters for rows without skills), except that it raises
      where the React page shows an empty list: a skill filter after a search that kept nothing. */
  lemma FiltersAgreeWhenSkillsPresent(rows: seq<Candidate>, f: Criteria)
    requires forall i :: 0 <= i < |rows| ==> rows[i].skills.Some?
    ensures FilterTab(rows, f) == if SkillStageEmptiesFrame(rows, f) then Err(KeyError) else Ok(FilterCandidates(rows, f))
    ensures SkillStageEmptiesFrame(rows, f) ==> FilterCandidates(rows, f) == []
  {
    FilterTabRaises(rows, f);
    if SkillStageEmptiesFrame(rows, f) {
      SearchEmptied(rows, f);
      FilterIsConjunction(rows, f);
      forall i | 0 <= i < |rows| ensures !Passes(f, rows[i]) {
        assert rows[i] in rows;
      }
      KeepNone(rows, (c: Candidate) => Passes(f, c));
      return;
    }
    FilterTabKeeps(rows, f);
    FilterIsConjunction(rows, f);
    forall i | 0 <= i < |rows| ensures PyPasses(f, rows[i]) == Passes(f, rows[i]) {
      EmptyTokensDoNotMatter(rows[i].skills.value, f.skills);
    }
    KeepCongruent(rows, (c: Candidate) => PyPasses(f, c), (c: Candidate) => Passes(f, c));
  }

  /** A filter made of a single comma yields two empty pieces. */
  lemma CommaPieces()
    ensures SkillPieces(",") == ["", ""]
  {
    assert Split([], ',') == [[]];
    assert ","[1..] == [];
    assert Split(",", ',') == [[], []];
  }

  /** A skill filter made of a single comma: the React page turns away a candidate without
      skills (its two empty tokens still need a skills value), while the tab keeps it (no token
      is left to test). */
  lemma CommaOnlySkillFilterDiffers(c: Candidate)
    requires c.skills.None? && 0 <= c.score <= 100
    ensures FilterCandidates([c], Criteria("", ",", 0, 100, "All")) == []
    ensures FilterTab([c], Criteria("", ",", 0, 100, "All")) == Ok([c])
  {
    CommaOnlyReact(c);
    CommaOnlyStreamlit(c);
  }

  lemma CommaOnlyReact(c: Candidate)
    requires c.skills.None?
    ensures FilterCandidates([c], Criteria("", ",", 0, 100, "All")) == []
  {
    var f := Criteria("", ",", 0, 100, "All");
    MissingSkillsExcluded(c, f);
    FilterIsConjunction([c], f);
    assert Keep([c], (x: Candidate) => Passes(f, x)) == [];
  }

  /** A lone comma leaves the tab no skill token. */
  lemma CommaTokens()
    ensures PySkillTokens(",") == []
  {
    CommaPieces();
    assert Keep(["", ""], NonEmpty) == [];
  }

  lemma CommaOnlyStreamlit(c: Candidate)
    requires 0 <= c.score <= 100
    ensures FilterTab([c], Criteria("", ",", 0, 100, "All")) == Ok([c])
  {
    var f := Criteria("", ",", 0, 100, "All");
    NoTokenNoRaise([c], f);
    CommaOnlyPasses(c);
  }

  /** A skill filter that leaves no token never raises. */
  lemma NoTokenNoRaise(rows: seq<Candidate>, f: Criteria)
    requires f.search == "" && f.skills == ","
    ensures FilterTab(rows, f) == Ok(PyPipeline(rows, f))
  {
    CommaTokens();
    assert SearchStage(rows, f) == rows;
    assert !SkillStageRaises(rows, f);
    assert !SkillStageEmptiesFrame(rows, f);
  }

  /** A search that matches no one, followed by a skill filter, makes the tab raise instead of
      showing an empty table. */
  lemma NoMatchThenSkillFilterRaises(c: Candidate)
    requires c.name == Some("Ann") && c.email.None?
    ensures FilterTab([c], Criteria("zzz", "python", 0, 100, "All")) == Err(KeyError)
  {
    var f := Criteria("zzz", "python", 0, 100, "All");
    assert !Contains(Lower("Ann"), Lower("zzz")) by {
      assert Lower("Ann") == "ann";
      assert Lower("zzz") == "zzz";
      assert "ann"[0..3][0] != "zzz"[0];
    }
    assert !MatchesSearch(c, "zzz");
    FilterTabRaises([c], f);
  }

  lemma CommaOnlyPasses(c: Candidate)
    requires 0 <= c.score <= 100
    ensures PyPipeline([c], Criteria("", ",", 0, 100, "All")) == [c]
  {
    var f := Criteria("", ",", 0, 100, "All");
    CommaTokens();
    PyPipelineIsConjunction([c], f);
    assert PyPasses(f, c);
    KeepAll([c], (x: Candidate) => PyPasses(f, x));
  }

  // ----- the HR management tab's status choices -----

  /** The status column as pandas holds it: a missing status is None. */
  function StatusColumn(rows: seq<Candidate>): seq<Option<string>> {
    seq(|rows|, i requires 0 <= i < |rows| => rows[i].status)
  }

  /** The present values of a column, in order. */
  function PresentValues(xs: seq<Option<string>>): (r: seq<string>)
    ensures forall s :: s in r <==> Some(s) in xs
  {
    if xs == [] then []
    else
      assert forall s :: Some(s) in xs <==> xs[0] == Some(s) || Some(s) in xs[1..];
      (if xs[0].Some? then [xs[0].value] else []) + PresentValues(xs[1..])
  }

  lemma {:induction false} PresentValuesNoDup(xs: seq<Option<string>>)
    requires NoDup(xs)
    ensures NoDup(PresentValues(xs))
  {
    if xs != [] {
      var rest := PresentValues(xs[1..]);
      assert NoDup(xs[1..]) by {
        forall i, j | 0 <= i < j < |xs[1..]| ensures xs[1..][i] != xs[1..][j] {
          assert xs[1..][i] == xs[i + 1] && xs[1..][j] == xs[j + 1];
        }
      }
      PresentValuesNoDup(xs[1..]);
      if xs[0].Some? {
        assert xs[0] !in xs[1..];
        assert forall j :: 0 <= j < |rest| ==> ([xs[0].value] + rest)[j + 1] == rest[j];
      }
    }
  }

  function Somes(ss: seq<string>): (r: seq<Option<string>>)
    ensures |r| == |ss| && forall i :: 0 <= i < |ss| ==> r[i] == Some(ss[i])
  {
    seq(|ss|, i requires 0 <= i < |ss| => Some(ss[i]))
  }

  /** `["All"] + sorted(df["status"].unique())`: sorting raises when None sits beside a string;
      a column of None alone sorts to `[None]`. */
  function PyStatusOptions(rows: seq<Candidate>): Result<seq<Option<string>>, PyError> {
    var distinct := Dedup(StatusColumn(rows));
    if None in distinct && |distinct| >= 2 then Err(TypeError)
    else if None in distinct then Ok([Some("All"), None])
    else Ok([Some("All")] + Somes(SortStrings(PresentValues(distinct))))
  }

  /** The distinct statuses are the statuses of the rows, without duplicates. */
  lemma DistinctStatuses(rows: seq<Candidate>)
    ensures NoDup(Dedup(StatusColumn(rows)))
    ensures forall x :: x in Dedup(StatusColumn(rows)) <==> exists i :: 0 <= i < |rows| && rows[i].status == x
  {
    var column := StatusColumn(rows);
    DedupNoDup(column);
    forall x ensures x in Dedup(column) <==> exists i :: 0 <= i < |rows| && rows[i].status == x {
      DedupMembers(column, x);
      if x in column {
        var i :| 0 <= i < |column| && column[i] == x;
      }
      if exists i :: 0 <= i < |rows| && rows[i].status == x {
        var i :| 0 <= i < |rows| && rows[i].status == x;
        assert column[i] == x;
      }
    }
  }

  /** The choices raise exactly when the column mixes missing and present statuses; otherwise
      "All" comes first. */
  lemma PyStatusOptionsRaises(rows: seq<Candidate>)
    ensures PyStatusOptions(rows).Err? <==>
      (exists i :: 0 <= i < |rows| && rows[i].status.None?) && (exists j :: 0 <= j < |rows| && rows[j].status.Some?)
    ensures PyStatusOptions(rows).Ok? ==> |PyStatusOptions(rows).value| >= 1 && PyStatusOptions(rows).value[0] == Some("All")
  {
    var distinct := Dedup(StatusColumn(rows));
    DistinctStatuses(rows);
    if exists j :: 0 <= j < |rows| && rows[j].status.Some? {
      var j :| 0 <= j < |rows| && rows[j].status.Some?;
      assert rows[j].status in distinct;
    }
    if None in distinct && |distinct| >= 2 {
      assert distinct[0] != distinct[1];
      var x := if distinct[0].Some? then distinct[0] else distinct[1];
      assert x in distinct && x.Some?;
    }
  }

  /** Sorting distinct strings keeps them distinct and puts them in ascending order. */
  lemma SortDistinct(present: seq<string>)
    requires NoDup(present)
    ensures NoDup(SortStrings(present)) && SortedStrings(SortStrings(present))
    ensures forall s :: s in SortStrings(present) <==> s in present
  {
    var sorted := SortStrings(present);
    NoDupPermutation(present, sorted);
    SortStringsSorted(present);
    forall s ensures s in sorted <==> s in present {
      assert s in sorted <==> s in multiset(sorted);
      assert s in present <==> s in multiset(present);
    }
  }

  lemma SomesMembers(ss: seq<string>)
    ensures forall s :: Some(s) in Somes(ss) <==> s in ss
  {
    forall s ensures Some(s) in Somes(ss) <==> s in ss {
      if Some(s) in Somes(ss) {
        var k :| 0 <= k < |ss| && Somes(ss)[k] == Some(s);
        assert ss[k] == s;
      }
      if s in ss {
        var k :| 0 <= k < |ss| && ss[k] == s;
        assert Somes(ss)[k] == Some(s);
      }
    }
  }

  /** The present values of a column without None, and the choices built from them. */
  lemma PresentStatuses(rows: seq<Candidate>)
    requires forall i :: 0 <= i < |rows| ==> rows[i].status.Some?
    ensures var present := PresentValues(Dedup(StatusColumn(rows)));
      && NoDup(present)
      && (forall s :: s in present <==> exists i :: 0 <= i < |rows| && rows[i].status == Some(s))
      && PyStatusOptions(rows) == Ok([Some("All")] + Somes(SortStrings(present)))
  {
    var distinct := Dedup(StatusColumn(rows));
    DistinctStatuses(rows);
    assert None !in distinct;
    PresentValuesNoDup(distinct);
  }

  /** For a column without None the choices after "All" are the distinct statuses in strictly
      ascending order. */
  lemma PyStatusOptionsSorted(rows: seq<Candidate>)
    requires forall i :: 0 <= i < |rows| ==> rows[i].status.Some?
    ensures PyStatusOptions(rows).Ok?
    ensures forall k :: 1 <= k < |PyStatusOptions(rows).value| ==> PyStatusOptions(rows).value[k].Some?
    ensures forall s :: Some(s) in PyStatusOptions(rows).value[1..] <==> exists i :: 0 <= i < |rows| && rows[i].status == Some(s)
    ensures forall k, l :: 1 <= k < l < |PyStatusOptions(rows).value| ==>
      StrLe(PyStatusOptions(rows).value[k].value, PyStatusOptions(rows).value[l].value) &&
      PyStatusOptions(rows).value[k] != PyStatusOptions(rows).value[l]
  {
    PresentStatuses(rows);
    var present := PresentValues(Dedup(StatusColumn(rows)));
    SortDistinct(present);
    var sorted := SortStrings(present);
    var r := [Some("All")] + Somes(sorted);
    assert r[1..] == Somes(sorted);
    SomesMembers(sorted);
    forall k, l | 1 <= k < l < |r| ensures StrLe(r[k].value, r[l].value) && r[k] != r[l] {
      assert r[k] == Some(sorted[k - 1]) && r[l] == Some(sorted[l - 1]);
    }
  }

  /** When every status is present and non-empty, the tab offers the same choices as the React
      page; only their order differs (sorted here, first occurrence there). */
  lemma StatusChoicesAgree(rows: seq<Candidate>)
    requires forall i :: 0 <= i < |rows| ==> rows[i].status.Some? && rows[i].status.value != ""
    ensures PyStatusOptions(rows).Ok?
    ensures forall s :: s in StatusOptions(rows) <==> Some(s) in PyStatusOptions(rows).value
  {
    PyStatusOptionsRaises(rows);
    PyStatusOptionsSorted(rows);
    StatusOptionsSpec(rows);
    var js := StatusOptions(rows);
    var py := PyStatusOptions(rows).value;
    forall s ensures s in js <==> Some(s) in py {
      assert js == [js[0]] + js[1..] && py == [py[0]] + py[1..];
      if exists i :: 0 <= i < |rows| && rows[i].status == Some(s) {
        var i :| 0 <= i < |rows| && rows[i].status == Some(s);
        assert s != "";
      }
    }
  }

  // ----- the prescreening tab -----

  const InvalidPhoneStatus: string := "Invalid" + " or missing phone number. Call not initiated."
  const CallErrorPrefix: string := "Error initiating call: "

  /** Only a present number starting with '+' is dialled. */
  predicate Dialable(phone: Option<string>) {
    phone.Some? && StartsWith(phone.value, "+")
  }

  /** The call status of `conduct_interview_call`. The notification of the voice server and the
      Twilio dial can each raise; their messages are inputs. */
  function CallAttemptStatus(phone: Option<string>, prospectError: Option<string>, dialError: Option<string>): (r: string)
    ensures r == CallInitiated <==> prospectError.None? && Dialable(phone) && dialError.None?
    ensures r == InvalidPhoneStatus <==> prospectError.None? && !Dialable(phone)
    ensures prospectError.Some? ==> r == CallErrorPrefix + prospectError.value
    ensures prospectError.None? && Dialable(phone) && dialError.Some? ==> r == CallErrorPrefix + dialError.value
  {
    assert InvalidPhoneStatus[0] == 'I';
    if prospectError.Some? then
      assert (CallErrorPrefix + prospectError.value)[0] == 'E';
      CallErrorPrefix + prospectError.value
    else if Dialable(phone) then
      if dialError.Some? then
        assert (CallErrorPrefix + dialError.value)[0] == 'E';
        CallErrorPrefix + dialError.value
      else CallInitiated
    else InvalidPhoneStatus
  }

  /** The three status mails the tab sends. */
  datatype Notice = Cleared | MissedCall | NotSelected

  /** The conditions for the "cleared the prescreening" mail. */
  predicate ClearsPrescreening(callStatus: string, summary: string, transcript: string, llmScore: int, enoughQuestions: bool) {
    && callStatus == CallInitiated
    && summary != ""
    && transcript != ""
    && Advances(llmScore)
    && enoughQuestions
    && (Contains(Lower(summary), "potential fit") || Contains(Lower(summary), "selected"))
  }

  /** The mail, if any, that follows one call: at most one, the cleared mail only after an
      initiated call, the missed-call mail after any other status. */
  function EmailDecision(callStatus: string, summary: string, transcript: string, llmScore: int, enoughQuestions: bool): (r: Option<Notice>)
    ensures r == Some(Cleared) <==> ClearsPrescreening(callStatus, summary, transcript, llmScore, enoughQuestions)
    ensures r == Some(MissedCall) <==> callStatus != CallInitiated
    ensures r.None? <==> callStatus == CallInitiated && !ClearsPrescreening(callStatus, summary, transcript, llmScore, enoughQuestions)
    ensures r != Some(NotSelected)
  {
    if ClearsPrescreening(callStatus, summary, transcript, llmScore, enoughQuestions) then Some(Cleared)
    else if callStatus != CallInitiated then Some(MissedCall)
    else None
  }

  /** One row of the session's data frame as the tab reads it (index labels are row positions). */
  datatype SessionRow = SessionRow(name: Option<string>, email: Option<string>, phone: Option<string>, score: int, called: bool)

  /** The interview the model wrote; when its reply is unusable the tab falls back to no
      questions, an empty summary and no transcript. */
  datatype Interview = Interview(questions: seq<string>, summary: string, transcript: string)

  const FallbackInterview: Interview := Interview([], "", "")

  /** What the outside world answers for one call: the interview, the two exception messages and
      the transcript score of `llm_score_transcript`. */
  datatype CallOutcome = CallOutcome(interview: Interview, prospectError: Option<string>, dialError: Option<string>, llmScore: int)

  /** A request to `send_candidate_status_email`. */
  datatype Mail = Mail(notice: Notice, to: Option<string>, name: Option<string>)

  predicate Selectable(r: SessionRow) {
    Qualifies(r.score) && !r.called
  }

  /** The positions below `n` of the rows the tab selects (`score >= 70` and not called), in
      frame order. */
  function Selection(rows: seq<SessionRow>, n: nat): (r: seq<nat>)
    requires n <= |rows|
    ensures forall k :: 0 <= k < |r| ==> r[k] < n && Selectable(rows[r[k]])
    ensures forall i :: 0 <= i < n && Selectable(rows[i]) ==> i in r
    ensures forall k, l :: 0 <= k < l < |r| ==> r[k] < r[l]
  {
    if n == 0 then [] else Selection(rows, n - 1) + (if Selectable(rows[n - 1]) then [n - 1] else [])
  }

  predicate InRange(rows: seq<SessionRow>, sel: seq<nat>) {
    forall k :: 0 <= k < |sel| ==> sel[k] < |rows|
  }

  /** Row `i` is marked called once the positions `sel` have been handled when it was called
      before, was selected itself, or shares a non-empty e-mail address with a selected row. */
  predicate MarkedAfter(rows: seq<SessionRow>, sel: seq<nat>, i: nat)
    requires i < |rows| && InRange(rows, sel)
  {
    || rows[i].called
    || i in sel
    || (rows[i].email.Some? && rows[i].email.value != "" && exists k :: 0 <= k < |sel| && rows[sel[k]].email == rows[i].email)
  }

  /** The frame once the positions `sel` have been called. */
  function AfterCalls(rows: seq<SessionRow>, sel: seq<nat>): (r: seq<SessionRow>)
    requires InRange(rows, sel)
    ensures |r| == |rows|
  {
    seq(|rows|, i requires 0 <= i < |rows| => rows[i].(called := MarkedAfter(rows, sel, i)))
  }

  /** Calling changes nothing but the `called` flags; it never clears one, and it sets the flag
      of every called row. */
  lemma AfterCallsMarks(rows: seq<SessionRow>, sel: seq<nat>)
    requires InRange(rows, sel)
    ensures forall i :: 0 <= i < |rows| ==> AfterCalls(rows, sel)[i] == rows[i].(called := AfterCalls(rows, sel)[i].called)
    ensures forall i :: 0 <= i < |rows| && rows[i].called ==> AfterCalls(rows, sel)[i].called
    ensures forall k :: 0 <= k < |sel| ==> AfterCalls(rows, sel)[sel[k]].called
  {
  }

  /** Once the tab has run, selecting again on the same frame yields no row. */
  lemma ReselectionIsEmpty(rows: seq<SessionRow>)
    ensures Selection(AfterCalls(rows, Selection(rows, |rows|)), |rows|) == []
  {
    var sel := Selection(rows, |rows|);
    var after := AfterCalls(rows, sel);
    AfterCallsMarks(rows, sel);
    forall i | 0 <= i < |rows| ensures !Selectable(after[i]) {
      if Selectable(rows[i]) {
        var k :| 0 <= k < |sel| && sel[k] == i;
      }
    }
  }

  function OptionToSeq<T>(o: Option<T>): (r: seq<T>)
    ensures o.Some? ==> r == [o.value]
    ensures o.None? ==> r == []
  {
    if o.Some? then [o.value] else []
  }

  /** The mail that follows the call to one selected row. */
  function CallMail(row: SessionRow, o: CallOutcome): Option<Mail> {
    var status := CallAttemptStatus(row.phone, o.prospectError, o.dialError);
    var enough := MinQuestionsAnswered(o.interview.questions, o.interview.transcript);
    var decision := EmailDecision(status, o.interview.summary, o.interview.transcript, o.llmScore, enough);
    if decision.Some? then Some(Mail(decision.value, row.email, row.name)) else None
  }

  /** The mails of the calls to the positions `sel`, the k-th call answered by `outcome(k)`: at
      most one per call, never a not-selected notice, each to a called row's address. */
  function CallMails(rows: seq<SessionRow>, sel: seq<nat>, outcome: nat -> CallOutcome): (r: seq<Mail>)
    requires InRange(rows, sel)
    ensures |r| <= |sel|
    ensures forall m :: m in r ==> m.notice != NotSelected && exists k :: 0 <= k < |sel| && m.to == rows[sel[k]].email
    decreases |sel|
  {
    if sel == [] then []
    else
      var prefix := sel[..|sel| - 1];
      var last := OptionToSeq(CallMail(rows[sel[|sel| - 1]], outcome(|sel| - 1)));
      assert forall m :: m in last ==> m.to == rows[sel[|sel| - 1]].email;
      CallMails(rows, prefix, outcome) + last
  }

  /** The set `called_emails` after the positions `sel` have been called. */
  function CalledEmails(rows: seq<SessionRow>, sel: seq<nat>): set<Option<string>>
    requires InRange(rows, sel)
  {
    set k | 0 <= k < |sel| :: rows[sel[k]].email
  }

  /** The rows the tab tells they were not selected: score below 70 and an address nobody
      called. */
  predicate Notified(r: SessionRow, calledEmails: set<Option<string>>) {
    !Qualifies(r.score) && r.email !in calledEmails
  }

  /** The not-selected notices for the rows below `n`, in frame order. */
  function NotSelectedMails(rows: seq<SessionRow>, calledEmails: set<Option<string>>, n: nat): (r: seq<Mail>)
    requires n <= |rows|
    ensures |r| <= n
    ensures forall m :: m in r ==> m.notice == NotSelected && m.to !in calledEmails
    ensures forall i :: 0 <= i < n && Notified(rows[i], calledEmails) ==> Mail(NotSelected, rows[i].email, rows[i].name) in r
    ensures forall m :: m in r ==> exists i :: 0 <= i < n && Notified(rows[i], calledEmails) && m == Mail(NotSelected, rows[i].email, rows[i].name)
  {
    if n == 0 then []
    else
      NotSelectedMails(rows, calledEmails, n - 1) +
      (if Notified(rows[n - 1], calledEmails) then [Mail(NotSelected, rows[n - 1].email, rows[n - 1].name)] else [])
  }

  /** The guard of `send_candidate_status_email`: an address that is missing, empty or has no
      '@' is skipped with a warning and nothing is sent. */
  predicate Deliverable(to: Option<string>) {
    to.Some? && to.value != "" && '@' in to.value
  }

  /** `send_candidate_status_email` for one mail, the SMTP server answering `smtpOk`: true
      exactly when the guard lets the address through and the server accepts the mail. */
  method SendStatusEmail(m: Mail, smtpOk: bool) returns (sent: bool)
    ensures sent <==> Deliverable(m.to) && smtpOk
    ensures !Deliverable(m.to) ==> !sent
  {
    if m.to.None? || m.to.value == "" || '@' !in m.to.value {
      return false;
    }
    sent := smtpOk;
  }

  /** The mails that get past the guard and are handed to the SMTP server, in order. */
  function Delivered(mails: seq<Mail>): (r: seq<Mail>)
    ensures |r| <= |mails|
  {
    Keep(mails, (m: Mail) => Deliverable(m.to))
  }

  /** The guard drops exactly the mails whose address is unusable and keeps the others in
      their order. */
  lemma DeliveredMails(mails: seq<Mail>)
    ensures IsSubsequence(Delivered(mails), mails)
    ensures forall m :: m in Delivered(mails) <==> m in mails && Deliverable(m.to)
  {
    var p := (m: Mail) => Deliverable(m.to);
    KeepIsSubsequence(mails, p);
    forall m ensures m in Delivered(mails) <==> m in mails && Deliverable(m.to) {
      KeepMembers(mails, p, m);
    }
  }

  /** A not-selected notice reaches the SMTP server only for a row scoring below 70, with an
      address containing '@' that nobody called, and every such row gets one. */
  lemma NoticesDelivered(rows: seq<SessionRow>, calledEmails: set<Option<string>>)
    ensures forall m :: m in Delivered(NotSelectedMails(rows, calledEmails, |rows|)) ==>
      exists i :: 0 <= i < |rows| && Notified(rows[i], calledEmails) && Deliverable(rows[i].email) &&
        m == Mail(NotSelected, rows[i].email, rows[i].name)
    ensures forall i :: 0 <= i < |rows| && Notified(rows[i], calledEmails) && Deliverable(rows[i].email) ==>
      Mail(NotSelected, rows[i].email, rows[i].name) in Delivered(NotSelectedMails(rows, calledEmails, |rows|))
  {
    DeliveredMails(NotSelectedMails(rows, calledEmails, |rows|));
  }

  /** A called candidate never gets a not-selected notice, and gets at most one mail from the
      calls. */
  lemma CalledCandidatesNotToldNotSelected(rows: seq<SessionRow>, outcome: nat -> CallOutcome, k: nat)
    requires k < |Selection(rows, |rows|)|
    ensures var sel := Selection(rows, |rows|);
      forall m :: m in NotSelectedMails(AfterCalls(rows, sel), CalledEmails(rows, sel), |rows|) ==> m.to != rows[sel[k]].email
  {
    var sel := Selection(rows, |rows|);
    assert rows[sel[k]].email in CalledEmails(rows, sel);
  }

  /** The data frame of the prescreening tab's session. */
  class PrescreeningTab {
    var rows: seq<SessionRow>

    constructor(frame: seq<SessionRow>)
      ensures rows == frame
    {
      rows := frame;
    }

    /** `conduct_interview_call` for one candidate: the call status, and every row with the
        candidate's non-empty address marked called. */
    method ConductInterviewCall(candidate: SessionRow, o: CallOutcome) returns (status: string)
      modifies this
      ensures status == CallAttemptStatus(candidate.phone, o.prospectError, o.dialError)
      ensures rows == if candidate.email.Some? && candidate.email.value != "" then MarkAddress(old(rows), candidate.email.value) else old(rows)
    {
      status := CallAttemptStatus(candidate.phone, o.prospectError, o.dialError);
      if candidate.email.Some? && candidate.email.value != "" {
        rows := MarkAddress(rows, candidate.email.value);
      }
    }

    /** The body of the tab's loop for the k-th selected row: the call, the marks it leaves in
        the frame, and the status mail it leads to. */
    method CallSelected(frame: seq<SessionRow>, sel: seq<nat>, k: nat, o: CallOutcome) returns (mail: Option<Mail>)
      requires k < |sel| && InRange(frame, sel) && |rows| == |frame|
      modifies this
      ensures rows == MarkCalled(old(rows), sel[k], frame[sel[k]].email)
      ensures mail == CallMail(frame[sel[k]], o)
    {
      var idx := sel[k];
      var candidate := frame[idx];
      var status := ConductInterviewCall(candidate, o);
      rows := rows[idx := rows[idx].(called := true)];
      var enough := MinQuestionsAnswered(o.interview.questions, o.interview.transcript);
      var decision := EmailDecision(status, o.interview.summary, o.interview.transcript, o.llmScore, enough);
      mail := if decision.Some? then Some(Mail(decision.value, candidate.email, candidate.name)) else None;
    }

    /** One pass of the tab's loop: the k-th selected row is called, its address added to
        `called_emails` and its mail sent, which takes the frame, the set and the mails from
        their state after `k` calls to their state after `k + 1`. */
    method CallNext(frame: seq<SessionRow>, sel: seq<nat>, k: nat, outcome: nat -> CallOutcome,
                    calledEmails: set<Option<string>>, mails: seq<Mail>)
      returns (calledEmails': set<Option<string>>, mails': seq<Mail>)
      requires k < |sel| && InRange(frame, sel) && InRange(frame, sel[..k])
      requires rows == AfterCalls(frame, sel[..k])
      requires calledEmails == CalledEmails(frame, sel[..k])
      requires mails == CallMails(frame, sel[..k], outcome)
      modifies this
      ensures InRange(frame, sel[..k + 1])
      ensures rows == AfterCalls(frame, sel[..k + 1])
      ensures calledEmails' == CalledEmails(frame, sel[..k + 1])
      ensures mails' == CallMails(frame, sel[..k + 1], outcome)
    {
      CallStep(frame, sel, k);
      CallMailsStep(frame, sel, k, outcome);
      var mail := CallSelected(frame, sel, k, outcome(k));
      calledEmails' := calledEmails + {frame[sel[k]].email};
      mails' := mails + OptionToSeq(mail);
    }

    /** The tab's loop over the selected rows: each is called in turn, its marks written into
        the frame, its address added to `called_emails` and its mail sent. */
    method CallAll(frame: seq<SessionRow>, sel: seq<nat>, outcome: nat -> CallOutcome) returns (calledEmails: set<Option<string>>, mails: seq<Mail>)
      requires rows == frame && InRange(frame, sel)
      modifies this
      ensures rows == AfterCalls(frame, sel)
      ensures calledEmails == CalledEmails(frame, sel)
      ensures mails == CallMails(frame, sel, outcome)
    {
      calledEmails := {};
      mails := [];
      var k := 0;
      assert sel[..0] == [];
      NoCallsYet(frame, outcome);
      while k < |sel|
        invariant 0 <= k <= |sel|
        invariant InRange(frame, sel[..k])
        invariant rows == AfterCalls(frame, sel[..k])
        invariant calledEmails == CalledEmails(frame, sel[..k])
        invariant mails == CallMails(frame, sel[..k], outcome)
      {
        calledEmails, mails := CallNext(frame, sel, k, outcome, calledEmails, mails);
        k := k + 1;
      }
      assert sel[..k] == sel;
    }

    /** One pass of the tab: call every selected row (marking it, and every row that shares its
        address, as called), mail the outcome of each call, then tell the low-scoring rows
        nobody called that they were not selected, and ask for the HR report when the frame is
        non-empty. `mails` are the requests in order; `delivered` those whose address passes
        the guard of `send_candidate_status_email`. */
    method Run(outcome: nat -> CallOutcome) returns (mails: seq<Mail>, delivered: seq<Mail>, reportAttempted: bool)
      modifies this
      ensures InRange(old(rows), Selection(old(rows), |old(rows)|))
      ensures rows == AfterCalls(old(rows), Selection(old(rows), |old(rows)|))
      ensures mails == CallMails(old(rows), Selection(old(rows), |old(rows)|), outcome) +
                       NotSelectedMails(rows, CalledEmails(old(rows), Selection(old(rows), |old(rows)|)), |rows|)
      ensures delivered == Delivered(mails)
      ensures reportAttempted == (old(rows) != [])
    {
      var frame := rows;
      var sel := Selection(frame, |frame|);
      var calledEmails, callMails := CallAll(frame, sel, outcome);
      var notices := NotifyNotCalled(rows, calledEmails);
      mails := callMails + notices;
      delivered := Delivered(mails);
      reportAttempted := frame != [];
    }
  }

  /** The loop over `not_called_df`: a not-selected notice for every row scoring below 70
      whose address was not called, in frame order. */
  method NotifyNotCalled(frame: seq<SessionRow>, calledEmails: set<Option<string>>) returns (notices: seq<Mail>)
    ensures notices == NotSelectedMails(frame, calledEmails, |frame|)
  {
    notices := [];
    var j := 0;
    while j < |frame|
      invariant 0 <= j <= |frame|
      invariant notices == NotSelectedMails(frame, calledEmails, j)
    {
      if Notified(frame[j], calledEmails) {
        notices := notices + [Mail(NotSelected, frame[j].email, frame[j].name)];
      }
      j := j + 1;
    }
  }

  /** `df.loc[df["email"] == address, "called"] = True`. */
  function MarkAddress(rows: seq<SessionRow>, address: string): (r: seq<SessionRow>)
    ensures |r| == |rows|
  {
    seq(|rows|, i requires 0 <= i < |rows| => if rows[i].email == Some(address) then rows[i].(called := true) else rows[i])
  }

  /** Before any call the frame is as it was and no mail has been sent. */
  lemma NoCallsYet(rows: seq<SessionRow>, outcome: nat -> CallOutcome)
    ensures AfterCalls(rows, []) == rows
    ensures CallMails(rows, [], outcome) == []
    ensures CalledEmails(rows, []) == {}
  {
    assert forall i :: 0 <= i < |rows| ==> AfterCalls(rows, [])[i] == rows[i];
  }

  /** The marks one call leaves: every row with the callee's non-empty address, and the callee's
      own row. */
  function MarkCalled(rows: seq<SessionRow>, idx: nat, email: Option<string>): (r: seq<SessionRow>)
    requires idx < |rows|
    ensures |r| == |rows|
  {
    var marked := if email.Some? && email.value != "" then MarkAddress(rows, email.value) else rows;
    marked[idx := marked[idx].(called := true)]
  }

  /** The mails after `k + 1` calls are those after `k` calls and the mail of the k-th call. */
  lemma CallMailsStep(frame: seq<SessionRow>, sel: seq<nat>, k: nat, outcome: nat -> CallOutcome)
    requires k < |sel| && InRange(frame, sel)
    ensures InRange(frame, sel[..k]) && InRange(frame, sel[..k + 1])
    ensures CallMails(frame, sel[..k + 1], outcome) == CallMails(frame, sel[..k], outcome) + OptionToSeq(CallMail(frame[sel[k]], outcome(k)))
  {
    assert sel[..k + 1][..k] == sel[..k];
  }

  /** Calling the k-th selected row moves the frame, the set of called addresses and the mails
      from their state after `k` calls to their state after `k + 1`. */
  lemma CallStep(frame: seq<SessionRow>, sel: seq<nat>, k: nat)
    requires k < |sel| && InRange(frame, sel)
    ensures InRange(frame, sel[..k]) && InRange(frame, sel[..k + 1])
    ensures AfterCalls(frame, sel[..k + 1]) == MarkCalled(AfterCalls(frame, sel[..k]), sel[k], frame[sel[k]].email)
    ensures CalledEmails(frame, sel[..k + 1]) == CalledEmails(frame, sel[..k]) + {frame[sel[k]].email}
  {
    var before := sel[..k];
    var after := sel[..k + 1];
    assert after == before + [sel[k]];
    var candidate := frame[sel[k]];
    var cur := AfterCalls(frame, before);
    var marked := if candidate.email.Some? && candidate.email.value != "" then MarkAddress(cur, candidate.email.value) else cur;
    var next := marked[sel[k] := marked[sel[k]].(called := true)];
    forall i | 0 <= i < |frame| ensures AfterCalls(frame, after)[i] == next[i] {
      var sameAddress := frame[i].email.Some? && frame[i].email.value != "" && frame[i].email == candidate.email;
      assert MarkedAfter(frame, after, i) == (MarkedAfter(frame, before, i) || i == sel[k] || sameAddress) by {
        assert i in after <==> i in before || i == sel[k];
        if frame[i].email.Some? && frame[i].email.value != "" && exists j :: 0 <= j < |after| && frame[after[j]].email == frame[i].email {
          var j :| 0 <= j < |after| && frame[after[j]].email == frame[i].email;
          if j < k {
            assert before[j] == after[j];
          }
        }
        if frame[i].email.Some? && frame[i].email.value != "" && exists j :: 0 <= j < |before| && frame[before[j]].email == frame[i].email {
          var j :| 0 <= j < |before| && frame[before[j]].email == frame[i].email;
          assert after[j] == before[j];
        }
        if sameAddress {
          assert frame[after[k]].email == frame[i].email;
        }
      }
    }
    assert CalledEmails(frame, after) == CalledEmails(frame, before) + {candidate.email} by {
      forall x ensures x in CalledEmails(frame, after) <==> x in CalledEmails(frame, before) + {candidate.email} {
        if x in CalledEmails(frame, after) {
          var j :| 0 <= j < |after| && frame[after[j]].email == x;
          if j < k {
            assert before[j] == after[j];
          }
        }
        if x in CalledEmails(frame, before) {
          var j :| 0 <= j < |before| && frame[before[j]].email == x;
          assert after[j] == before[j];
        }
        if x == candidate.email {
          assert frame[after[k]].email == x;
        }
      }
    }
  }
}
