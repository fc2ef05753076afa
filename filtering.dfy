/** The stages of the candidate search: the React page and the Streamlit tab apply the same
    four stages, with two differences in how the skill filter is tokenised and how a missing
    skills value is treated. */
module Filtering {
  import opened Base
  import opened Seqs
  import opened Text
  import opened Records

  /** A present text value contains the query, ignoring case; a missing value never matches. */
  predicate FieldContains(field: Option<string>, query: string) {
    field.Some? && Contains(Lower(field.value), Lower(query))
  }

  /** The name-or-email search stage. */
  predicate MatchesSearch(c: Candidate, query: string) {
    FieldContains(c.name, query) || FieldContains(c.email, query)
  }

  /** The trimmed, lower-cased pieces of a comma-separated skill filter. */
  function SkillPieces(filter: string): (r: seq<string>)
    ensures |r| == |Split(filter, ',')|
  {
    var pieces := Split(filter, ',');
    seq(|pieces|, i requires 0 <= i < |pieces| => Lower(Trim(pieces[i])))
  }

  /** JavaScript: every piece is a token, empty ones included. */
  function JsSkillTokens(filter: string): seq<string> {
    SkillPieces(filter)
  }

  predicate NonEmpty(t: string) {
    t != []
  }

  /** Python: the pieces that are not blank after trimming. */
  function PySkillTokens(filter: string): seq<string> {
    Keep(SkillPieces(filter), NonEmpty)
  }

  /** Every token occurs in the lower-cased skills; a missing skills value passes only an empty
      token list. */
  predicate AllTokensIn(skills: Option<string>, tokens: seq<string>) {
    forall i :: 0 <= i < |tokens| ==> skills.Some? && Contains(Lower(skills.value), tokens[i])
  }

  predicate InScoreRange(score: int, lo: int, hi: int) {
    lo <= score <= hi
  }

  /** The status stage: "All" keeps everything, anything else is an exact match. */
  predicate StatusMatches(status: Option<string>, filter: string) {
    filter == "All" || status == Some(filter)
  }

  /** The search criteria a user has entered. */
  datatype Criteria = Criteria(search: string, skills: string, lo: int, hi: int, status: string)

  /** The criteria of a freshly opened page: nothing typed, the slider at [0, 100], status "All". */
  const DefaultCriteria: Criteria := Criteria("", "", 0, 100, "All")

  lemma EmptyTokenAlwaysContained(s: string)
    ensures Contains(s, [])
  {
    assert OccursAt(s, [], 0);
  }

  /** For a candidate that has a skills value, dropping the empty tokens (Python) decides the
      skill stage the same way as keeping them (JavaScript). */
  lemma EmptyTokensDoNotMatter(skills: string, filter: string)
    ensures AllTokensIn(Some(skills), JsSkillTokens(filter)) == AllTokensIn(Some(skills), PySkillTokens(filter))
  {
    var hay := Lower(skills);
    var tokens := SkillPieces(filter);
    var kept := Keep(tokens, NonEmpty);
    DropEmptyTokens(hay, tokens);
    assert AllTokensIn(Some(skills), tokens) <==> forall i :: 0 <= i < |tokens| ==> Contains(hay, tokens[i]);
    assert AllTokensIn(Some(skills), kept) <==> forall j :: 0 <= j < |kept| ==> Contains(hay, kept[j]);
  }

  lemma DropEmptyTokens(hay: string, tokens: seq<string>)
    ensures (forall i :: 0 <= i < |tokens| ==> Contains(hay, tokens[i]))
        <==> (forall j :: 0 <= j < |Keep(tokens, NonEmpty)| ==> Contains(hay, Keep(tokens, NonEmpty)[j]))
  {
    var kept := Keep(tokens, NonEmpty);
    if forall i :: 0 <= i < |tokens| ==> Contains(hay, tokens[i]) {
      forall j | 0 <= j < |kept| ensures Contains(hay, kept[j]) {
        KeepMembers(tokens, NonEmpty, kept[j]);
        var i :| 0 <= i < |tokens| && tokens[i] == kept[j];
      }
    }
    if forall j :: 0 <= j < |kept| ==> Contains(hay, kept[j]) {
      forall i | 0 <= i < |tokens| ensures Contains(hay, tokens[i]) {
        if tokens[i] == [] {
          EmptyTokenAlwaysContained(hay);
        } else {
          KeepMembers(tokens, NonEmpty, tokens[i]);
          var j :| 0 <= j < |kept| && kept[j] == tokens[i];
        }
      }
    }
  }
}
