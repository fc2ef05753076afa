/** The candidate record, the chip colours and the business constants that several screens share. */
module Records {
  import opened Base

  /** One row of the `candidates` table (id, name, skills, education, certifications, experience,
      email, phone_number, linkedin, score, status). Text columns may be NULL; the REAL score is
      modelled as an integer. */
  datatype Candidate = Candidate(
    id: int,
    name: Option<string>,
    skills: Option<string>,
    education: Option<string>,
    certifications: Option<string>,
    experience: Option<string>,
    email: Option<string>,
    phone: Option<string>,
    linkedin: Option<string>,
    score: int,
    status: Option<string>)

  const InterviewScheduled: string := "Interview Scheduled"
  const NotScheduled: string := "Not Scheduled"

  /** The call status every caller of Twilio reports for a call it placed. */
  const CallInitiated: string := "Call initiated"

  /** The resume score from which a candidate qualifies for a prescreening call. */
  const QualifyingScore: int := 70

  predicate Qualifies(score: int) {
    score >= QualifyingScore
  }

  /** The post-call score (on the 1 to 10 scale) from which a candidate advances. */
  const AdvanceScore: int := 7

  predicate Advances(score: int) {
    score >= AdvanceScore
  }

  /** The colours of the Material UI chips the screens draw. */
  datatype Color = Success | Primary | Warning | Info | Error | Default

  /** A job description picked in a select box whose value starts as '' (None); the value is
      falsy, and so counts as unset, also when it is 0. */
  predicate JobChosen(jobId: Option<int>) {
    jobId.Some? && jobId.value != 0
  }
}
