/** The React resume-parser page: the list of dropped resume files, the guards before the
    parse request, the candidates taken from its reply, the CSV export, the qualified list
    behind the call button, and the chip colours. */
module ResumeParserPage {
  import opened Base
  import opened Seqs
  import opened Text
  import opened Records
  import CandidatesPage
  import BackendServer

  // ----- the dropped files -----

  /** A dropped file, as far as the page looks at it. */
  datatype ResumeFile = ResumeFile(name: string, size: int)

  /** `removeFile`: keep every file whose index differs from `i`. */
  function RemoveAt<T>(files: seq<T>, i: int): (r: seq<T>)
    ensures 0 <= i < |files| ==> (|r| == |files| - 1 &&
      (forall j :: 0 <= j < i ==> r[j] == files[j]) &&
      (forall j :: i <= j < |r| ==> r[j] == files[j + 1]))
    ensures !(0 <= i < |files|) ==> r == files
  {
    if 0 <= i < |files| then files[..i] + files[i + 1..] else files
  }

  /** Removing the file just dropped undoes the drop. */
  lemma RemoveLastDropped<T>(files: seq<T>, f: T)
    ensures RemoveAt(files + [f], |files|) == files
  {
    assert (files + [f])[..|files|] == files;
  }

  /** Removing a file leaves every other file, in order. */
  lemma RemoveAtIsSubsequence<T>(files: seq<T>, i: int)
    ensures forall x :: x in RemoveAt(files, i) ==> x in files
    ensures |RemoveAt(files, i)| == if 0 <= i < |files| then |files| - 1 else |files|
  {
    if 0 <= i < |files| {
      forall x | x in RemoveAt(files, i) ensures x in files {
        var j :| 0 <= j < |RemoveAt(files, i)| && RemoveAt(files, i)[j] == x;
        if j < i {
          assert files[j] == x;
        } else {
          assert files[j + 1] == x;
        }
      }
    }
  }

  // ----- the parse request -----

  /** A file with content. */
  predicate NonEmptyFile(f: ResumeFile) {
    f.size > 0
  }

  datatype ParseOutcome = Ignored | Refused(message: string) | Submit(jobId: int, files: seq<ResumeFile>)

  const MissingInputMessage: string := "Please select a job description and upload resume files"
  const NoValidFileMessage: string := "Please upload valid resume files"

  /** The guards of `parseAndScoreResumes` and the request they let through. */
  function ParseRequest(loading: bool, jobId: Option<int>, files: seq<ResumeFile>): (r: ParseOutcome)
    ensures r == Ignored <==> loading
    ensures r.Submit? <==> !loading && JobChosen(jobId) && exists i :: 0 <= i < |files| && files[i].size > 0
    ensures r.Submit? ==> r.jobId == jobId.value && r.files == Keep(files, NonEmptyFile)
  {
    if loading then Ignored
    else if jobId.None? || jobId.value == 0 || |files| == 0 then Refused(MissingInputMessage)
    else
      var valid := Keep(files, NonEmptyFile);
      CountPositive(files, NonEmptyFile);
      KeepLength(files, NonEmptyFile);
      if |valid| == 0 then Refused(NoValidFileMessage) else Submit(jobId.value, valid)
  }

  /** One entry of the reply's `results`. */
  datatype ParseReply = Succeeded(candidate: Candidate) | NotParsed(error: string)

  predicate IsSuccess(r: ParseReply) {
    r.Succeeded?
  }

  /** `results.filter(r => r.success).map(r => r.candidate)`. */
  function ParsedCandidates(results: seq<ParseReply>): (r: seq<Candidate>)
    ensures |r| == |Keep(results, IsSuccess)|
    ensures forall k :: 0 <= k < |r| ==> Succeeded(r[k]) == Keep(results, IsSuccess)[k]
  {
    var ok := Keep(results, IsSuccess);
    KeepAllSucceeded(results);
    seq(|ok|, k requires 0 <= k < |ok| => ok[k].candidate)
  }

  lemma {:induction false} KeepAllSucceeded(results: seq<ParseReply>)
    ensures forall k :: 0 <= k < |Keep(results, IsSuccess)| ==> Keep(results, IsSuccess)[k].Succeeded?
  {
    forall k | 0 <= k < |Keep(results, IsSuccess)| ensures Keep(results, IsSuccess)[k].Succeeded? {
      KeepMembers(results, IsSuccess, Keep(results, IsSuccess)[k]);
    }
  }

  /** A candidate is shown exactly when its resume parsed, and failed resumes leave no gap. */
  lemma ParsedCandidatesSpec(results: seq<ParseReply>, c: Candidate)
    ensures c in ParsedCandidates(results) <==> Succeeded(c) in results
    ensures |ParsedCandidates(results)| == Count(results, IsSuccess)
  {
    var ok := Keep(results, IsSuccess);
    KeepMembers(results, IsSuccess, Succeeded(c));
    KeepLength(results, IsSuccess);
    if Succeeded(c) in ok {
      var k :| 0 <= k < |ok| && ok[k] == Succeeded(c);
      assert ParsedCandidates(results)[k] == c;
    }
  }

  // ----- the CSV export -----

  /** A CSV field as the export writes it: in double quotes, or bare (the score). */
  datatype CsvField = Quoted(text: string) | Bare(text: string)

  function EncodeField(f: CsvField): string {
    match f
    case Quoted(v) => ['"'] + v + ['"']
    case Bare(v) => v
  }

  function Encodes(fs: seq<CsvField>): (r: seq<string>)
    ensures |r| == |fs|
    ensures forall i :: 0 <= i < |fs| ==> r[i] == EncodeField(fs[i])
  {
    seq(|fs|, i requires 0 <= i < |fs| => EncodeField(fs[i]))
  }

  function Texts(fs: seq<CsvField>): (r: seq<string>)
    ensures |r| == |fs|
    ensures forall i :: 0 <= i < |fs| ==> r[i] == fs[i].text
  {
    seq(|fs|, i requires 0 <= i < |fs| => fs[i].text)
  }

  /** `${value || ''}`. */
  function OrEmpty(value: Option<string>): string {
    value.GetOr("")
  }

  const HeaderNames: seq<string> := ["Name", "Skills", "Education", "Certifications", "Experience", "Email", "Phone Number", "LinkedIn", "Score", "Status"]

  /** The ten fields of one candidate line. */
  function RowFields(c: Candidate): (r: seq<CsvField>)
    ensures |r| == |HeaderNames|
  {
    [Quoted(OrEmpty(c.name)), Quoted(OrEmpty(c.skills)), Quoted(OrEmpty(c.education)), Quoted(OrEmpty(c.certifications)),
     Quoted(OrEmpty(c.experience)), Quoted(OrEmpty(c.email)), Quoted(OrEmpty(c.phone)), Quoted(OrEmpty(c.linkedin)),
     Bare(IntToString(c.score)), Quoted(OrEmpty(c.status))]
  }

  function CsvLine(c: Candidate): string {
    Join(Encodes(RowFields(c)), ',')
  }

  function CsvLines(cs: seq<Candidate>): (r: seq<string>)
    ensures |r| == |cs|
    ensures forall i :: 0 <= i < |cs| ==> r[i] == CsvLine(cs[i])
  {
    seq(|cs|, i requires 0 <= i < |cs| => CsvLine(cs[i]))
  }

  /** `downloadCSV`: nothing for an empty list, otherwise the header and one line per candidate. */
  function DownloadCsv(cs: seq<Candidate>): (r: Option<string>)
    ensures r.None? <==> cs == []
  {
    if cs == [] then None else Some(Join([Join(HeaderNames, ',')] + CsvLines(cs), '\n'))
  }

  /** The prefix of `s` before the first `c`. */
  function TakeUntil(s: string, c: char): (r: string)
    ensures |r| <= |s| && r == s[..|r|] && c !in r
    ensures |r| < |s| ==> s[|r|] == c
  {
    if s == [] || s[0] == c then [] else [s[0]] + TakeUntil(s[1..], c)
  }

  lemma {:induction false} TakeUntilStops(v: string, c: char, rest: string)
    requires c !in v
    requires rest == [] || rest[0] == c
    ensures TakeUntil(v + rest, c) == v
  {
    if v != [] {
      assert v[0] in v;
      assert (v + rest)[1..] == v[1..] + rest;
      assert forall x :: x in v[1..] ==> x in v;
      TakeUntilStops(v[1..], c, rest);
      assert [v[0]] + v[1..] == v;
    }
  }

  /** Reads a line back into fields: a field opening with a double quote runs to the next double
      quote, any other field to the next comma. */
  function DecodeFields(s: string): seq<string>
    decreases |s|
  {
    if s == [] then []
    else if s[0] == '"' then
      var v := TakeUntil(s[1..], '"');
      var rest := s[1 + |v|..];
      if rest == [] then [v]
      else if |rest| > 1 && rest[1] == ',' then [v] + DecodeFields(rest[2..])
      else [v]
    else
      var v := TakeUntil(s, ',');
      var rest := s[|v|..];
      if rest == [] then [v] else [v] + DecodeFields(rest[1..])
  }

  /** A field the reader gets back: no double quote inside, and a bare field is non-empty and
      comma-free. */
  predicate Decodable(f: CsvField) {
    '"' !in f.text && (f.Bare? ==> f.text != [] && ',' !in f.text)
  }

  lemma DecodeQuotedHead(v: string, tail: string)
    requires '"' !in v
    requires tail == [] || tail[0] == ','
    ensures DecodeFields(EncodeField(Quoted(v)) + tail) == [v] + if tail == [] then [] else DecodeFields(tail[1..])
  {
    var s := EncodeField(Quoted(v)) + tail;
    assert s[0] == '"';
    assert s[1..] == v + (['"'] + tail);
    TakeUntilStops(v, '"', ['"'] + tail);
    var rest := s[1 + |v|..];
    assert rest == ['"'] + tail;
    if tail != [] {
      assert rest[2..] == tail[1..];
    }
  }

  lemma DecodeBareHead(v: string, tail: string)
    requires v != [] && '"' !in v && ',' !in v
    requires tail == [] || tail[0] == ','
    ensures DecodeFields(EncodeField(Bare(v)) + tail) == [v] + if tail == [] then [] else DecodeFields(tail[1..])
  {
    var s := v + tail;
    assert s[0] == v[0] && v[0] in v;
    TakeUntilStops(v, ',', tail);
    assert s[|v|..] == tail;
  }

  lemma DecodeHead(f: CsvField, tail: string)
    requires Decodable(f)
    requires tail == [] || tail[0] == ','
    ensures DecodeFields(EncodeField(f) + tail) == [f.text] + if tail == [] then [] else DecodeFields(tail[1..])
  {
    if f.Quoted? {
      DecodeQuotedHead(f.text, tail);
    } else {
      DecodeBareHead(f.text, tail);
    }
  }

  /** Reading a line of decodable fields gives back their texts. */
  lemma {:induction false} DecodeJoin(fs: seq<CsvField>)
    requires |fs| >= 1 && forall i :: 0 <= i < |fs| ==> Decodable(fs[i])
    ensures DecodeFields(Join(Encodes(fs), ',')) == Texts(fs)
    decreases |fs|
  {
    var xs := Encodes(fs);
    if |fs| == 1 {
      DecodeHead(fs[0], []);
      assert EncodeField(fs[0]) + [] == Join(xs, ',');
    } else {
      assert Encodes(fs[1..]) == xs[1..];
      var tail := [','] + Join(xs[1..], ',');
      assert Join(xs, ',') == EncodeField(fs[0]) + tail;
      DecodeHead(fs[0], tail);
      DecodeJoin(fs[1..]);
      assert tail[1..] == Join(xs[1..], ',');
      assert Texts(fs) == [fs[0].text] + Texts(fs[1..]);
    }
  }

  /** The text fields of a candidate hold no double quote and no line break. */
  predicate CsvSafe(c: Candidate) {
    forall f :: f in [c.name, c.skills, c.education, c.certifications, c.experience, c.email, c.phone, c.linkedin, c.status] ==>
      '"' !in OrEmpty(f) && '\n' !in OrEmpty(f)
  }

  lemma IntToStringPlain(i: int)
    ensures var s := IntToString(i); s != [] && '"' !in s && ',' !in s && '\n' !in s
  {
    var s := NatToString(if i < 0 then -i else i);
    assert forall k :: 0 <= k < |s| ==> IsDigit(s[k]);
  }

  lemma {:induction false} JoinNoChar(xs: seq<string>, sep: char, c: char)
    requires c != sep && forall i :: 0 <= i < |xs| ==> c !in xs[i]
    ensures c !in Join(xs, sep)
    decreases |xs|
  {
    if |xs| > 1 {
      JoinNoChar(xs[1..], sep, c);
    }
  }

  /** A line of a safe candidate reads back as its ten values. */
  lemma CsvLineReadsBack(c: Candidate)
    requires CsvSafe(c)
    ensures DecodeFields(CsvLine(c)) == Texts(RowFields(c))
    ensures '\n' !in CsvLine(c)
  {
    var fs := RowFields(c);
    IntToStringPlain(c.score);
    assert forall i :: 0 <= i < |fs| ==> Decodable(fs[i]) && '\n' !in EncodeField(fs[i]) by {
      assert OrEmpty(c.name) == fs[0].text;
      assert forall i :: 0 <= i < |fs| && i != 8 ==> fs[i].Quoted?;
    }
    DecodeJoin(fs);
    JoinNoChar(Encodes(fs), ',', '\n');
  }

  /** Letters and spaces only, as in the column names. */
  predicate PlainName(x: string) {
    x != [] && forall k :: 0 <= k < |x| ==> x[k] == ' ' || 'A' <= x[k] <= 'z'
  }

  lemma HeaderNamesPlain()
    ensures forall i :: 0 <= i < |HeaderNames| ==> PlainName(HeaderNames[i])
  {
    assert PlainName("Name") && PlainName("Skills") && PlainName("Education");
    assert PlainName("Certifications") && PlainName("Experience") && PlainName("Email");
    assert PlainName("Phone Number") && PlainName("LinkedIn") && PlainName("Score") && PlainName("Status");
  }

  /** The header line reads back as the column names. */
  lemma HeaderReadsBack()
    ensures DecodeFields(Join(HeaderNames, ',')) == HeaderNames
    ensures '\n' !in Join(HeaderNames, ',')
  {
    var names := HeaderNames;
    HeaderNamesPlain();
    var header := seq(|names|, i requires 0 <= i < |names| => Bare(names[i]));
    assert Encodes(header) == names;
    assert Texts(header) == names;
    forall i | 0 <= i < |names| ensures Decodable(header[i]) && '\n' !in names[i] {
      assert PlainName(names[i]);
    }
    DecodeJoin(header);
    JoinNoChar(names, ',', '\n');
  }

  /** The exported file splits into the header and one line per candidate, and every line reads
      back into its fields, as long as no value holds a double quote or a line break. */
  lemma DownloadCsvReadsBack(cs: seq<Candidate>)
    requires cs != [] && forall i :: 0 <= i < |cs| ==> CsvSafe(cs[i])
    ensures Split(DownloadCsv(cs).value, '\n') == [Join(HeaderNames, ',')] + CsvLines(cs)
    ensures DecodeFields(Join(HeaderNames, ',')) == HeaderNames
    ensures forall i :: 0 <= i < |cs| ==> DecodeFields(CsvLines(cs)[i]) == Texts(RowFields(cs[i]))
  {
    HeaderReadsBack();
    var lines := [Join(HeaderNames, ',')] + CsvLines(cs);
    forall i | 0 <= i < |lines| ensures '\n' !in lines[i] {
      if i > 0 {
        CsvLineReadsBack(cs[i - 1]);
      }
    }
    SplitJoin(lines, '\n');
    forall i | 0 <= i < |cs| ensures DecodeFields(CsvLines(cs)[i]) == Texts(RowFields(cs[i])) {
      CsvLineReadsBack(cs[i]);
    }
  }

  /** A double quote inside a value is not escaped, so the line no longer reads back. */
  lemma QuoteInValueBreaksLine()
    ensures DecodeFields(EncodeField(Quoted("a\"b")) + "," + EncodeField(Bare("1"))) == ["a"]
  {
    var s := EncodeField(Quoted("a\"b")) + "," + EncodeField(Bare("1"));
    assert s == "\"a\"b\",1";
    assert TakeUntil(s[1..], '"') == "a";
    assert s[2..] == "\"b\",1";
  }

  // ----- the qualified list and the chips -----

  /** `qualifiedCandidates`: the call button is enabled when it is non-empty. */
  function Qualified(cs: seq<Candidate>): seq<Candidate> {
    Keep(cs, (c: Candidate) => Qualifies(c.score))
  }

  function CallButtonEnabled(prescreeningLoading: bool, cs: seq<Candidate>): bool {
    !prescreeningLoading && |Qualified(cs)| != 0
  }

  /** The button calls exactly when nothing is running and some candidate scored 70 or more. */
  lemma CallButtonEnabledSpec(prescreeningLoading: bool, cs: seq<Candidate>)
    ensures CallButtonEnabled(prescreeningLoading, cs) <==> !prescreeningLoading && exists c :: c in cs && c.score >= 70
    ensures forall c :: c in Qualified(cs) <==> c in cs && c.score >= 70
  {
    var q := Qualified(cs);
    forall c ensures c in q <==> c in cs && Qualifies(c.score) {
      KeepMembers(cs, (c: Candidate) => Qualifies(c.score), c);
    }
    if q != [] {
      assert q[0] in q;
    }
  }

  /** `getScoreColor`, a copy of the one on the candidates page. */
  function ScoreColor(score: int): Color {
    if score >= 90 then Success
    else if score >= 80 then Primary
    else if score >= 70 then Warning
    else if score >= 60 then Info
    else Error
  }

  lemma ScoreColorsAgree(score: int)
    ensures ScoreColor(score) == CandidatesPage.ScoreColor(score)
  {
  }

  /** `getStatusColor`. */
  function StatusColor(status: Option<string>): (r: Color)
    ensures r == Success <==> status == Some(InterviewScheduled)
    ensures r != Success ==> r == Default
  {
    if status == Some(InterviewScheduled) then Success else Default
  }

  /** `getCallStatusColor`: the error colour is chosen by a case-sensitive search for "Failed". */
  function CallStatusColor(status: string): (r: Color)
    ensures r == Success <==> status == CallInitiated
    ensures r == Error <==> status != CallInitiated && Contains(status, "Failed")
    ensures r == Default <==> status != CallInitiated && !Contains(status, "Failed")
  {
    if status == CallInitiated then Success
    else if Contains(status, "Failed") then Error
    else Default
  }

  /** The back end writes "Call failed", in lower case, so a failed call is not shown in red. */
  lemma FailedCallNotRed(c: Candidate)
    ensures CallStatusColor(BackendServer.BulkRow(c, false).callStatus) == Default
  {
    var s := BackendServer.CallFailed;
    assert forall i :: 0 <= i < |s| ==> s[i] != 'F';
    forall i | 0 <= i <= |s| - 6 ensures !OccursAt(s, "Failed", i) {
      assert s[i..i + 6][0] == s[i];
    }
  }

  // ----- the page -----

  class ResumeParserView {
    var resumeFiles: seq<ResumeFile>
    var candidates: seq<Candidate>
    var jobId: Option<int>
    var loading: bool

    constructor ()
      ensures resumeFiles == [] && candidates == [] && jobId.None? && !loading
    {
      resumeFiles := [];
      candidates := [];
      jobId := None;
      loading := false;
    }

    /** `onResumeDrop`: the accepted files go after the files already listed. */
    method OnResumeDrop(accepted: seq<ResumeFile>)
      modifies this
      ensures resumeFiles == old(resumeFiles) + accepted
      ensures candidates == old(candidates) && jobId == old(jobId) && loading == old(loading)
    {
      resumeFiles := resumeFiles + accepted;
    }

    method RemoveFile(i: int)
      modifies this
      ensures resumeFiles == RemoveAt(old(resumeFiles), i)
      ensures candidates == old(candidates) && jobId == old(jobId) && loading == old(loading)
    {
      if 0 <= i < |resumeFiles| {
        resumeFiles := resumeFiles[..i] + resumeFiles[i + 1..];
      }
    }

    method SelectJob(id: Option<int>)
      modifies this
      ensures jobId == id && resumeFiles == old(resumeFiles) && candidates == old(candidates) && loading == old(loading)
    {
      jobId := id;
    }

    /** The synchronous start of `parseAndScoreResumes`: the guards, then the request is sent
        and the page waits. */
    method StartParse() returns (outcome: ParseOutcome)
      modifies this
      ensures outcome == ParseRequest(old(loading), jobId, resumeFiles)
      ensures loading == (old(loading) || outcome.Submit?)
      ensures resumeFiles == old(resumeFiles) && candidates == old(candidates) && jobId == old(jobId)
    {
      outcome := ParseRequest(loading, jobId, resumeFiles);
      if outcome.Submit? {
        loading := true;
      }
    }

    /** The reply: on success the parsed candidates replace the list and the dropped files are
        cleared; on failure only the waiting ends. */
    method FinishParse(reply: Option<seq<ParseReply>>)
      modifies this
      ensures reply.Some? ==> candidates == ParsedCandidates(reply.value) && resumeFiles == []
      ensures reply.None? ==> candidates == old(candidates) && resumeFiles == old(resumeFiles)
      ensures !loading && jobId == old(jobId)
    {
      if reply.Some? {
        candidates := ParsedCandidates(reply.value);
        resumeFiles := [];
      }
      loading := false;
    }
  }
}
