/** The pure rules of the FastAPI back end: the phone formatter used for Twilio, the stripping
    of markdown fences around model replies, and the post-call score and the decisions taken on
    it. */
module Backend {
  import opened Base
  import opened Seqs
  import opened Text
  import opened Records

  // ----- format_phone_number -----

  /** The characters `re.sub(r'[^\d+]', '', phone)` keeps. */
  predicate PhoneChar(c: char) {
    IsDigit(c) || c == '+'
  }

  function CleanPhone(s: string): (r: string)
    ensures forall c :: c in r <==> c in s && PhoneChar(c)
  {
    var r := Keep(s, PhoneChar);
    forall c ensures c in r <==> c in s && PhoneChar(c) {
      KeepMembers(s, PhoneChar, c);
    }
    r
  }

  /** Exactly ten digits and nothing else: a national number. */
  predicate IsNational(clean: string) {
    |clean| == 10 && IsAllDigits(clean)
  }

  /** `format_phone_number`: no number for a missing, "None", "null" or blank value, or one
      without any digit or '+'; otherwise the cleaned number with a country prefix. */
  function FormatPhone(phone: Option<string>): (r: Option<string>)
    ensures r.Some? ==> StartsWith(r.value, "+")
  {
    if phone.None? || phone.value == "" || phone.value == "None" || phone.value == "null" || IsBlank(phone.value) then None
    else
      var clean := CleanPhone(Trim(phone.value));
      if clean == "" then None
      else if StartsWith(clean, "+") then Some(clean)
      else if IsNational(clean) then Some("+91 " + clean)
      else if |clean| == 12 && StartsWith(clean, "91") then Some("+91 " + clean[2..])
      else Some("+" + clean)
  }

  /** Stripping before cleaning changes nothing: whitespace is never a phone character. */
  lemma CleanIgnoresTrim(s: string)
    ensures CleanPhone(Trim(s)) == CleanPhone(s)
  {
    TrimKeep(s, PhoneChar);
  }

  /** Cleaning leaves nothing exactly when there is no digit and no '+'. */
  lemma CleanEmpty(s: string)
    ensures CleanPhone(s) == [] <==> forall i :: 0 <= i < |s| ==> !PhoneChar(s[i])
  {
    var clean := CleanPhone(s);
    if exists i :: 0 <= i < |s| && PhoneChar(s[i]) {
      var i :| 0 <= i < |s| && PhoneChar(s[i]);
      assert s[i] in clean;
    } else {
      KeepNone(s, PhoneChar);
    }
  }

  /** The formatter's two ways of giving no number: a rejected raw value, or nothing left after
      cleaning. */
  lemma FormatPhoneNoneCases(s: string)
    ensures FormatPhone(Some(s)).None? <==>
      s == "" || s == "None" || s == "null" || IsBlank(s) || CleanPhone(Trim(s)) == ""
  {
  }

  /** The formatter gives no number exactly for a missing value, the words "None" and "null",
      and a value without a single digit or '+'. */
  lemma FormatPhoneNone(phone: Option<string>)
    ensures FormatPhone(phone).None? <==>
      phone.None? || phone.value == "None" || phone.value == "null" ||
      forall i :: 0 <= i < |phone.value| ==> !PhoneChar(phone.value[i])
  {
    if phone.Some? {
      var s := phone.value;
      FormatPhoneNoneCases(s);
      CleanIgnoresTrim(s);
      CleanEmpty(s);
      assert IsBlank(s) ==> CleanPhone(s) == [];
    }
  }

  /** The digits of a string, in order. */
  function DigitsOf(s: string): string {
    Keep(s, IsDigit)
  }

  lemma DigitsOfClean(s: string)
    ensures DigitsOf(CleanPhone(Trim(s))) == DigitsOf(s)
  {
    CleanIgnoresTrim(s);
    KeepKeep(s, PhoneChar, IsDigit, IsDigit);
  }

  /** The digits the formatter's prefixes contribute. */
  lemma PrefixDigits(x: string)
    ensures DigitsOf("+91 " + x) == "91" + DigitsOf(x)
    ensures DigitsOf("+" + x) == DigitsOf(x)
    ensures DigitsOf("91" + x) == "91" + DigitsOf(x)
  {
    KeepAppend("+91 ", x, IsDigit);
    KeepAppend("+", x, IsDigit);
    KeepAppend("91", x, IsDigit);
  }

  /** Formatting keeps the digits of the number in order, and adds the country code 91 in front
      exactly when the cleaned number is ten digits. */
  lemma FormatPhoneKeepsDigits(phone: Option<string>)
    requires FormatPhone(phone).Some?
    ensures DigitsOf(FormatPhone(phone).value) ==
      if IsNational(CleanPhone(Trim(phone.value))) then "91" + DigitsOf(phone.value) else DigitsOf(phone.value)
  {
    var clean := CleanPhone(Trim(phone.value));
    DigitsOfClean(phone.value);
    if StartsWith(clean, "+") {
    } else if IsNational(clean) {
      PrefixDigits(clean);
    } else if |clean| == 12 && StartsWith(clean, "91") {
      PrefixDigits(clean[2..]);
      assert clean == "91" + clean[2..];
    } else {
      PrefixDigits(clean);
    }
  }

  /** A number already in clean international form is returned unchanged. */
  lemma FormatPhoneKeepsInternational(s: string)
    requires StartsWith(s, "+") && forall i :: 0 <= i < |s| ==> PhoneChar(s[i])
    ensures FormatPhone(Some(s)) == Some(s)
  {
    assert s[0] == '+';
    assert !IsBlank(s) && s != "None" && s != "null";
    TrimUnpadded(s);
    KeepAll(s, PhoneChar);
  }

  /** What the bulk endpoint shows in a result's phone field. */
  function DisplayPhone(phone: Option<string>): (r: Option<string>)
    ensures phone.None? || phone.value == "" ==> r == Some("No phone number")
    ensures phone.Some? && phone.value != "" ==> r == FormatPhone(phone)
  {
    if phone.None? || phone.value == "" then Some("No phone number") else FormatPhone(phone)
  }

  // ----- markdown fences around model replies -----

  /** The three steps every JSON extraction applies to the stripped model reply: drop a leading
      "```json", then a leading "```", then a trailing "```". */
  function StripFence(content: string): (r: string)
    ensures Contains(content, r)
  {
    var a := if StartsWith(content, "```json") then content[7..] else content;
    var b := if StartsWith(a, "```") then a[3..] else a;
    var r := if EndsWith(b, "```") then b[..|b| - 3] else b;
    assert OccursAt(content, r, |content| - |a| + (|a| - |b|));
    r
  }

  /** A body fenced as "```json … ```" comes back intact, as long as it does not itself start
      with a backquote. */
  lemma StripJsonFence(body: string)
    requires body == [] || body[0] != '`'
    ensures StripFence("```json" + body + "```") == body
  {
    var fence := "```";
    var content := "```json" + body + fence;
    assert content[..7] == "```json";
    var a := content[7..];
    assert a == body + fence;
    if body == [] {
      assert a == fence && a[3..] == [];
    } else {
      assert a[0] == body[0] && !StartsWith(a, fence);
      assert a[|a| - 3..] == fence && a[..|a| - 3] == body;
    }
  }

  /** The same for a plain "``` … ```" fence around a JSON object. */
  lemma StripPlainFence(body: string)
    requires body != [] && body[0] == '{'
    ensures StripFence("```" + body + "```") == body
  {
    var content := "```" + body + "```";
    assert content[3] == '{';
    assert !StartsWith(content, "```json");
    assert content[3..] == body + "```";
  }

  /** A reply without fences is left alone. */
  lemma StripFenceNoFence(content: string)
    requires !StartsWith(content, "```") && !EndsWith(content, "```")
    ensures StripFence(content) == content
  {
  }

  // ----- score_call_responses and the decisions on it -----

  /** `max(1, min(10, n))`. */
  function ClampScore(n: int): (r: int)
    ensures 1 <= r <= 10
    ensures 1 <= n <= 10 ==> r == n
    ensures n < 1 ==> r == 1
    ensures n > 10 ==> r == 10
  {
    if n < 1 then 1 else if n > 10 then 10 else n
  }

  /** The score when there were no answers and when the model's reply is unusable. */
  const NoResponsesScore: int := 3
  const UnparsedScore: int := 5

  /** `score_call_responses`: `reply` is the model's text, None when the request raised. */
  function ScoreCall(responses: seq<string>, reply: Option<string>): (r: int)
    ensures 1 <= r <= 10
    ensures responses == [] ==> r == NoResponsesScore
    ensures responses != [] && (reply.None? || !IsAllDigits(Trim(reply.value))) ==> r == UnparsedScore
  {
    if responses == [] then NoResponsesScore
    else if reply.None? then UnparsedScore
    else
      var text := Trim(reply.value);
      if IsAllDigits(text) then ClampScore(DigitsValue(text)) else UnparsedScore
  }

  /** A reply that is the decimal notation of a score from 1 to 10 is read back as that score. */
  lemma ScoreCallReadsReply(responses: seq<string>, n: nat)
    requires responses != [] && 1 <= n <= 10
    ensures ScoreCall(responses, Some(NatToString(n))) == n
  {
    var s := NatToString(n);
    assert !IsSpace(s[0]) && !IsSpace(s[|s| - 1]);
    TrimUnpadded(s);
    DigitsValueOfNatToString(n);
  }

  /** Surrounding whitespace and out-of-range numbers in the reply do not matter. */
  lemma ScoreCallClamps(responses: seq<string>, reply: string, n: nat)
    requires responses != [] && Trim(reply) == NatToString(n)
    ensures ScoreCall(responses, Some(reply)) == ClampScore(n)
  {
    DigitsValueOfNatToString(n);
  }

  /** The status a call leaves: "Interview Scheduled" from a call score of 7. */
  function CallStatusForScore(callScore: int): (r: string)
    ensures r == InterviewScheduled <==> Advances(callScore)
    ensures r == NotScheduled <==> !Advances(callScore)
  {
    if callScore >= 7 then InterviewScheduled else NotScheduled
  }

  /** The recommendation in the call summary for HR. */
  function Recommendation(callScore: int): (r: string)
    ensures r == "Proceed to next round" <==> Advances(callScore)
    ensures r == "Not suitable for this position" <==> !Advances(callScore)
  {
    if callScore >= 7 then "Proceed to next round" else "Not suitable for this position"
  }

  /** A call without answers, or whose score the model did not give as a number, never
      schedules an interview, and HR is told the same. */
  lemma UnscoredCallsDoNotAdvance(responses: seq<string>, reply: Option<string>)
    requires responses == [] || reply.None? || !IsAllDigits(Trim(reply.value))
    ensures CallStatusForScore(ScoreCall(responses, reply)) == NotScheduled
    ensures Recommendation(ScoreCall(responses, reply)) == "Not suitable for this position"
  {
  }
}
