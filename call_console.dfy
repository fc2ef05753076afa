/** The Streamlit call console: the candidate sheet it loads, the guard in front of a manual
    call, the call itself against the back end and Twilio, and the interview-slot picker whose
    label is parsed back into a slot id. */
module CallConsole {
  import opened Base
  import opened Seqs
  import opened Text

  // ----- load_candidates -----

  /** The columns of `candidates.csv` the console reads; a missing phone cell is None. */
  datatype SheetRow = SheetRow(name: string, phone: Option<string>, score: int)

  const NotAvailable: string := "N/A"
  const MinSheetScore: int := 50

  /** The row filter: a score of 50 or more and a phone cell that is present and not "N/A". */
  predicate Callable(r: SheetRow) {
    r.score >= MinSheetScore && r.phone.Some? && r.phone.value != NotAvailable
  }

  /** The phone column after `str.replace(' ', '')`. */
  function Normalised(r: SheetRow): (n: SheetRow)
    ensures n.name == r.name && n.score == r.score && n.phone.Some? == r.phone.Some?
    ensures n.phone.Some? ==> ' ' !in n.phone.value
  {
    if r.phone.Some? then r.(phone := Some(RemoveChar(r.phone.value, ' '))) else r
  }

  function NormalisedRows(rows: seq<SheetRow>): (r: seq<SheetRow>)
    ensures |r| == |rows|
    ensures forall i :: 0 <= i < |rows| ==> r[i] == Normalised(rows[i])
  {
    seq(|rows|, i requires 0 <= i < |rows| => Normalised(rows[i]))
  }

  /** What `load_candidates` returns for a sheet. */
  function Loaded(sheet: seq<SheetRow>): seq<SheetRow> {
    NormalisedRows(Keep(sheet, Callable))
  }

  /** The loaded table holds, in sheet order, one row per callable sheet row, with the spaces
      taken out of its phone; no other row gets in. */
  lemma LoadedSpec(sheet: seq<SheetRow>)
    ensures |Loaded(sheet)| == Count(sheet, Callable)
    ensures forall r :: r in sheet && Callable(r) ==> Normalised(r) in Loaded(sheet)
    ensures forall n :: n in Loaded(sheet) ==> exists r :: r in sheet && Callable(r) && n == Normalised(r)
    ensures forall n :: n in Loaded(sheet) ==> n.score >= MinSheetScore && n.phone.Some? && ' ' !in n.phone.value
  {
    var kept := Keep(sheet, Callable);
    KeepLength(sheet, Callable);
    forall r ensures r in kept <==> r in sheet && Callable(r) {
      KeepMembers(sheet, Callable, r);
    }
    forall r | r in sheet && Callable(r) ensures Normalised(r) in Loaded(sheet) {
      var i :| 0 <= i < |kept| && kept[i] == r;
      assert Loaded(sheet)[i] == Normalised(r);
    }
    forall n | n in Loaded(sheet) ensures exists r :: r in sheet && Callable(r) && n == Normalised(r) {
      var i :| 0 <= i < |Loaded(sheet)| && Loaded(sheet)[i] == n;
      assert kept[i] in kept;
    }
  }

  /** `load_candidates`: the filtered rows are copied into a table whose phone column is then
      overwritten in place. */
  method LoadCandidates(sheet: seq<SheetRow>) returns (table: array<SheetRow>)
    ensures table[..] == Loaded(sheet)
  {
    var kept := Keep(sheet, Callable);
    table := new SheetRow[|kept|](i requires 0 <= i < |kept| => kept[i]);
    var k := 0;
    while k < table.Length
      invariant 0 <= k <= table.Length == |kept|
      invariant forall i :: 0 <= i < k ==> table[i] == Normalised(kept[i])
      invariant forall i :: k <= i < table.Length ==> table[i] == kept[i]
    {
      var row := table[k];
      if row.phone.Some? {
        table[k] := row.(phone := Some(RemoveChar(row.phone.value, ' ')));
      }
      k := k + 1;
    }
    assert table[..] == NormalisedRows(kept);
  }

  // ----- the manual call -----

  /** The first loaded row with the picked name (`iloc[0]`), None when there is none. */
  function FirstNamed(table: seq<SheetRow>, name: string): (r: Option<SheetRow>)
    ensures r.Some? ==> r.value in table && r.value.name == name
    ensures r.None? ==> forall i :: 0 <= i < |table| ==> table[i].name != name
  {
    if table == [] then None
    else if table[0].name == name then Some(table[0])
    else FirstNamed(table[1..], name)
  }

  /** The row found is the first row with the name: every row before it has another name. */
  lemma {:induction false} FirstNamedIsFirst(table: seq<SheetRow>, name: string)
    ensures FirstNamed(table, name).Some? ==>
      exists i :: 0 <= i < |table| && table[i] == FirstNamed(table, name).value &&
        forall j :: 0 <= j < i ==> table[j].name != name
  {
    if table != [] && table[0].name != name {
      var rest := table[1..];
      FirstNamedIsFirst(rest, name);
      if FirstNamed(rest, name).Some? {
        var i :| 0 <= i < |rest| && rest[i] == FirstNamed(rest, name).value &&
          forall j :: 0 <= j < i ==> rest[j].name != name;
        assert table[i + 1] == rest[i];
        forall j | 0 <= j < i + 1 ensures table[j].name != name {
          if j > 0 {
            assert table[j] == rest[j - 1];
          }
        }
      }
    }
  }

  /** The name and number the call button works with: taken from the picked row, or typed in
      when nothing is picked. None when the picked name has no row. */
  function Prospect(table: seq<SheetRow>, picked: string, typedName: string, typedNumber: string): (r: Option<(string, string)>)
    ensures picked == "" ==> r == Some((typedName, typedNumber))
    ensures picked != "" && r.Some? ==> r.value.0 == picked
    ensures picked != "" ==> (r.None? <==> FirstNamed(table, picked).None?)
    ensures picked != "" && r.Some? ==> r.value.1 == FirstNamed(table, picked).value.phone.GetOr("")
  {
    if picked == "" then Some((typedName, typedNumber))
    else
      match FirstNamed(table, picked)
      case None => None
      case Some(row) => Some((row.name, row.phone.GetOr("")))
  }

  datatype CallAttempt = Refused(message: string) | Attempt(name: string, number: string)

  const MissingProspectMessage: string := "Please enter both prospect's name and mobile number"

  /** The "Make Call" button: nothing is sent unless both the name and the number are non-empty. */
  function CallButton(name: string, number: string): (r: CallAttempt)
    ensures r.Attempt? <==> name != "" && number != ""
    ensures r.Attempt? ==> r == Attempt(name, number)
    ensures r.Refused? ==> r.message == MissingProspectMessage
  {
    if name != "" && number != "" then Attempt(name, number) else Refused(MissingProspectMessage)
  }

  /** A sheet phone made only of spaces passes the load filter, but the number left after the
      spaces are removed is empty, so the console refuses to call it. */
  lemma BlankPhoneRefused(name: string, phone: string, score: int)
    requires name != "" && phone != "" && score >= MinSheetScore
    requires forall i :: 0 <= i < |phone| ==> phone[i] == ' '
    ensures Callable(SheetRow(name, Some(phone), score))
    ensures Loaded([SheetRow(name, Some(phone), score)]) == [SheetRow(name, Some(""), score)]
    ensures CallButton(name, Normalised(SheetRow(name, Some(phone), score)).phone.value).Refused?
  {
    assert phone[0] == ' ';
    KeepNone(phone, x => x != ' ');
  }

  /** What the back end answered to `POST /set-prospect`, or the exception's text. */
  datatype SetProspectReply = Replied(statusCode: int, text: string) | SetProspectRaised(error: string)

  /** `make_call`: the prospect name is set on the back end first; only if that answers 200 is
      the Twilio call placed. `twilio` is the call's sid or the exception's text. */
  function MakeCall(setProspect: SetProspectReply, twilio: Result<string, string>): (r: (bool, string))
    ensures r.0 <==> setProspect.Replied? && setProspect.statusCode == 200 && twilio.Ok?
    ensures r.0 ==> r.1 == twilio.value
    ensures setProspect.Replied? && setProspect.statusCode != 200 ==> r == (false, "Failed to set prospect name: " + setProspect.text)
    ensures setProspect.SetProspectRaised? ==> r == (false, "Error setting prospect name: " + setProspect.error)
    ensures setProspect.Replied? && setProspect.statusCode == 200 && twilio.Err? ==> r == (false, "Error initiating call: " + twilio.error)
  {
    match setProspect
    case SetProspectRaised(e) => (false, "Error setting prospect name: " + e)
    case Replied(code, text) =>
      if code != 200 then (false, "Failed to set prospect name: " + text)
      else
        match twilio
        case Ok(sid) => (true, sid)
        case Err(e) => (false, "Error initiating call: " + e)
  }

  // ----- the interview-slot picker -----

  /** One slot from `/get-slots`; the id is shown as text. */
  datatype Slot = Slot(datetime: string, slotId: string, booked: bool)

  predicate Open(s: Slot) {
    !s.booked
  }

  const IdMarker: string := "ID: "

  /** The option text of a slot: `"{datetime} (ID: {slot_id})"`. */
  function SlotLabel(s: Slot): string {
    s.datetime + " (" + IdMarker + s.slotId + ")"
  }

  /** The options offered: one label per open slot, in the order the back end sent them. */
  function SlotOptions(slots: seq<Slot>): (r: seq<string>)
    ensures |r| == |Keep(slots, Open)|
    ensures forall k :: 0 <= k < |r| ==> r[k] == SlotLabel(Keep(slots, Open)[k])
  {
    var open := Keep(slots, Open);
    seq(|open|, k requires 0 <= k < |open| => SlotLabel(open[k]))
  }

  /** Python `s.split(sep)[1]`: the text after the first separator up to the next one; None
      (an IndexError) when the separator does not occur. */
  function SecondPiece(s: string, sep: string): (r: Option<string>)
    requires |sep| > 0
    ensures r.None? <==> forall k :: 0 <= k ==> !OccursAt(s, sep, k)
  {
    match FindFrom(s, sep, 0)
    case None => None
    case Some(i) =>
      var rest := s[i + |sep|..];
      match FindFrom(rest, sep, 0)
      case None => Some(rest)
      case Some(j) => Some(rest[..j])
  }

  /** Python `s[:-1]`. */
  function DropLast(s: string): (r: string)
    ensures s != [] ==> r == s[..|s| - 1]
    ensures s == [] ==> r == []
  {
    if s == [] then [] else s[..|s| - 1]
  }

  /** The id the "Book Slot" button sends: `selected.split("ID: ")[1][:-1]`; None when the
      expression raises (no option picked, or no marker in it). */
  function BookedSlotId(selected: Option<string>): Option<string> {
    if selected.None? then None
    else
      match SecondPiece(selected.value, IdMarker)
      case None => None
      case Some(piece) => Some(DropLast(piece))
  }

  /** A datetime and an id that do not produce a stray marker when the label is built. */
  predicate CleanSlot(s: Slot) {
    !Contains(s.datetime, IdMarker) && !EndsWith(s.datetime, "ID:") && !Contains(s.slotId, IdMarker)
  }

  /** The four characters of an occurrence of the marker. */
  lemma MarkerChars(l: string, k: int)
    ensures OccursAt(l, IdMarker, k) ==> l[k] == 'I' && l[k + 1] == 'D' && l[k + 2] == ':' && l[k + 3] == ' ' && l[k..k + 3] == "ID:"
  {
    if OccursAt(l, IdMarker, k) {
      assert l[k..k + 4][..3] == l[k..k + 3];
    }
  }

  /** The first marker of a clean label is the one the label put there. */
  lemma FirstMarker(s: Slot)
    requires CleanSlot(s)
    ensures FindFrom(SlotLabel(s), IdMarker, 0) == Some(|s.datetime| + 2)
  {
    var d := s.datetime;
    var l := SlotLabel(s);
    assert l == d + " (ID: " + s.slotId + ")";
    assert OccursAt(l, IdMarker, |d| + 2) by {
      assert l[|d| + 2..|d| + 6] == "ID: ";
    }
    forall k | 0 <= k < |d| + 2 ensures !OccursAt(l, IdMarker, k) {
      if k + 4 <= |d| {
        NoMarkerInside(d, " (ID: " + s.slotId + ")", k);
      } else {
        NoMarkerAtSeam(d, s.slotId, k);
      }
    }
  }

  /** A marker lying inside a prefix that has none cannot occur. */
  lemma NoMarkerInside(d: string, tail: string, k: int)
    requires !Contains(d, IdMarker) && 0 <= k && k + 4 <= |d|
    ensures !OccursAt(d + tail, IdMarker, k)
  {
    assert (d + tail)[k..k + 4] == d[k..k + 4];
    assert !OccursAt(d, IdMarker, k);
  }

  /** No marker starts in the last three characters of the datetime or in the " (" after it. */
  lemma NoMarkerAtSeam(d: string, id: string, k: int)
    requires !EndsWith(d, "ID:") && 0 <= k && |d| < k + 4 && k < |d| + 2
    ensures !OccursAt(d + " (ID: " + id + ")", IdMarker, k)
  {
    var l := d + " (ID: " + id + ")";
    MarkerChars(l, k);
    if k == |d| - 3 {
      assert l[k..k + 3] == d[|d| - 3..];
    } else if k == |d| - 2 {
      assert l[k + 2] == ' ';
    } else if k == |d| - 1 {
      assert l[k + 1] == ' ';
    } else if k == |d| {
      assert l[k] == ' ';
    } else {
      assert l[k] == '(';
    }
  }

  /** Booking a clean slot's option sends exactly that slot's id. */
  lemma SlotIdRoundTrip(s: Slot)
    requires CleanSlot(s)
    ensures BookedSlotId(Some(SlotLabel(s))) == Some(s.slotId)
  {
    var d := s.datetime;
    var l := SlotLabel(s);
    FirstMarker(s);
    var rest := l[|d| + 6..];
    assert rest == s.slotId + ")";
    forall j | 0 <= j ensures !OccursAt(rest, IdMarker, j) {
      MarkerChars(rest, j);
      if j + 4 <= |s.slotId| {
        assert rest[j..j + 4] == s.slotId[j..j + 4];
        assert !OccursAt(s.slotId, IdMarker, j);
      } else if j + 4 == |rest| {
        assert rest[j + 3] == ')';
      }
    }
    assert DropLast(rest) == s.slotId;
  }

  /** Whatever open slot the user picks from clean slots, the booking names that slot. */
  lemma BookingPicksOfferedSlot(slots: seq<Slot>, k: int)
    requires forall i :: 0 <= i < |slots| ==> CleanSlot(slots[i])
    requires 0 <= k < |SlotOptions(slots)|
    ensures Keep(slots, Open)[k] in slots && !Keep(slots, Open)[k].booked
    ensures BookedSlotId(Some(SlotOptions(slots)[k])) == Some(Keep(slots, Open)[k].slotId)
  {
    var s := Keep(slots, Open)[k];
    KeepMembers(slots, Open, s);
    SlotIdRoundTrip(s);
  }

  /** A datetime ending in "ID:" makes the label carry the marker early, and the id sent is
      empty. */
  lemma DatetimeEndingInMarkerLosesId()
    ensures BookedSlotId(Some(SlotLabel(Slot("xID:", "7", false)))) == Some("")
  {
    var l := SlotLabel(Slot("xID:", "7", false));
    assert l == "xID: (ID: 7)";
    MarkerSecond(l);
    var rest := l[5..];
    assert rest == "(ID: 7)";
    MarkerSecond(rest);
    assert SecondPiece(l, IdMarker) == Some(rest[..1]);
  }

  /** The first marker of a string whose second to fifth characters are the marker and whose
      first character is not 'I' starts at position 1. */
  lemma MarkerSecond(l: string)
    requires |l| >= 5 && l[0] != 'I' && l[1..5] == IdMarker
    ensures FindFrom(l, IdMarker, 0) == Some(1)
  {
    assert l[0..4] != IdMarker by { assert l[0..4][0] == l[0]; }
    assert FindFrom(l, IdMarker, 1) == Some(1);
  }
}
