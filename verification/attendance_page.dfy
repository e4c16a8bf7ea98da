/** The attendance admin page: the record form, the request body built from
    it, loading a record back into the form, the status switch that hides
    the time inputs, the staff picker and the updates of the page's list. */
module AttendancePage {
  import opened Wrappers
  import opened Strings
  import ListOps
  import Models
  import AttendanceApi

  /** The form state (`newAttendance`): every field holds text. */
  datatype Form = Form(staff: string, status: string, timeIn: string, timeOut: string)

  /** The form after a reset: no staff, status Present, no times. */
  const BlankForm: Form := Form("", "Present", "", "")

  /** A record as the page holds it; the server nests the staff member, of
      whom the page uses the id and the name. */
  datatype Row = Row(
    id: int, staffId: int, staffName: string, date: string, status: string,
    timeIn: Option<string>, timeOut: Option<string>)

  function RowId(r: Row): int { r.id }

  /** A staff member as the picker lists it. */
  datatype StaffEntry = StaffEntry(id: int, name: string)

  /** The request body: `staff_id` is `parseInt` of the staff field (`None`
      for NaN, which travels as null); the `staff` field is not sent. */
  datatype Payload = Payload(
    staffId: Option<int>, date: string, status: string,
    timeIn: Option<string>, timeOut: Option<string>)

  /** What pressing the submit button leads to. */
  datatype Submission = Ignored | Rejected(message: string) | Send(payload: Payload)

  const RequiredFields: string := "Staff and status are required."

  /** A time input as sent: the input's `HH:MM` with seconds appended when
      the status is Present and the input is not empty; null otherwise. */
  function SubmittedTime(status: string, t: string): (r: Option<string>)
    ensures r.Some? <==> status == "Present" && t != ""
    ensures r.Some? ==> |r.value| == |t| + 3 && r.value[..|t|] == t && r.value[|t|..] == ":00"
  {
    if status == "Present" && t != "" then Some(t + ":00") else None
  }

  /** The body both submit handlers build from the form and the chosen date. */
  function BuildPayload(form: Form, date: string): (p: Payload)
    ensures p.staffId == ParseInt(form.staff)
    ensures p.date == date && p.status == form.status
    ensures p.timeIn.Some? ==> form.status == "Present"
    ensures p.timeOut.Some? ==> form.status == "Present"
    ensures p.timeIn == SubmittedTime(form.status, form.timeIn)
    ensures p.timeOut == SubmittedTime(form.status, form.timeOut)
  {
    Payload(ParseInt(form.staff), date, form.status,
            SubmittedTime(form.status, form.timeIn), SubmittedTime(form.status, form.timeOut))
  }

  /** `handleAddAttendance`: staff and status are required; nothing is sent
      without them. */
  function AddSubmission(form: Form, date: string): (r: Submission)
    ensures !r.Ignored?
    ensures r.Rejected? <==> form.staff == "" || form.status == ""
    ensures r.Rejected? ==> r.message == RequiredFields
    ensures r.Send? ==> r.payload == BuildPayload(form, date)
  {
    if form.staff == "" || form.status == "" then Rejected(RequiredFields)
    else Send(BuildPayload(form, date))
  }

  /** `handleUpdateAttendance`: does nothing unless a record is being
      edited; otherwise the same checks and body as an add. */
  function UpdateSubmission(editing: Option<Row>, form: Form, date: string): (r: Submission)
    ensures r.Ignored? <==> editing.None?
    ensures editing.Some? ==> r == AddSubmission(form, date)
  {
    if editing.None? then Ignored else AddSubmission(form, date)
  }

  /** The body as the server's serializer receives it. */
  function ToServerInput(p: Payload): (input: AttendanceApi.AttendanceInput)
    ensures input.staffId.Null? <==> p.staffId.None?
    ensures input.date == AttendanceApi.Given(p.date)
    ensures input.status == AttendanceApi.Given(p.status)
  {
    AttendanceApi.AttendanceInput(
      if p.staffId.Some? then AttendanceApi.Given(p.staffId.value) else AttendanceApi.Null,
      AttendanceApi.Given(p.date),
      AttendanceApi.Given(p.status),
      if p.timeIn.Some? then AttendanceApi.Given(p.timeIn.value) else AttendanceApi.Null,
      if p.timeOut.Some? then AttendanceApi.Given(p.timeOut.value) else AttendanceApi.Null)
  }

  /** A form whose staff field holds an existing staff member's id (as the
      picker puts it there) and whose status is one of the choices produces
      a body the server's validation accepts, with the same staff, date and
      times. */
  lemma SubmissionPassesServerValidation(db: Models.Db, form: Form, date: string, staffId: int)
    requires form.staff == IntToString(staffId) && staffId in Models.StaffIds(db)
    requires Models.ParseAttendanceStatus(form.status).Some?
    ensures AddSubmission(form, date).Send?
    ensures var v := AttendanceApi.Validate(db, ToServerInput(AddSubmission(form, date).payload));
      && v.Success?
      && v.value.staff == staffId && v.value.date == date
      && Models.AttendanceStatusLabel(v.value.status) == form.status
      && v.value.timeIn == SubmittedTime(form.status, form.timeIn)
      && v.value.timeOut == SubmittedTime(form.status, form.timeOut)
  {
    ParseIntOfIntToString(staffId);
    assert IntToString(staffId) != "";
    var p := BuildPayload(form, date);
    assert AddSubmission(form, date) == Send(p);
    var input := ToServerInput(p);
    assert input.staffId == AttendanceApi.Given(staffId);
    assert input.timeIn == (if p.timeIn.Some? then AttendanceApi.Given(p.timeIn.value) else AttendanceApi.Null);
    assert AttendanceApi.OptionalTime(input.timeIn) == p.timeIn;
    assert AttendanceApi.OptionalTime(input.timeOut) == p.timeOut;
  }

  /** `handleStatusChange`: leaving Present clears both times; choosing
      Present keeps them. */
  function StatusChange(form: Form, status: string): (r: Form)
    ensures r.staff == form.staff && r.status == status
    ensures status == "Present" ==> r.timeIn == form.timeIn && r.timeOut == form.timeOut
    ensures status != "Present" ==> r.timeIn == "" && r.timeOut == ""
  {
    Form(form.staff, status,
         if status == "Present" then form.timeIn else "",
         if status == "Present" then form.timeOut else "")
  }

  /** Clearing the times on a status switch agrees with what the body would
      have sent anyway: the switch never changes the submission. */
  lemma StatusChangeInvisibleInSubmission(form: Form, status: string, date: string)
    ensures AddSubmission(StatusChange(form, status), date) == AddSubmission(form.(status := status), date)
  {
  }

  /** A time as the edit form shows it: its first five characters
      (`HH:MM`), or "" when the record has none. */
  function EditTime(t: Option<string>): (r: string)
    ensures t.None? ==> r == ""
    ensures t.Some? ==> |r| == (if |t.value| < 5 then |t.value| else 5) && r == t.value[..|r|]
  {
    if t.Some? && t.value != "" then t.value[..if |t.value| < 5 then |t.value| else 5] else ""
  }

  /** `handleEditAttendance`: the form is loaded from the record. */
  function Edit(row: Row): (f: Form)
    ensures ParseInt(f.staff) == Some(row.staffId)
    ensures f.status == row.status
    ensures f.timeIn == EditTime(row.timeIn) && f.timeOut == EditTime(row.timeOut)
  {
    ParseIntOfIntToString(row.staffId);
    Form(IntToString(row.staffId), row.status, EditTime(row.timeIn), EditTime(row.timeOut))
  }

  /** An `HH:MM` input survives the trip to the server and back into the
      edit form. */
  lemma TimeRoundTrip(t: string)
    requires |t| == 5
    ensures EditTime(SubmittedTime("Present", t)) == t
  {
    assert (t + ":00")[..5] == t;
  }

  /** A time of the form `HH:MM:00` survives being loaded into the edit form
      and submitted again. */
  predicate WholeMinute(t: string) {
    |t| == 8 && t[5..] == ":00"
  }

  lemma {:induction false} ResubmitKeepsTime(t: Option<string>)
    requires t.Some? ==> WholeMinute(t.value)
    ensures SubmittedTime("Present", EditTime(t)) == t
  {
    if t.Some? {
      var v := t.value;
      assert EditTime(t) == v[..5];
      assert v[..5] + ":00" == v[..5] + v[5..];
      assert v[..5] + v[5..] == v;
    }
  }

  /** Editing a record and submitting the form unchanged sends the record's
      own staff, status, date and (when it is Present) times. The page sends
      the selected date, and the records it lists are the ones fetched for
      that date, so an edited record's date is the selected one. */
  lemma EditThenUpdateResendsRecord(row: Row)
    requires row.status == "Present"
    requires row.timeIn.Some? ==> WholeMinute(row.timeIn.value)
    requires row.timeOut.Some? ==> WholeMinute(row.timeOut.value)
    ensures UpdateSubmission(Some(row), Edit(row), row.date)
      == Send(Payload(Some(row.staffId), row.date, row.status, row.timeIn, row.timeOut))
  {
    ResubmitKeepsTime(row.timeIn);
    ResubmitKeepsTime(row.timeOut);
    ParseIntOfIntToString(row.staffId);
    assert IntToString(row.staffId) != "";
  }

  /** The staff picker: the staff whose name contains the search text,
      ignoring case, in list order. */
  function StaffPicker(staff: seq<StaffEntry>, search: string): (r: seq<StaffEntry>)
    ensures forall e :: e in r <==> e in staff && ContainsIgnoringCase(e.name, search)
  {
    ListOps.Filter(staff, (e: StaffEntry) => ContainsIgnoringCase(e.name, search))
  }

  /** An empty search lists every staff member. */
  lemma EmptyPickerSearchListsAll(staff: seq<StaffEntry>)
    ensures StaffPicker(staff, "") == staff
  {
    forall i | 0 <= i < |staff|
      ensures ContainsIgnoringCase(staff[i].name, "")
    {
      ContainsIgnoringCaseEmpty(staff[i].name);
    }
    ListOps.FilterKeepsAll(staff, (e: StaffEntry) => ContainsIgnoringCase(e.name, ""));
  }

  /** `handleStaffSelect`: the chosen member's id goes into the form as
      text. */
  function SelectStaff(form: Form, e: StaffEntry): (r: Form)
    ensures ParseInt(r.staff) == Some(e.id) && r.staff != ""
    ensures r.status == form.status && r.timeIn == form.timeIn && r.timeOut == form.timeOut
  {
    ParseIntOfIntToString(e.id);
    form.(staff := IntToString(e.id))
  }
}
