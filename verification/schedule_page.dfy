/** The schedule admin page: the staff member's display name, the checks
    before a schedule is sent (staff before location), the request body,
    loading a schedule into the form, the staff picker and the search over
    the table. */
module SchedulePage {
  import opened Wrappers
  import opened Strings
  import ListOps

  /** A staff member as the staff list delivers it; a missing name part is
      "". */
  datatype StaffEntry = StaffEntry(id: int, name: string, firstName: string, middleName: string, lastName: string)

  /** The name the page shows: the `name` field, or else the three name
      parts joined by single spaces with the white space at both ends
      removed. */
  function DisplayName(s: StaffEntry): (r: string)
    ensures s.name != "" ==> r == s.name
    ensures s.name == "" ==> r == Trim(s.firstName + " " + s.middleName + " " + s.lastName)
  {
    if s.name != "" then s.name else Trim(s.firstName + " " + s.middleName + " " + s.lastName)
  }

  function EntryId(e: StaffEntry): int { e.id }

  const NotAvailable: string := "N/A"

  /** `getStaffName`: the display name of the staff member with that id, or
      "N/A" when there is none. */
  function GetStaffName(staff: seq<StaffEntry>, id: int): (r: string)
    ensures (forall i :: 0 <= i < |staff| ==> staff[i].id != id) ==> r == NotAvailable
    ensures ListOps.FindById(staff, EntryId, id).Some? ==>
      r == DisplayName(ListOps.FindById(staff, EntryId, id).value)
  {
    match ListOps.FindById(staff, EntryId, id)
    case None => NotAvailable
    case Some(s) => DisplayName(s)
  }

  /** Without a `name`, the parts are joined as they are: only the ends are
      trimmed, so a missing middle name leaves two spaces between first and
      last name. */
  lemma FullNameKeepsInnerSpaces(s: StaffEntry)
    requires s.name == "" && s.firstName != "" && s.lastName != ""
    requires !IsSpace(s.firstName[0]) && !IsSpace(s.lastName[|s.lastName| - 1])
    ensures DisplayName(s) == s.firstName + " " + s.middleName + " " + s.lastName
    ensures s.middleName == "" ==> DisplayName(s) == s.firstName + "  " + s.lastName
  {
    var full := s.firstName + " " + s.middleName + " " + s.lastName;
    assert full[0] == s.firstName[0];
    assert full[|full| - 1] == s.lastName[|s.lastName| - 1];
    TrimKeepsFramed(full);
  }

  /** A staff member with no name at all is shown as "". */
  lemma NamelessStaffShowsEmpty(s: StaffEntry)
    requires s.name == "" && s.firstName == "" && s.middleName == "" && s.lastName == ""
    ensures DisplayName(s) == ""
  {
    var full := s.firstName + " " + s.middleName + " " + s.lastName;
    assert full == "  ";
    TrimOfSpaces(full);
  }

  // ---------------------------------------------------------------------
  // The form

  /** The form state (`newSchedule`); the date is kept as the ISO text the
      body carries. */
  datatype Form = Form(staff: string, date: string, shift: string, location: string)

  const SelectStaffError: string := "Please select a staff member"
  const LocationError: string := "Please provide a location"

  /** The request body: exactly these four fields. */
  datatype Payload = Payload(staffId: Option<int>, date: string, shift: string, location: string)

  datatype Submission = Rejected(message: string) | Send(payload: Payload)

  function BuildPayload(form: Form): (p: Payload)
    ensures p.staffId == ParseInt(form.staff)
    ensures p.date == form.date && p.shift == form.shift && p.location == form.location
  {
    Payload(ParseInt(form.staff), form.date, form.shift, form.location)
  }

  /** `handleAddSchedule`: a missing staff member is reported before a
      missing location. */
  function AddSubmission(form: Form): (r: Submission)
    ensures form.staff == "" ==> r == Rejected(SelectStaffError)
    ensures form.staff != "" && form.location == "" ==> r == Rejected(LocationError)
    ensures r.Send? <==> form.staff != "" && form.location != ""
    ensures r.Send? ==> r.payload == BuildPayload(form)
  {
    if form.staff == "" then Rejected(SelectStaffError)
    else if form.location == "" then Rejected(LocationError)
    else Send(BuildPayload(form))
  }

  /** `handleUpdateSchedule`: having no schedule under edit is reported
      with the same message as a missing staff member; then the location. */
  function UpdateSubmission(editing: Option<int>, form: Form): (r: Submission)
    ensures editing.None? || form.staff == "" ==> r == Rejected(SelectStaffError)
    ensures editing.Some? ==> r == AddSubmission(form)
  {
    if editing.None? || form.staff == "" then Rejected(SelectStaffError)
    else if form.location == "" then Rejected(LocationError)
    else Send(BuildPayload(form))
  }

  // ---------------------------------------------------------------------
  // The table

  /** The staff member of a schedule: nested as an object, or only its id. */
  datatype StaffRef = Nested(entry: StaffEntry) | ById(id: int)

  datatype Row = Row(id: int, staff: StaffRef, date: string, shift: string, location: string)

  function RowId(r: Row): int { r.id }

  function RowStaffId(r: Row): int {
    match r.staff
    case Nested(e) => e.id
    case ById(id) => id
  }

  /** `handleEditSchedule`: the form is loaded from the schedule; a missing
      shift becomes Morning. */
  function Edit(row: Row): (f: Form)
    ensures ParseInt(f.staff) == Some(RowStaffId(row)) && f.staff != ""
    ensures f.date == row.date && f.location == row.location
    ensures f.shift == (if row.shift == "" then "Morning" else row.shift)
  {
    ParseIntOfIntToString(RowStaffId(row));
    Form(IntToString(RowStaffId(row)), row.date, if row.shift == "" then "Morning" else row.shift, row.location)
  }

  /** Editing a schedule that has a location and saving the form unchanged
      sends the schedule's own values. */
  lemma EditThenUpdateResendsSchedule(row: Row)
    requires row.location != "" && row.shift != ""
    ensures UpdateSubmission(Some(row.id), Edit(row))
      == Send(Payload(Some(RowStaffId(row)), row.date, row.shift, row.location))
  {
  }

  /** The staff name the search looks at: the nested object's name, or the
      name looked up by id. */
  function RowStaffName(row: Row, staff: seq<StaffEntry>): string {
    match row.staff
    case Nested(e) => e.name
    case ById(id) => GetStaffName(staff, id)
  }

  /** The term is lowered once; the staff name, shift and location are
      lowered too, the date is not. */
  predicate ScheduleMatches(row: Row, staff: seq<StaffEntry>, term: string) {
    var search := Lower(term);
    || Contains(Lower(RowStaffName(row, staff)), search)
    || Contains(row.date, search)
    || Contains(Lower(row.shift), search)
    || Contains(Lower(row.location), search)
  }

  /** `filteredSchedules`. */
  function FilterSchedules(rows: seq<Row>, staff: seq<StaffEntry>, term: string): (r: seq<Row>)
    ensures forall x :: x in r <==> x in rows && ScheduleMatches(x, staff, term)
  {
    ListOps.Filter(rows, (x: Row) => ScheduleMatches(x, staff, term))
  }

  /** For dates in ISO form, which hold no letters, comparing the date with
      the lowered term gives the same answer as with the term as typed. */
  lemma DateMatchIgnoresTermCase(date: string, term: string)
    requires NoLetters(date)
    ensures Contains(date, Lower(term)) <==> Contains(date, term)
  {
    ContainsLowerTermOnNoLetters(date, term);
  }

  /** The case of the term never matters. */
  lemma ScheduleSearchIgnoresTermCase(rows: seq<Row>, staff: seq<StaffEntry>, term: string)
    ensures FilterSchedules(rows, staff, term) == FilterSchedules(rows, staff, Lower(term))
  {
    LowerIdempotent(term);
    ListOps.FilterAgreeing(rows, (x: Row) => ScheduleMatches(x, staff, term),
                           (x: Row) => ScheduleMatches(x, staff, Lower(term)));
  }

  /** An empty search lists every schedule. */
  lemma EmptySearchListsAll(rows: seq<Row>, staff: seq<StaffEntry>)
    ensures FilterSchedules(rows, staff, "") == rows
  {
    assert Lower("") == "";
    forall i | 0 <= i < |rows|
      ensures ScheduleMatches(rows[i], staff, "")
    {
      ContainsEmpty(rows[i].date);
    }
    ListOps.FilterKeepsAll(rows, (x: Row) => ScheduleMatches(x, staff, ""));
  }

  /** The staff picker: the staff whose display name contains the search
      text, ignoring case. */
  function StaffPicker(staff: seq<StaffEntry>, search: string): (r: seq<StaffEntry>)
    ensures forall e :: e in r <==> e in staff && ContainsIgnoringCase(DisplayName(e), search)
  {
    ListOps.Filter(staff, (e: StaffEntry) => ContainsIgnoringCase(DisplayName(e), search))
  }

  /** An empty search offers every staff member. */
  lemma EmptyPickerSearchListsAll(staff: seq<StaffEntry>)
    ensures StaffPicker(staff, "") == staff
  {
    forall i | 0 <= i < |staff|
      ensures ContainsIgnoringCase(DisplayName(staff[i]), "")
    {
      ContainsIgnoringCaseEmpty(DisplayName(staff[i]));
    }
    ListOps.FilterKeepsAll(staff, (e: StaffEntry) => ContainsIgnoringCase(DisplayName(e), ""));
  }

  /** Picking a staff member settles the staff check: a form with a
      location is sent, with the picked member's id. */
  lemma SelectStaffThenAdd(form: Form, e: StaffEntry)
    requires form.location != ""
    ensures AddSubmission(SelectStaff(form, e)).Send?
    ensures AddSubmission(SelectStaff(form, e)).payload.staffId == Some(e.id)
  {
  }

  /** `handleStaffSelect`: the chosen member's id goes into the form as
      text. */
  function SelectStaff(form: Form, e: StaffEntry): (r: Form)
    ensures ParseInt(r.staff) == Some(e.id) && r.staff != ""
    ensures r.date == form.date && r.shift == form.shift && r.location == form.location
  {
    ParseIntOfIntToString(e.id);
    form.(staff := IntToString(e.id))
  }
}
