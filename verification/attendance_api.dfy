/** The attendance endpoint of the backend (`AttendanceViewSet`): listing
    filtered by an optional `date` query parameter, and a create that turns a
    violation of the one-record-per-staff-per-date constraint into a 400
    with a readable message while letting any other integrity failure
    escape. */
module AttendanceApi {
  import opened Wrappers
  import opened Models
  import ListOps
  import Strings

  // ---------------------------------------------------------------------
  // Listing

  /** `GET /attendance/?date=D`: the records of that date, in table order. A
      missing or empty `date` lists every record. */
  function List(db: Db, date: Option<string>): (r: seq<Attendance>)
    ensures date.None? || date == Some("") ==> r == db.attendance
    ensures date.Some? && date.value != "" ==>
      forall a :: a in r <==> a in db.attendance && a.date == date.value
  {
    if date.None? || date.value == "" then db.attendance
    else ListOps.Filter(db.attendance, (a: Attendance) => a.date == date.value)
  }

  /** On a consistent database, the listing for one date shows each staff
      member at most once. */
  lemma ListForDateOneRecordPerStaff(db: Db, date: string)
    requires Valid(db) && date != ""
    ensures var r := List(db, Some(date));
      forall i, j :: 0 <= i < j < |r| ==> r[i].staff != r[j].staff
  {
    var p := (a: Attendance) => a.date == date;
    var r := ListOps.Filter(db.attendance, p);
    ListOps.FilterKeepsUniqueKeys(db.attendance, p, AttendanceSlot);
    forall i, j | 0 <= i < j < |r|
      ensures r[i].staff != r[j].staff
    {
      assert AttendanceSlot(r[i]) != AttendanceSlot(r[j]);
      assert r[i].date == date && r[j].date == date;
    }
  }

  // ---------------------------------------------------------------------
  // Validation (the serializer)

  /** A JSON field of the request body: absent, `null`, or a value. */
  datatype Field<T> = Missing | Null | Given(value: T)

  /** The body of `POST /attendance/`. */
  datatype AttendanceInput = AttendanceInput(
    staffId: Field<int>, date: Field<Date>, status: Field<string>,
    timeIn: Field<Time>, timeOut: Field<Time>)

  /** The serializer's complaints, one per offending field. */
  datatype FieldError =
    | Required(field: string)
    | NotNull(field: string)
    | NoSuchObject(field: string, pk: int)
    | InvalidChoice(field: string, value: string)

  /** What the serializer hands on when the body is acceptable. */
  datatype ValidInput = ValidInput(
    staff: int, date: Date, status: AttendanceStatus,
    timeIn: Option<Time>, timeOut: Option<Time>)

  /** `staff_id` is a primary key of an existing staff member. */
  function StaffIdErrors(db: Db, f: Field<int>): seq<FieldError> {
    match f
    case Missing => [Required("staff_id")]
    case Null => [NotNull("staff_id")]
    case Given(pk) => if pk in StaffIds(db) then [] else [NoSuchObject("staff_id", pk)]
  }

  /** `date` is required and may not be null. */
  function DateErrors(f: Field<Date>): seq<FieldError> {
    match f
    case Missing => [Required("date")]
    case Null => [NotNull("date")]
    case Given(_) => []
  }

  /** `status` may be left out (it has a default) but, when given, must be
      one of the choices. */
  function StatusErrors(f: Field<string>): seq<FieldError> {
    match f
    case Missing => []
    case Null => [NotNull("status")]
    case Given(s) => if ParseAttendanceStatus(s).Some? then [] else [InvalidChoice("status", s)]
  }

  /** The nullable time fields accept a missing or null value as null. */
  function OptionalTime(f: Field<Time>): Option<Time> {
    match f
    case Given(t) => Some(t)
    case _ => None
  }

  /** `serializer.is_valid(raise_exception=True)`: every field's errors are
      reported together; without any, the record to insert. */
  function Validate(db: Db, input: AttendanceInput): (r: Result<ValidInput, seq<FieldError>>)
    ensures r.Success? <==>
      && input.staffId.Given? && input.staffId.value in StaffIds(db)
      && input.date.Given?
      && (input.status.Missing? || (input.status.Given? && ParseAttendanceStatus(input.status.value).Some?))
    ensures r.Failure? ==> r.error != []
    ensures input.staffId.Given? && input.staffId.value !in StaffIds(db) ==>
      r.Failure? && NoSuchObject("staff_id", input.staffId.value) in r.error
    ensures r.Success? ==>
      && r.value.staff == input.staffId.value
      && r.value.date == input.date.value
      && AttendanceStatusLabel(r.value.status) == (if input.status.Missing? then "Present" else input.status.value)
      && r.value.timeIn == OptionalTime(input.timeIn)
      && r.value.timeOut == OptionalTime(input.timeOut)
  {
    var errors := StaffIdErrors(db, input.staffId) + DateErrors(input.date) + StatusErrors(input.status);
    if errors != [] then Failure(errors)
    else
      var status := if input.status.Missing? then DefaultAttendanceStatus
                    else ParseAttendanceStatus(input.status.value).value;
      Success(ValidInput(input.staffId.value, input.date.value, status,
                         OptionalTime(input.timeIn), OptionalTime(input.timeOut)))
  }

  // ---------------------------------------------------------------------
  // The insert (the database)

  datatype IntegrityError = IntegrityError(message: string)

  /** The name the schema gives the (staff, date) constraint. */
  const ConstraintName: string := "unique_staff_date"

  /** What the database says when an insert breaks that constraint; it names
      the constraint. */
  const UniqueViolationMessage: string :=
    "duplicate key value violates unique constraint \"" + ConstraintName + "\""

  /** `perform_create`: the insert either adds the record under the next key
      or fails with an integrity error. A (staff, date) clash fails with
      `UniqueViolationMessage`; `fault`, when present, is the message of some
      other integrity failure the engine reports. */
  function Insert(db: Db, v: ValidInput, fault: Option<string>): (r: Result<(Db, Attendance), IntegrityError>)
    ensures HasAttendanceFor(db, v.staff, v.date) ==> r == Failure(IntegrityError(UniqueViolationMessage))
    ensures !HasAttendanceFor(db, v.staff, v.date) && fault.Some? ==> r == Failure(IntegrityError(fault.value))
    ensures r.Success? ==>
      var (db', a) := r.value;
      && a == Attendance(db.nextId, v.staff, v.date, v.status, v.timeIn, v.timeOut)
      && db' == db.(attendance := db.attendance + [a], nextId := db.nextId + 1)
  {
    if HasAttendanceFor(db, v.staff, v.date) then Failure(IntegrityError(UniqueViolationMessage))
    else if fault.Some? then Failure(IntegrityError(fault.value))
    else
      var a := Attendance(db.nextId, v.staff, v.date, v.status, v.timeIn, v.timeOut);
      Success((db.(attendance := db.attendance + [a], nextId := db.nextId + 1), a))
  }

  /** A successful insert keeps every constraint of the schema. */
  lemma InsertKeepsValid(db: Db, v: ValidInput, fault: Option<string>)
    requires v.staff in StaffIds(db)
    requires Insert(db, v, fault).Success?
    ensures Valid(db) ==> Valid(Insert(db, v, fault).value.0)
  {
    var (db', a) := Insert(db, v, fault).value;
    if Valid(db) {
      assert !ListOps.HasKey(db.attendance, AttendanceId, a.id) by {
        forall i | 0 <= i < |db.attendance|
          ensures AttendanceId(db.attendance[i]) != a.id
        {
          assert db.attendance[i] in db.attendance;
        }
      }
      ListOps.AppendKeepsUniqueKeys(db.attendance, AttendanceId, a);
      ListOps.AppendKeepsUniqueKeys(db.attendance, AttendanceSlot, a);
      assert StaffIds(db') == StaffIds(db);
      assert DepartmentIds(db') == DepartmentIds(db);
    }
  }

  // ---------------------------------------------------------------------
  // The create view

  datatype Detail = Message(text: string) | FieldErrors(errors: seq<FieldError>)

  datatype Response =
    | Created(record: Attendance)
    | BadRequest(detail: Detail)
    | Raised(error: IntegrityError)
  {
    /** The HTTP status; an exception that escapes the view becomes a 500. */
    function Status(): int {
      match this
      case Created(_) => 201
      case BadRequest(_) => 400
      case Raised(_) => 500
    }
  }

  const DuplicateDetail: string := "This staff already has an attendance record for this date."

  /** `AttendanceViewSet.create`. */
  function Create(db: Db, input: AttendanceInput, fault: Option<string>): (r: (Response, Db))
    ensures r.0.Created? <==>
      Validate(db, input).Success? && fault.None?
      && !HasAttendanceFor(db, input.staffId.value, input.date.value)
    ensures !r.0.Created? ==> r.1 == db
    ensures r.0.Created? ==>
      && r.1 == db.(attendance := db.attendance + [r.0.record], nextId := db.nextId + 1)
      && r.0.record.id == db.nextId
      && r.0.record.staff == input.staffId.value
      && r.0.record.date == input.date.value
      && r.0.record.status == Validate(db, input).value.status
      && r.0.record.timeIn == OptionalTime(input.timeIn)
      && r.0.record.timeOut == OptionalTime(input.timeOut)
    ensures Validate(db, input).Failure? ==> r.0 == BadRequest(FieldErrors(Validate(db, input).error))
    ensures Validate(db, input).Success? && HasAttendanceFor(db, input.staffId.value, input.date.value) ==>
      r.0 == BadRequest(Message(DuplicateDetail))
    ensures r.0.Raised? ==>
      fault.Some? && r.0.error.message == fault.value && !Strings.Contains(fault.value, ConstraintName)
    ensures Validate(db, input).Success? && fault.Some?
            && !HasAttendanceFor(db, input.staffId.value, input.date.value) ==>
      r.0 == (if Strings.Contains(fault.value, ConstraintName) then BadRequest(Message(DuplicateDetail))
              else Raised(IntegrityError(fault.value)))
    ensures Valid(db) ==> Valid(r.1)
  {
    match Validate(db, input)
    case Failure(errors) => (BadRequest(FieldErrors(errors)), db)
    case Success(v) =>
      match Insert(db, v, fault)
      case Success((db', a)) =>
        InsertKeepsValid(db, v, fault);
        (Created(a), db')
      case Failure(e) =>
        UniqueViolationNamesConstraint();
        if Strings.Contains(e.message, ConstraintName) then
          (BadRequest(Message(DuplicateDetail)), db)
        else
          (Raised(e), db)
  }

  /** The database's message for a (staff, date) clash names the constraint,
      which is what the view looks for. */
  lemma UniqueViolationNamesConstraint()
    ensures Strings.Contains(UniqueViolationMessage, ConstraintName)
  {
    Strings.ContainsMiddle("duplicate key value violates unique constraint \"", ConstraintName, "\"");
  }

  /** No sequence of creates can store two records for the same staff member
      and date: whatever the request, the table stays consistent, and a
      record for an occupied (staff, date) pair is refused with the 400. */
  lemma CreateNeverDuplicates(db: Db, input: AttendanceInput, fault: Option<string>)
    requires Valid(db)
    requires Validate(db, input).Success? && HasAttendanceFor(db, input.staffId.value, input.date.value)
    ensures var (resp, db') := Create(db, input, fault);
      resp.Status() == 400 && resp.detail == Message(DuplicateDetail) && db' == db
  {
  }

  /** A request for one staff member and date, with the status and times
      left out. */
  function DateRequest(staff: int, d: Date): AttendanceInput {
    AttendanceInput(Given(staff), Given(d), Missing, Missing, Missing)
  }

  /** A worked example: staff member 1 gets a record for a date, a second
      one for the same date is refused with the conflict message, and one
      for another date is accepted. */
  lemma CreateExample(d1: Date, d2: Date)
    requires d1 != d2
    ensures
      var db0 := Db([Department(1, "Ops", "Kim", 1)], [Staff(1, "Ana", "Nurse", 1, "ana@x.org")], [], [], [], 2);
      var (r1, db1) := Create(db0, DateRequest(1, d1), None);
      var (r2, db2) := Create(db1, DateRequest(1, d1), None);
      var (r3, db3) := Create(db2, DateRequest(1, d2), None);
      && r1.Status() == 201 && r1.record.status == Present
      && r2 == BadRequest(Message(DuplicateDetail)) && db2 == db1
      && r3.Status() == 201 && |db3.attendance| == 2
  {
    var db0 := Db([Department(1, "Ops", "Kim", 1)], [Staff(1, "Ana", "Nurse", 1, "ana@x.org")], [], [], [], 2);
    assert StaffIds(db0) == {1};
    var (r1, db1) := Create(db0, DateRequest(1, d1), None);
    assert db1.attendance == [Attendance(2, 1, d1, Present, None, None)];
    assert StaffIds(db1) == {1};
    assert HasAttendanceFor(db1, 1, d1) by {
      assert AttendanceSlot(db1.attendance[0]) == (1, d1);
    }
    var (r2, db2) := Create(db1, DateRequest(1, d1), None);
    assert !HasAttendanceFor(db2, 1, d2);
  }
}
