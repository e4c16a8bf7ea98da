/** The backend's tables: departments, staff, schedules, salaries and
    attendance, with the constraints the database enforces on them (primary
    keys, the unique staff email, the unique (staff, date) attendance pair,
    foreign keys) and the cascading deletes that keep the foreign keys
    intact. */
module Models {
  import opened Wrappers
  import ListOps

  /** `DateField` and `TimeField` values, kept as their ISO text
      (`YYYY-MM-DD`, `HH:MM[:SS]`). */
  type Date = string
  type Time = string

  // ---------------------------------------------------------------------
  // Enumerated fields

  /** The choices of `Attendance.status`; a new record is `Present` unless
      told otherwise. */
  datatype AttendanceStatus = Present | Absent | Leave

  const DefaultAttendanceStatus: AttendanceStatus := Present

  function AttendanceStatusLabel(st: AttendanceStatus): string {
    match st
    case Present => "Present"
    case Absent => "Absent"
    case Leave => "Leave"
  }

  /** Reads a submitted status: the three choices and nothing else. */
  function ParseAttendanceStatus(text: string): (r: Option<AttendanceStatus>)
    ensures r.Some? <==> text == "Present" || text == "Absent" || text == "Leave"
    ensures r.Some? ==> AttendanceStatusLabel(r.value) == text
  {
    if text == "Present" then Some(Present)
    else if text == "Absent" then Some(Absent)
    else if text == "Leave" then Some(Leave)
    else None
  }

  lemma AttendanceStatusRoundTrip(st: AttendanceStatus)
    ensures ParseAttendanceStatus(AttendanceStatusLabel(st)) == Some(st)
  {
  }

  /** The choices of `Salary.status`. */
  datatype SalaryStatus = Pending | Paid

  function SalaryStatusLabel(st: SalaryStatus): string {
    match st
    case Pending => "Pending"
    case Paid => "Paid"
  }

  function ParseSalaryStatus(text: string): (r: Option<SalaryStatus>)
    ensures r.Some? <==> text == "Pending" || text == "Paid"
    ensures r.Some? ==> SalaryStatusLabel(r.value) == text
  {
    if text == "Pending" then Some(Pending)
    else if text == "Paid" then Some(Paid)
    else None
  }

  // ---------------------------------------------------------------------
  // Amounts

  /** A `DecimalField(max_digits=10, decimal_places=2)` holds at most ten
      digits, two of them after the point: in hundredths, strictly between
      -10^10 and 10^10. */
  const AmountLimit: int := 10_000_000_000

  type Amount = c: int | -AmountLimit < c < AmountLimit

  // ---------------------------------------------------------------------
  // Records

  datatype Department = Department(id: int, name: string, manager: string, staffCount: int)

  datatype Staff = Staff(id: int, name: string, role: string, department: int, email: string)

  datatype Schedule = Schedule(id: int, staff: int, date: Date, shift: string, location: string)

  datatype Salary = Salary(
    id: int, staff: int, baseSalary: Amount, bonus: Amount, deductions: Amount,
    paymentDate: Date, status: SalaryStatus)

  /** `timeIn` and `timeOut` may be null. */
  datatype Attendance = Attendance(
    id: int, staff: int, date: Date, status: AttendanceStatus,
    timeIn: Option<Time>, timeOut: Option<Time>)

  /** A salary built from a request body in which `bonus`, `deductions`
      and `status` may be left out: the amounts then default to zero and
      the status to Pending. */
  function NewSalary(
    id: int, staff: int, baseSalary: Amount, bonus: Option<Amount>, deductions: Option<Amount>,
    paymentDate: Date, status: Option<SalaryStatus>): (x: Salary)
    ensures x.id == id && x.staff == staff && x.baseSalary == baseSalary && x.paymentDate == paymentDate
    ensures bonus.Some? ==> x.bonus == bonus.value
    ensures deductions.Some? ==> x.deductions == deductions.value
    ensures status.Some? ==> x.status == status.value
    ensures bonus.None? ==> x.bonus == 0
    ensures deductions.None? ==> x.deductions == 0
    ensures bonus.None? && deductions.None? ==> x.baseSalary + x.bonus - x.deductions == baseSalary
    ensures status.None? ==> x.status == Pending && ParseSalaryStatus("Pending") == Some(x.status)
  {
    Salary(id, staff, baseSalary,
           if bonus.Some? then bonus.value else 0,
           if deductions.Some? then deductions.value else 0,
           paymentDate,
           if status.Some? then status.value else Pending)
  }

  function DepartmentId(d: Department): int { d.id }
  function StaffId(s: Staff): int { s.id }
  function StaffEmail(s: Staff): string { s.email }
  function ScheduleId(x: Schedule): int { x.id }
  function SalaryId(x: Salary): int { x.id }
  function AttendanceId(a: Attendance): int { a.id }
  function AttendanceSlot(a: Attendance): (int, Date) { (a.staff, a.date) }

  // ---------------------------------------------------------------------
  // The database

  /** All tables; `nextId` is the next primary key the database hands out. */
  datatype Db = Db(
    departments: seq<Department>, staff: seq<Staff>, schedules: seq<Schedule>,
    salaries: seq<Salary>, attendance: seq<Attendance>, nextId: int)

  function DepartmentIds(db: Db): set<int> {
    set d | d in db.departments :: d.id
  }

  function StaffIds(db: Db): set<int> {
    set s | s in db.staff :: s.id
  }

  /** No record points at a parent that does not exist. */
  predicate ReferencesIntact(db: Db) {
    && (forall s :: s in db.staff ==> s.department in DepartmentIds(db))
    && (forall x :: x in db.schedules ==> x.staff in StaffIds(db))
    && (forall x :: x in db.salaries ==> x.staff in StaffIds(db))
    && (forall a :: a in db.attendance ==> a.staff in StaffIds(db))
  }

  /** Every constraint the schema declares. */
  predicate Valid(db: Db) {
    && ListOps.UniqueKeys(db.departments, DepartmentId)
    && ListOps.UniqueKeys(db.staff, StaffId)
    && ListOps.UniqueKeys(db.schedules, ScheduleId)
    && ListOps.UniqueKeys(db.salaries, SalaryId)
    && ListOps.UniqueKeys(db.attendance, AttendanceId)
    && ListOps.UniqueKeys(db.staff, StaffEmail)
    && ListOps.UniqueKeys(db.attendance, AttendanceSlot)
    && (forall s :: s in db.staff ==> s.id < db.nextId)
    && (forall a :: a in db.attendance ==> a.id < db.nextId)
    && ReferencesIntact(db)
  }

  /** An attendance record for this staff member on this date exists. */
  predicate HasAttendanceFor(db: Db, staff: int, date: Date) {
    ListOps.HasKey(db.attendance, AttendanceSlot, (staff, date))
  }

  predicate EmailTaken(db: Db, email: string) {
    ListOps.HasKey(db.staff, StaffEmail, email)
  }

  // ---------------------------------------------------------------------
  // Inserting staff

  datatype StaffError = UnknownDepartment | DuplicateEmail

  /** Adds a staff member the way the constraints allow: the department must
      exist and the email must be new. */
  function InsertStaff(db: Db, name: string, role: string, department: int, email: string): (r: Result<Db, StaffError>)
    ensures r.Failure? <==> department !in DepartmentIds(db) || EmailTaken(db, email)
    ensures r.Failure? && department !in DepartmentIds(db) ==> r.error == UnknownDepartment
    ensures r.Success? ==> r.value.staff == db.staff + [Staff(db.nextId, name, role, department, email)]
    ensures r.Success? ==> r.value.departments == db.departments && r.value.attendance == db.attendance
    ensures r.Success? && Valid(db) ==> Valid(r.value)
  {
    if department !in DepartmentIds(db) then Failure(UnknownDepartment)
    else if EmailTaken(db, email) then Failure(DuplicateEmail)
    else
      var s := Staff(db.nextId, name, role, department, email);
      var db' := db.(staff := db.staff + [s], nextId := db.nextId + 1);
      InsertStaffKeepsValid(db, s);
      Success(db')
  }

  lemma InsertStaffKeepsValid(db: Db, s: Staff)
    requires s.id == db.nextId && s.department in DepartmentIds(db) && !EmailTaken(db, s.email)
    ensures var db' := db.(staff := db.staff + [s], nextId := db.nextId + 1);
      Valid(db) ==> Valid(db')
  {
    var db' := db.(staff := db.staff + [s], nextId := db.nextId + 1);
    if Valid(db) {
      assert !ListOps.HasKey(db.staff, StaffId, s.id) by {
        forall i | 0 <= i < |db.staff|
          ensures StaffId(db.staff[i]) != s.id
        {
          assert db.staff[i] in db.staff;
        }
      }
      ListOps.AppendKeepsUniqueKeys(db.staff, StaffId, s);
      ListOps.AppendKeepsUniqueKeys(db.staff, StaffEmail, s);
      assert StaffIds(db) <= StaffIds(db');
    }
  }

  // ---------------------------------------------------------------------
  // Cascading deletes

  /** Deleting a staff member also deletes their schedules, salaries and
      attendance (`on_delete=CASCADE`). */
  function DeleteStaff(db: Db, id: int): (r: Db)
    ensures id !in StaffIds(r)
    ensures forall s :: s in r.staff <==> s in db.staff && s.id != id
    ensures forall x :: x in r.schedules <==> x in db.schedules && x.staff != id
    ensures forall x :: x in r.salaries <==> x in db.salaries && x.staff != id
    ensures forall a :: a in r.attendance <==> a in db.attendance && a.staff != id
    ensures r.departments == db.departments && r.nextId == db.nextId
    ensures Valid(db) ==> Valid(r)
  {
    var r := Db(
      db.departments,
      ListOps.Filter(db.staff, (s: Staff) => s.id != id),
      ListOps.Filter(db.schedules, (x: Schedule) => x.staff != id),
      ListOps.Filter(db.salaries, (x: Salary) => x.staff != id),
      ListOps.Filter(db.attendance, (a: Attendance) => a.staff != id),
      db.nextId);
    DeleteStaffKeepsValid(db, id, r);
    r
  }

  lemma DeleteStaffKeepsValid(db: Db, id: int, r: Db)
    requires r == Db(
      db.departments,
      ListOps.Filter(db.staff, (s: Staff) => s.id != id),
      ListOps.Filter(db.schedules, (x: Schedule) => x.staff != id),
      ListOps.Filter(db.salaries, (x: Salary) => x.staff != id),
      ListOps.Filter(db.attendance, (a: Attendance) => a.staff != id),
      db.nextId)
    ensures Valid(db) ==> Valid(r)
  {
    if Valid(db) {
      ListOps.FilterKeepsUniqueKeys(db.staff, (s: Staff) => s.id != id, StaffId);
      ListOps.FilterKeepsUniqueKeys(db.staff, (s: Staff) => s.id != id, StaffEmail);
      ListOps.FilterKeepsUniqueKeys(db.schedules, (x: Schedule) => x.staff != id, ScheduleId);
      ListOps.FilterKeepsUniqueKeys(db.salaries, (x: Salary) => x.staff != id, SalaryId);
      ListOps.FilterKeepsUniqueKeys(db.attendance, (a: Attendance) => a.staff != id, AttendanceId);
      ListOps.FilterKeepsUniqueKeys(db.attendance, (a: Attendance) => a.staff != id, AttendanceSlot);
      forall k | k in StaffIds(db) && k != id
        ensures k in StaffIds(r)
      {
        var s :| s in db.staff && s.id == k;
        assert s in r.staff;
      }
    }
  }

  /** Deleting a department also deletes its staff, and through them their
      schedules, salaries and attendance. */
  function DeleteDepartment(db: Db, id: int): (r: Db)
    ensures id !in DepartmentIds(r)
    ensures forall d :: d in r.departments <==> d in db.departments && d.id != id
    ensures forall s :: s in r.staff <==> s in db.staff && s.department != id
    ensures forall x :: x in r.schedules <==> x in db.schedules && x.staff !in RemovedStaff(db, id)
    ensures forall x :: x in r.salaries <==> x in db.salaries && x.staff !in RemovedStaff(db, id)
    ensures forall a :: a in r.attendance <==> a in db.attendance && a.staff !in RemovedStaff(db, id)
    ensures Valid(db) ==> Valid(r)
  {
    var gone := RemovedStaff(db, id);
    var r := Db(
      ListOps.Filter(db.departments, (d: Department) => d.id != id),
      ListOps.Filter(db.staff, (s: Staff) => s.department != id),
      ListOps.Filter(db.schedules, (x: Schedule) => x.staff !in gone),
      ListOps.Filter(db.salaries, (x: Salary) => x.staff !in gone),
      ListOps.Filter(db.attendance, (a: Attendance) => a.staff !in gone),
      db.nextId);
    DeleteDepartmentKeepsValid(db, id, r);
    r
  }

  /** The ids of the staff a department's deletion takes with it. */
  function RemovedStaff(db: Db, department: int): set<int> {
    set s | s in db.staff && s.department == department :: s.id
  }

  lemma DeleteDepartmentKeepsValid(db: Db, id: int, r: Db)
    requires var gone := RemovedStaff(db, id);
      r == Db(
      ListOps.Filter(db.departments, (d: Department) => d.id != id),
      ListOps.Filter(db.staff, (s: Staff) => s.department != id),
      ListOps.Filter(db.schedules, (x: Schedule) => x.staff !in gone),
      ListOps.Filter(db.salaries, (x: Salary) => x.staff !in gone),
      ListOps.Filter(db.attendance, (a: Attendance) => a.staff !in gone),
      db.nextId)
    ensures Valid(db) ==> Valid(r)
  {
    var gone := RemovedStaff(db, id);
    if Valid(db) {
      ListOps.FilterKeepsUniqueKeys(db.departments, (d: Department) => d.id != id, DepartmentId);
      ListOps.FilterKeepsUniqueKeys(db.staff, (s: Staff) => s.department != id, StaffId);
      ListOps.FilterKeepsUniqueKeys(db.staff, (s: Staff) => s.department != id, StaffEmail);
      ListOps.FilterKeepsUniqueKeys(db.schedules, (x: Schedule) => x.staff !in gone, ScheduleId);
      ListOps.FilterKeepsUniqueKeys(db.salaries, (x: Salary) => x.staff !in gone, SalaryId);
      ListOps.FilterKeepsUniqueKeys(db.attendance, (a: Attendance) => a.staff !in gone, AttendanceId);
      ListOps.FilterKeepsUniqueKeys(db.attendance, (a: Attendance) => a.staff !in gone, AttendanceSlot);
      forall k | k in DepartmentIds(db) && k != id
        ensures k in DepartmentIds(r)
      {
        var d :| d in db.departments && d.id == k;
        assert d in r.departments;
      }
      forall k | k in StaffIds(db) && k !in gone
        ensures k in StaffIds(r)
      {
        var s :| s in db.staff && s.id == k;
        assert s.department != id;
        assert s in r.staff;
      }
    }
  }
}
