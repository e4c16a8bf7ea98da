/** The staff admin page: the checks before a staff member is sent (required
    fields first, then the email pattern), the department picker with its
    "three most recent" default, and the search over the staff table. */
module StaffPage {
  import opened Wrappers
  import opened Strings
  import Patterns
  import ListOps
  import opened Models

  /** The form state (`newStaff`). The department is the chosen department's
      id, or `None` while none has been chosen (the input's initial ""). */
  datatype Form = Form(name: string, role: string, department: Option<int>, email: string)

  const BlankForm: Form := Form("", "", None, "")

  const RequiredFields: string := "All fields are required"
  const InvalidEmail: string := "Please enter a valid email address"

  /** JavaScript truthiness of the department field: "" and the id 0 count
      as missing. */
  predicate HasDepartment(form: Form) {
    form.department.Some? && form.department.value != 0
  }

  predicate AllFilled(form: Form) {
    form.name != "" && form.role != "" && HasDepartment(form) && form.email != ""
  }

  datatype Submission = Ignored | Rejected(message: string) | Send(payload: Form)

  /** `handleAddStaff`: every field is required; then the email must match
      `/^[^\s@]+@[^\s@]+\.[^\s@]+$/`. The form itself is the body. */
  function AddSubmission(form: Form): (r: Submission)
    ensures !r.Ignored?
    ensures !AllFilled(form) ==> r == Rejected(RequiredFields)
    ensures AllFilled(form) && !Patterns.EmailShape(form.email) ==> r == Rejected(InvalidEmail)
    ensures r.Send? <==> AllFilled(form) && Patterns.EmailShape(form.email)
    ensures r.Send? ==> r.payload == form
  {
    if !AllFilled(form) then Rejected(RequiredFields)
    else if !Patterns.EmailShape(form.email) then Rejected(InvalidEmail)
    else Send(form)
  }

  /** `handleUpdateStaff`: nothing unless a staff member is being edited,
      then the same checks and body as an add. */
  function UpdateSubmission(editing: Option<Staff>, form: Form): (r: Submission)
    ensures r.Ignored? <==> editing.None?
    ensures editing.Some? ==> r == AddSubmission(form)
  {
    if editing.None? then Ignored else AddSubmission(form)
  }

  /** The email check is the field-by-field rule: one `@`, a non-empty local
      part and a domain free of white space and further `@`, and a point
      inside the domain. */
  lemma EmailCheckIsFieldRule(form: Form)
    requires AllFilled(form)
    ensures AddSubmission(form).Send? <==> Patterns.IsValidEmail(form.email)
  {
    Patterns.EmailRuleIsPattern(form.email);
  }

  /** A body the page sends, for an existing department and an unused
      email, meets the database's own constraints: the insert succeeds.
      The serializer's field checks that run before it are not modelled. */
  lemma SentStaffMeetsDatabaseConstraints(db: Db, form: Form)
    requires AddSubmission(form).Send?
    requires form.department.value in DepartmentIds(db) && !EmailTaken(db, form.email)
    ensures InsertStaff(db, form.name, form.role, form.department.value, form.email).Success?
    ensures var db' := InsertStaff(db, form.name, form.role, form.department.value, form.email).value;
      |db'.staff| == |db.staff| + 1 &&
      Edit(db'.staff[|db.staff|]) == form.(department := Some(form.department.value))
  {
  }

  /** `handleEditStaff`: the form is loaded from the staff member. */
  function Edit(s: Staff): (f: Form)
    ensures f.name == s.name && f.role == s.role && f.email == s.email
    ensures f.department == Some(s.department)
  {
    Form(s.name, s.role, Some(s.department), s.email)
  }

  /** Editing a complete staff record and saving the form unchanged sends
      the record's own values. */
  lemma EditThenUpdateResendsStaff(s: Staff)
    requires s.name != "" && s.role != "" && s.department != 0 && Patterns.EmailShape(s.email)
    ensures UpdateSubmission(Some(s), Edit(s)) == Send(Form(s.name, s.role, Some(s.department), s.email))
  {
  }

  // ---------------------------------------------------------------------
  // The department picker

  /** `filteredDepartments`: with search text, the departments whose name
      contains it, ignoring case, in list order; without, the three with
      the highest ids, highest first. */
  function DepartmentPicker(ds: seq<Department>, search: string): (r: seq<Department>)
    ensures search != "" ==>
      forall d :: d in r <==> d in ds && ContainsIgnoringCase(d.name, search)
    ensures search == "" ==>
      && |r| == (if |ds| < 3 then |ds| else 3)
      && ListOps.SortedByIdDesc(r, DepartmentId)
      && multiset(r) <= multiset(ds)
      && (forall i, j :: 0 <= i < |ds| && 0 <= j < |r| && ds[i].id > r[j].id ==> ds[i] in r)
  {
    if search != "" then ListOps.Filter(ds, (d: Department) => ContainsIgnoringCase(d.name, search))
    else ListOps.TopByIdDesc(ds, DepartmentId, 3)
  }

  /** With no search text the newest department (highest id) is always
      offered first. */
  lemma PickerOffersNewestFirst(ds: seq<Department>, k: int)
    requires 0 <= k < |ds| && forall i :: 0 <= i < |ds| ==> ds[i].id <= ds[k].id
    ensures |DepartmentPicker(ds, "")| > 0 && DepartmentPicker(ds, "")[0].id == ds[k].id
  {
    var r := DepartmentPicker(ds, "");
    assert r[0] in multiset(ds);
    assert r[0] in ds;
    if ds[k].id > r[0].id {
      assert ds[k] in r;
    }
  }

  /** `handleDeptSelect`: the chosen department's id goes into the form. */
  function SelectDepartment(form: Form, d: Department): (r: Form)
    ensures r.department == Some(d.id)
    ensures r.name == form.name && r.role == form.role && r.email == form.email
  {
    form.(department := Some(d.id))
  }

  /** Picking a department with a non-zero id settles the department field:
      a form missing only its department is no longer rejected for a
      missing field, and the department sent is the one picked. */
  lemma SelectDepartmentFillsForm(form: Form, d: Department)
    requires d.id != 0 && form.name != "" && form.role != "" && form.email != ""
    ensures AllFilled(SelectDepartment(form, d))
    ensures AddSubmission(SelectDepartment(form, d)) != Rejected(RequiredFields)
    ensures AddSubmission(SelectDepartment(form, d)).Send? ==>
      AddSubmission(SelectDepartment(form, d)).payload.department == Some(d.id)
  {
  }

  // ---------------------------------------------------------------------
  // The staff search

  /** A staff member as the page holds it: the stored fields and the
      department's name when the server sent one. */
  datatype Row = Row(id: int, name: string, role: string, department: int, departmentName: string, email: string)

  function RowId(r: Row): int { r.id }

  /** The department name the search looks at: the one the server sent,
      else the name of the department the id points to, else "". */
  function DepartmentNameOf(row: Row, ds: seq<Department>): (r: string)
    ensures row.departmentName != "" ==> r == row.departmentName
    ensures row.departmentName == "" && ListOps.FindById(ds, DepartmentId, row.department).None? ==> r == ""
    ensures row.departmentName == "" && ListOps.FindById(ds, DepartmentId, row.department).Some? ==>
      r == ListOps.FindById(ds, DepartmentId, row.department).value.name
  {
    if row.departmentName != "" then row.departmentName
    else match ListOps.FindById(ds, DepartmentId, row.department)
      case Some(d) => d.name
      case None => ""
  }

  /** A staff member is listed when the name, role, department name or email
      contains the term, ignoring case. */
  predicate StaffMatches(row: Row, ds: seq<Department>, term: string) {
    || ContainsIgnoringCase(row.name, term)
    || ContainsIgnoringCase(row.role, term)
    || ContainsIgnoringCase(DepartmentNameOf(row, ds), term)
    || ContainsIgnoringCase(row.email, term)
  }

  /** `filteredStaff`. */
  function FilterStaff(rows: seq<Row>, ds: seq<Department>, term: string): (r: seq<Row>)
    ensures forall x :: x in r <==> x in rows && StaffMatches(x, ds, term)
  {
    ListOps.Filter(rows, (x: Row) => StaffMatches(x, ds, term))
  }

  /** The case of the term never matters. */
  lemma StaffSearchIgnoresTermCase(rows: seq<Row>, ds: seq<Department>, term: string)
    ensures FilterStaff(rows, ds, term) == FilterStaff(rows, ds, Lower(term))
  {
    forall i | 0 <= i < |rows|
      ensures StaffMatches(rows[i], ds, term) == StaffMatches(rows[i], ds, Lower(term))
    {
      ContainsIgnoringCaseOfLower(rows[i].name, term);
      ContainsIgnoringCaseOfLower(rows[i].role, term);
      ContainsIgnoringCaseOfLower(DepartmentNameOf(rows[i], ds), term);
      ContainsIgnoringCaseOfLower(rows[i].email, term);
    }
    ListOps.FilterAgreeing(rows, (x: Row) => StaffMatches(x, ds, term),
                           (x: Row) => StaffMatches(x, ds, Lower(term)));
  }

  /** An empty search lists every staff member. */
  lemma EmptySearchListsAll(rows: seq<Row>, ds: seq<Department>)
    ensures FilterStaff(rows, ds, "") == rows
  {
    forall i | 0 <= i < |rows|
      ensures StaffMatches(rows[i], ds, "")
    {
      ContainsIgnoringCaseEmpty(rows[i].name);
    }
    ListOps.FilterKeepsAll(rows, (x: Row) => StaffMatches(x, ds, ""));
  }
}
