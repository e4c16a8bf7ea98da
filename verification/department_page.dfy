/** The department admin page: the keystroke filter on the staff count,
    the checks before a department is sent, loading a department into the
    form, and the search over the table. The page's rows are the stored
    departments themselves. */
module DepartmentPage {
  import opened Wrappers
  import opened Strings
  import ListOps
  import opened Models

  /** The form state (`newDept`): every field holds text. */
  datatype Form = Form(name: string, manager: string, staffCount: string)

  const BlankForm: Form := Form("", "", "")

  const CountError: string := "Staff Count must be a valid number"
  const RequiredFields: string := "All fields are required, and Staff Count must be a valid number"

  /** `handleStaffCountChange`: an empty or all-digit value (`/^\d*$/`)
      replaces the count and clears the error; anything else leaves the form
      as it was and sets the error. The second component is the error shown
      afterwards ("" for none). */
  function StaffCountChange(form: Form, value: string): (r: (Form, string))
    ensures AllDigits(value) ==> r == (form.(staffCount := value), "")
    ensures !AllDigits(value) ==> r == (form, CountError)
  {
    if value == "" || AllDigits(value) then (form.(staffCount := value), "")
    else (form, CountError)
  }

  /** The count input only ever holds digits once typing has started from
      a blank form. */
  lemma StaffCountChangeKeepsDigits(form: Form, value: string)
    requires AllDigits(form.staffCount)
    ensures AllDigits(StaffCountChange(form, value).0.staffCount)
  {
  }

  /** The body sent: the form's text fields with the count as an integer. */
  datatype Payload = Payload(name: string, manager: string, staffCount: int)

  datatype Submission = Ignored | Rejected(message: string) | Send(payload: Payload)

  /** `handleAddDept`: name and manager must be filled in and the count
      must read as an integer. */
  function AddSubmission(form: Form): (r: Submission)
    ensures !r.Ignored?
    ensures r.Rejected? <==> form.name == "" || form.manager == "" || ParseInt(form.staffCount).None?
    ensures r.Rejected? ==> r.message == RequiredFields
    ensures r.Send? ==>
      && Some(r.payload.staffCount) == ParseInt(form.staffCount)
      && r.payload.name == form.name && r.payload.manager == form.manager
  {
    match ParseInt(form.staffCount)
    case None => Rejected(RequiredFields)
    case Some(n) =>
      if form.name == "" || form.manager == "" then Rejected(RequiredFields)
      else Send(Payload(form.name, form.manager, n))
  }

  /** `handleUpdateDept`: nothing unless a department is being edited, then
      the same checks and body as an add. */
  function UpdateSubmission(editing: Option<Department>, form: Form): (r: Submission)
    ensures r.Ignored? <==> editing.None?
    ensures editing.Some? ==> r == AddSubmission(form)
  {
    if editing.None? then Ignored else AddSubmission(form)
  }

  /** With a count typed through the keystroke filter, the count is refused
      only when it is empty, and otherwise sent as the value of its digits. */
  lemma DigitCountSubmission(form: Form)
    requires AllDigits(form.staffCount) && form.name != "" && form.manager != ""
    ensures AddSubmission(form).Rejected? <==> form.staffCount == ""
    ensures AddSubmission(form).Send? ==>
      AddSubmission(form).payload.staffCount == DigitsValue(form.staffCount, 10)
  {
    if form.staffCount != "" {
      ParseIntOfDigits(form.staffCount);
    }
  }

  /** `handleEditDept`: the form is loaded from the department, the count
      as its decimal text. */
  function Edit(d: Department): (f: Form)
    ensures f.name == d.name && f.manager == d.manager
    ensures ParseInt(f.staffCount) == Some(d.staffCount)
  {
    ParseIntOfIntToString(d.staffCount);
    Form(d.name, d.manager, IntToString(d.staffCount))
  }

  /** Editing a department and saving the form unchanged sends the
      department's own values back. */
  lemma EditThenUpdateResendsDepartment(d: Department)
    requires d.name != "" && d.manager != ""
    ensures UpdateSubmission(Some(d), Edit(d)) == Send(Payload(d.name, d.manager, d.staffCount))
  {
  }

  /** A department is listed when its name or manager contains the term,
      ignoring case, or its count's decimal text contains the term as
      typed. */
  predicate DepartmentMatches(d: Department, term: string) {
    || ContainsIgnoringCase(d.name, term)
    || ContainsIgnoringCase(d.manager, term)
    || Contains(IntToString(d.staffCount), term)
  }

  /** `filteredDepartments`. */
  function FilterDepartments(ds: seq<Department>, term: string): (r: seq<Department>)
    ensures forall d :: d in r <==> d in ds && DepartmentMatches(d, term)
  {
    ListOps.Filter(ds, (d: Department) => DepartmentMatches(d, term))
  }

  /** The case of the term never matters, even for the count, which has no
      letters. */
  lemma DepartmentSearchIgnoresTermCase(ds: seq<Department>, term: string)
    ensures FilterDepartments(ds, term) == FilterDepartments(ds, Lower(term))
  {
    forall i | 0 <= i < |ds|
      ensures DepartmentMatches(ds[i], term) == DepartmentMatches(ds[i], Lower(term))
    {
      ContainsIgnoringCaseOfLower(ds[i].name, term);
      ContainsIgnoringCaseOfLower(ds[i].manager, term);
      IntToStringNoLetters(ds[i].staffCount);
      ContainsLowerTermOnNoLetters(IntToString(ds[i].staffCount), term);
    }
    ListOps.FilterAgreeing(ds, (d: Department) => DepartmentMatches(d, term),
                           (d: Department) => DepartmentMatches(d, Lower(term)));
  }

  /** An empty search lists every department. */
  lemma EmptySearchListsAll(ds: seq<Department>)
    ensures FilterDepartments(ds, "") == ds
  {
    forall i | 0 <= i < |ds|
      ensures DepartmentMatches(ds[i], "")
    {
      ContainsIgnoringCaseEmpty(ds[i].name);
    }
    ListOps.FilterKeepsAll(ds, (d: Department) => DepartmentMatches(d, ""));
  }
}
