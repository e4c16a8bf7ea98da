/** The salary admin page: the keystroke filter on the amount inputs, the
    checks before a salary is sent, the net salary shown per row, the
    search over the table and the currency symbol taken from the settings. */
module SalaryPage {
  import opened Wrappers
  import opened Strings
  import Patterns
  import ListOps
  import Models

  // ---------------------------------------------------------------------
  // The form

  /** The form state (`newSalary`): every field holds text. */
  datatype Form = Form(
    staff: string, baseSalary: string, bonus: string, deductions: string,
    paymentDate: string, status: string)

  /** The three amount inputs. */
  datatype AmountField = BaseSalary | Bonus | Deductions

  /** The field's name in the form, as the error message spells it before
      its underscore is replaced. */
  function FieldName(f: AmountField): string {
    match f
    case BaseSalary => "base_salary"
    case Bonus => "bonus"
    case Deductions => "deductions"
  }

  function Amount(form: Form, f: AmountField): string {
    match f
    case BaseSalary => form.baseSalary
    case Bonus => form.bonus
    case Deductions => form.deductions
  }

  function SetAmount(form: Form, f: AmountField, value: string): (r: Form)
    ensures Amount(r, f) == value
    ensures forall g :: g != f ==> Amount(r, g) == Amount(form, g)
    ensures r.staff == form.staff && r.paymentDate == form.paymentDate && r.status == form.status
  {
    match f
    case BaseSalary => form.(baseSalary := value)
    case Bonus => form.(bonus := value)
    case Deductions => form.(deductions := value)
  }

  /** The message shown for a rejected keystroke: the field name with its
      first underscore turned into a space. */
  function NumberError(f: AmountField): string {
    ReplaceFirst(FieldName(f), '_', ' ') + " must be a valid number"
  }

  /** The message for the base salary names it with a space where the
      field name has its underscore. */
  lemma BaseSalaryErrorText()
    ensures NumberError(BaseSalary) == "base" + [' '] + "salary" + " must be a valid number"
  {
    assert FieldName(BaseSalary) == "base" + ['_'] + "salary";
    ReplaceFirstAfter("base", '_', ' ', "salary");
  }

  /** `handleNumberChange`: a value that is empty or of the shape
      `/^\d*\.?\d*$/` replaces the field and clears the error; any other
      value leaves the form as it was and sets the field's error. The second
      component is the error shown afterwards ("" for none). */
  function NumberChange(form: Form, f: AmountField, value: string): (r: (Form, string))
    ensures Patterns.DecimalShape(value) ==> r == (SetAmount(form, f, value), "")
    ensures !Patterns.DecimalShape(value) ==> r == (form, NumberError(f))
  {
    assert Patterns.DecimalShapeAt("", 0);
    if value == "" || Patterns.DecimalShape(value) then (SetAmount(form, f, value), "")
    else (form, NumberError(f))
  }

  /** Every amount input holds text of the amount shape. */
  predicate AmountsShaped(form: Form) {
    forall g: AmountField :: Patterns.DecimalShape(Amount(form, g))
  }

  /** Typing can never bring a non-numeric character into an amount input:
      the shape of the amounts is an invariant of the keystroke filter. */
  lemma NumberChangeKeepsShape(form: Form, f: AmountField, value: string)
    requires AmountsShaped(form)
    ensures AmountsShaped(NumberChange(form, f, value).0)
  {
  }

  // ---------------------------------------------------------------------
  // Submitting

  const RequiredFields: string := "All fields are required, and salary values must be valid numbers"

  /** The request body. `staff_id` is `parseInt` of the staff field (`None`
      for NaN); each amount is the number `parseFloat` reads from its input,
      kept here as that input's text. */
  datatype Payload = Payload(
    staffId: Option<int>, baseSalary: string, bonus: string, deductions: string,
    paymentDate: string, status: string)

  datatype Submission = Ignored | Rejected(message: string) | Send(payload: Payload)

  /** `handleAddSalary`: a staff member must be chosen and all three amounts
      must read as numbers. */
  function AddSubmission(form: Form): (r: Submission)
    ensures !r.Ignored?
    ensures r.Rejected? <==>
      form.staff == "" || exists g: AmountField :: !ParsesAsFloat(Amount(form, g))
    ensures r.Rejected? ==> r.message == RequiredFields
    ensures r.Send? ==> r.payload.staffId == ParseInt(form.staff)
    ensures r.Send? ==>
      r.payload.paymentDate == form.paymentDate && r.payload.status == form.status
    ensures r.Send? ==>
      && r.payload.baseSalary == Amount(form, BaseSalary)
      && r.payload.bonus == Amount(form, Bonus)
      && r.payload.deductions == Amount(form, Deductions)
  {
    if form.staff == "" || !ParsesAsFloat(form.baseSalary) || !ParsesAsFloat(form.bonus)
       || !ParsesAsFloat(form.deductions)
    then
      assert form.staff == "" || !ParsesAsFloat(Amount(form, BaseSalary))
        || !ParsesAsFloat(Amount(form, Bonus)) || !ParsesAsFloat(Amount(form, Deductions));
      Rejected(RequiredFields)
    else
      Send(Payload(ParseInt(form.staff), form.baseSalary, form.bonus, form.deductions,
                   form.paymentDate, form.status))
  }

  /** `handleUpdateSalary`: nothing unless a salary is being edited, then
      the same checks and body as an add. */
  function UpdateSubmission(editing: Option<int>, form: Form): (r: Submission)
    ensures r.Ignored? <==> editing.None?
    ensures editing.Some? ==> r == AddSubmission(form)
  {
    if editing.None? then Ignored else AddSubmission(form)
  }

  /** On a form filled in through the keystroke filter, the only amounts the
      submit check refuses are an empty input and a lone point. */
  lemma ShapedFormRejection(form: Form)
    requires AmountsShaped(form)
    ensures AddSubmission(form).Rejected? <==>
      form.staff == "" || exists g: AmountField :: Amount(form, g) == "" || Amount(form, g) == "."
  {
    forall g: AmountField
      ensures ParsesAsFloat(Amount(form, g)) <==> Amount(form, g) != "" && Amount(form, g) != "."
    {
      Patterns.DecimalShapeParses(Amount(form, g));
    }
  }

  // ---------------------------------------------------------------------
  // The table

  /** The staff member nested in a salary record. */
  datatype StaffRef = StaffRef(id: int, name: string)

  /** A salary as the page holds it. Each amount is the value `parseFloat`
      reads from the server's decimal text, in hundredths, or `None` for
      NaN. */
  datatype Row = Row(
    id: int, staff: Option<StaffRef>, baseSalary: Option<int>, bonus: Option<int>,
    deductions: Option<int>, paymentDate: string, status: string)

  function RowId(r: Row): int { r.id }

  /** The row the page shows for a stored salary. */
  function RowOf(s: Models.Salary, staff: Option<StaffRef>): Row {
    Row(s.id, staff, Some(s.baseSalary), Some(s.bonus), Some(s.deductions),
        s.paymentDate, Models.SalaryStatusLabel(s.status))
  }

  /** An amount as the net salary counts it: NaN (and zero) count as 0. */
  function Counted(a: Option<int>): int {
    if a.Some? then a.value else 0
  }

  /** `calculateNetSalary`, in hundredths: base plus bonus minus deductions. */
  function NetCents(row: Row): (r: int)
    ensures row.baseSalary.Some? && row.bonus.Some? && row.deductions.Some? ==>
      r == row.baseSalary.value + row.bonus.value - row.deductions.value
    ensures row.baseSalary.None? && row.bonus.None? && row.deductions.None? ==> r == 0
  {
    Counted(row.baseSalary) + Counted(row.bonus) - Counted(row.deductions)
  }

  /** For a stored salary the net is exact and stays within three times the
      largest amount a column can hold. */
  lemma NetOfStoredSalary(s: Models.Salary, staff: Option<StaffRef>)
    ensures NetCents(RowOf(s, staff)) == s.baseSalary + s.bonus - s.deductions
    ensures -3 * Models.AmountLimit < NetCents(RowOf(s, staff)) < 3 * Models.AmountLimit
  {
  }

  /** A salary stored without a bonus or deductions nets exactly its base
      salary, and is listed as Pending unless a status was given. */
  lemma DefaultedSalaryNetsBase(id: int, staffId: int, base: Models.Amount, date: Models.Date,
                                staff: Option<StaffRef>)
    ensures var s := Models.NewSalary(id, staffId, base, None, None, date, None);
      NetCents(RowOf(s, staff)) == base && RowOf(s, staff).status == "Pending"
  {
    NetOfStoredSalary(Models.NewSalary(id, staffId, base, None, None, date, None), staff);
  }

  /** Each amount left out of the body counts as nothing in the net: the
      net is the base salary plus the bonus given, less the deductions
      given. */
  lemma OmittedAmountsCountZero(id: int, staffId: int, base: Models.Amount,
                                bonus: Option<Models.Amount>, deductions: Option<Models.Amount>,
                                date: Models.Date, status: Option<Models.SalaryStatus>,
                                staff: Option<StaffRef>)
    ensures var s := Models.NewSalary(id, staffId, base, bonus, deductions, date, status);
      NetCents(RowOf(s, staff)) ==
        base + (if bonus.Some? then bonus.value else 0) - (if deductions.Some? then deductions.value else 0)
  {
    NetOfStoredSalary(Models.NewSalary(id, staffId, base, bonus, deductions, date, status), staff);
  }

  /** An amount `parseFloat` cannot read weighs as much as a zero. */
  lemma UnreadableAmountIsZero(row: Row)
    ensures NetCents(row.(bonus := None)) == NetCents(row.(bonus := Some(0)))
    ensures NetCents(row.(deductions := None)) == NetCents(row.(deductions := Some(0)))
    ensures NetCents(row.(baseSalary := None)) == NetCents(row.(baseSalary := Some(0)))
  {
  }

  /** The staff id as the search sees it: its decimal text, or "" for a
      missing (zero) id. */
  function StaffIdText(id: int): string {
    if id != 0 then IntToString(id) else ""
  }

  /** A row is listed when it has a staff member whose name contains the
      term, ignoring case, or whose id text contains the term as typed. */
  predicate SalaryMatches(row: Row, term: string) {
    && row.staff.Some?
    && (ContainsIgnoringCase(row.staff.value.name, term) || Contains(StaffIdText(row.staff.value.id), term))
  }

  /** `filteredSalaries`. */
  function FilterSalaries(rows: seq<Row>, term: string): (r: seq<Row>)
    ensures forall x :: x in r <==> x in rows && SalaryMatches(x, term)
    ensures forall i :: 0 <= i < |r| ==> r[i].staff.Some?
  {
    ListOps.Filter(rows, (x: Row) => SalaryMatches(x, term))
  }

  /** The search does not depend on the case of the term: the id text has no
      letters, so comparing it with the term as typed is the same as with
      the lowered term. */
  lemma SalarySearchIgnoresTermCase(rows: seq<Row>, term: string)
    ensures FilterSalaries(rows, term) == FilterSalaries(rows, Lower(term))
  {
    forall i | 0 <= i < |rows|
      ensures SalaryMatches(rows[i], term) == SalaryMatches(rows[i], Lower(term))
    {
      if rows[i].staff.Some? {
        var st := rows[i].staff.value;
        ContainsIgnoringCaseOfLower(st.name, term);
        if st.id != 0 {
          IntToStringNoLetters(st.id);
        }
        ContainsLowerTermOnNoLetters(StaffIdText(st.id), term);
      }
    }
    ListOps.FilterAgreeing(rows, (x: Row) => SalaryMatches(x, term), (x: Row) => SalaryMatches(x, Lower(term)));
  }

  /** An empty search shows exactly the rows that have a staff member. */
  lemma EmptySearchKeepsRowsWithStaff(rows: seq<Row>)
    ensures FilterSalaries(rows, "") == ListOps.Filter(rows, (x: Row) => x.staff.Some?)
  {
    forall i | 0 <= i < |rows|
      ensures SalaryMatches(rows[i], "") == rows[i].staff.Some?
    {
      if rows[i].staff.Some? {
        ContainsIgnoringCaseEmpty(rows[i].staff.value.name);
      }
    }
    ListOps.FilterAgreeing(rows, (x: Row) => SalaryMatches(x, ""), (x: Row) => x.staff.Some?);
  }

  // ---------------------------------------------------------------------
  // Currency

  const DefaultSymbol: string := "\U{00A5}"

  /** `currency.split('-')[1] || '¥'`: the text after the first `-` up to
      the next one, or the yen sign when there is none or it is empty. */
  function CurrencySymbol(currency: string): (r: string)
    ensures r != ""
    ensures '-' !in currency ==> r == DefaultSymbol
  {
    var fields := Split(currency, '-');
    if |fields| >= 2 && fields[1] != "" then fields[1] else DefaultSymbol
  }

  /** A setting written as a code, a dash, a field free of dashes, and then
      nothing or a further dash (and whatever follows it) yields that field,
      or the yen sign when the field is empty: later fields are ignored. */
  lemma CurrencySymbolIsSecondField(code: string, symbol: string, rest: string)
    requires '-' !in code && '-' !in symbol
    requires rest == "" || rest[0] == '-'
    ensures CurrencySymbol(code + "-" + symbol + rest) == if symbol != "" then symbol else DefaultSymbol
  {
    assert code + "-" + symbol + rest == code + ['-'] + (symbol + rest);
    SplitAfterField(code, '-', symbol + rest);
    SplitFirstField(symbol, '-', rest);
  }
}
