# Staff management: a Dafny model

This project models the core of a small staff-management system. The system has a Django REST backend for departments, staff, schedules, salaries, attendance and a settings row. It also has a React admin front end with one page per record type, behind a client-side route guard.

The model covers these parts:

- **Backend (`Models`, `AttendanceApi`, `SettingsApi`, `LoginApi`).**
  - The record schemas: enumerated statuses with their defaults, optional times, and salary amounts as fixed-point integer cents.
  - A database invariant: unique ids, unique staff emails, at most one attendance record per (staff, date), and no record pointing to a missing parent. The model proves that the cascading deletes keep it.
  - The attendance list filtered by date.
  - The attendance create view. It turns a violation of the `unique_staff_date` constraint into a 400, and lets any other integrity failure through.
  - The settings singleton. Every create is refused. Reads and updates always work on the row with key 1, creating it on first use.
  - The admin login decision.
- **Route guard (`Routes`).**
  - The session read from browser storage, and what logout clears.
  - `PrivateRoute` and the route table, including the fallback redirect.
  - A proof that redirects always settle on a page, and that no path shows an administrator's page to a non-admin.
- **Admin pages.** There is one module each for `AttendancePage`, `SalaryPage`, `DepartmentPage`, `StaffPage` and `SchedulePage`. Each covers:
  - keystroke filters;
  - the checks made before a request is sent, in the order the page makes them;
  - the request body;
  - loading a record back into the form;
  - the search filters and pickers.

  The local list updates (append, replace by id, remove by id) are shared in `ListOps`.
- **Shared helpers (`Strings`, `Patterns`).**
  - `Strings` models the JavaScript string functions the pages rely on: `includes`, `toLowerCase` (ASCII), `trim`, `split`, `parseInt`, and the NaN test of `parseFloat`.
  - `Patterns` models the three regular expressions: `/^\d*$/` as `Strings.AllDigits`, `/^\d*\.?\d*$/` through `MatchDecimal`, and the email pattern.

Side effects are replaced by values:

- A page handler returns a `Submission`: nothing, a rejection with its message, or the body it would send.
- A view returns a response value together with the new store.
- Django's `authenticate`, token issuing, and database-engine failures other than the unique constraint are parameters.

The settings view refuses every authenticated create with 403 (`SettingsApi.Create`); the one settings row comes into being only through a read or an update.

The `Settings` model class is not part of the shown `models.py`. The settings row is therefore modelled by its key and its `currency` column only, with the model's defaults as a parameter.

## Model

| member | source | states |
|---|---|---|
| Models.ParseAttendanceStatus | staff_management/models.py:44-48 | a status text is accepted exactly when it is Present, Absent or Leave, and maps to the choice with that label |
| Models.AttendanceStatusRoundTrip | staff_management/models.py:44-48 | every attendance choice is read back from its stored label |
| Models.ParseSalaryStatus | staff_management/models.py:36 | a salary status text is accepted exactly when it is Pending or Paid |
| Models.NewSalary | staff_management/models.py:31-36 | a salary keeps every field the body gives; an omitted bonus or deduction is 0, so with both omitted it nets exactly its base salary; an omitted status is Pending |
| Models.InsertStaff | staff_management/models.py:11-15 | a staff row is refused exactly when its department does not exist or its email is taken; otherwise it is appended with a fresh id and the database stays valid |
| Models.InsertStaffKeepsValid | staff_management/models.py:15 | appending a staff member with a fresh id, an existing department and an unused email keeps every uniqueness and reference invariant |
| Models.DeleteStaff | staff_management/models.py:21-42 | deleting a staff member removes exactly that member and the schedules, salaries and attendance pointing to it, and keeps the database valid |
| Models.DeleteStaffKeepsValid | staff_management/models.py:21-42 | the cascade leaves no schedule, salary or attendance record pointing to a missing staff member |
| Models.DeleteDepartment | staff_management/models.py:14 | deleting a department removes exactly it, its staff, and every record of those staff, and keeps the database valid |
| Models.DeleteDepartmentKeepsValid | staff_management/models.py:14 | the two-level cascade leaves no dangling department or staff reference |
| AttendanceApi.List | staff_management/views.py:32-37 | without a date, or with an empty one, all records are listed; with a date, exactly the records on that date |
| AttendanceApi.ListForDateOneRecordPerStaff | staff_management/models.py:52-55 | in a valid database the list for one date holds at most one record per staff member |
| AttendanceApi.Validate | staff_management/serializers.py:38-46 | input is accepted exactly when `staff_id` names an existing staff member, a date is given and the status is absent or one of the choices; an unknown staff id is reported against `staff_id`; an accepted status defaults to Present and times are optional |
| AttendanceApi.Insert | staff_management/models.py:52-55 | a second record for the same (staff, date) fails with a message naming `unique_staff_date`; an engine fault fails with its own message; otherwise exactly one record is appended |
| AttendanceApi.InsertKeepsValid | staff_management/models.py:52-55 | a successful insert for an existing staff member keeps the one-record-per-(staff, date) invariant and the others |
| AttendanceApi.Create | staff_management/views.py:39-54 | 201 with the new record exactly when validation passes and no record exists for that staff and date; the store then grows by that record only, which carries the request's staff, date, validated status (Present when left out) and times; invalid input gives 400 with the field errors; a duplicate gives 400 with the fixed detail; an engine fault on an otherwise accepted request is answered with the duplicate detail when its message names the constraint and raised otherwise; a failed request leaves the store unchanged |
| AttendanceApi.UniqueViolationNamesConstraint | staff_management/views.py:47 | the engine's duplicate message contains the constraint name the view looks for |
| AttendanceApi.CreateNeverDuplicates | staff_management/views.py:46-51 | a valid request for a (staff, date) already present returns 400 with "This staff already has an attendance record for this date." and stores nothing, whatever the engine would do |
| AttendanceApi.CreateExample | staff_management/views.py:39-54 | a create, a duplicate create and a create for another date give 201, 400 and 201, and leave two records |
| SettingsApi.Create | staff_management/views.py:77-80 | every authenticated create is answered 403 with the fixed detail and leaves the table unchanged |
| SettingsApi.CreateIgnoresBody | staff_management/views.py:77-80 | the refusal does not depend on the body |
| SettingsApi.GetObject | staff_management/views.py:82-85 | retrieval returns the row with key 1, creating it from the defaults only when it is absent; no other row changes |
| SettingsApi.GetObjectIgnoresRequestedPk | staff_management/views.py:82-85 | the key named in the request does not matter |
| SettingsApi.GetObjectIdempotent | staff_management/views.py:84 | a second retrieval returns the same row and changes nothing |
| SettingsApi.Update | staff_management/views.py:72-85 | an update sets the currency of the row with key 1 and touches no other row |
| SettingsApi.OperationsKeepSingleRow | staff_management/views.py:72-85 | create, retrieval and update never make a second settings row |
| SettingsApi.ReadAfterUpdate | staff_management/views.py:82-85 | a retrieval after an update shows the new currency, whichever keys the two requests named |
| LoginApi.Post | staff_management/views.py:59-70 | 200 with the user's refresh and access tokens exactly when authentication succeeds; otherwise 401 with "Invalid credentials" |
| LoginApi.FailuresIndistinguishable | staff_management/views.py:70 | every failed login gets the same response |
| LoginApi.AdminFlagIsSuperuser | staff_management/views.py:68 | the `is_admin` flag of a successful login is the user's superuser flag |
| Routes.InitialSession | src/App.js:17-27 | the session has a token exactly when storage holds a non-empty one, and each role flag exactly when storage holds "true" for it |
| Routes.Logout | src/App.js:29-39 | logout clears the token and both flags, and removes exactly the six session keys from storage, keeping every other entry |
| Routes.LogoutSurvivesReload | src/App.js:17-39 | reloading after logout gives back the signed-out session |
| Routes.Classify | src/App.js:61-180 | a location maps to the route declared with that path, and to the fallback exactly when no route has it |
| Routes.Guard | src/App.js:41-52 | no token redirects to /staff-login before any role check; an admin-only page redirects a non-admin to /user-dashboard; a staff-only page redirects a non-staff user to /staff-login; otherwise the page is shown |
| Routes.GuardMonotone | src/App.js:41-52 | a page shown to a session is shown to the same session with more roles |
| Routes.FallbackTarget | src/App.js:171-179 | the fallback sends admins to /, other staff to /staff-dashboard, other users to /user-dashboard, and visitors without a token to /staff-login |
| Routes.Resolve | src/App.js:63-162 | /staff-login and /staff-registration redirect to /staff-dashboard exactly when there is a token and the staff flag, and otherwise show their own page; /login redirects a signed-in user by role and shows the form otherwise; each of the seven admin routes shows its page exactly to a signed-in administrator, sending visitors without a token to /staff-login and other users to /user-dashboard; /user-dashboard opens exactly with a token and /staff-dashboard exactly with a token and the staff flag, both otherwise sending to /staff-login; a shown page is the one the route declares; an unknown path takes the fallback |
| Routes.AdminPagesAreAdminRoutes | src/App.js:89-144 | the routes wrapped as admin-only are exactly the routes whose declared page is an administrator's page |
| Routes.AdminOpensEveryAdminPage | src/App.js:89-144 | a signed-in administrator opens every admin route's declared page without any redirect |
| Routes.FallbackTargetRenders | src/App.js:171-179 | the fallback's target always shows a page |
| Routes.EveryPathSettles | src/App.js:63-180 | every location reaches a page after at most two redirects |
| Routes.SignedOutLandsOnStaffLogin | src/App.js:41-44 | without a token every location except /login and /staff-registration ends on the staff login page |
| Routes.AdminPagesNeedAdmin | src/App.js:89-144 | however many redirects are followed, an administrator's page is only shown to a session with a token and the admin flag |
| Routes.Chrome | src/App.js:57-59 | the navigation bar is shown exactly with a token, and the sidebar exactly with a token and the admin flag |
| Routes.ChromeMatchesRoutes | src/App.js:57-59 | the navigation bar is shown exactly when /user-dashboard opens, and the sidebar exactly when the admin routes open their pages |
| ListOps.Append | src/pages/Attendance.js:143 | a successful add keeps the list and puts the returned record at the end |
| ListOps.ReplaceById | src/pages/Attendance.js:188 | an update replaces exactly the records with the edited id, in place, and keeps every other record and the order |
| ListOps.RemoveById | src/pages/Attendance.js:204 | a delete keeps exactly the records whose id differs |
| ListOps.RemoveByIdAppend | src/pages/SalaryDetails.js:237 | a delete keeps the table's order and each remaining record once: deleting from a list with a record added at the end is deleting from the list and then adding that record unless it is the deleted one |
| ListOps.RemoveAfterReplace | src/pages/SalaryDetails.js:214-237 | deleting a record after updating it gives the same list as deleting it directly |
| ListOps.RemoveOneOfUnique | src/pages/SalaryDetails.js:237 | with unique ids, a delete of a listed id removes exactly one record |
| ListOps.ReplaceKeepsUniqueKeys | src/pages/Department.js:70 | an update that keeps the id keeps ids unique |
| ListOps.RemoveIdempotent | src/pages/Department.js:84 | deleting the same id twice is the same as once |
| ListOps.ReplaceAbsent | src/pages/Staff.js:91 | an update for an id not in the list changes nothing |
| ListOps.RemoveAbsent | src/pages/Staff.js:108 | a delete for an id not in the list changes nothing |
| ListOps.TopByIdDesc | src/pages/Staff.js:129 | the result has min(n, length) entries from the list, in descending id order, and no left-out entry has a higher id than a kept one |
| ListOps.FilterAppend | src/pages/Schedule.js:220-233 | searching a list with an appended record is searching the old list and then the record |
| ListOps.FilterKeepsUniqueKeys | src/pages/Schedule.js:201 | removing records keeps ids unique |
| Patterns.MatchDecimal | src/pages/SalaryDetails.js:272 | the scan accepts exactly the texts that are digits with at most one point (`/^\d*\.?\d*$/`) |
| Patterns.NonDecimalCharBlocks | src/pages/SalaryDetails.js:272 | a character other than a digit or a point makes the amount text invalid |
| Patterns.SecondPointBlocks | src/pages/SalaryDetails.js:272 | a second point makes the amount text invalid |
| Patterns.DecimalShapeParses | src/pages/SalaryDetails.js:141-144 | a text the keystroke filter lets through is a number for `parseFloat` exactly when it is neither empty nor a lone point |
| Patterns.EmailRuleIsPattern | src/pages/Staff.js:39 | the email pattern holds exactly when there is one `@`, a non-empty local part and a domain without white space or further `@`, and the domain has a point that is neither its first nor its last character |
| AttendancePage.SubmittedTime | src/pages/Attendance.js:137-138 | a time is sent as its input followed by ":00" exactly when the status is Present and the input is not empty, and as null otherwise |
| AttendancePage.BuildPayload | src/pages/Attendance.js:133-140 | the body carries `staff_id` as the staff field read by `parseInt`, the chosen date and the status; each time is the input with `:00` appended when the status is Present and the input is filled, and null otherwise |
| AttendancePage.AddSubmission | src/pages/Attendance.js:126-140 | a form without staff or status is rejected with the required-fields message and nothing is sent; otherwise the built body is sent |
| AttendancePage.UpdateSubmission | src/pages/Attendance.js:167-182 | nothing happens without a record under edit; otherwise the same checks and body as an add |
| AttendancePage.ToServerInput | src/pages/Attendance.js:133-140 | the body reaches the serializer with `staff_id` null exactly when it was NaN, and with the date and status as given |
| AttendancePage.SubmissionPassesServerValidation | src/pages/Attendance.js:133-140 | a form holding an existing staff member's id and a valid status yields a body the server accepts, with the same staff, date, status and times |
| AttendancePage.StatusChange | src/pages/Attendance.js:227-235 | switching away from Present clears both times; switching to Present keeps them; the staff is unchanged |
| AttendancePage.StatusChangeInvisibleInSubmission | src/pages/Attendance.js:227-235 | clearing the times on a status switch never changes what is submitted |
| AttendancePage.EditTime | src/pages/Attendance.js:159-160 | the edit form shows the first five characters of a stored time, or "" when there is none |
| AttendancePage.Edit | src/pages/Attendance.js:154-161 | the edit form holds the staff id as text that reads back as that id, the status, and both times cut to `HH:MM` |
| AttendancePage.TimeRoundTrip | src/pages/Attendance.js:137 | a five-character `HH:MM` input comes back unchanged after ":00" is appended and the first five characters are taken |
| AttendancePage.ResubmitKeepsTime | src/pages/Attendance.js:159-160 | a stored `HH:MM:00` time is sent back unchanged after an edit |
| AttendancePage.EditThenUpdateResendsRecord | src/pages/Attendance.js:154-182 | editing a Present record and saving unchanged sends the record's own staff, date, status and times |
| AttendancePage.StaffPicker | src/pages/Attendance.js:270-271 | the picker lists exactly the staff whose name contains the search text, ignoring case |
| AttendancePage.EmptyPickerSearchListsAll | src/pages/Attendance.js:270-271 | an empty search lists every staff member in order |
| AttendancePage.SelectStaff | src/pages/Attendance.js:221-222 | choosing a staff member puts text into the form that reads back as its id, and keeps the other fields |
| SalaryPage.SetAmount | src/pages/SalaryDetails.js:273 | setting one amount field changes that field only |
| SalaryPage.BaseSalaryErrorText | src/pages/SalaryDetails.js:276 | the error for `base_salary` has its first underscore replaced by a space: "base salary must be a valid number" |
| SalaryPage.NumberChange | src/pages/SalaryDetails.js:270-278 | a keystroke matching `/^\d*\.?\d*$/` replaces the field and clears the error; any other leaves the form unchanged and sets the field's error |
| SalaryPage.NumberChangeKeepsShape | src/pages/SalaryDetails.js:270-278 | amount fields that match the pattern keep matching after any keystroke |
| SalaryPage.AddSubmission | src/pages/SalaryDetails.js:139-157 | rejected exactly when no staff is chosen or an amount is NaN for `parseFloat`; otherwise the body carries the staff id read by `parseInt`, the three amounts as typed, and the date and status |
| SalaryPage.UpdateSubmission | src/pages/SalaryDetails.js:193-212 | nothing happens without a salary under edit; otherwise the same checks as an add |
| SalaryPage.ShapedFormRejection | src/pages/SalaryDetails.js:139-147 | with amounts typed through the keystroke filter, a form is rejected exactly when no staff is chosen or some amount is empty or a lone point |
| SalaryPage.NetCents | src/pages/SalaryDetails.js:132-137 | the net amount is base plus bonus minus deductions, with an unreadable amount counted as zero |
| SalaryPage.NetOfStoredSalary | src/pages/SalaryDetails.js:132-137 | for a stored salary the net amount is exact, and lies within three times the column bound |
| SalaryPage.DefaultedSalaryNetsBase | staff_management/models.py:33-36 | a salary stored without bonus, deductions or status shows a net equal to its base salary and the status Pending |
| SalaryPage.OmittedAmountsCountZero | staff_management/models.py:33-34 | whichever of bonus and deductions is left out, the net shown is the base salary plus the bonus given less the deductions given |
| SalaryPage.UnreadableAmountIsZero | src/pages/SalaryDetails.js:133-135 | an unreadable amount and an amount of zero give the same net |
| SalaryPage.FilterSalaries | src/pages/SalaryDetails.js:254-262 | the search keeps exactly the salaries with a staff member whose name contains the term ignoring case, or whose id text contains it; no salary without staff is kept |
| SalaryPage.SalarySearchIgnoresTermCase | src/pages/SalaryDetails.js:254-262 | the case of the term does not change the result |
| SalaryPage.EmptySearchKeepsRowsWithStaff | src/pages/SalaryDetails.js:254-262 | an empty term keeps exactly the salaries that have a staff member |
| SalaryPage.CurrencySymbol | src/pages/SalaryDetails.js:111 | the symbol is never empty, and without a `-` it is the yen sign |
| SalaryPage.CurrencySymbolIsSecondField | src/pages/SalaryDetails.js:111 | a setting with a dash yields the field between the first dash and the next (or the end), and the yen sign when that field is empty; later fields play no part |
| DepartmentPage.StaffCountChange | src/pages/Department.js:102-111 | an empty or all-digit keystroke replaces the count and clears the error; any other leaves the form and sets the error |
| DepartmentPage.StaffCountChangeKeepsDigits | src/pages/Department.js:102-111 | the count field holds only digits after any keystroke if it did before |
| DepartmentPage.AddSubmission | src/pages/Department.js:24-37 | rejected exactly when the name or manager is empty or the count is not an integer for `parseInt`; otherwise it sends the name, the manager and the parsed count |
| DepartmentPage.UpdateSubmission | src/pages/Department.js:56-63 | nothing happens without a department under edit; otherwise the same checks and body as an add |
| DepartmentPage.DigitCountSubmission | src/pages/Department.js:27-31 | with a count typed through the keystroke filter, only an empty count is refused, and the count sent is the value of its digits |
| DepartmentPage.Edit | src/pages/Department.js:46-54 | the edit form holds the count as text that `parseInt` reads back as the same number |
| DepartmentPage.EditThenUpdateResendsDepartment | src/pages/Department.js:46-63 | editing a department and saving unchanged sends its own name, manager and count |
| DepartmentPage.FilterDepartments | src/pages/Department.js:114-118 | the search keeps exactly the departments whose name or manager contains the term ignoring case, or whose count's decimal text contains it |
| DepartmentPage.DepartmentSearchIgnoresTermCase | src/pages/Department.js:114-118 | the case of the term does not change the result, the count's text having no letters |
| DepartmentPage.EmptySearchListsAll | src/pages/Department.js:114-118 | an empty term lists every department |
| StaffPage.AddSubmission | src/pages/Staff.js:33-45 | an incomplete form is rejected with "All fields are required" before the email is looked at; a complete form with an email not matching the pattern is rejected with the email message; otherwise the form itself is sent |
| StaffPage.UpdateSubmission | src/pages/Staff.js:75-85 | nothing happens without a staff member under edit; otherwise the same checks as an add |
| StaffPage.EmailCheckIsFieldRule | src/pages/Staff.js:39 | a complete form is sent exactly when the email satisfies the field-by-field rule |
| StaffPage.SentStaffMeetsDatabaseConstraints | staff_management/models.py:11-15 | a body the page sends, for an existing department and an unused email, meets the database's constraints, so the insert succeeds and appends one member whose name, role, department and email read back as the form that was sent |
| StaffPage.Edit | src/pages/Staff.js:59-66 | the edit form holds the staff member's own fields |
| StaffPage.EditThenUpdateResendsStaff | src/pages/Staff.js:59-85 | editing a complete staff member and saving unchanged sends its own fields |
| StaffPage.DepartmentPicker | src/pages/Staff.js:127-129 | with search text, exactly the departments whose name contains it ignoring case; without, the three (or fewer) with the highest ids, highest first |
| StaffPage.PickerOffersNewestFirst | src/pages/Staff.js:129 | with an empty search the department with the highest id comes first |
| StaffPage.SelectDepartment | src/pages/Staff.js:132-133 | choosing a department puts its id into the form and keeps the other fields |
| StaffPage.SelectDepartmentFillsForm | src/pages/Staff.js:33-35 | after a department with a non-zero id is picked, a form with the other fields filled is no longer refused for a missing field, and any body sent names that department |
| StaffPage.DepartmentNameOf | src/pages/Staff.js:140 | the department name searched is the one the server sent, else the name of the department the id points to, else "" |
| StaffPage.FilterStaff | src/pages/Staff.js:139-147 | the search keeps exactly the staff whose name, role, department name or email contains the term, ignoring case |
| StaffPage.StaffSearchIgnoresTermCase | src/pages/Staff.js:139-147 | the case of the term does not change the result |
| StaffPage.EmptySearchListsAll | src/pages/Staff.js:139-147 | an empty term lists every staff member |
| SchedulePage.DisplayName | src/pages/Schedule.js:117 | the staff member's name when it is not empty, else the three name parts joined by spaces and trimmed at the ends |
| ListOps.FindById | src/pages/Schedule.js:116 | the lookup finds nothing exactly when no listed record has that id, and otherwise the first record with it |
| SchedulePage.GetStaffName | src/pages/Schedule.js:115-118 | the display name of the staff member with that id, or "N/A" when there is none |
| SchedulePage.FullNameKeepsInnerSpaces | src/pages/Schedule.js:117 | only the ends are trimmed, so an empty middle name leaves two spaces between first and last name |
| SchedulePage.NamelessStaffShowsEmpty | src/pages/Schedule.js:117 | a staff member with no name parts is shown as "" |
| SchedulePage.BuildPayload | src/pages/Schedule.js:132-137 | the body has exactly `staff_id` (the staff field read by `parseInt`), date, shift and location |
| SchedulePage.AddSubmission | src/pages/Schedule.js:121-137 | a missing staff member is reported before a missing location; otherwise the body is sent |
| SchedulePage.UpdateSubmission | src/pages/Schedule.js:165-181 | without a schedule under edit, or without staff, the staff message is shown; then the same location check and body as an add |
| SchedulePage.Edit | src/pages/Schedule.js:151-159 | the edit form holds the staff id (nested or plain) as text that reads back as that id, the date and location, and the shift or Morning |
| SchedulePage.EditThenUpdateResendsSchedule | src/pages/Schedule.js:151-181 | editing a schedule with a shift and a location and saving unchanged sends its own values |
| SchedulePage.FilterSchedules | src/pages/Schedule.js:220-233 | the search keeps exactly the schedules whose lowered staff name, shift or location contains the lowered term, or whose date contains the lowered term |
| SchedulePage.DateMatchIgnoresTermCase | src/pages/Schedule.js:229 | for a date without letters, matching the lowered term is matching the term as typed |
| SchedulePage.ScheduleSearchIgnoresTermCase | src/pages/Schedule.js:220-233 | the case of the term does not change the result |
| SchedulePage.EmptySearchListsAll | src/pages/Schedule.js:220-233 | an empty term lists every schedule |
| SchedulePage.StaffPicker | src/pages/Schedule.js:236-239 | the picker lists exactly the staff whose display name contains the search text, ignoring case |
| SchedulePage.EmptyPickerSearchListsAll | src/pages/Schedule.js:236-239 | an empty search offers every staff member |
| SchedulePage.SelectStaff | src/pages/Schedule.js:242-243 | choosing a staff member puts text into the form that reads back as its id, and keeps the other fields |
| SchedulePage.SelectStaffThenAdd | src/pages/Schedule.js:121-131 | after a staff member is picked, a form with a location is sent with that member's id |

## Left out

- Strings.ParseInt: JavaScript numbers are doubles, while the model reads digits into unbounded integers. Beyond 2^53 `parseInt` rounds, and `toString` switches to exponent notation from 10^21. The model ignores both, so its exact values hold in the source only for magnitudes below 2^53.
- Strings.ParseIntOfIntToString: the round trip is exact for every integer in the model, but only below 2^53 in magnitude in JavaScript, for the same reason.
- DepartmentPage.DigitCountSubmission: the sent count equals the value of its digits only while that value is below 2^53. The database's `IntegerField` range check is not modelled either.
- DepartmentPage.Edit: the count reads back exactly only for counts below 2^53 in magnitude, as above.
- Network and browser I/O are not modelled: the axios requests, `localStorage` writes, React state, effects and rendering, `window.confirm`, and the error texts built from a failed response. Each handler is a pure function from the form and list to a submission or a new list. A request is assumed to succeed when the list updates are applied.
- Dates are opaque `YYYY-MM-DD` text. `Date`, `toISOString` and the date picker's time-zone behaviour are not modelled.
- Amounts are integer cents. `parseFloat`, its rounding and `toFixed(2)` formatting are not modelled. The salary form keeps the typed text, and only the NaN test of `parseFloat` is modelled.
- Django's `authenticate` and the JWT `RefreshToken` are parameters of `LoginApi.Post`. The DRF serializer, routing and the database engine are reduced to the validation rules and the integrity errors they produce.
- An integrity failure other than the unique constraint is a `fault` parameter of `AttendanceApi.Create`. Whether a real engine's message names the constraint depends on the engine, and the model assumes it does.
- The DRF unique-together validator is not modelled. It may report a duplicate as a field error before the database is reached. The model sends duplicates to the database constraint, as the view's handler expects.
- `TimeField` and `DateField` parsing are not modelled: any given date and time text is accepted.
- SettingsApi.Create, SettingsApi.GetObject and SettingsApi.Update assume an authenticated request: `SettingsViewSet` requires authentication, and an unauthenticated request is refused before any of them runs. Authentication is outside this model.
- StaffPage.SentStaffMeetsDatabaseConstraints does not claim the staff member is stored: the serializer's `EmailField` validation (stricter than the page's pattern) and the `max_length` limits on name and role run before the database and are not modelled.
- The staff login and staff registration views are routed but are not defined in `views.py`, so they are not part of this model. Their pages are shown as plain pages by `Routes.Resolve`.
- The login, staff login, registration and password-reset pages, the dashboards, the settings page, the navigation bar and the sidebar are static or pure request glue, and are not modelled. The one exception is the condition in `App.js` under which the navigation bar and the sidebar are shown (`Routes.Chrome`). The login page stores only the token, never `is_admin`.
- The translation dictionaries are not modelled. Messages are the English texts.
- Only ASCII case folding is modelled. JavaScript's Unicode `toLowerCase` is not.
- React Router's case-insensitive and trailing-slash matching is not modelled. A location matches a route only when it is equal to its path.
- The settings columns other than `currency` are not modelled. They are never read by the modelled code.
- StaffPage.DepartmentPicker: `departments.sort` sorts the page's department list in place as a side effect. The model returns a sorted copy and leaves the list's order alone.
- SalaryPage.AddSubmission: the amounts in the body are `parseFloat` numbers. The model states which forms are sent and carries the typed text, not the floating-point values.
- Loading a salary into the edit form (`handleEditSalary`) is not modelled, because it goes through `toString` of decimal values.
- The delete confirmations and the "no records" messages are not modelled. They are user interface only.
