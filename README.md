# HR records: attendance, leave and salary rules

A Dafny model of the record rules and record-store operations of a small
Django HR application: employees, one attendance row per employee and day,
leave requests that an administrator approves or rejects, and monthly salary
rows whose total is recomputed on every save. The handlers are modelled as
operations on one store (`Handlers.HrStore`) whose tables are sequences of
rows; a row's position is its primary key. The signed-in account, its staff
flag and the current date are parameters of each handler.

Modules, following the source files:

- `Records` (employees/models.py): the row types, their defaults, lateness
  (`IsLate`), leave length (`DurationDays`), the salary total written on save
  (`WithTotal`), and the uniqueness keys.
- `Forms` (employees/forms.py): the leave form's cross-field date check, the
  fields the leave and attendance forms bind, the profile form's required fields.
- `EmployeeIds` (employees/views.py, line 146): the generated employee id
  `"EMP"` + zero-padded account number, with a parser that inverts it.
- `Tables` (the queries in employees/views.py): first-match lookups, the
  attendance upsert, the dashboard counts and salary sum, list orderings.
- `Handlers` (employees/views.py): the role-gated handlers as methods and
  read-only functions of `HrStore`, whose `Valid()` holds the table constraints.

Representation: dates are day numbers, times of day are
(hour, minute, second, microsecond) compared field by field as Python does,
money is whole cents, responses are values of `Handlers.Response`.

Three behaviours of the code worth noting:

- A decided leave request is not final. `manage_leave` has no guard, so a
  second action overwrites the status and the approver.
- Only the employee dashboard signs out an account that has no Employee row.
  Marking attendance redirects such an account home. The history shows it an
  empty list. The leave form answers "not found".
- The monthly counts have a lower bound only (on or after the first of the
  month). Rows dated later than today are counted too.

## Model

| member | source | states |
|---|---|---|
| `Records.NewAttendance` | employees/models.py:52-58 | a new attendance row has status present, no check-in or check-out, empty notes and location |
| `Records.NewLeaveRequest` | employees/models.py:93-101 | a new leave request is pending, has no approver and empty admin notes |
| `Records.NewSalary` | employees/models.py:118-126 | allowance, bonus and deduction default to 0; no payment date |
| `Records.IsLateIffAfterEight` | employees/models.py:70-75 | late iff a check-in is recorded and it is more than eight hours after midnight; the status field has no influence |
| `Records.LatenessBoundary` | employees/models.py:72-75 | 08:00 exactly is on time, one microsecond later is late, no check-in is never late |
| `Records.IsLate` | employees/models.py:70-75 | late iff a check-in is recorded and it is later than 08:00 by Python's field-by-field order; IsLateIffAfterEight and LatenessBoundary state its contract |
| `Records.DayRangeSize` | employees/models.py:113-115 | the range of days from lo to hi holds hi - lo + 1 days |
| `Records.DurationDays` | employees/models.py:113-115 | the duration is at least 1 iff the start is not after the end, and 1 iff they are equal; DurationCountsCoveredDays ties it to the days covered |
| `Records.DurationCountsCoveredDays` | employees/models.py:113-115 | the duration equals the number of days the leave covers, is at least 1 when start ≤ end and 1 when they are equal |
| `Records.WithTotal` | employees/models.py:138-139 | the saved row's total is basic + allowance + bonus - deduction and no other field changes |
| `Records.SaveIsIdempotent` | employees/models.py:138-140 | saving twice equals saving once; saving leaves a row unchanged iff its total is current |
| `Records.DefaultTotalIsBasic` | employees/models.py:121-124 | with default allowance, bonus and deduction the saved total is the basic salary |
| `Records.AttendanceKeysUnique` | employees/models.py:64 | no two attendance rows share (employee, date); kept by UpsertAttendanceSpec and HrStore.Valid |
| `Records.SalaryKeysUnique` | employees/models.py:132 | no two salary rows share (employee, month); kept by HrStore.SaveSalary |
| `Forms.Clean` | employees/forms.py:42-50 | fails iff both dates are present and the start is after the end; otherwise returns the data unchanged |
| `Forms.ValidLeaveLastsADay` | employees/forms.py:47 | a complete leave form is valid iff the leave it builds lasts at least one day; equal dates are valid |
| `Forms.LeaveFromForm` | employees/forms.py:30-33 | the built request takes type, dates and reason from the form and stays pending with no approver |
| `Forms.BindAttendance` | employees/forms.py:52-55 | the attendance form writes notes and location and leaves check-in, check-out, status, employee and date as they were |
| `Forms.AttendanceFormValid` | employees/models.py:58 | the attendance form is valid iff the location has at most 255 characters; HrStore.MarkAttendance writes only when it is |
| `Forms.ProfileFormValid` | employees/models.py:20-21 | the profile form requires a phone of at most 15 characters and an address; HrStore.AddEmployee provisions only when it holds |
| `EmployeeIds.FormatEmployeeId` | employees/views.py:146 | the id is "EMP" followed by digits and has length 3 + max(4, number of digits of the account id) |
| `EmployeeIds.Decimal` | employees/views.py:146 | the decimal numeral has as many digits as the number and no leading zero |
| `EmployeeIds.DecimalRoundTrip` | employees/views.py:146 | the value of the numeral of n is n |
| `EmployeeIds.LeadingZerosIgnored` | employees/views.py:146 | zero padding does not change a numeral's value |
| `EmployeeIds.ZerosValue` | employees/views.py:146 | a string of zeros has the value 0 |
| `EmployeeIds.FormatThenParse` | employees/views.py:146 | parsing a generated id gives back the account id |
| `EmployeeIds.ParseEmployeeId` | employees/views.py:146 | reads an id of the generated shape back to its number; FormatThenParse makes it the inverse of FormatEmployeeId |
| `EmployeeIds.FormatIsInjective` | employees/views.py:146 | distinct accounts get distinct ids |
| `EmployeeIds.FormatExamples` | employees/views.py:146 | account 7 gets "EMP0007", account 12345 gets "EMP12345" |
| `Tables.FindAttendance` | employees/views.py:60 | returns the first row with the (employee, date) key, and none exactly when no row has it |
| `Tables.FindEmployeeByUser` | employees/views.py:18-20 | returns a row linked to the account, and none exactly when no row is |
| `Tables.FindSalary` | employees/models.py:132 | returns a row with the (employee, month) key, and none exactly when no row has it |
| `Tables.FoundAttendanceIsOnly` | employees/models.py:64 | under the uniqueness key the row found is the only row with that key |
| `Tables.UpsertAttendance` | employees/views.py:60-68 | the table after marking attendance; UpsertAttendanceSpec and UpsertAttendanceIdempotent state its contract |
| `Tables.UpsertAttendanceSpec` | employees/views.py:60-68 | marking keeps the key unique, leaves exactly one row for (employee, today), changes no other row, and adds a row only when none existed; that row is the found row, or a new row with the defaults, with only notes and location replaced by the submitted ones |
| `Tables.UpsertAttendanceIdempotent` | employees/views.py:60-68 | submitting the same attendance form twice the same day gives the same table as once |
| `Tables.CountInWindow` | employees/views.py:32 | the number of rows in the window is at most the table size |
| `Tables.CountStatus` | employees/views.py:33-35 | the count of one status is at most the rows in the window; StatusCountsPartition and CountStatusAppend fix its value |
| `Tables.StatusCountsPartition` | employees/views.py:32-36 | the five status counts add up to the number of rows in the window |
| `Tables.StatusStats` | employees/views.py:124-128 | present, late and absent are each the count of rows in the window with exactly that status; with the permission and sick counts they add up to the rows in the window, so the three never exceed it |
| `Tables.LateCountComesFromStatus` | employees/views.py:34 | a row marked present with a 09:00 check-in is late by the clock yet counts as present, not late |
| `Tables.CountStatusAppend` | employees/views.py:32-36 | an added row raises exactly the count of its own status in its window |
| `Tables.CountActive` | employees/views.py:111 | the active count is at most the employee count, and equal to it iff every employee is active |
| `Tables.CountActiveAppend` | employees/views.py:111 | an added employee raises the active count by one exactly when it is active |
| `Tables.CountPending` | employees/views.py:114 | the pending count is 0 iff no request is pending |
| `Tables.CountPendingAppend` | employees/views.py:114 | an added request raises the pending count by one exactly when it is pending |
| `Tables.SalarySum` | employees/views.py:122 | the sum has no value exactly when no salary row belongs to the month |
| `Tables.MonthlySalaryTotal` | employees/views.py:122 | the dashboard total is 0 when the month has no salary row |
| `Tables.MonthlySalaryTotalAppend` | employees/views.py:122 | adding a row raises the month's total by exactly that row's total when it belongs to the month |
| `Tables.RowsOf` | employees/views.py:80 | holds each attendance row of the employee exactly as many times as the table does, and no other row |
| `Tables.InsertByDate` | employees/views.py:80 | inserting keeps newest-first order and adds exactly the one row |
| `Tables.SortNewestFirst` | employees/views.py:80 | the result is ordered newest date first and is a permutation of the input |
| `Tables.History` | employees/views.py:80 | the history is newest first and holds each of the employee's rows exactly once per occurrence in the table, and no other row |
| `Tables.Reversed` | employees/models.py:34 | the employee list is the table in reverse creation order |
| `Handlers.ApplyDecision` | employees/views.py:180-188 | "approve" sets approved, "reject" sets rejected, anything else keeps the status; the approver is always the actor; nothing else changes |
| `Handlers.LaterDecisionWins` | employees/views.py:180-188 | a second recognised decision overrides the first entirely; an unrecognised one keeps the status and replaces the approver |
| `Handlers.ApproveThenReject` | employees/views.py:180-188 | approving then rejecting a pending request leaves it rejected with the second admin as approver |
| `Handlers.ProvisionedEmployee` | employees/views.py:144-151 | the new row is linked to the account, has the generated id and the submitted or default department "General", position "Staff", salary 0 and join date today, and is active |
| `Handlers.EmployeeIdsUnique` | employees/models.py:18-19 | with one employee row per account and generated ids, employee ids are unique |
| `Handlers.HrStore.Owner` | employees/views.py:18-20 | the employee found is linked to the signed-in account; none means no row is |
| `Handlers.HrStore.EmployeeDashboard` | employees/views.py:13-44 | not signed in goes to login, staff to the admin dashboard, no Employee row means sign-out; otherwise the page shows the caller's row, today's row exactly when a row has the (employee, today) key, and the status counts of the caller's rows dated from the first of the month |
| `Handlers.HrStore.MarkAttendance` | employees/views.py:48-73 | staff and unlinked accounts are redirected with nothing written; a valid submission upserts the (employee, today) row and leaves every other row and table unchanged; otherwise nothing changes |
| `Handlers.HrStore.AttendanceHistory` | employees/views.py:75-83 | staff are redirected; the history is newest first and holds each of the caller's rows exactly as often as the table does, and it is empty for an unlinked account |
| `Handlers.HrStore.SubmitLeave` | employees/views.py:85-99 | staff are redirected, unlinked accounts get not found; a valid form adds one pending request of the caller with no approver that lasts at least a day; otherwise nothing changes |
| `Handlers.HrStore.AdminDashboard` | employees/views.py:104-130 | non-staff go to the admin login; otherwise the summary is the active-employee count, today's present and absent counts, the pending-leave count, the month's salary total (0 with no rows) and the status counts from the first of the month |
| `Handlers.HrStore.AddEmployee` | employees/views.py:133-164 | non-staff are redirected; valid forms add one employee linked to a fresh account, whose generated id no existing employee has; otherwise nothing changes |
| `Handlers.HrStore.EmployeeList` | employees/views.py:166-170 | staff see every employee, newest first |
| `Handlers.HrStore.EmployeeDetail` | employees/views.py:172-175 | staff see the employee with that key, or not found |
| `Handlers.HrStore.ManageLeave` | employees/views.py:177-189 | non-staff are redirected, an unknown id is not found; otherwise only that request changes, by the decision step, and its approver is the actor |
| `Handlers.HrStore.SaveSalary` | employees/models.py:129-140 | the saved row carries the recomputed total; a missing employee or an (employee, month) pair held by another row is refused with nothing written; otherwise the row is inserted or replaces the row it was loaded from |

## Left out

- Rendering, templates, flash messages and HTTP responses: a response is a value naming the redirect or page.
- Signing in and out and the session machinery: the session is a parameter. A signed-in account is taken to be active, so the staff check tests only the staff flag.
- The pages a GET request or an invalid form shows: both are `ShowForm`, with nothing written.
- Field-level form parsing (date, decimal and choice parsing, whitespace stripping, "required" messages): forms arrive as their cleaned values, and an absent value stands for a field that failed.
- The registration form's password and username rules: the handler receives their verdict as `userFormValid`.
- Creating the login account: the model keeps only the account counter (`lastUserId`) of the authentication layer, so a new account's id is one above every earlier one.
- Employees created through the admin site with hand-typed ids: every employee here is provisioned by the handler, so its id is the generated one.
- Column limits the database enforces on save: 12-digit decimals, the 100-character department and position, and the 20-character employee id (more than 17 account digits). A raw salary string that is not a number is also left out.
- The "recent employees", "recent attendance" and pending-leave lists of the admin dashboard: they are display lists.
- The clock: `Now` supplies today's date and the first day of its month. Computing that first day from a date is left out.
- Creation and update timestamps: orderings by creation time are taken to follow table position.
- Concurrent requests and the database's own enforcement of unique keys under them.
- File and image uploads, the developer roster, the admin site configuration, URL routing and the public pages.
- Deleting employees and the cascade to their rows: no handler deletes anything.
- Handlers.HrStore.SaveSalary: requires that a given primary key names an existing row; Django would insert a row under a new explicit key instead.
