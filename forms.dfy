/**
 * The form bindings of employees/forms.py: the leave form with its
 * cross-field date check, the attendance form that binds two fields, and the
 * profile form used when an administrator provisions an employee.
 */
module Forms {
  import opened Common
  import opened Records

  // ----- LeaveRequestForm -----

  /** The values of a leave form after each field has been cleaned on its own:
      a field that was missing or failed its own validation is absent. The form
      binds leave_type, start_date, end_date and reason (and an attachment,
      which is not part of this model); it binds no status, approver or employee. */
  datatype LeaveFormData = LeaveFormData(
    leaveType: Option<LeaveType>,
    startDate: Option<Date>,
    endDate: Option<Date>,
    reason: Option<string>)

  datatype FormError = EndBeforeStart

  /** The form-wide check: a start after the end is an error; anything else is
      passed back unchanged. */
  function Clean(d: LeaveFormData): (r: Result<LeaveFormData, FormError>)
    ensures r.Err? <==> d.startDate.Some? && d.endDate.Some? && d.startDate.value > d.endDate.value
    ensures r.Ok? ==> r.value == d
  {
    if d.startDate.Some? && d.endDate.Some? && d.startDate.value > d.endDate.value then
      Err(EndBeforeStart)
    else
      Ok(d)
  }

  /** Every field the form requires survived field-level cleaning. */
  predicate LeaveFieldsPresent(d: LeaveFormData) {
    d.leaveType.Some? && d.startDate.Some? && d.endDate.Some? && d.reason.Some?
  }

  /** The form is valid when no field failed and the form-wide check passed. */
  predicate LeaveFormValid(d: LeaveFormData) {
    LeaveFieldsPresent(d) && Clean(d).Ok?
  }

  /** The unsaved LeaveRequest a valid form produces for an employee. */
  function LeaveFromForm(employee: EmployeeRef, d: LeaveFormData): (l: LeaveRequest)
    requires LeaveFieldsPresent(d)
    ensures l.employee == employee && l.leaveType == d.leaveType.value
    ensures l.startDate == d.startDate.value && l.endDate == d.endDate.value && l.reason == d.reason.value
    ensures l.status == Pending && l.approvedBy == None && l.adminNotes == ""
  {
    NewLeaveRequest(employee, d.leaveType.value, d.startDate.value, d.endDate.value, d.reason.value)
  }

  /** A complete leave form is accepted exactly when the leave it describes lasts
      at least one day; equal start and end dates are accepted. */
  lemma ValidLeaveLastsADay(employee: EmployeeRef, d: LeaveFormData)
    requires LeaveFieldsPresent(d)
    ensures LeaveFormValid(d) <==> DurationDays(LeaveFromForm(employee, d)) >= 1
    ensures d.startDate == d.endDate ==> LeaveFormValid(d)
  {
  }

  // ----- AttendanceForm -----

  /** The two fields the attendance form binds. */
  datatype AttendanceFormData = AttendanceFormData(notes: string, location: string)

  /** The location column holds at most 255 characters; notes are unbounded. */
  const LocationMaxLength: nat := 255

  predicate AttendanceFormValid(d: AttendanceFormData) {
    |d.location| <= LocationMaxLength
  }

  /** Binding the form to a row writes notes and location and nothing else:
      check-in, check-out, status, employee and date keep the row's values. */
  function BindAttendance(instance: Attendance, d: AttendanceFormData): (r: Attendance)
    ensures r.notes == d.notes && r.location == d.location
    ensures r.employee == instance.employee && r.date == instance.date
    ensures r.checkIn == instance.checkIn && r.checkOut == instance.checkOut && r.status == instance.status
  {
    instance.(notes := d.notes, location := d.location)
  }

  // ----- EmployeeProfileForm -----

  /** The profile fields an administrator submits with a new employee. The
      department, position, salary and join date are read from the raw request
      with defaults, so each may be absent. */
  datatype ProfileInput = ProfileInput(
    phone: string,
    address: string,
    department: Option<string>,
    position: Option<string>,
    salary: Option<Cents>,
    joinDate: Option<Date>)

  /** The phone column holds at most 15 characters. */
  const PhoneMaxLength: nat := 15

  /** The profile form requires a phone of at most 15 characters and an address. */
  predicate ProfileFormValid(p: ProfileInput) {
    0 < |p.phone| <= PhoneMaxLength && |p.address| > 0
  }
}
