/**
 * The record types of the HR application (employees/models.py): employees,
 * daily attendance, leave requests and monthly salaries, their field
 * defaults, the derived values (lateness, leave length, salary total) and
 * the uniqueness keys the tables declare.
 */
module Records {
  import opened Common

  /** A calendar date as a day number (the proleptic Gregorian ordinal of Python's `date`). */
  type Date = int

  /** A decimal amount with two places, as a whole number of cents. */
  type Cents = int

  /** The numeric id of a login account (owned by the authentication layer). */
  type UserId = nat

  /** The primary key of an Employee row: its position in the employee table. */
  type EmployeeRef = nat

  /** A time of day as Python's `datetime.time` holds it. */
  datatype Clock = Clock(hour: nat, minute: nat, second: nat, microsecond: nat)

  type TimeOfDay = t: Clock | t.hour < 24 && t.minute < 60 && t.second < 60 && t.microsecond < 1_000_000
    witness Clock(0, 0, 0, 0)

  /** Python orders `time` values field by field, most significant first. */
  predicate Later(a: TimeOfDay, b: TimeOfDay) {
    || a.hour > b.hour
    || (a.hour == b.hour && a.minute > b.minute)
    || (a.hour == b.hour && a.minute == b.minute && a.second > b.second)
    || (a.hour == b.hour && a.minute == b.minute && a.second == b.second && a.microsecond > b.microsecond)
  }

  /** Microseconds since midnight: an independent, numeric reading of a time of day. */
  function MicrosSinceMidnight(t: TimeOfDay): (m: nat)
    ensures m < 86_400_000_000
  {
    ((t.hour * 60 + t.minute) * 60 + t.second) * 1_000_000 + t.microsecond
  }

  /** The start of the working day, 08:00. */
  const WorkStart: TimeOfDay := Clock(8, 0, 0, 0)

  datatype AttendanceStatus = Present | Late | Absent | Permission | Sick

  datatype LeaveType = SickLeave | Annual | Personal | Marriage | Maternity | OtherLeave

  datatype LeaveStatus = Pending | Approved | Rejected

  datatype Employee = Employee(
    user: UserId,
    employeeId: string,
    phone: string,
    address: string,
    position: string,
    department: string,
    salary: Cents,
    joinDate: Date,
    isActive: bool)

  datatype Attendance = Attendance(
    employee: EmployeeRef,
    date: Date,
    checkIn: Option<TimeOfDay>,
    checkOut: Option<TimeOfDay>,
    status: AttendanceStatus,
    notes: string,
    location: string)

  datatype LeaveRequest = LeaveRequest(
    employee: EmployeeRef,
    leaveType: LeaveType,
    startDate: Date,
    endDate: Date,
    reason: string,
    status: LeaveStatus,
    adminNotes: string,
    approvedBy: Option<UserId>)

  datatype Salary = Salary(
    employee: EmployeeRef,
    month: Date,
    basicSalary: Cents,
    allowance: Cents,
    bonus: Cents,
    deduction: Cents,
    totalSalary: Cents,
    paymentDate: Option<Date>,
    notes: string)

  // ----- Defaults of a freshly constructed row -----

  /** An Attendance row as constructed with only its key given. */
  function NewAttendance(employee: EmployeeRef, date: Date): (a: Attendance)
    ensures a.employee == employee && a.date == date
    ensures a.status == Present
    ensures a.checkIn == None && a.checkOut == None
    ensures a.notes == "" && a.location == ""
  {
    Attendance(employee, date, None, None, Present, "", "")
  }

  /** A LeaveRequest row as constructed from the fields a requester supplies. */
  function NewLeaveRequest(employee: EmployeeRef, leaveType: LeaveType, startDate: Date, endDate: Date, reason: string): (l: LeaveRequest)
    ensures l.employee == employee && l.leaveType == leaveType
    ensures l.startDate == startDate && l.endDate == endDate && l.reason == reason
    ensures l.status == Pending && l.adminNotes == "" && l.approvedBy == None
  {
    LeaveRequest(employee, leaveType, startDate, endDate, reason, Pending, "", None)
  }

  /** A Salary row with only its key and basic salary given. Its total has no
      value until the row is saved; 0 stands for that here. */
  function NewSalary(employee: EmployeeRef, month: Date, basicSalary: Cents): (s: Salary)
    ensures s.employee == employee && s.month == month && s.basicSalary == basicSalary
    ensures s.allowance == 0 && s.bonus == 0 && s.deduction == 0
    ensures s.paymentDate == None && s.notes == ""
  {
    Salary(employee, month, basicSalary, 0, 0, 0, 0, None, "")
  }

  // ----- Attendance.is_late -----

  /** Late means a check-in is recorded and it is strictly after 08:00. */
  predicate IsLate(a: Attendance) {
    a.checkIn.Some? && Later(a.checkIn.value, WorkStart)
  }

  /** Lateness read numerically: a check-in more than eight hours after midnight.
      The status field plays no part. */
  lemma IsLateIffAfterEight(a: Attendance)
    ensures IsLate(a) <==> a.checkIn.Some? && MicrosSinceMidnight(a.checkIn.value) > 28_800_000_000
    ensures IsLate(a) == IsLate(a.(status := Present)) == IsLate(a.(status := Late))
  {
  }

  /** The boundary cases: exactly 08:00 is on time, one microsecond later is late,
      and a row without a check-in is never late. */
  lemma LatenessBoundary(a: Attendance)
    ensures a.checkIn == Some(WorkStart) ==> !IsLate(a)
    ensures a.checkIn.Some? && a.checkIn.value == Clock(8, 0, 0, 1) ==> IsLate(a)
    ensures a.checkIn == None ==> !IsLate(a)
  {
  }

  // ----- LeaveRequest.duration_days -----

  /** The inclusive length of a leave in days. */
  function DurationDays(l: LeaveRequest): (d: int)
    ensures d >= 1 <==> l.startDate <= l.endDate
    ensures d == 1 <==> l.startDate == l.endDate
  {
    l.endDate - l.startDate + 1
  }

  /** The days from lo to hi, both included. */
  function DayRange(lo: Date, hi: Date): (r: set<Date>)
    ensures forall d :: d in r <==> lo <= d <= hi
    decreases hi - lo
  {
    if lo > hi then {} else DayRange(lo, hi - 1) + {hi}
  }

  /** The calendar days a leave covers. */
  function DaysCovered(l: LeaveRequest): set<Date> {
    DayRange(l.startDate, l.endDate)
  }

  lemma {:induction false} DayRangeSize(lo: Date, hi: Date)
    requires lo <= hi + 1
    ensures |DayRange(lo, hi)| == hi - lo + 1
    decreases hi - lo + 1
  {
    if lo <= hi {
      DayRangeSize(lo, hi - 1);
      assert hi !in DayRange(lo, hi - 1);
    }
  }

  /** The duration counts exactly the days the leave covers: at least one day
      whenever it starts on or before its end, one day when it starts and ends on
      the same date, and a leave that ends before it starts covers no day. */
  lemma DurationCountsCoveredDays(l: LeaveRequest)
    ensures l.startDate <= l.endDate ==> |DaysCovered(l)| == DurationDays(l) >= 1
    ensures l.startDate == l.endDate ==> DurationDays(l) == 1
    ensures l.startDate > l.endDate ==> DaysCovered(l) == {} && DurationDays(l) <= 0
  {
    if l.startDate <= l.endDate {
      DayRangeSize(l.startDate, l.endDate);
    } else {
      assert forall d :: d !in DaysCovered(l);
    }
  }

  // ----- Salary.save -----

  /** The total a salary row must carry: basic plus allowance plus bonus minus deduction. */
  function ComputedTotal(s: Salary): Cents {
    s.basicSalary + s.allowance + s.bonus - s.deduction
  }

  predicate TotalIsCurrent(s: Salary) {
    s.totalSalary == ComputedTotal(s)
  }

  /** The row that saving writes: the total recomputed, every other field as given. */
  function WithTotal(s: Salary): (r: Salary)
    ensures TotalIsCurrent(r)
    ensures r.(totalSalary := s.totalSalary) == s
  {
    s.(totalSalary := ComputedTotal(s))
  }

  /** Saving a second time changes nothing, and a row is left unchanged by saving
      exactly when its total is already current. */
  lemma SaveIsIdempotent(s: Salary)
    ensures WithTotal(WithTotal(s)) == WithTotal(s)
    ensures WithTotal(s) == s <==> TotalIsCurrent(s)
  {
  }

  /** With the default allowance, bonus and deduction, the saved total is the basic salary. */
  lemma DefaultTotalIsBasic(employee: EmployeeRef, month: Date, basicSalary: Cents)
    ensures WithTotal(NewSalary(employee, month, basicSalary)).totalSalary == basicSalary
  {
  }

  // ----- unique_together keys -----

  /** No two Attendance rows share an (employee, date) pair. */
  predicate AttendanceKeysUnique(rows: seq<Attendance>) {
    forall i, j :: 0 <= i < j < |rows| ==> rows[i].employee != rows[j].employee || rows[i].date != rows[j].date
  }

  /** No two Salary rows share an (employee, month) pair. */
  predicate SalaryKeysUnique(rows: seq<Salary>) {
    forall i, j :: 0 <= i < j < |rows| ==> rows[i].employee != rows[j].employee || rows[i].month != rows[j].month
  }
}
