/**
 * The queries the request handlers (employees/views.py) run against the
 * tables: key lookups that return the first matching row, the "update the
 * row for this key, else add one" write behind marking attendance, the
 * per-status attendance counts and the monthly salary sum of the dashboards,
 * and the orderings of the history and employee lists. Each table is a
 * sequence of rows; a row's position is its primary key.
 */
module Tables {
  import opened Common
  import opened Records
  import opened Forms

  // ----- Key lookups (filter(...).first()) -----

  predicate HasKey(a: Attendance, employee: EmployeeRef, date: Date) {
    a.employee == employee && a.date == date
  }

  /** The first Attendance row for (employee, date), if any. */
  function FindAttendance(rows: seq<Attendance>, employee: EmployeeRef, date: Date): (r: Option<nat>)
    ensures r.Some? ==> r.value < |rows| && HasKey(rows[r.value], employee, date)
    ensures r.Some? ==> forall j :: 0 <= j < r.value ==> !HasKey(rows[j], employee, date)
    ensures r.None? <==> forall j :: 0 <= j < |rows| ==> !HasKey(rows[j], employee, date)
  {
    if rows == [] then None
    else if HasKey(rows[0], employee, date) then Some(0)
    else match FindAttendance(rows[1..], employee, date)
      case None => None
      case Some(i) => Some(i + 1)
  }

  /** The Employee row linked to an account, if any. */
  function FindEmployeeByUser(rows: seq<Employee>, user: UserId): (r: Option<EmployeeRef>)
    ensures r.Some? ==> r.value < |rows| && rows[r.value].user == user
    ensures r.None? <==> forall j :: 0 <= j < |rows| ==> rows[j].user != user
  {
    if rows == [] then None
    else if rows[0].user == user then Some(0)
    else match FindEmployeeByUser(rows[1..], user)
      case None => None
      case Some(i) => Some(i + 1)
  }

  /** The first Salary row for (employee, month), if any. */
  function FindSalary(rows: seq<Salary>, employee: EmployeeRef, month: Date): (r: Option<nat>)
    ensures r.Some? ==> r.value < |rows| && rows[r.value].employee == employee && rows[r.value].month == month
    ensures r.None? <==> forall j :: 0 <= j < |rows| ==> rows[j].employee != employee || rows[j].month != month
  {
    if rows == [] then None
    else if rows[0].employee == employee && rows[0].month == month then Some(0)
    else match FindSalary(rows[1..], employee, month)
      case None => None
      case Some(i) => Some(i + 1)
  }

  /** Under the uniqueness key, the row found is the only one with its key. */
  lemma FoundAttendanceIsOnly(rows: seq<Attendance>, employee: EmployeeRef, date: Date, j: nat)
    requires AttendanceKeysUnique(rows)
    requires j < |rows| && HasKey(rows[j], employee, date)
    ensures FindAttendance(rows, employee, date) == Some(j)
  {
  }

  // ----- Marking attendance: update the row for (employee, date), else add one -----

  /** The attendance table after an employee submits the attendance form on a date. */
  function UpsertAttendance(rows: seq<Attendance>, employee: EmployeeRef, date: Date, form: AttendanceFormData): seq<Attendance> {
    match FindAttendance(rows, employee, date)
    case Some(i) => rows[i := BindAttendance(rows[i], form).(employee := employee, date := date)]
    case None => rows + [BindAttendance(NewAttendance(employee, date), form)]
  }

  /** Marking keeps the uniqueness key, leaves exactly one row for the key holding
      the submitted fields, changes no row with another key, and adds a row only
      when none existed for the key. */
  lemma UpsertAttendanceSpec(rows: seq<Attendance>, employee: EmployeeRef, date: Date, form: AttendanceFormData)
    requires AttendanceKeysUnique(rows)
    ensures var r := UpsertAttendance(rows, employee, date, form);
      && AttendanceKeysUnique(r)
      && |r| == (if FindAttendance(rows, employee, date).Some? then |rows| else |rows| + 1)
      && (forall j :: 0 <= j < |rows| && !HasKey(rows[j], employee, date) ==> r[j] == rows[j])
      && FindAttendance(r, employee, date).Some?
      && var k := FindAttendance(r, employee, date).value;
        && r[k].notes == form.notes && r[k].location == form.location
        && (FindAttendance(rows, employee, date).Some? ==>
              r[k] == rows[FindAttendance(rows, employee, date).value].(notes := form.notes, location := form.location))
        && (FindAttendance(rows, employee, date).None? ==>
              r[k] == NewAttendance(employee, date).(notes := form.notes, location := form.location))
        && (forall j :: 0 <= j < |r| && j != k ==> !HasKey(r[j], employee, date))
  {
    var r := UpsertAttendance(rows, employee, date, form);
    match FindAttendance(rows, employee, date)
    case Some(i) =>
      assert r[i] == BindAttendance(rows[i], form);
      forall a, b | 0 <= a < b < |r|
        ensures r[a].employee != r[b].employee || r[a].date != r[b].date
      {
        assert r[a] == rows[a] || a == i;
        assert r[b] == rows[b] || b == i;
      }
      FoundAttendanceIsOnly(r, employee, date, i);
    case None =>
      var n := |rows|;
      forall a, b | 0 <= a < b < |r|
        ensures r[a].employee != r[b].employee || r[a].date != r[b].date
      {
        if b == n { assert !HasKey(rows[a], employee, date); }
      }
      FoundAttendanceIsOnly(r, employee, date, n);
  }

  /** Submitting the same form twice on the same date leaves the table as one submission does. */
  lemma UpsertAttendanceIdempotent(rows: seq<Attendance>, employee: EmployeeRef, date: Date, form: AttendanceFormData)
    requires AttendanceKeysUnique(rows)
    ensures var once := UpsertAttendance(rows, employee, date, form);
      UpsertAttendance(once, employee, date, form) == once
  {
    UpsertAttendanceSpec(rows, employee, date, form);
    var once := UpsertAttendance(rows, employee, date, form);
    var k := FindAttendance(once, employee, date).value;
    assert BindAttendance(once[k], form).(employee := employee, date := date) == once[k];
  }

  // ----- Attendance counts of the dashboards -----

  /** The rows a dashboard count looks at: of one employee or of everyone, dated
      on or after a first day and, when given, on or before a last day. */
  datatype Window = Window(employee: Option<EmployeeRef>, from: Date, until: Option<Date>)

  predicate InWindow(a: Attendance, w: Window) {
    && (w.employee.None? || a.employee == w.employee.value)
    && a.date >= w.from
    && (w.until.None? || a.date <= w.until.value)
  }

  function CountInWindow(rows: seq<Attendance>, w: Window): (n: nat)
    ensures n <= |rows|
  {
    if rows == [] then 0
    else (if InWindow(rows[0], w) then 1 else 0) + CountInWindow(rows[1..], w)
  }

  /** The number of rows in the window whose status field is exactly s. */
  function CountStatus(rows: seq<Attendance>, w: Window, s: AttendanceStatus): (n: nat)
    ensures n <= CountInWindow(rows, w)
  {
    if rows == [] then 0
    else (if InWindow(rows[0], w) && rows[0].status == s then 1 else 0) + CountStatus(rows[1..], w, s)
  }

  /** The five status counts split the rows in the window between them. */
  lemma {:induction false} StatusCountsPartition(rows: seq<Attendance>, w: Window)
    ensures CountStatus(rows, w, Present) + CountStatus(rows, w, Late) + CountStatus(rows, w, Absent)
          + CountStatus(rows, w, Permission) + CountStatus(rows, w, Sick) == CountInWindow(rows, w)
  {
    if rows != [] {
      StatusCountsPartition(rows[1..], w);
    }
  }

  datatype AttendanceStats = AttendanceStats(present: nat, late: nat, absent: nat)

  /** The present, late and absent counts a dashboard shows. Permission and sick
      rows are in the window but in none of the three, so the three never add up
      to more than the window holds. */
  function StatusStats(rows: seq<Attendance>, w: Window): (st: AttendanceStats)
    ensures st == AttendanceStats(CountStatus(rows, w, Present), CountStatus(rows, w, Late), CountStatus(rows, w, Absent))
    ensures st.present + st.late + st.absent + CountStatus(rows, w, Permission) + CountStatus(rows, w, Sick)
          == CountInWindow(rows, w)
    ensures st.present + st.late + st.absent <= CountInWindow(rows, w) <= |rows|
  {
    StatusCountsPartition(rows, w);
    AttendanceStats(CountStatus(rows, w, Present), CountStatus(rows, w, Late), CountStatus(rows, w, Absent))
  }

  /** "Late" in the counts is the status field, not the check-in time: a row
      marked present with a 09:00 check-in is late by the clock yet counts as present. */
  lemma LateCountComesFromStatus(employee: EmployeeRef, date: Date)
    ensures var a := NewAttendance(employee, date).(checkIn := Some(Clock(9, 0, 0, 0)));
      var w := Window(Some(employee), date, None);
      IsLate(a) && StatusStats([a], w) == AttendanceStats(1, 0, 0)
  {
  }

  /** A row appended to the table is counted in its window and nowhere else. */
  lemma {:induction false} CountStatusAppend(rows: seq<Attendance>, a: Attendance, w: Window, s: AttendanceStatus)
    ensures CountStatus(rows + [a], w, s) == CountStatus(rows, w, s) + (if InWindow(a, w) && a.status == s then 1 else 0)
  {
    if rows != [] {
      assert (rows + [a])[1..] == rows[1..] + [a];
      CountStatusAppend(rows[1..], a, w, s);
    } else {
      assert [a][1..] == [];
    }
  }

  // ----- Employee and leave counts of the admin dashboard -----

  function CountActive(rows: seq<Employee>): (n: nat)
    ensures n <= |rows|
    ensures n == |rows| <==> forall i :: 0 <= i < |rows| ==> rows[i].isActive
  {
    if rows == [] then 0
    else
      assert forall i :: 1 <= i < |rows| ==> rows[i] == rows[1..][i - 1];
      (if rows[0].isActive then 1 else 0) + CountActive(rows[1..])
  }

  function CountPending(rows: seq<LeaveRequest>): (n: nat)
    ensures n <= |rows|
    ensures n == 0 <==> forall i :: 0 <= i < |rows| ==> rows[i].status != Pending
  {
    if rows == [] then 0
    else
      assert forall i :: 1 <= i < |rows| ==> rows[i] == rows[1..][i - 1];
      (if rows[0].status == Pending then 1 else 0) + CountPending(rows[1..])
  }

  /** An employee added to the table raises the active count by one exactly when it is active. */
  lemma {:induction false} CountActiveAppend(rows: seq<Employee>, e: Employee)
    ensures CountActive(rows + [e]) == CountActive(rows) + (if e.isActive then 1 else 0)
  {
    if rows != [] {
      assert (rows + [e])[1..] == rows[1..] + [e];
      CountActiveAppend(rows[1..], e);
    } else {
      assert [e][1..] == [];
    }
  }

  /** A request added to the table raises the pending count by one exactly when it is pending. */
  lemma {:induction false} CountPendingAppend(rows: seq<LeaveRequest>, l: LeaveRequest)
    ensures CountPending(rows + [l]) == CountPending(rows) + (if l.status == Pending then 1 else 0)
  {
    if rows != [] {
      assert (rows + [l])[1..] == rows[1..] + [l];
      CountPendingAppend(rows[1..], l);
    } else {
      assert [l][1..] == [];
    }
  }

  // ----- Monthly salary total -----

  /** The SQL sum of total_salary over the rows of a month: no value at all when
      no row belongs to the month. */
  function SalarySum(rows: seq<Salary>, month: Date): (r: Option<Cents>)
    ensures r.None? <==> forall i :: 0 <= i < |rows| ==> rows[i].month != month
  {
    if rows == [] then None
    else
      var rest := SalarySum(rows[1..], month);
      assert forall i :: 1 <= i < |rows| ==> rows[i] == rows[1..][i - 1];
      if rows[0].month != month then rest
      else Some(rows[0].totalSalary + rest.GetOr(0))
  }

  /** The dashboard's salary total: the sum, or 0 when the month has no row. */
  function MonthlySalaryTotal(rows: seq<Salary>, month: Date): (t: Cents)
    ensures (forall i :: 0 <= i < |rows| ==> rows[i].month != month) ==> t == 0
  {
    SalarySum(rows, month).GetOr(0)
  }

  /** The total grows by exactly the total of a row added for that month. */
  lemma {:induction false} MonthlySalaryTotalAppend(rows: seq<Salary>, s: Salary, month: Date)
    ensures MonthlySalaryTotal(rows + [s], month)
         == MonthlySalaryTotal(rows, month) + (if s.month == month then s.totalSalary else 0)
  {
    if rows != [] {
      assert (rows + [s])[1..] == rows[1..] + [s];
      MonthlySalaryTotalAppend(rows[1..], s, month);
    } else {
      assert [s][1..] == [];
    }
  }

  // ----- Orderings -----

  /** An employee's own attendance rows, in table order. */
  function RowsOf(rows: seq<Attendance>, employee: EmployeeRef): (r: seq<Attendance>)
    ensures forall a :: a in r <==> a in rows && a.employee == employee
    ensures forall a :: multiset(r)[a] == if a.employee == employee then multiset(rows)[a] else 0
  {
    if rows == [] then []
    else
      assert rows == [rows[0]] + rows[1..];
      if rows[0].employee == employee then [rows[0]] + RowsOf(rows[1..], employee)
    else RowsOf(rows[1..], employee)
  }

  predicate NewestFirst(rows: seq<Attendance>) {
    forall i, j :: 0 <= i < j < |rows| ==> rows[i].date >= rows[j].date
  }

  function InsertByDate(a: Attendance, sorted: seq<Attendance>): (r: seq<Attendance>)
    requires NewestFirst(sorted)
    ensures NewestFirst(r)
    ensures multiset(r) == multiset(sorted) + multiset{a}
    ensures forall j :: 0 <= j < |r| ==> r[j].date <= a.date || (|sorted| > 0 && r[j].date <= sorted[0].date)
  {
    if sorted == [] || a.date >= sorted[0].date then [a] + sorted
    else
      assert sorted == [sorted[0]] + sorted[1..];
      [sorted[0]] + InsertByDate(a, sorted[1..])
  }

  /** The rows ordered newest date first: the same rows, reordered. */
  function SortNewestFirst(rows: seq<Attendance>): (r: seq<Attendance>)
    ensures NewestFirst(r)
    ensures multiset(r) == multiset(rows)
  {
    if rows == [] then []
    else
      assert rows == [rows[0]] + rows[1..];
      InsertByDate(rows[0], SortNewestFirst(rows[1..]))
  }

  /** An employee's attendance history: each of their rows exactly once, newest date first. */
  function History(rows: seq<Attendance>, employee: EmployeeRef): (r: seq<Attendance>)
    ensures NewestFirst(r)
    ensures forall a :: a in r <==> a in rows && a.employee == employee
    ensures forall a :: multiset(r)[a] == if a.employee == employee then multiset(rows)[a] else 0
  {
    var own := RowsOf(rows, employee);
    var r := SortNewestFirst(own);
    assert forall a :: a in r <==> a in multiset(own);
    r
  }

  /** The employee list order: most recently created first, which is the reverse of table order. */
  function Reversed(rows: seq<Employee>): (r: seq<Employee>)
    ensures |r| == |rows|
    ensures forall k :: 0 <= k < |rows| ==> r[k] == rows[|rows| - 1 - k]
  {
    if rows == [] then [] else Reversed(rows[1..]) + [rows[0]]
  }
}
