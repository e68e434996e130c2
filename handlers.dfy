/**
 * The request handlers of employees/views.py as operations on one record
 * store. The signed-in account, its staff flag and the current date are
 * explicit parameters; a response is a value naming the redirect or the page
 * and the data it shows.
 */
module Handlers {
  import opened Common
  import opened Records
  import opened Forms
  import opened EmployeeIds
  import opened Tables

  /** Who is making the request. */
  datatype Session = Anonymous | SignedIn(user: UserId, isStaff: bool)

  predicate IsStaff(session: Session) {
    session.SignedIn? && session.isStaff
  }

  /** What the clock reads for the request: today's date and the first day of its month. */
  datatype Now = Now(today: Date, monthStart: Date)

  datatype AdminSummary = AdminSummary(
    totalEmployees: nat,
    presentToday: nat,
    absentToday: nat,
    pendingLeaves: nat,
    totalSalary: Cents,
    attendanceStats: AttendanceStats)

  datatype Response =
    | RedirectLogin               // not signed in: the login page
    | RedirectAdminLogin          // not staff on a staff page: the admin login page
    | RedirectAdminDashboard
    | RedirectEmployeeDashboard
    | RedirectHome
    | LogoutToLogin               // the session is ended, then the login page
    | NotFound
    | ShowForm                    // the form page again, nothing saved
    | EmployeeDashboardPage(employee: Employee, attendanceToday: Option<Attendance>, stats: AttendanceStats)
    | HistoryPage(history: seq<Attendance>)
    | AdminDashboardPage(summary: AdminSummary)
    | EmployeeListPage(employees: seq<Employee>)
    | EmployeeDetailPage(employee: Employee)

  /** The decision step of a leave: "approve" and "reject" set the status, any
      other action leaves it, and the acting account is recorded as approver in
      every case. Nothing else changes, and an earlier decision is no guard. */
  function ApplyDecision(l: LeaveRequest, action: string, actor: UserId): (r: LeaveRequest)
    ensures r.approvedBy == Some(actor)
    ensures action == "approve" ==> r.status == Approved
    ensures action == "reject" ==> r.status == Rejected
    ensures action != "approve" && action != "reject" ==> r.status == l.status
    ensures r.(status := l.status, approvedBy := l.approvedBy) == l
  {
    var status := if action == "approve" then Approved else if action == "reject" then Rejected else l.status;
    l.(status := status, approvedBy := Some(actor))
  }

  /** A second decision overwrites the first: the later recognised action wins
      with its actor, and an unrecognised one keeps the earlier status but
      takes over the approver. */
  lemma LaterDecisionWins(l: LeaveRequest, first: string, second: string, a1: UserId, a2: UserId)
    ensures second == "approve" || second == "reject" ==>
      ApplyDecision(ApplyDecision(l, first, a1), second, a2) == ApplyDecision(l, second, a2)
    ensures second != "approve" && second != "reject" ==>
      ApplyDecision(ApplyDecision(l, first, a1), second, a2) == ApplyDecision(l, first, a2)
  {
  }

  /** Approving a pending request and then rejecting it leaves it rejected, with the second actor as approver. */
  lemma ApproveThenReject(l: LeaveRequest, admin1: UserId, admin2: UserId)
    requires l.status == Pending
    ensures var r := ApplyDecision(ApplyDecision(l, "approve", admin1), "reject", admin2);
      r.status == Rejected && r.approvedBy == Some(admin2)
  {
  }

  /** The Employee row an administrator's provisioning creates for a new account. */
  function ProvisionedEmployee(user: UserId, p: ProfileInput, today: Date): (e: Employee)
    ensures e.user == user && e.employeeId == FormatEmployeeId(user)
    ensures e.phone == p.phone && e.address == p.address && e.isActive
    ensures e.department == p.department.GetOr("General") && e.position == p.position.GetOr("Staff")
    ensures e.salary == p.salary.GetOr(0) && e.joinDate == p.joinDate.GetOr(today)
  {
    Employee(user, FormatEmployeeId(user), p.phone, p.address,
             p.position.GetOr("Staff"), p.department.GetOr("General"),
             p.salary.GetOr(0), p.joinDate.GetOr(today), true)
  }

  predicate UsersUnique(rows: seq<Employee>) {
    forall i, j :: 0 <= i < j < |rows| ==> rows[i].user != rows[j].user
  }

  predicate IdsGenerated(rows: seq<Employee>) {
    forall i :: 0 <= i < |rows| ==> rows[i].employeeId == FormatEmployeeId(rows[i].user)
  }

  /** Employee ids are unique: each is generated from its account, and accounts are linked once. */
  lemma EmployeeIdsUnique(rows: seq<Employee>)
    requires UsersUnique(rows) && IdsGenerated(rows)
    ensures forall i, j :: 0 <= i < j < |rows| ==> rows[i].employeeId != rows[j].employeeId
  {
    forall i, j | 0 <= i < j < |rows| ensures rows[i].employeeId != rows[j].employeeId {
      FormatIsInjective(rows[i].user, rows[j].user);
    }
  }

  class HrStore {
    var employees: seq<Employee>
    var attendance: seq<Attendance>
    var leaves: seq<LeaveRequest>
    var salaries: seq<Salary>
    /** The largest account id the authentication layer has handed out. */
    var lastUserId: nat

    /** The table constraints: the uniqueness keys, one Employee per account,
        generated employee ids, current salary totals and foreign keys that
        point at existing employees. */
    ghost predicate Valid()
      reads this
    {
      && AttendanceKeysUnique(attendance)
      && SalaryKeysUnique(salaries)
      && UsersUnique(employees)
      && IdsGenerated(employees)
      && (forall i :: 0 <= i < |employees| ==> 1 <= employees[i].user <= lastUserId)
      && (forall i :: 0 <= i < |salaries| ==> TotalIsCurrent(salaries[i]) && salaries[i].employee < |employees|)
      && (forall i :: 0 <= i < |attendance| ==> attendance[i].employee < |employees|)
      && (forall i :: 0 <= i < |leaves| ==> leaves[i].employee < |employees|)
    }

    constructor (lastUserId: nat)
      ensures Valid()
      ensures employees == [] && attendance == [] && leaves == [] && salaries == []
      ensures this.lastUserId == lastUserId
    {
      employees, attendance, leaves, salaries := [], [], [], [];
      this.lastUserId := lastUserId;
    }

    /** The Employee row linked to the signed-in account. */
    function Owner(session: Session): (r: Option<EmployeeRef>)
      reads this
      ensures r.Some? ==> session.SignedIn? && r.value < |employees| && employees[r.value].user == session.user
      ensures session.SignedIn? && r.None? ==> forall i :: 0 <= i < |employees| ==> employees[i].user != session.user
    {
      if session.Anonymous? then None else FindEmployeeByUser(employees, session.user)
    }

    // ----- Employee-scoped handlers -----

    /** The employee dashboard: today's row and this month's status counts. A staff
        account is sent to the admin dashboard; an account with no Employee row
        is signed out. */
    function EmployeeDashboard(session: Session, now: Now): (r: Response)
      reads this
      ensures session.Anonymous? ==> r == RedirectLogin
      ensures IsStaff(session) ==> r == RedirectAdminDashboard
      ensures session.SignedIn? && !session.isStaff && Owner(session).None? ==> r == LogoutToLogin
      ensures r.EmployeeDashboardPage? <==> session.SignedIn? && !session.isStaff && Owner(session).Some?
      ensures r.EmployeeDashboardPage? ==>
        var e := Owner(session).value;
        && r.employee == employees[e]
        && (r.attendanceToday.Some? <==> exists i :: 0 <= i < |attendance| && HasKey(attendance[i], e, now.today))
        && (r.attendanceToday.Some? ==> r.attendanceToday.value in attendance && HasKey(r.attendanceToday.value, e, now.today))
        && r.stats == StatusStats(attendance, Window(Some(e), now.monthStart, None))
        && r.stats.present + r.stats.late + r.stats.absent <= CountInWindow(attendance, Window(Some(e), now.monthStart, None))
    {
      match session
      case Anonymous => RedirectLogin
      case SignedIn(user, isStaff) =>
        if isStaff then RedirectAdminDashboard
        else match Owner(session)
          case None => LogoutToLogin
          case Some(e) =>
            var today := match FindAttendance(attendance, e, now.today)
              case None => None
              case Some(i) => Some(attendance[i]);
            EmployeeDashboardPage(employees[e], today, StatusStats(attendance, Window(Some(e), now.monthStart, None)))
    }

    /** Marking today's attendance. A valid submission updates the caller's row
        for today if there is one and adds it otherwise; only notes and location
        come from the form, the employee and date are forced to the caller and
        today. */
    method MarkAttendance(session: Session, now: Now, post: Option<AttendanceFormData>) returns (r: Response)
      requires Valid()
      modifies this
      ensures Valid()
      ensures employees == old(employees) && leaves == old(leaves) && salaries == old(salaries) && lastUserId == old(lastUserId)
      ensures session.Anonymous? ==> r == RedirectLogin
      ensures IsStaff(session) ==> r == RedirectAdminDashboard
      ensures session.SignedIn? && !session.isStaff && Owner(session).None? ==> r == RedirectHome
      ensures Owner(session).Some? && !IsStaff(session) && (post.None? || !AttendanceFormValid(post.value)) ==> r == ShowForm
      ensures r != RedirectEmployeeDashboard ==> attendance == old(attendance)
      ensures r == RedirectEmployeeDashboard <==>
        !IsStaff(session) && Owner(session).Some? && post.Some? && AttendanceFormValid(post.value)
      ensures r == RedirectEmployeeDashboard ==>
        var e := Owner(session).value;
        && attendance == UpsertAttendance(old(attendance), e, now.today, post.value)
        && FindAttendance(attendance, e, now.today).Some?
        && (forall j :: 0 <= j < |old(attendance)| && !HasKey(old(attendance)[j], e, now.today) ==> attendance[j] == old(attendance)[j])
    {
      if session.Anonymous? { return RedirectLogin; }
      if session.isStaff { return RedirectAdminDashboard; }
      var owner := Owner(session);
      if owner.None? { return RedirectHome; }
      var employee := owner.value;
      var found := FindAttendance(attendance, employee, now.today);
      if post.None? || !AttendanceFormValid(post.value) { return ShowForm; }
      var att := if found.Some? then attendance[found.value] else NewAttendance(employee, now.today);
      att := BindAttendance(att, post.value);
      att := att.(employee := employee);
      att := att.(date := now.today);
      ghost var before := attendance;
      if found.Some? {
        attendance := attendance[found.value := att];
      } else {
        attendance := attendance + [att];
      }
      UpsertAttendanceSpec(before, employee, now.today, post.value);
      r := RedirectEmployeeDashboard;
    }

    /** The caller's attendance history, newest first. A staff account goes to the
        admin dashboard; an account with no Employee row sees an empty history. */
    function AttendanceHistory(session: Session): (r: Response)
      reads this
      ensures session.Anonymous? ==> r == RedirectLogin
      ensures IsStaff(session) ==> r == RedirectAdminDashboard
      ensures session.SignedIn? && !session.isStaff ==> r.HistoryPage?
      ensures r.HistoryPage? ==> NewestFirst(r.history)
      ensures r.HistoryPage? && Owner(session).None? ==> r.history == []
      ensures r.HistoryPage? && Owner(session).Some? ==>
        forall a :: a in r.history <==> a in attendance && a.employee == Owner(session).value
      ensures r.HistoryPage? && Owner(session).Some? ==>
        forall a :: multiset(r.history)[a] == if a.employee == Owner(session).value then multiset(attendance)[a] else 0
    {
      if session.Anonymous? then RedirectLogin
      else if session.isStaff then RedirectAdminDashboard
      else match Owner(session)
        case None => HistoryPage([])
        case Some(e) => HistoryPage(History(attendance, e))
    }

    /** Submitting a leave request. A valid form adds one pending request of the
        caller with no approver; an account with no Employee row gets "not found". */
    method SubmitLeave(session: Session, post: Option<LeaveFormData>) returns (r: Response)
      requires Valid()
      modifies this
      ensures Valid()
      ensures employees == old(employees) && attendance == old(attendance) && salaries == old(salaries) && lastUserId == old(lastUserId)
      ensures session.Anonymous? ==> r == RedirectLogin
      ensures IsStaff(session) ==> r == RedirectAdminDashboard
      ensures session.SignedIn? && !session.isStaff && Owner(session).None? ==> r == NotFound
      ensures Owner(session).Some? && !IsStaff(session) && (post.None? || !LeaveFormValid(post.value)) ==> r == ShowForm
      ensures r != RedirectEmployeeDashboard ==> leaves == old(leaves)
      ensures r == RedirectEmployeeDashboard <==>
        !IsStaff(session) && Owner(session).Some? && post.Some? && LeaveFormValid(post.value)
      ensures r == RedirectEmployeeDashboard ==>
        && leaves == old(leaves) + [LeaveFromForm(Owner(session).value, post.value)]
        && leaves[|leaves| - 1].status == Pending && leaves[|leaves| - 1].approvedBy == None
        && DurationDays(leaves[|leaves| - 1]) >= 1
    {
      if session.Anonymous? { return RedirectLogin; }
      if session.isStaff { return RedirectAdminDashboard; }
      var owner := Owner(session);
      if owner.None? { return NotFound; }
      if post.None? || !LeaveFormValid(post.value) { return ShowForm; }
      ValidLeaveLastsADay(owner.value, post.value);
      var leave := LeaveFromForm(owner.value, post.value);
      leaves := leaves + [leave];
      r := RedirectEmployeeDashboard;
    }

    // ----- Staff-scoped handlers -----

    /** The admin dashboard's figures for today and for the current month. */
    function AdminDashboard(session: Session, now: Now): (r: Response)
      reads this
      ensures !IsStaff(session) ==> r == RedirectAdminLogin
      ensures IsStaff(session) ==> r.AdminDashboardPage?
      ensures r.AdminDashboardPage? ==>
        var s := r.summary;
        var todayOnly := Window(None, now.today, Some(now.today));
        && s.totalEmployees == CountActive(employees) <= |employees|
        && s.presentToday == CountStatus(attendance, todayOnly, Present)
        && s.absentToday == CountStatus(attendance, todayOnly, Absent)
        && s.pendingLeaves == CountPending(leaves)
        && s.totalSalary == MonthlySalaryTotal(salaries, now.monthStart)
        && s.attendanceStats == StatusStats(attendance, Window(None, now.monthStart, None))
        && s.presentToday + s.absentToday <= CountInWindow(attendance, todayOnly)
        && (s.pendingLeaves == 0 <==> forall i :: 0 <= i < |leaves| ==> leaves[i].status != Pending)
        && ((forall i :: 0 <= i < |salaries| ==> salaries[i].month != now.monthStart) ==> s.totalSalary == 0)
        && s.attendanceStats.present + s.attendanceStats.late + s.attendanceStats.absent
             <= CountInWindow(attendance, Window(None, now.monthStart, None))
    {
      if !IsStaff(session) then RedirectAdminLogin
      else
        var todayOnly := Window(None, now.today, Some(now.today));
        StatusCountsPartition(attendance, todayOnly);
        AdminDashboardPage(AdminSummary(
          CountActive(employees),
          CountStatus(attendance, todayOnly, Present),
          CountStatus(attendance, todayOnly, Absent),
          CountPending(leaves),
          MonthlySalaryTotal(salaries, now.monthStart),
          StatusStats(attendance, Window(None, now.monthStart, None))))
    }

    /** Provisioning an employee. After the registration form has created a new
        account, the Employee row linked to it gets the id generated from the
        account's number and the submitted or default profile values. */
    method AddEmployee(session: Session, now: Now, post: Option<ProfileInput>, userFormValid: bool) returns (r: Response)
      requires Valid()
      modifies this
      ensures Valid()
      ensures attendance == old(attendance) && leaves == old(leaves) && salaries == old(salaries)
      ensures !IsStaff(session) ==> r == RedirectAdminLogin
      ensures IsStaff(session) && (post.None? || !userFormValid || !ProfileFormValid(post.value)) ==> r == ShowForm
      ensures r != RedirectAdminDashboard ==> employees == old(employees) && lastUserId == old(lastUserId)
      ensures r == RedirectAdminDashboard <==> IsStaff(session) && post.Some? && userFormValid && ProfileFormValid(post.value)
      ensures r == RedirectAdminDashboard ==>
        && lastUserId == old(lastUserId) + 1
        && employees == old(employees) + [ProvisionedEmployee(lastUserId, post.value, now.today)]
        && forall i :: 0 <= i < |old(employees)| ==> old(employees)[i].employeeId != FormatEmployeeId(lastUserId)
    {
      if !IsStaff(session) { return RedirectAdminLogin; }
      if post.None? || !userFormValid || !ProfileFormValid(post.value) { return ShowForm; }
      var user := lastUserId + 1;
      lastUserId := user;
      var employee := ProvisionedEmployee(user, post.value, now.today);
      forall i | 0 <= i < |employees| ensures employees[i].employeeId != FormatEmployeeId(user) {
        FormatIsInjective(employees[i].user, user);
      }
      employees := employees + [employee];
      r := RedirectAdminDashboard;
    }

    /** All employees, most recently created first. */
    function EmployeeList(session: Session): (r: Response)
      reads this
      ensures !IsStaff(session) ==> r == RedirectAdminLogin
      ensures IsStaff(session) ==> r.EmployeeListPage? && |r.employees| == |employees|
      ensures IsStaff(session) ==> forall k :: 0 <= k < |employees| ==> r.employees[k] == employees[|employees| - 1 - k]
    {
      if !IsStaff(session) then RedirectAdminLogin else EmployeeListPage(Reversed(employees))
    }

    /** One employee by primary key, or "not found". */
    function EmployeeDetail(session: Session, id: nat): (r: Response)
      reads this
      ensures !IsStaff(session) ==> r == RedirectAdminLogin
      ensures IsStaff(session) && id < |employees| ==> r == EmployeeDetailPage(employees[id])
      ensures IsStaff(session) && id >= |employees| ==> r == NotFound
    {
      if !IsStaff(session) then RedirectAdminLogin
      else if id < |employees| then EmployeeDetailPage(employees[id])
      else NotFound
    }

    /** Deciding a leave request: the status follows the action, the approver is
        the acting account whatever the action and whatever the request's
        current status. */
    method ManageLeave(session: Session, leaveId: nat, action: string) returns (r: Response)
      requires Valid()
      modifies this
      ensures Valid()
      ensures employees == old(employees) && attendance == old(attendance) && salaries == old(salaries) && lastUserId == old(lastUserId)
      ensures !IsStaff(session) ==> r == RedirectAdminLogin && leaves == old(leaves)
      ensures IsStaff(session) && leaveId >= |old(leaves)| ==> r == NotFound && leaves == old(leaves)
      ensures IsStaff(session) && leaveId < |old(leaves)| ==>
        && r == RedirectAdminDashboard
        && leaves == old(leaves)[leaveId := ApplyDecision(old(leaves)[leaveId], action, session.user)]
        && leaves[leaveId].approvedBy == Some(session.user)
    {
      if !IsStaff(session) { return RedirectAdminLogin; }
      if leaveId >= |leaves| { return NotFound; }
      var leave := leaves[leaveId];
      if action == "approve" {
        leave := leave.(status := Approved);
      } else if action == "reject" {
        leave := leave.(status := Rejected);
      }
      leave := leave.(approvedBy := Some(session.user));
      leaves := leaves[leaveId := leave];
      r := RedirectAdminDashboard;
    }

    // ----- Salary.save -----

    /** Saving a salary row: the total is recomputed, then the row is inserted
        (no primary key yet) or written over the row it was loaded from. The
        store refuses a row whose employee does not exist or whose (employee,
        month) pair another row already holds. */
    method SaveSalary(pk: Option<nat>, s: Salary) returns (saved: Option<nat>)
      requires Valid()
      requires pk.Some? ==> pk.value < |salaries|
      modifies this
      ensures Valid()
      ensures employees == old(employees) && attendance == old(attendance) && leaves == old(leaves) && lastUserId == old(lastUserId)
      ensures saved.None? <==>
        s.employee >= |employees|
        || exists j :: 0 <= j < |old(salaries)| && Some(j) != pk
             && old(salaries)[j].employee == s.employee && old(salaries)[j].month == s.month
      ensures saved.None? ==> salaries == old(salaries)
      ensures saved.Some? && pk.Some? ==> saved == pk && salaries == old(salaries)[pk.value := WithTotal(s)]
      ensures saved.Some? && pk.None? ==> saved == Some(|old(salaries)|) && salaries == old(salaries) + [WithTotal(s)]
    {
      var row := s;
      row := row.(totalSalary := row.basicSalary + row.allowance + row.bonus - row.deduction);
      if row.employee >= |employees| { return None; }
      var clash := FindSalary(salaries, row.employee, row.month);
      if clash.Some? && clash != pk { return None; }
      if clash.Some? {
        forall j | 0 <= j < |salaries| && j != clash.value
          ensures salaries[j].employee != row.employee || salaries[j].month != row.month
        {
          var a, b := if j < clash.value then j else clash.value, if j < clash.value then clash.value else j;
          assert salaries[a].employee != salaries[b].employee || salaries[a].month != salaries[b].month;
        }
      }
      if pk.Some? {
        salaries := salaries[pk.value := row];
        saved := pk;
      } else {
        saved := Some(|salaries|);
        salaries := salaries + [row];
      }
    }
  }
}
