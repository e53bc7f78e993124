/** The application workflow: the three student submission forms, the
    student's own list, the faculty work-list and decision, and the admin's
    filtered view and counts. */
module Applications {
  import opened Wrappers
  import opened Types
  import opened Seqs

  /** Every listing shows the newest submission first. */
  ghost predicate NewestFirst(apps: seq<Application>)
  {
    forall i, j :: 0 <= i < j < |apps| ==> apps[i].submittedAt >= apps[j].submittedAt
  }

  /** The fields every submission form fills in the same way: a fresh
      `Pending` request carrying the student's id, name, roll number and
      department, with no decision recorded. */
  ghost predicate FreshRequest(a: Application, student: Student, id: string, now: int, reason: string, dates: string)
  {
    && a.id == id && a.studentId == student.id && a.studentName == student.name
    && a.studentRollNumber == student.rollNumber && a.department == Some(student.department)
    && a.status == Pending && a.reason == reason && a.dates == dates && a.submittedAt == now
    && a.remarks.None? && a.facultyActionById.None? && a.documentUrl.None? && a.numberOfDays.None?
  }

  function NewRequest(student: Student, id: string, now: int, kind: ApplicationType, reason: string, dates: string,
                      batch: Option<string>, academicYear: Option<string>, assignee: Option<string>): Application
  {
    Application(id, student.id, student.name, student.rollNumber, kind, Pending, reason, dates, now,
                None, None, None, academicYear, batch, Some(student.department), assignee, None)
  }

  /** On-Duty form: the request names the faculty member the student selected. */
  function SubmitOnDuty(apps: seq<Application>, student: Student, id: string, now: int,
                        reason: string, dates: string, facultyId: string): (r: seq<Application>)
    ensures |r| == |apps| + 1 && r[1..] == apps
    ensures FreshRequest(r[0], student, id, now, reason, dates)
    ensures r[0].kind == OnDuty && r[0].facultyAssignedId == Some(facultyId)
    ensures r[0].batch.None? && r[0].academicYear.None?
  {
    [NewRequest(student, id, now, OnDuty, reason, dates, None, None, Some(facultyId))] + apps
  }

  /** Leave form: the request copies the student's batch and academic year. */
  function SubmitLeave(apps: seq<Application>, student: Student, id: string, now: int,
                       purpose: string, dates: string): (r: seq<Application>)
    ensures |r| == |apps| + 1 && r[1..] == apps
    ensures FreshRequest(r[0], student, id, now, purpose, dates)
    ensures r[0].kind == Leave && r[0].facultyAssignedId.None?
    ensures r[0].batch == Some(student.batch) && r[0].academicYear == Some(student.academicYear)
  {
    [NewRequest(student, id, now, Leave, purpose, dates, Some(student.batch), Some(student.academicYear), None)] + apps
  }

  /** Bonafide form: the description is the reason and the issue date the dates. */
  function SubmitBonafide(apps: seq<Application>, student: Student, id: string, now: int,
                          description: string, issueDate: string): (r: seq<Application>)
    ensures |r| == |apps| + 1 && r[1..] == apps
    ensures FreshRequest(r[0], student, id, now, description, issueDate)
    ensures r[0].kind == Bonafide && r[0].facultyAssignedId.None?
    ensures r[0].batch.None? && r[0].academicYear.None?
  {
    [NewRequest(student, id, now, Bonafide, description, issueDate, None, None, None)] + apps
  }

  /** The applications a student submitted, in store order. */
  function OwnApplications(apps: seq<Application>, studentId: string): (r: seq<Application>)
    ensures forall a :: a in r <==> a in apps && a.studentId == studentId
    ensures forall a :: multiset(r)[a] == if a.studentId == studentId then multiset(apps)[a] else 0
  {
    Filter(apps, (a: Application) => a.studentId == studentId)
  }

  /** `studentApps`: the student's own applications, newest first. */
  function StudentApps(apps: seq<Application>, studentId: string): (r: seq<Application>)
    ensures forall a :: a in r <==> a in apps && a.studentId == studentId
    ensures forall a :: multiset(r)[a] == if a.studentId == studentId then multiset(apps)[a] else 0
    ensures NewestFirst(r)
  {
    var r := SortDesc(OwnApplications(apps, studentId), SubmittedAt);
    assert forall a :: a in r <==> a in multiset(r);
    r
  }

  /** Applications submitted at the same moment keep their store order. */
  lemma StudentAppsStable(apps: seq<Application>, studentId: string, t: int)
    ensures KeyRun(StudentApps(apps, studentId), SubmittedAt, t)
         == KeyRun(OwnApplications(apps, studentId), SubmittedAt, t)
  {
    SortDescStable(OwnApplications(apps, studentId), SubmittedAt, t);
  }

  /** A request appears on a faculty member's work-list while it is pending and
      comes from their department or was addressed to them. */
  predicate AwaitsFaculty(a: Application, f: Faculty)
  {
    a.status == Pending && (a.department == Some(f.department) || a.facultyAssignedId == Some(f.id))
  }

  /** `pendingApps`: the faculty work-list, in store order. */
  function PendingFor(apps: seq<Application>, f: Faculty): (r: seq<Application>)
    ensures forall a :: a in r <==> a in apps && AwaitsFaculty(a, f)
    ensures forall a :: multiset(r)[a] == if AwaitsFaculty(a, f) then multiset(apps)[a] else 0
    ensures IsSubseq(r, apps)
  {
    var awaits := (a: Application) => AwaitsFaculty(a, f);
    FilterKeepsOrder(apps, awaits);
    Filter(apps, awaits)
  }

  /** `after` is `before` with the decision recorded: status, remarks and the
      acting faculty id set, every other field as it was. */
  ghost predicate Decided(after: Application, before: Application, status: ApplicationStatus,
                          remarks: string, facultyId: string)
  {
    && after.status == status && after.remarks == Some(remarks) && after.facultyActionById == Some(facultyId)
    && after.(status := before.status, remarks := before.remarks, facultyActionById := before.facultyActionById) == before
  }

  /** `handleApproval`: records the decision on every application with the
      given id. It does not look at the current status; only the work-list
      restricts which applications a faculty member is offered. */
  function Decide(apps: seq<Application>, appId: string, status: ApplicationStatus,
                  remarks: string, facultyId: string): (r: seq<Application>)
    requires status == Approved || status == Rejected
    ensures |r| == |apps|
    ensures forall i :: 0 <= i < |apps| && apps[i].id == appId ==> Decided(r[i], apps[i], status, remarks, facultyId)
    ensures forall i :: 0 <= i < |apps| && apps[i].id != appId ==> r[i] == apps[i]
  {
    MapWhere(apps, (a: Application) => a.id == appId,
             (a: Application) => a.(status := status, remarks := Some(remarks), facultyActionById := Some(facultyId)))
  }

  /** A decided application leaves every faculty work-list. */
  lemma DecideLeavesWorkList(apps: seq<Application>, appId: string, status: ApplicationStatus,
                             remarks: string, facultyId: string, f: Faculty)
    requires status == Approved || status == Rejected
    ensures forall a :: a in PendingFor(Decide(apps, appId, status, remarks, facultyId), f) ==> a.id != appId
  {
  }

  /** Deciding one application leaves every other request on the work-list. */
  lemma DecideKeepsOtherRequests(apps: seq<Application>, appId: string, status: ApplicationStatus,
                                 remarks: string, facultyId: string, f: Faculty, a: Application)
    requires status == Approved || status == Rejected
    requires a in PendingFor(apps, f) && a.id != appId
    ensures a in PendingFor(Decide(apps, appId, status, remarks, facultyId), f)
  {
    var r := Decide(apps, appId, status, remarks, facultyId);
    var i :| 0 <= i < |apps| && apps[i] == a;
    assert r[i] == a;
  }

  /** Nothing stops a second decision: it overwrites the first one entirely. */
  lemma {:induction false} SecondDecisionOverwrites(apps: seq<Application>, appId: string,
      s1: ApplicationStatus, r1: string, f1: string, s2: ApplicationStatus, r2: string, f2: string)
    requires s1 == Approved || s1 == Rejected
    requires s2 == Approved || s2 == Rejected
    ensures Decide(Decide(apps, appId, s1, r1, f1), appId, s2, r2, f2) == Decide(apps, appId, s2, r2, f2)
  {
    var once := Decide(apps, appId, s1, r1, f1);
    var twice := Decide(once, appId, s2, r2, f2);
    var direct := Decide(apps, appId, s2, r2, f2);
    forall i | 0 <= i < |apps| ensures twice[i] == direct[i] {
      if apps[i].id == appId {
        assert once[i].id == appId;
        assert twice[i].(status := apps[i].status, remarks := apps[i].remarks,
                         facultyActionById := apps[i].facultyActionById) == apps[i];
      }
    }
  }

  /** The admin's three drop-down filters; an empty filter imposes nothing. */
  predicate MatchesFilters(a: Application, department: string, batch: string, status: string)
  {
    && (department == "" || a.department == Some(department))
    && (batch == "" || a.batch == Some(batch))
    && (status == "" || StatusName(a.status) == status)
  }

  /** The three filter steps of `filteredApps`, and the combined filter. */
  function DepartmentFilter(department: string): Application -> bool
  {
    (a: Application) => department == "" || a.department == Some(department)
  }

  function BatchFilter(batch: string): Application -> bool
  {
    (a: Application) => batch == "" || a.batch == Some(batch)
  }

  function StatusFilter(status: string): Application -> bool
  {
    (a: Application) => status == "" || StatusName(a.status) == status
  }

  function AllFilters(department: string, batch: string, status: string): Application -> bool
  {
    (a: Application) => MatchesFilters(a, department, batch, status)
  }

  /** `filteredApps`: the applications that pass every non-empty filter, newest first. */
  function FilteredApps(apps: seq<Application>, department: string, batch: string, status: string): (r: seq<Application>)
    ensures forall a :: a in r <==> a in apps && MatchesFilters(a, department, batch, status)
    ensures forall a :: multiset(r)[a] == if MatchesFilters(a, department, batch, status) then multiset(apps)[a] else 0
    ensures NewestFirst(r)
  {
    var pd := DepartmentFilter(department);
    var pb := BatchFilter(batch);
    var ps := StatusFilter(status);
    var byDepartment := Filter(apps, pd);
    var byBatch := Filter(byDepartment, pb);
    var byStatus := Filter(byBatch, ps);
    var r := SortDesc(byStatus, SubmittedAt);
    forall a ensures multiset(r)[a] == if MatchesFilters(a, department, batch, status) then multiset(apps)[a] else 0 {
      assert multiset(r)[a] == multiset(byStatus)[a];
      assert multiset(byStatus)[a] == if ps(a) then multiset(byBatch)[a] else 0;
      assert multiset(byBatch)[a] == if pb(a) then multiset(byDepartment)[a] else 0;
      assert multiset(byDepartment)[a] == if pd(a) then multiset(apps)[a] else 0;
      assert MatchesFilters(a, department, batch, status) == (pd(a) && pb(a) && ps(a));
    }
    forall a ensures a in r <==> a in apps && MatchesFilters(a, department, batch, status) {
      assert a in r <==> a in multiset(r);
      assert a in apps <==> a in multiset(apps);
    }
    r
  }

  /** Applications submitted at the same moment appear in store order: the
      admin list's run of any one timestamp is that of filtering the store. */
  lemma FilteredAppsStable(apps: seq<Application>, department: string, batch: string, status: string, t: int)
    ensures KeyRun(FilteredApps(apps, department, batch, status), SubmittedAt, t)
         == KeyRun(Filter(apps, AllFilters(department, batch, status)), SubmittedAt, t)
  {
    var pd := DepartmentFilter(department);
    var pb := BatchFilter(batch);
    var ps := StatusFilter(status);
    var all := AllFilters(department, batch, status);
    var pdb := (a: Application) => pd(a) && pb(a);
    var byStatus := Filter(Filter(Filter(apps, pd), pb), ps);
    assert byStatus == Filter(apps, all) by {
      FilterFilter(apps, pd, pb, pdb);
      forall a ensures all(a) == (pdb(a) && ps(a)) {
        assert MatchesFilters(a, department, batch, status) == (pd(a) && pb(a) && ps(a));
      }
      FilterFilter(apps, pdb, ps, all);
    }
    assert FilteredApps(apps, department, batch, status) == SortDesc(byStatus, SubmittedAt);
    SortDescStable(byStatus, SubmittedAt, t);
  }

  /** With no filter chosen the admin sees every application. */
  lemma NoFilterShowsAll(apps: seq<Application>)
    ensures multiset(FilteredApps(apps, "", "", "")) == multiset(apps)
  {
    var r := FilteredApps(apps, "", "", "");
    forall a ensures multiset(r)[a] == multiset(apps)[a] {
    }
  }

  /** A status filter keeps exactly the applications with that status. */
  lemma StatusFilterSelectsStatus(apps: seq<Application>, st: ApplicationStatus, a: Application)
    ensures a in FilteredApps(apps, "", "", StatusName(st)) <==> a in apps && a.status == st
  {
    StatusNameInjective(a.status, st);
  }

  predicate IsPending(a: Application) { a.status == Pending }
  predicate IsApproved(a: Application) { a.status == Approved }
  predicate IsRejected(a: Application) { a.status == Rejected }

  datatype AppSummary = AppSummary(total: nat, pending: nat, approved: nat, rejected: nat)

  /** The reports page's application counts (a single reduce over the store). */
  function SummarizeApps(apps: seq<Application>): (r: AppSummary)
    ensures r.total == |apps|
    ensures r.pending == |Filter(apps, IsPending)|
    ensures r.approved == |Filter(apps, IsApproved)|
    ensures r.rejected == |Filter(apps, IsRejected)|
    ensures r.pending + r.approved + r.rejected == r.total
    decreases |apps|
  {
    if |apps| == 0 then AppSummary(0, 0, 0, 0)
    else
      var acc := SummarizeApps(apps[1..]);
      var a := apps[0];
      FilterCons(apps, IsPending);
      FilterCons(apps, IsApproved);
      FilterCons(apps, IsRejected);
      AppSummary(acc.total + 1,
                 acc.pending + (if a.status == Pending then 1 else 0),
                 acc.approved + (if a.status == Approved then 1 else 0),
                 acc.rejected + (if a.status == Rejected then 1 else 0))
  }
}
