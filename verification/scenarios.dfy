/** Properties that tie the modules together: registration followed by
    login, the admin's add and delete followed by login, the shadowing of
    duplicate emails, a password change followed by login, login followed by
    the route gate, a submission followed by the listings, and the seeded
    accounts. */
module Scenarios {
  import opened Wrappers
  import opened Types
  import opened Seqs
  import opened Fees
  import opened Auth
  import opened Routes
  import opened Accounts
  import opened Applications

  /** A student who has just signed up can log in with the email and
      password of the form, and the session holds the new record. */
  lemma {:induction false} SignUpThenLogin(students: seq<Student>, faculty: seq<Faculty>,
                                           creds: Credentials, facultyCreds: Credentials,
                                           session: Session, form: StudentForm, newId: string)
    requires SignUpStudent(students, creds, form, newId).Success?
    ensures var (after, credsAfter) := SignUpStudent(students, creds, form, newId).value;
            Login(after, faculty, credsAfter, facultyCreds, session, form.email, form.password, StudentRole)
              == (true, Some((StudentUser(after[|students|]), StudentRole)))
  {
    var (after, credsAfter) := SignUpStudent(students, creds, form, newId).value;
    var i := |students|;
    forall j | 0 <= j < i ensures after[j].email != form.email {
      assert after[j] == students[j];
      assert students[j] in students;
    }
    assert FirstStudentWithEmail(after, form.email, i);
    var u := StudentUser(after[i]);
    assert LoginAccepts(after, faculty, credsAfter, facultyCreds, form.email, form.password, StudentRole, u);
    var r := Login(after, faculty, credsAfter, facultyCreds, session, form.email, form.password, StudentRole);
    LoginAcceptsOneUser(after, faculty, credsAfter, facultyCreds, form.email, form.password, StudentRole, u, r.1.value.0);
  }

  /** The same for a faculty member who has just signed up. */
  lemma {:induction false} FacultySignUpThenLogin(students: seq<Student>, faculty: seq<Faculty>,
                                                  studentCreds: Credentials, creds: Credentials,
                                                  session: Session, form: FacultyForm, newId: string)
    requires SignUpFaculty(faculty, creds, form, newId).Success?
    ensures var (after, credsAfter) := SignUpFaculty(faculty, creds, form, newId).value;
            Login(students, after, studentCreds, credsAfter, session, form.email, form.password, FacultyRole)
              == (true, Some((FacultyUser(after[|faculty|]), FacultyRole)))
  {
    var (after, credsAfter) := SignUpFaculty(faculty, creds, form, newId).value;
    var i := |faculty|;
    forall j | 0 <= j < i ensures after[j].email != form.email {
      assert after[j] == faculty[j];
      assert faculty[j] in faculty;
    }
    assert FirstFacultyWithEmail(after, form.email, i);
    var u := FacultyUser(after[i]);
    assert LoginAccepts(students, after, studentCreds, credsAfter, form.email, form.password, FacultyRole, u);
    var r := Login(students, after, studentCreds, credsAfter, session, form.email, form.password, FacultyRole);
    LoginAcceptsOneUser(students, after, studentCreds, credsAfter, form.email, form.password, FacultyRole, u, r.1.value.0);
  }

  /** A faculty member the admin adds with an email no other faculty record
      uses can log in with the password given, and the session holds the
      new record. */
  lemma {:induction false} AddedFacultyLogsIn(students: seq<Student>, faculty: seq<Faculty>,
                                              studentCreds: Credentials, creds: Credentials, session: Session,
                                              form: NewFacultyForm, newId: string, password: string)
    requires forall f :: f in faculty ==> f.email != form.email
    ensures var (after, credsAfter) := AddFaculty(faculty, creds, form, newId, password);
            Login(students, after, studentCreds, credsAfter, session, form.email, password, FacultyRole)
              == (true, Some((FacultyUser(after[|faculty|]), FacultyRole)))
  {
    var (after, credsAfter) := AddFaculty(faculty, creds, form, newId, password);
    var i := |faculty|;
    forall j | 0 <= j < i ensures after[j].email != form.email {
      assert after[j] == faculty[j];
      assert faculty[j] in faculty;
    }
    assert FirstFacultyWithEmail(after, form.email, i);
    var u := FacultyUser(after[i]);
    assert LoginAccepts(students, after, studentCreds, credsAfter, form.email, password, FacultyRole, u);
    var r := Login(students, after, studentCreds, credsAfter, session, form.email, password, FacultyRole);
    LoginAcceptsOneUser(students, after, studentCreds, credsAfter, form.email, password, FacultyRole, u, r.1.value.0);
  }

  /** After the admin deletes a student, no student login yields a session
      for the deleted id, whatever email and password are tried. */
  lemma DeletedStudentCannotLogIn(students: seq<Student>, faculty: seq<Faculty>,
                                  creds: Credentials, facultyCreds: Credentials, id: string,
                                  session: Session, email: string, pass: string)
    ensures var (after, credsAfter) := DeleteStudent(students, creds, id);
            var r := Login(after, faculty, credsAfter, facultyCreds, session, email, pass, StudentRole);
            r.0 ==> r.1.value.0.Id() != id
  {
    var (after, credsAfter) := DeleteStudent(students, creds, id);
    var r := Login(after, faculty, credsAfter, facultyCreds, session, email, pass, StudentRole);
    if r.0 {
      var i :| FirstStudentWithEmail(after, email, i) && r.1.value.0 == StudentUser(after[i]);
      assert after[i] in after;
    }
  }

  /** After the admin deletes a faculty member, no faculty login yields a
      session for the deleted id. */
  lemma DeletedFacultyCannotLogIn(students: seq<Student>, faculty: seq<Faculty>,
                                  studentCreds: Credentials, creds: Credentials, id: string,
                                  session: Session, email: string, pass: string)
    ensures var (after, credsAfter) := DeleteFaculty(faculty, creds, id);
            var r := Login(students, after, studentCreds, credsAfter, session, email, pass, FacultyRole);
            r.0 ==> r.1.value.0.Id() != id
  {
    var (after, credsAfter) := DeleteFaculty(faculty, creds, id);
    var r := Login(students, after, studentCreds, credsAfter, session, email, pass, FacultyRole);
    if r.0 {
      var i :| FirstFacultyWithEmail(after, email, i) && r.1.value.0 == FacultyUser(after[i]);
      assert after[i] in after;
    }
  }

  /** Appending a record does not change which record is the first with an
      email that was already in use. */
  lemma FirstWithEmailAfterAppend(students: seq<Student>, x: Student, e: string, i: int)
    requires exists s :: s in students && s.email == e
    ensures FirstStudentWithEmail(students + [x], e, i) <==> FirstStudentWithEmail(students, e, i)
  {
    var after := students + [x];
    if FirstStudentWithEmail(after, e, i) {
      var s0 :| s0 in students && s0.email == e;
      var k := PositionOf(s0, students);
      assert after[k] == s0;
      assert after[i] == students[i];
      forall j | 0 <= j < i ensures students[j].email != e {
        assert after[j] == students[j];
      }
    }
    if FirstStudentWithEmail(students, e, i) {
      forall j | 0 <= j < i ensures after[j].email != e {
        assert after[j] == students[j];
      }
    }
  }

  /** The admin's add form does not check emails; a student added with an
      email already in use cannot log in with it while an earlier record with
      that email remains, because login only consults the earlier record:
      right after the addition every login attempt with that email has the
      outcome it had before. */
  lemma {:induction false} AddedDuplicateIsShadowed(students: seq<Student>, faculty: seq<Faculty>,
                                                    creds: Credentials, facultyCreds: Credentials,
                                                    session: Session, form: NewStudentForm,
                                                    newId: string, password: string, pass: string)
    requires exists s :: s in students && s.email == form.email
    requires forall s :: s in students ==> s.id != newId
    ensures var (after, credsAfter) := AddStudent(students, creds, form, newId, password);
            Login(after, faculty, credsAfter, facultyCreds, session, form.email, pass, StudentRole)
              == Login(students, faculty, creds, facultyCreds, session, form.email, pass, StudentRole)
  {
    var (after, credsAfter) := AddStudent(students, creds, form, newId, password);
    var e := form.email;
    assert after == students + [after[|students|]];
    forall u ensures LoginAccepts(after, faculty, credsAfter, facultyCreds, e, pass, StudentRole, u)
                 <==> LoginAccepts(students, faculty, creds, facultyCreds, e, pass, StudentRole, u)
    {
      if LoginAccepts(after, faculty, credsAfter, facultyCreds, e, pass, StudentRole, u) {
        var i :| FirstStudentWithEmail(after, e, i) && u == StudentUser(after[i])
                 && PasswordMatches(credsAfter, after[i].id, pass);
        FirstWithEmailAfterAppend(students, after[|students|], e, i);
        assert students[i] in students;
        assert after[i] == students[i];
      }
      if LoginAccepts(students, faculty, creds, facultyCreds, e, pass, StudentRole, u) {
        var i :| FirstStudentWithEmail(students, e, i) && u == StudentUser(students[i])
                 && PasswordMatches(creds, students[i].id, pass);
        FirstWithEmailAfterAppend(students, after[|students|], e, i);
        assert students[i] in students;
        assert after[i] == students[i];
      }
    }
    var r1 := Login(after, faculty, credsAfter, facultyCreds, session, e, pass, StudentRole);
    var r2 := Login(students, faculty, creds, facultyCreds, session, e, pass, StudentRole);
    if r1.0 {
      LoginAcceptsOneUser(students, faculty, creds, facultyCreds, e, pass, StudentRole, r1.1.value.0, r2.1.value.0);
    }
  }

  /** After a successful password change the student logs in with the new
      password, and (when it differs) no longer with the old one. */
  lemma ChangePasswordThenLogin(students: seq<Student>, faculty: seq<Faculty>,
                                creds: Credentials, facultyCreds: Credentials, session: Session,
                                i: int, oldPass: string, newPass: string)
    requires 0 <= i < |students| && FirstStudentWithEmail(students, students[i].email, i)
    requires ChangePassword(Some((StudentUser(students[i]), StudentRole)), creds, oldPass, newPass).0
    ensures var credsAfter := ChangePassword(Some((StudentUser(students[i]), StudentRole)), creds, oldPass, newPass).1;
            && Login(students, faculty, credsAfter, facultyCreds, session, students[i].email, newPass, StudentRole)
                 == (true, Some((StudentUser(students[i]), StudentRole)))
            && (oldPass != newPass ==>
                  Login(students, faculty, credsAfter, facultyCreds, session, students[i].email, oldPass, StudentRole)
                    == (false, session))
  {
    var st := students[i];
    var credsAfter := ChangePassword(Some((StudentUser(st), StudentRole)), creds, oldPass, newPass).1;
    var u := StudentUser(st);
    assert LoginAccepts(students, faculty, credsAfter, facultyCreds, st.email, newPass, StudentRole, u);
    var r := Login(students, faculty, credsAfter, facultyCreds, session, st.email, newPass, StudentRole);
    LoginAcceptsOneUser(students, faculty, credsAfter, facultyCreds, st.email, newPass, StudentRole, u, r.1.value.0);
  }

  /** A successful login opens exactly the routes of the role logged in as;
      every other role's pages redirect to that role's login page. */
  lemma LoginThenGate(students: seq<Student>, faculty: seq<Faculty>,
                      studentCreds: Credentials, facultyCreds: Credentials, session: Session,
                      email: string, pass: string, role: Role, other: Role)
    requires Login(students, faculty, studentCreds, facultyCreds, session, email, pass, role).0
    ensures var s := Login(students, faculty, studentCreds, facultyCreds, session, email, pass, role).1;
            PrivateRoute(s, other) == if other == role then Allow else Redirect(LoginPath(other))
  {
  }

  /** A submitted leave request is on the student's own list at once, and on
      a faculty member's work-list exactly when that member is of the
      student's department. */
  lemma SubmittedLeaveIsListed(apps: seq<Application>, student: Student, id: string, now: int,
                               purpose: string, dates: string, f: Faculty)
    ensures var after := SubmitLeave(apps, student, id, now, purpose, dates);
            && after[0] in StudentApps(after, student.id)
            && (after[0] in PendingFor(after, f) <==> f.department == student.department)
  {
  }

  /** A new On-Duty request is on the student's list, and it is on a faculty
      member's work-list exactly when that member is of the student's
      department or is the one the request is addressed to. */
  lemma SubmittedOnDutyIsListed(apps: seq<Application>, student: Student, id: string, now: int,
                                reason: string, dates: string, facultyId: string, f: Faculty)
    ensures var after := SubmitOnDuty(apps, student, id, now, reason, dates, facultyId);
            && after[0] in StudentApps(after, student.id)
            && (after[0] in PendingFor(after, f) <==> f.department == student.department || f.id == facultyId)
  {
  }

  /** A new Bonafide request is on the student's list, and on a faculty
      member's work-list exactly when that member is of the student's
      department. */
  lemma SubmittedBonafideIsListed(apps: seq<Application>, student: Student, id: string, now: int,
                                  description: string, issueDate: string, f: Faculty)
    ensures var after := SubmitBonafide(apps, student, id, now, description, issueDate);
            && after[0] in StudentApps(after, student.id)
            && (after[0] in PendingFor(after, f) <==> f.department == student.department)
  {
  }

  /** Once a faculty member decides a request, its student sees the decision
      in their own list. */
  lemma DecisionVisibleToStudent(apps: seq<Application>, i: int, status: ApplicationStatus,
                                 remarks: string, facultyId: string)
    requires 0 <= i < |apps| && (status == Approved || status == Rejected)
    ensures var after := Decide(apps, apps[i].id, status, remarks, facultyId);
            after[i] in StudentApps(after, apps[i].studentId) && after[i].status == status
  {
  }

  /** The first seeded student record and the seeded credentials. */
  const SeedStudent: Student := Student(
    "s1", "MKCE Student", "21CS001", "CSE", "123-456-7890", "123 College Road, Karur, Tamil Nadu", 8.5,
    "mkce@2025", Some(Placement), "2021-2025", "4th Year", Hosteller,
    [ FeeItem(College, 95000, Unpaid, None, None, None),
      FeeItem(Hostel, 25000, Unpaid, None, None, None),
      FeeItem(Mess, 15000, Paid, Some("2024-07-01"), Some("TXN12345"), Some(UpiPayment)),
      FeeItem(Exam, 2000, Unpaid, None, None, None),
      FeeItem(Association, 500, Unpaid, None, None, None) ])
  const SeedFaculty: Faculty := Faculty("f1", "MKCE Faculty", "CSE", "faculty@mkce.com", "F001")
  const SeedStudentCreds: Credentials := map["s1" := "mkce", "s2" := "password123", "s3" := "password456"]
  const SeedFacultyCreds: Credentials := map["f1" := "fac.mkce", "f2" := "password123"]

  /** The demonstration accounts work: the first seeded student (s1), the
      first seeded faculty member (f1) and the administrator log in with their
      seeded passwords, and a wrong password is refused. The other seeded
      records are not part of these lists. */
  lemma SeededAccountsLogIn()
    ensures Login([SeedStudent], [SeedFaculty], SeedStudentCreds, SeedFacultyCreds, None,
                  "mkce@2025", "mkce", StudentRole) == (true, Some((StudentUser(SeedStudent), StudentRole)))
    ensures Login([SeedStudent], [SeedFaculty], SeedStudentCreds, SeedFacultyCreds, None,
                  "faculty@mkce.com", "fac.mkce", FacultyRole) == (true, Some((FacultyUser(SeedFaculty), FacultyRole)))
    ensures Login([SeedStudent], [SeedFaculty], SeedStudentCreds, SeedFacultyCreds, None,
                  "admin@mkce.com", "admin.mkce", AdminRole) == (true, Some((AdminUser(AdminAccount), AdminRole)))
    ensures Login([SeedStudent], [SeedFaculty], SeedStudentCreds, SeedFacultyCreds, None,
                  "mkce@2025", "password123", StudentRole) == (false, None)
  {
    var ss := [SeedStudent];
    var fs := [SeedFaculty];
    assert FirstStudentWithEmail(ss, "mkce@2025", 0);
    assert FirstFacultyWithEmail(fs, "faculty@mkce.com", 0);
    var r1 := Login(ss, fs, SeedStudentCreds, SeedFacultyCreds, None, "mkce@2025", "mkce", StudentRole);
    assert LoginAccepts(ss, fs, SeedStudentCreds, SeedFacultyCreds, "mkce@2025", "mkce", StudentRole, StudentUser(SeedStudent));
    LoginAcceptsOneUser(ss, fs, SeedStudentCreds, SeedFacultyCreds, "mkce@2025", "mkce", StudentRole,
                        StudentUser(SeedStudent), r1.1.value.0);
    var r2 := Login(ss, fs, SeedStudentCreds, SeedFacultyCreds, None, "faculty@mkce.com", "fac.mkce", FacultyRole);
    assert LoginAccepts(ss, fs, SeedStudentCreds, SeedFacultyCreds, "faculty@mkce.com", "fac.mkce", FacultyRole, FacultyUser(SeedFaculty));
    LoginAcceptsOneUser(ss, fs, SeedStudentCreds, SeedFacultyCreds, "faculty@mkce.com", "fac.mkce", FacultyRole,
                        FacultyUser(SeedFaculty), r2.1.value.0);
    assert LoginAccepts(ss, fs, SeedStudentCreds, SeedFacultyCreds, "admin@mkce.com", "admin.mkce", AdminRole, AdminUser(AdminAccount));
  }
}
