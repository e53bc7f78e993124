/** Account management: student and faculty self-registration, the admin's
    add and delete of users with their credential entries, and the student
    password-change form. */
module Accounts {
  import opened Wrappers
  import opened Types
  import opened Seqs
  import opened Fees
  import opened Auth

  /** `after` is `before` with one entry `key ↦ value` added (or replaced). */
  ghost predicate GainsEntry(after: Credentials, before: Credentials, key: string, value: string)
  {
    && after.Keys == before.Keys + {key}
    && after[key] == value
    && forall k :: k in before && k != key ==> after[k] == before[k]
  }

  /** `after` is `before` without the entry for `key`. */
  ghost predicate LosesEntry(after: Credentials, before: Credentials, key: string)
  {
    && after.Keys == before.Keys - {key}
    && forall k :: k in after ==> after[k] == before[k]
  }

  datatype SignUpError = PasswordMismatch | DuplicateEmail

  /** The student sign-up form. */
  datatype StudentForm = StudentForm(
    name: string, rollNumber: string, department: string, batch: string, academicYear: string,
    studentType: StudentType, address: string, email: string, password: string, confirmPassword: string)

  /** The record self-registration creates: the form's fields, no contact,
      CGPA 0, no career path and the default fee list. */
  ghost predicate RegisteredFrom(s: Student, form: StudentForm, id: string)
  {
    && s.id == id && s.name == form.name && s.rollNumber == form.rollNumber
    && s.department == form.department && s.batch == form.batch && s.academicYear == form.academicYear
    && s.studentType == form.studentType && s.address == form.address && s.email == form.email
    && s.cgpa == 0.0 && s.contact == "" && s.careerPath.None? && s.fees == DefaultFees()
  }

  /** `StudentSignUpPage.handleSubmit`: the password confirmation is checked
      first, then the email against every student; on success one student is
      appended and their password stored under the new id. */
  function SignUpStudent(students: seq<Student>, creds: Credentials, form: StudentForm, newId: string)
    : (r: Result<(seq<Student>, Credentials), SignUpError>)
    ensures form.password != form.confirmPassword ==> r == Failure(PasswordMismatch)
    ensures form.password == form.confirmPassword && (exists s :: s in students && s.email == form.email)
            ==> r == Failure(DuplicateEmail)
    ensures r.Success? <==> form.password == form.confirmPassword && forall s :: s in students ==> s.email != form.email
    ensures r.Success? ==>
      && |r.value.0| == |students| + 1 && r.value.0[..|students|] == students
      && RegisteredFrom(r.value.0[|students|], form, newId)
      && GainsEntry(r.value.1, creds, newId, form.password)
  {
    if form.password != form.confirmPassword then Failure(PasswordMismatch)
    else if exists s :: s in students && s.email == form.email then Failure(DuplicateEmail)
    else
      var student := Student(newId, form.name, form.rollNumber, form.department, "", form.address, 0.0,
                             form.email, None, form.batch, form.academicYear, form.studentType, DefaultFees());
      Success((students + [student], creds[newId := form.password]))
  }

  /** The faculty sign-up form. */
  datatype FacultyForm = FacultyForm(
    name: string, department: string, facultyId: string, email: string, password: string, confirmPassword: string)

  /** `FacultySignUpPage.handleSubmit`: the same two checks, then one faculty
      record appended with the form's fields. */
  function SignUpFaculty(faculty: seq<Faculty>, creds: Credentials, form: FacultyForm, newId: string)
    : (r: Result<(seq<Faculty>, Credentials), SignUpError>)
    ensures form.password != form.confirmPassword ==> r == Failure(PasswordMismatch)
    ensures form.password == form.confirmPassword && (exists f :: f in faculty && f.email == form.email)
            ==> r == Failure(DuplicateEmail)
    ensures r.Success? <==> form.password == form.confirmPassword && forall f :: f in faculty ==> f.email != form.email
    ensures r.Success? ==>
      && |r.value.0| == |faculty| + 1 && r.value.0[..|faculty|] == faculty
      && r.value.0[|faculty|] == Faculty(newId, form.name, form.department, form.email, form.facultyId)
      && GainsEntry(r.value.1, creds, newId, form.password)
  {
    if form.password != form.confirmPassword then Failure(PasswordMismatch)
    else if exists f :: f in faculty && f.email == form.email then Failure(DuplicateEmail)
    else
      Success((faculty + [Faculty(newId, form.name, form.department, form.email, form.facultyId)],
               creds[newId := form.password]))
  }

  /** The admin's add-student form. */
  datatype NewStudentForm = NewStudentForm(
    name: string, rollNumber: string, department: string, batch: string, academicYear: string,
    email: string, contact: string, studentType: StudentType, address: string)

  /** `AddUserModal.handleSubmit` for a student: appended without any check
      (not even for a duplicate email), with CGPA 0 and the default fees. */
  function AddStudent(students: seq<Student>, creds: Credentials, form: NewStudentForm, newId: string, password: string)
    : (r: (seq<Student>, Credentials))
    ensures |r.0| == |students| + 1 && r.0[..|students|] == students
    ensures var s := r.0[|students|];
      && s.id == newId && s.name == form.name && s.rollNumber == form.rollNumber
      && s.department == form.department && s.batch == form.batch && s.academicYear == form.academicYear
      && s.email == form.email && s.contact == form.contact && s.studentType == form.studentType
      && s.address == form.address && s.cgpa == 0.0 && s.careerPath.None? && s.fees == DefaultFees()
    ensures GainsEntry(r.1, creds, newId, password)
  {
    var student := Student(newId, form.name, form.rollNumber, form.department, form.contact, form.address, 0.0,
                           form.email, None, form.batch, form.academicYear, form.studentType, DefaultFees());
    (students + [student], creds[newId := password])
  }

  /** The admin's add-faculty form. */
  datatype NewFacultyForm = NewFacultyForm(name: string, facultyId: string, department: string, email: string)

  /** `AddUserModal.handleSubmit` for a faculty member. */
  function AddFaculty(faculty: seq<Faculty>, creds: Credentials, form: NewFacultyForm, newId: string, password: string)
    : (r: (seq<Faculty>, Credentials))
    ensures |r.0| == |faculty| + 1 && r.0[..|faculty|] == faculty
    ensures r.0[|faculty|] == Faculty(newId, form.name, form.department, form.email, form.facultyId)
    ensures GainsEntry(r.1, creds, newId, password)
  {
    (faculty + [Faculty(newId, form.name, form.department, form.email, form.facultyId)], creds[newId := password])
  }

  /** `handleDeleteStudent`: every student with the id and exactly that
      credential entry go; everything else stays, in order. */
  function DeleteStudent(students: seq<Student>, creds: Credentials, id: string): (r: (seq<Student>, Credentials))
    ensures forall s :: s in r.0 <==> s in students && s.id != id
    ensures forall s :: multiset(r.0)[s] == if s.id != id then multiset(students)[s] else 0
    ensures IsSubseq(r.0, students)
    ensures LosesEntry(r.1, creds, id)
  {
    var keep := (s: Student) => s.id != id;
    FilterKeepsOrder(students, keep);
    (Filter(students, keep), creds - {id})
  }

  /** `handleDeleteFaculty`, the same for faculty. */
  function DeleteFaculty(faculty: seq<Faculty>, creds: Credentials, id: string): (r: (seq<Faculty>, Credentials))
    ensures forall f :: f in r.0 <==> f in faculty && f.id != id
    ensures forall f :: multiset(r.0)[f] == if f.id != id then multiset(faculty)[f] else 0
    ensures IsSubseq(r.0, faculty)
    ensures LosesEntry(r.1, creds, id)
  {
    var keep := (f: Faculty) => f.id != id;
    FilterKeepsOrder(faculty, keep);
    (Filter(faculty, keep), creds - {id})
  }

  datatype PasswordFormError = NewPasswordsDiffer | IncorrectOldPassword

  /** `ChangePasswordPage.handleSubmit`: a new/confirm mismatch is rejected
      before `changePassword` is consulted; otherwise its verdict decides. */
  function ChangePasswordForm(session: Session, creds: Credentials, oldPass: string, newPass: string, confirm: string)
    : (r: Result<Credentials, PasswordFormError>)
    ensures newPass != confirm ==> r == Failure(NewPasswordsDiffer)
    ensures newPass == confirm && r.Failure? ==> r.error == IncorrectOldPassword
    ensures r.Success? <==> newPass == confirm && session.Some? && session.value.1 == StudentRole &&
                            PasswordMatches(creds, session.value.0.Id(), oldPass)
    ensures r.Success? ==> GainsEntry(r.value, creds, session.value.0.Id(), newPass) && r.value.Keys == creds.Keys
  {
    if newPass != confirm then Failure(NewPasswordsDiffer)
    else
      var (ok, updated) := ChangePassword(session, creds, oldPass, newPass);
      if ok then Success(updated) else Failure(IncorrectOldPassword)
  }
}
