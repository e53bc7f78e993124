/** The session logic of context/AuthContext.tsx: role-specific login, logout,
    the student-only password change and the session restored at start-up.
    The session is the pair (user, role) the provider keeps in two state
    slots that are always written together. */
module Auth {
  import opened Wrappers
  import opened Types
  import opened Seqs

  /** The logged-in user and the role they logged in as, or nobody. */
  type Session = Option<(User, Role)>

  /** The hard-coded administrator identity. */
  const AdminAccount: Admin := Admin("admin1", "Admin", "admin@mkce.com")

  /** `adminCredentials` from the seed data. */
  const AdminCredentials: Credentials := map["admin1" := "admin.mkce"]

  /** `i` is the first student with this email. */
  ghost predicate FirstStudentWithEmail(students: seq<Student>, email: string, i: int)
  {
    0 <= i < |students| && students[i].email == email &&
    forall j :: 0 <= j < i ==> students[j].email != email
  }

  ghost predicate FirstFacultyWithEmail(faculty: seq<Faculty>, email: string, i: int)
  {
    0 <= i < |faculty| && faculty[i].email == email &&
    forall j :: 0 <= j < i ==> faculty[j].email != email
  }

  /** The password stored for `id` is exactly `pass` (a missing entry never matches). */
  predicate PasswordMatches(creds: Credentials, id: string, pass: string)
  {
    id in creds && creds[id] == pass
  }

  /** Which account a login attempt is checked against, independent of how
      `login` searches: the first record of the role with that email, or the
      fixed admin. */
  ghost predicate LoginAccepts(students: seq<Student>, faculty: seq<Faculty>,
                               studentCreds: Credentials, facultyCreds: Credentials,
                               email: string, pass: string, role: Role, user: User)
  {
    match role
    case StudentRole =>
      exists i :: FirstStudentWithEmail(students, email, i) &&
        user == StudentUser(students[i]) && PasswordMatches(studentCreds, students[i].id, pass)
    case FacultyRole =>
      exists i :: FirstFacultyWithEmail(faculty, email, i) &&
        user == FacultyUser(faculty[i]) && PasswordMatches(facultyCreds, faculty[i].id, pass)
    case AdminRole =>
      user == AdminUser(AdminAccount) && email == AdminAccount.email &&
      PasswordMatches(AdminCredentials, AdminAccount.id, pass)
  }

  /** The user a login attempt finds before the password is compared
      (`foundUser` before the final check). */
  function FindUser(students: seq<Student>, faculty: seq<Faculty>, email: string, pass: string, role: Role): Option<User>
  {
    match role
    case StudentRole =>
      (match FirstIndex(students, (s: Student) => s.email == email)
       case Some(i) => Some(StudentUser(students[i]))
       case None => None)
    case FacultyRole =>
      (match FirstIndex(faculty, (f: Faculty) => f.email == email)
       case Some(i) => Some(FacultyUser(faculty[i]))
       case None => None)
    case AdminRole =>
      if AdminAccount.email == email && AdminAccount.id in AdminCredentials
         && AdminCredentials[AdminAccount.id] == pass
      then Some(AdminUser(AdminAccount))
      else None
  }

  /** The credential map a role's login consults. */
  function CredsFor(studentCreds: Credentials, facultyCreds: Credentials, role: Role): Credentials
  {
    match role
    case StudentRole => studentCreds
    case FacultyRole => facultyCreds
    case AdminRole => AdminCredentials
  }

  /** At most one account accepts a given email and role: the first record
      with that email is the only one ever consulted. */
  lemma LoginAcceptsOneUser(students: seq<Student>, faculty: seq<Faculty>,
                            studentCreds: Credentials, facultyCreds: Credentials,
                            email: string, pass: string, role: Role, u1: User, u2: User)
    requires LoginAccepts(students, faculty, studentCreds, facultyCreds, email, pass, role, u1)
    requires LoginAccepts(students, faculty, studentCreds, facultyCreds, email, pass, role, u2)
    ensures u1 == u2
  {
    match role
    case StudentRole =>
      var i :| FirstStudentWithEmail(students, email, i) && u1 == StudentUser(students[i]);
      var k :| FirstStudentWithEmail(students, email, k) && u2 == StudentUser(students[k]);
      assert !(i < k) && !(k < i);
    case FacultyRole =>
      var i :| FirstFacultyWithEmail(faculty, email, i) && u1 == FacultyUser(faculty[i]);
      var k :| FirstFacultyWithEmail(faculty, email, k) && u2 == FacultyUser(faculty[k]);
      assert !(i < k) && !(k < i);
    case AdminRole =>
  }

  /** The search-then-compare of `login` accepts exactly the accounts
      `LoginAccepts` describes. */
  lemma FindUserAccepts(students: seq<Student>, faculty: seq<Faculty>,
                        studentCreds: Credentials, facultyCreds: Credentials,
                        email: string, pass: string, role: Role, u: User)
    ensures LoginAccepts(students, faculty, studentCreds, facultyCreds, email, pass, role, u)
        <==> FindUser(students, faculty, email, pass, role) == Some(u) &&
             PasswordMatches(CredsFor(studentCreds, facultyCreds, role), u.Id(), pass)
  {
    match role
    case StudentRole =>
      var k := FirstIndex(students, (s: Student) => s.email == email);
      if k.Some? {
        assert FirstStudentWithEmail(students, email, k.value);
      }
    case FacultyRole =>
      var k := FirstIndex(faculty, (f: Faculty) => f.email == email);
      if k.Some? {
        assert FirstFacultyWithEmail(faculty, email, k.value);
      }
    case AdminRole =>
  }

  /** `login(email, pass, role)`: returns whether it succeeded and the new
      session. Success installs (found user, requested role); failure leaves
      the session as it was. */
  function Login(students: seq<Student>, faculty: seq<Faculty>,
                 studentCreds: Credentials, facultyCreds: Credentials,
                 session: Session, email: string, pass: string, role: Role): (r: (bool, Session))
    ensures r.0 <==> exists u :: LoginAccepts(students, faculty, studentCreds, facultyCreds, email, pass, role, u)
    ensures r.0 ==> r.1.Some? && r.1.value.1 == role &&
                    LoginAccepts(students, faculty, studentCreds, facultyCreds, email, pass, role, r.1.value.0)
    ensures !r.0 ==> r.1 == session
  {
    var found := FindUser(students, faculty, email, pass, role);
    var creds := CredsFor(studentCreds, facultyCreds, role);
    if found.Some? && PasswordMatches(creds, found.value.Id(), pass) then
      FindUserAccepts(students, faculty, studentCreds, facultyCreds, email, pass, role, found.value);
      (true, Some((found.value, role)))
    else
      assert forall u :: !LoginAccepts(students, faculty, studentCreds, facultyCreds, email, pass, role, u) by {
        forall u ensures !LoginAccepts(students, faculty, studentCreds, facultyCreds, email, pass, role, u) {
          FindUserAccepts(students, faculty, studentCreds, facultyCreds, email, pass, role, u);
        }
      }
      (false, session)
  }

  /** `logout`: both the user and the role are cleared, whatever the prior state. */
  function Logout(session: Session): (r: Session)
    ensures r.None?
  {
    None
  }

  /** `changePassword(oldPass, newPass)`: only a logged-in student whose stored
      password equals `oldPass` may change it; returns success and the new
      student credential map. */
  function ChangePassword(session: Session, studentCreds: Credentials, oldPass: string, newPass: string): (r: (bool, Credentials))
    ensures r.0 <==> session.Some? && session.value.1 == StudentRole &&
                     PasswordMatches(studentCreds, session.value.0.Id(), oldPass)
    ensures r.0 ==> r.1.Keys == studentCreds.Keys &&
                    r.1[session.value.0.Id()] == newPass &&
                    forall k :: k in studentCreds && k != session.value.0.Id() ==> r.1[k] == studentCreds[k]
    ensures !r.0 ==> r.1 == studentCreds
  {
    match session
    case Some((user, role)) =>
      if role == StudentRole && PasswordMatches(studentCreds, user.Id(), oldPass)
      then (true, studentCreds[user.Id() := newPass])
      else (false, studentCreds)
    case None => (false, studentCreds)
  }

  /** The two storage slots ('user', 'userRole') that login writes and logout clears. */
  function Persist(session: Session): (Option<User>, Option<Role>)
  {
    match session
    case Some((u, r)) => (Some(u), Some(r))
    case None => (None, None)
  }

  /** The start-up effect: a session is restored only when both the stored
      user and the stored role are present. */
  function Restore(storedUser: Option<User>, storedRole: Option<Role>): (r: Session)
    ensures r.Some? <==> storedUser.Some? && storedRole.Some?
    ensures r.Some? ==> r.value.0 == storedUser.value && r.value.1 == storedRole.value
  {
    if storedUser.Some? && storedRole.Some? then Some((storedUser.value, storedRole.value)) else None
  }

  /** Restoring what the last login or logout stored gives back that session. */
  lemma RestoreAfterPersist(session: Session)
    ensures var (u, r) := Persist(session); Restore(u, r) == session
  {
  }
}
