/** The records and enumerations of the portal (types.ts). Fields the
    TypeScript marks optional (`?`) are `Option`s; JavaScript numbers for
    amounts and timestamps are integers. */
module Types {
  import opened Wrappers

  /** `UserRole`: the string value of a role is also its route prefix. */
  datatype Role = StudentRole | FacultyRole | AdminRole

  function RoleName(r: Role): string
  {
    match r
    case StudentRole => "student"
    case FacultyRole => "faculty"
    case AdminRole => "admin"
  }

  /** Reads a route prefix back as a role; the inverse of `RoleName`. */
  function RoleOfName(name: string): (r: Option<Role>)
    ensures r.Some? ==> RoleName(r.value) == name
    ensures r.None? ==> forall role: Role :: RoleName(role) != name
  {
    if name == "student" then Some(StudentRole)
    else if name == "faculty" then Some(FacultyRole)
    else if name == "admin" then Some(AdminRole)
    else None
  }

  lemma RoleNameRoundTrip(r: Role)
    ensures RoleOfName(RoleName(r)) == Some(r)
  {
    match r
    case StudentRole =>
    case FacultyRole =>
    case AdminRole =>
  }

  datatype CareerPath = Placement | Entrepreneur | Training | HigherStudies

  /** `FeeCategory`, one constructor per entry of `FEE_CATEGORIES`. */
  datatype FeeCategory = College | Hostel | Mess | Bus | Miscellaneous | Lab | Exam | Association

  /** `FEE_CATEGORIES`, in the order the portal lists them. */
  const FeeCategories: seq<FeeCategory> :=
    [College, Hostel, Mess, Bus, Miscellaneous, Lab, Exam, Association]

  /** The position of a category in `FeeCategories`: every category is listed
      exactly once. */
  function CategoryIndex(c: FeeCategory): (i: nat)
    ensures i < |FeeCategories| && FeeCategories[i] == c
    ensures forall j :: 0 <= j < |FeeCategories| && FeeCategories[j] == c ==> j == i
  {
    match c
    case College => 0
    case Hostel => 1
    case Mess => 2
    case Bus => 3
    case Miscellaneous => 4
    case Lab => 5
    case Exam => 6
    case Association => 7
  }

  lemma FeeCategoriesDistinct()
    ensures |FeeCategories| == 8
    ensures forall i, j :: 0 <= i < j < |FeeCategories| ==> FeeCategories[i] != FeeCategories[j]
    ensures forall c: FeeCategory :: c in FeeCategories
  {
    forall i, j | 0 <= i < j < |FeeCategories|
      ensures FeeCategories[i] != FeeCategories[j]
    {
      var _ := CategoryIndex(FeeCategories[i]);
    }
    forall c: FeeCategory ensures c in FeeCategories {
      var _ := CategoryIndex(c);
    }
  }

  /** `StudentType`: the two values of `STUDENT_TYPE_OPTIONS`. */
  datatype StudentType = Hosteller | DayScholar

  const StudentTypeOptions: seq<StudentType> := [Hosteller, DayScholar]

  lemma StudentTypeOptionsComplete()
    ensures |StudentTypeOptions| == 2 && StudentTypeOptions[0] != StudentTypeOptions[1]
    ensures forall t: StudentType :: t in StudentTypeOptions
  {
    forall t: StudentType ensures t in StudentTypeOptions {
      match t
      case Hosteller => assert StudentTypeOptions[0] == t;
      case DayScholar => assert StudentTypeOptions[1] == t;
    }
  }

  /** `PaymentMode`: 'GPay/UPI' | 'Net Banking' | 'Bank Transfer'. */
  datatype PaymentMode = UpiPayment | NetBanking | BankTransfer

  datatype FeeStatus = Paid | Unpaid

  /** `FeeItem`: the payment date, transaction id and mode are optional. */
  datatype FeeItem = FeeItem(
    category: FeeCategory,
    amount: int,
    status: FeeStatus,
    paymentDate: Option<string>,
    transactionId: Option<string>,
    paymentMode: Option<PaymentMode>)

  datatype Student = Student(
    id: string,
    name: string,
    rollNumber: string,
    department: string,
    contact: string,
    address: string,
    cgpa: real,
    email: string,
    careerPath: Option<CareerPath>,
    batch: string,
    academicYear: string,
    studentType: StudentType,
    fees: seq<FeeItem>)

  datatype Faculty = Faculty(
    id: string,
    name: string,
    department: string,
    email: string,
    facultyId: string)

  datatype Admin = Admin(id: string, name: string, email: string)

  /** `User = Student | Faculty | Admin`, as a tagged union. */
  datatype User = StudentUser(student: Student) | FacultyUser(faculty: Faculty) | AdminUser(admin: Admin)
  {
    function Id(): string
    {
      match this
      case StudentUser(s) => s.id
      case FacultyUser(f) => f.id
      case AdminUser(a) => a.id
    }
  }

  /** `ApplicationType`: On-Duty, Leave, Bonafide Certificate. */
  datatype ApplicationType = OnDuty | Leave | Bonafide

  datatype ApplicationStatus = Pending | Approved | Rejected

  /** The enum's string value, which the admin status filter compares against. */
  function StatusName(s: ApplicationStatus): string
  {
    match s
    case Pending => "Pending"
    case Approved => "Approved"
    case Rejected => "Rejected"
  }

  /** Distinct statuses have distinct names, so filtering by name is filtering by status. */
  lemma StatusNameInjective(a: ApplicationStatus, b: ApplicationStatus)
    ensures StatusName(a) == StatusName(b) ==> a == b
  {
    match a
    case Pending =>
    case Approved =>
    case Rejected =>
  }

  /** `Application`; `submittedAt` is the submission time as a number. */
  datatype Application = Application(
    id: string,
    studentId: string,
    studentName: string,
    studentRollNumber: string,
    kind: ApplicationType,
    status: ApplicationStatus,
    reason: string,
    dates: string,
    submittedAt: int,
    documentUrl: Option<string>,
    remarks: Option<string>,
    numberOfDays: Option<int>,
    academicYear: Option<string>,
    batch: Option<string>,
    department: Option<string>,
    facultyAssignedId: Option<string>,
    facultyActionById: Option<string>)

  /** The sort key of every application listing. */
  function SubmittedAt(a: Application): int
  {
    a.submittedAt
  }

  /** One role's credential map: identity id to plain-text password. */
  type Credentials = map<string, string>
}
