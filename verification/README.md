# Student portal model

A Dafny model of the core of a college student-management portal (a React
single-page app). The model covers:

- the session logic: role-specific login, logout, the student password change, and the session restored at start-up;
- the route table and its role gate;
- the three dashboards: student, faculty and admin;
- the two self-registration pages;
- the shared record types.

The portal keeps all of its state in memory. Here that state is a set of
immutable values:

- the student, faculty and application lists are `seq`s;
- the credential stores are `map<string, string>` from account id to password;
- the session is an optional (user, role) pair.

Each event handler becomes a pure function from the old state to the new one.
Ids, timestamps and dates come from the clock in the portal; here they are
parameters.

Modules follow the program's structure:

| module | file | models |
|---|---|---|
| `Wrappers` | wrappers.dfy | `Option` and `Result` |
| `Seqs` | seqs.dfy | the array methods the pages rely on: `filter`, `find`, and the stable `sort` with a descending numeric comparator |
| `Types` | types.dfy | types.ts: roles, fee categories, student types, fee items, students, faculty, applications |
| `Auth` | auth.dfy | context/AuthContext.tsx |
| `Routes` | routes.dfy | App.tsx |
| `Applications` | applications.dfy | submission forms, the student's list, the faculty work-list and decision, the admin's filtered list and counts |
| `Directory` | directory.dfy | department roster, faculty profile edit, career path, saved fee lists |
| `Fees` | fees.dfy | fee totals, applicable fees, payment, the admin fee editor and the fee reports |
| `Accounts` | accounts.dfy | self-registration, the admin's add and delete, the change-password form |
| `Scenarios` | scenarios.dfy | properties that span modules, and the seeded accounts |

Behaviour the model takes from the code as written:

- The faculty decision (`handleApproval`) does not check that a request is still `Pending`. Only the rendered work-list restricts it. `Applications.Decide` therefore decides any request with the id, and `Applications.SecondDecisionOverwrites` shows that a second decision replaces the first.
- Student payment (`handleConfirmPayment`) does not check that the item is `Unpaid` or that payments are enabled. Only the rendered button does. The gate is stated as a property of the list of offered Pay actions (`Fees.PayActions`), not as a failure of the mutator.
- `initialFees` builds a `Map` from the fee list, so when a category occurs twice the LAST item wins (`Fees.ByCategory`).
- The faculty edit form holds a full copy of the selected student, and saving spreads that copy over the current record. Fields the form does not show (fees, CGPA) revert to their values at selection time. A career path is a key the copy may lack: students created by sign-up or by the admin have none, and then the current record's career path stays (`Directory.SaveProfileChanges`, `Directory.SaveKeepsLaterCareerPath`).
- The admin's add form does not check emails. A student added with an email already in use cannot log in while an earlier record with that email remains, because login consults only the first record with that email (`Scenarios.AddedDuplicateIsShadowed`). Deleting the earlier record makes the added one the first.

## Model

| member | source | states |
|---|---|---|
| Types.RoleOfName | types.ts:2-6 | a path segment names a role exactly when it is one of the three role strings, and then the role's string is that segment |
| Types.RoleNameRoundTrip | types.ts:2-6 | each role's string maps back to that role, so the three prefixes are distinct |
| Types.CategoryIndex | types.ts:11-12 | every fee category occurs in `FEE_CATEGORIES` at exactly one position |
| Types.FeeCategoriesDistinct | types.ts:11 | `FEE_CATEGORIES` lists 8 distinct categories and covers every category |
| Types.StudentTypeOptionsComplete | types.ts:14-15 | there are exactly two student types, `Hosteller` and `Day Scholar` |
| Types.StatusNameInjective | types.ts:66-70 | the three application statuses have distinct names, so the status filter string identifies one status |
| Seqs.Filter | pages/faculty/FacultyDashboardPage.tsx:67 | `filter` keeps exactly the satisfying elements, each as often as it occurs in the input |
| Seqs.FilterKeepsOrder | pages/faculty/FacultyDashboardPage.tsx:67 | `filter` never reorders the elements it keeps |
| Seqs.FilterFilter | pages/admin/AdminDashboardPage.tsx:126-128 | two chained filters keep exactly what their conjunction keeps, in the same order |
| Seqs.FirstIndex | context/AuthContext.tsx:36 | `find` returns the first matching position, or nothing exactly when no element matches |
| Seqs.SortDesc | pages/admin/AdminDashboardPage.tsx:129 | the comparator sort yields a permutation of its input in descending key order |
| Seqs.SortDescStable | pages/admin/AdminDashboardPage.tsx:129 | elements with equal keys keep their relative order, as in JavaScript's stable sort |
| Auth.LoginAcceptsOneUser | context/AuthContext.tsx:35-40 | at most one account is accepted for an email and role, because only the first record with that email is consulted |
| Auth.FindUserAccepts | context/AuthContext.tsx:31-49 | the search-then-compare accepts an account iff it is the first record of the role with that email and its stored password equals the one given (admin: the fixed email and `admin.mkce`) |
| Auth.Login | context/AuthContext.tsx:31-57 | login succeeds iff some account is accepted for (email, password, role); success installs (found user, requested role); failure leaves the session as it was |
| Auth.Logout | context/AuthContext.tsx:59-64 | logout leaves no user and no role, whatever the prior state |
| Auth.ChangePassword | context/AuthContext.tsx:66-74 | the change succeeds iff a student is logged in and their stored password equals the old one; it then sets that id to the new password and keeps every other entry; otherwise the store is unchanged |
| Auth.Restore | context/AuthContext.tsx:22-29 | a session is restored iff both the stored user and the stored role are present, and it is exactly that pair |
| Auth.RestoreAfterPersist | context/AuthContext.tsx:50-53 | restoring what login or logout stored gives back the same session |
| Routes.PrivateRoute | App.tsx:58-64 | the guarded page is shown iff a user is logged in with exactly the required role; otherwise a redirect to the required role's login page |
| Routes.Resolve | App.tsx:20-44 | a dashboard is reached only under its own role prefix and only with that session role; `/<role>/login` is that role's login page whatever the session, and a login page appears nowhere else; the landing page only at `/` |
| Routes.PrefixGuardedByOwnRole | App.tsx:26-42 | every location under `/<role>/` other than the login page shows the dashboard iff the session role is that role, and otherwise redirects to that role's login page |
| Routes.UnmatchedRedirectsHome | App.tsx:44 | a location whose first segment is no role redirects to `/` |
| Routes.LogoutClosesEveryGate | App.tsx:58-61 | after logout every guarded page redirects to its role's login page |
| Applications.SubmitOnDuty | pages/student/StudentDashboardPage.tsx:126-142 | one `Pending` request is prepended, carrying the student's id, name, roll number and department and the selected faculty id; the existing list is unchanged behind it |
| Applications.SubmitLeave | pages/student/StudentDashboardPage.tsx:178-194 | as above, with the student's batch and academic year copied and no faculty assigned |
| Applications.SubmitBonafide | pages/student/StudentDashboardPage.tsx:225-240 | as above, with no batch, year or faculty |
| Applications.StudentApps | pages/student/StudentDashboardPage.tsx:263 | the student's list holds exactly the applications with their id, with their multiplicity, newest first |
| Applications.StudentAppsStable | pages/student/StudentDashboardPage.tsx:31 | applications submitted at the same instant stay in store order |
| Applications.PendingFor | pages/faculty/FacultyDashboardPage.tsx:67 | the work-list is exactly the `Pending` requests from the faculty's department or addressed to them, in store order |
| Applications.Decide | pages/faculty/FacultyDashboardPage.tsx:70-73 | the list keeps its length; each request with the id gets the status, remarks and acting faculty id with every other field kept; every other request is unchanged |
| Applications.DecideLeavesWorkList | pages/faculty/FacultyDashboardPage.tsx:67-72 | a decided request is on no faculty member's work-list afterwards |
| Applications.DecideKeepsOtherRequests | pages/faculty/FacultyDashboardPage.tsx:67-72 | every other request on a work-list stays on it |
| Applications.SecondDecisionOverwrites | pages/faculty/FacultyDashboardPage.tsx:70-73 | deciding a request twice equals deciding it once with the second decision (nothing rejects a re-decision) |
| Applications.FilteredApps | pages/admin/AdminDashboardPage.tsx:124-130 | the admin list is exactly the applications matching every non-empty filter, with multiplicity, newest first |
| Applications.FilteredAppsStable | pages/admin/AdminDashboardPage.tsx:124-130 | applications with the same timestamp keep their store order in the admin list, as the stable sort leaves them |
| Applications.NoFilterShowsAll | pages/admin/AdminDashboardPage.tsx:126-128 | with all filters empty the list is a permutation of the whole store |
| Applications.StatusFilterSelectsStatus | pages/admin/AdminDashboardPage.tsx:128 | filtering by a status name shows exactly the applications with that status |
| Applications.SummarizeApps | pages/admin/AdminDashboardPage.tsx:391-399 | each count equals the number of applications with that status, and pending + approved + rejected = total |
| Directory.DepartmentStudents | pages/faculty/FacultyDashboardPage.tsx:112 | the roster is exactly the students of the faculty's department, in store order |
| Directory.SaveProfileChanges | pages/faculty/FacultyDashboardPage.tsx:136-140 | students with the selected id get the edited fields, and every other field of the selected snapshot (fees, CGPA, type, ids); the career path is the snapshot's when it has one and otherwise the current record's; every other student is unchanged |
| Directory.SaveUntouchedIsIdentity | pages/faculty/FacultyDashboardPage.tsx:117-140 | saving an unedited form over records that still equal the selected student leaves the list unchanged |
| Directory.SaveKeepsLaterCareerPath | pages/faculty/FacultyDashboardPage.tsx:139 | when the snapshot has no career path, a career path the record gained since selection survives the save |
| Directory.SaveCareerPath | pages/student/StudentDashboardPage.tsx:576-577 | only the logged-in student's career path changes, to the chosen path |
| Directory.SaveFees | pages/admin/AdminDashboardPage.tsx:286-288 | only the edited student's fee list is replaced |
| Fees.TotalSplit | pages/admin/AdminDashboardPage.tsx:293-295 | the sum over all items is the paid sum plus the unpaid sum |
| Fees.Summarize | pages/faculty/FacultyDashboardPage.tsx:239-243 | paid + due = total, due is the sum of the unpaid items, and with non-negative amounts the paid sum lies between 0 and the total |
| Fees.PaidWithinTotal | pages/admin/AdminDashboardPage.tsx:293-294 | with non-negative amounts the paid sum lies between 0 and the total |
| Fees.ApplicableFees | pages/student/StudentDashboardPage.tsx:473-481 | the shown fees are exactly the items of applicable categories, each as often as stored, in order |
| Fees.ApplicableCategories | pages/student/StudentDashboardPage.tsx:474-479 | a day scholar sees every category except Hostel and Mess; a hosteller every category except Bus |
| Fees.FeeTotals | pages/student/StudentDashboardPage.tsx:483-485 | the assigned total covers the shown items only; paid + pending covers all items |
| Fees.FeeTotalsCoverHiddenItems | pages/student/StudentDashboardPage.tsx:484-485 | paid + pending is the sum over all items, including hidden ones |
| Fees.PayActions | pages/student/StudentDashboardPage.tsx:540-545 | a Pay action is offered exactly for shown `Unpaid` items, and none while payments are disabled |
| Fees.PaidItem | pages/student/StudentDashboardPage.tsx:451-457 | the paid copy is `Paid` with the chosen mode, the date and a `TXN` transaction id, with category and amount kept |
| Fees.PayItems | pages/student/StudentDashboardPage.tsx:463 | every item of the paid category becomes the paid copy; other items are unchanged |
| Fees.ConfirmPayment | pages/student/StudentDashboardPage.tsx:450-467 | only the paying student's fee list changes, as above; other students are unchanged |
| Fees.PaymentSettlesCategory | pages/student/StudentDashboardPage.tsx:450-467 | paying an unpaid item keeps the total and lowers the pending sum by its amount |
| Fees.ToggleItem | pages/admin/AdminDashboardPage.tsx:227-235 | the status flips; becoming `Paid` records the date, an `ADMIN_OVERRIDE_` id and Bank Transfer; becoming `Unpaid` clears all three |
| Fees.ToggleStatus | pages/admin/AdminDashboardPage.tsx:225-239 | only items of the toggled category change |
| Fees.ToggleTwiceRestores | pages/admin/AdminDashboardPage.tsx:225-239 | toggling an unpaid item without payment details twice restores it |
| Fees.ChangeAmount | pages/admin/AdminDashboardPage.tsx:220-223 | only the amount of the edited category changes |
| Fees.ByCategory | pages/admin/AdminDashboardPage.tsx:214 | the map holds each category that occurs, bound to its last item |
| Fees.LastSurvivesAppend | pages/admin/AdminDashboardPage.tsx:214 | a later entry of another category does not displace a category's last item |
| Fees.CompleteFees | pages/admin/AdminDashboardPage.tsx:212-216 | one item per category in `FEE_CATEGORIES` order: the existing item when there is one, otherwise amount 0 and `Unpaid` |
| Fees.CompleteFeesIdempotent | pages/admin/AdminDashboardPage.tsx:212-216 | completing an already complete list changes nothing |
| Fees.DefaultFees | pages/student/StudentSignUpPage.tsx:47-51 | one 0-amount `Unpaid` item per category, in order |
| Fees.DefaultFeesComplete | pages/admin/AdminDashboardPage.tsx:620 | the default list is what completing an empty list gives, and completing it changes nothing |
| Fees.FeeData | pages/admin/AdminDashboardPage.tsx:296-297 | the per-category amounts hold each category that occurs, with the amount of its last item |
| Fees.AdminFeeSummaries | pages/admin/AdminDashboardPage.tsx:290-300 | one row per student, in order: the total is the sum of the student's amounts, paid the sum of the `Paid` items, pending the rest (the unpaid sum), and the per-category amounts are those of the student's fees |
| Fees.FacultyFeeSummaries | pages/faculty/FacultyDashboardPage.tsx:236-244 | row i is the i-th student of the department roster, with the sum of its amounts, the sum of its `Paid` items and the rest as due |
| Fees.SumsSplit | pages/admin/AdminDashboardPage.tsx:368-383 | portal-wide, the sum of all amounts is the collected sum plus the sum of every student's pending amount |
| Fees.CollectFees | pages/admin/AdminDashboardPage.tsx:368-380 | the single pass yields the sum of every student's amounts and the sum of every student's `Paid` items, and its dues list equals filtering the students with positive pending and mapping each to its row |
| Fees.DuesMembership | pages/admin/AdminDashboardPage.tsx:377-378 | a row is on the dues list iff it is the row of some student with positive pending |
| Fees.SortedDuesRows | pages/admin/AdminDashboardPage.tsx:376-386 | a row is on the sorted dues list iff it is the row of some student with positive pending |
| Fees.SortedDuesPositive | pages/admin/AdminDashboardPage.tsx:376-386 | every row on the sorted dues list has a positive pending amount |
| Fees.SortedDuesStable | pages/admin/AdminDashboardPage.tsx:386 | rows with equal pending amounts stay in student order after the sort |
| Fees.FeeReportOf | pages/admin/AdminDashboardPage.tsx:364-389 | the total is the sum of all amounts, collected the sum of all `Paid` items, pending the sum of every student's pending amount and collected + pending = total; the dues list holds exactly the students with positive pending, as a permutation of the collected rows sorted by pending descending, ties in student order |
| Accounts.SignUpStudent | pages/student/StudentSignUpPage.tsx:34-69 | a mismatch fails first, then a used email; success appends one student with the form's fields, no contact, CGPA 0 and the default fees, and the store gains exactly newId ↦ password |
| Accounts.SignUpFaculty | pages/faculty/FacultySignUpPage.tsx:29-51 | the same two checks; success appends one faculty record with the form's fields and the store gains exactly newId ↦ password |
| Accounts.AddStudent | pages/admin/AdminDashboardPage.tsx:618-623 | one student is appended with the form's fields, CGPA 0 and the default fees, without any check, and the store gains exactly newId ↦ password |
| Accounts.AddFaculty | pages/admin/AdminDashboardPage.tsx:624-628 | one faculty record is appended with the form's fields, and the store gains exactly newId ↦ password |
| Accounts.DeleteStudent | pages/admin/AdminDashboardPage.tsx:35-41 | every student with the id goes and every other stays, in order; exactly that credential entry goes |
| Accounts.DeleteFaculty | pages/admin/AdminDashboardPage.tsx:77-83 | the same for faculty |
| Accounts.ChangePasswordForm | pages/student/StudentDashboardPage.tsx:610-628 | a new/confirm mismatch fails with its own error before the old password is consulted; any other failure reports an incorrect old password; success iff a student is logged in with that old password, and then only their entry changes |
| Scenarios.SignUpThenLogin | pages/student/StudentSignUpPage.tsx:41-69 | a newly registered student logs in with the form's email and password, and the session holds the new record |
| Scenarios.FacultySignUpThenLogin | pages/faculty/FacultySignUpPage.tsx:36-51 | the same for a newly registered faculty member |
| Scenarios.AddedFacultyLogsIn | pages/admin/AdminDashboardPage.tsx:624-628 | a faculty member the admin adds with an unused email logs in with the given password, and the session holds the new record |
| Scenarios.DeletedStudentCannotLogIn | pages/admin/AdminDashboardPage.tsx:35-41 | after a student is deleted no student login yields a session for that id |
| Scenarios.DeletedFacultyCannotLogIn | pages/admin/AdminDashboardPage.tsx:77-83 | after a faculty member is deleted no faculty login yields a session for that id |
| Scenarios.AddedDuplicateIsShadowed | pages/admin/AdminDashboardPage.tsx:618-623 | adding a student whose email is already used changes no login outcome for that email |
| Scenarios.ChangePasswordThenLogin | context/AuthContext.tsx:66-71 | after a change the student logs in with the new password and no longer with a different old one |
| Scenarios.LoginThenGate | App.tsx:58-64 | after a successful login exactly the routes of the role logged in as open |
| Scenarios.SubmittedOnDutyIsListed | pages/student/StudentDashboardPage.tsx:126-142 | a new On-Duty request is on the student's list, and on a faculty work-list iff that member is of the department or is the one addressed |
| Scenarios.SubmittedLeaveIsListed | pages/student/StudentDashboardPage.tsx:178-194 | a new leave request is on the student's list, and on a faculty work-list iff that member is of the student's department |
| Scenarios.SubmittedBonafideIsListed | pages/student/StudentDashboardPage.tsx:225-240 | a new Bonafide request is on the student's list, and on a faculty work-list iff that member is of the student's department |
| Scenarios.DecisionVisibleToStudent | pages/faculty/FacultyDashboardPage.tsx:70-73 | after a decision the student's list shows the request with the new status |
| Scenarios.SeededAccountsLogIn | services/mockData.ts:82-95 | the first seeded student (s1), the first seeded faculty member (f1) and the admin log in with their seeded passwords, and a wrong password is refused |

## Left out

- Rendering, modals, success-message timers, confirmation dialogs and printing: these are presentation only.
- Persistence of the store and the session in browser storage and its JSON encoding: the store is an in-memory value, and `Auth.Restore` takes the two stored slots as already decoded. Stored text that does not parse is not modelled.
- Clocks: ids (`s…`, `f…`, `app…`), ISO timestamps, dates and the `TXN`/`ADMIN_OVERRIDE_` stamps are parameters. `submittedAt` is modelled as the integer the sort compares.
- Floating point: amounts are integers, so `parseFloat` of a typed amount and the `toFixed` completion ratio of the reports page are left out. CGPA is a `real`.
- QR-code and avatar URLs: these are external services.
- The hostel menu, the settings toggles (`facultyCanEdit`, `paymentsEnabled`) and the admin's edit-user modal: these are outside the modelled core. `paymentsEnabled` enters only as a parameter of `Fees.PayActions`.
- Case-insensitive route matching and nested routes inside each dashboard: a location is a list of segments matched exactly, and anything under a role prefix is that role's dashboard.
- The fallback branch of the student fee filter (a student type that is neither value) keeps every item. Every `StudentType` value is one of the two options, so the branch is not modelled.
- Fields of the admin's add form that are never typed in are absent in the program. `Accounts.AddStudent` and `Accounts.AddFaculty` take complete forms.
- Password hashing does not exist in the program and is not modelled.
