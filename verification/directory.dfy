/** Edits to the student list made from the faculty and student pages:
    the department roster, the faculty profile editor, the career-path
    choice and the admin's saved fee list. */
module Directory {
  import opened Wrappers
  import opened Types
  import opened Seqs

  /** `departmentStudents`: the students of one department, in store order. */
  function DepartmentStudents(students: seq<Student>, department: string): (r: seq<Student>)
    ensures forall s :: s in r <==> s in students && s.department == department
    ensures forall s :: multiset(r)[s] == if s.department == department then multiset(students)[s] else 0
    ensures IsSubseq(r, students)
  {
    var inDepartment := (s: Student) => s.department == department;
    FilterKeepsOrder(students, inDepartment);
    Filter(students, inDepartment)
  }

  /** The fields the faculty edit form changes. */
  datatype ProfileEdit = ProfileEdit(name: string, batch: string, academicYear: string, contact: string, address: string)

  /** The edit form's data: the selected student as it was when selected,
      with the edited fields replaced. */
  function EditedSnapshot(selected: Student, edit: ProfileEdit): Student
  {
    selected.(name := edit.name, batch := edit.batch, academicYear := edit.academicYear,
              contact := edit.contact, address := edit.address)
  }

  /** `{ ...current, ...snapshot }`: every key the snapshot holds wins. A
      student without a career path has no `careerPath` key (sign-up and the
      admin's add leave it out, and the career-path page saves only a chosen
      path), so then the current record's career path stays. */
  function Spread(current: Student, snapshot: Student): Student
  {
    if snapshot.careerPath.Some? then snapshot else snapshot.(careerPath := current.careerPath)
  }

  /** `handleSaveChanges`: every student with the selected id is overwritten by
      the edited snapshot. Because the form holds a whole record, fields the
      form does not show (fees, CGPA, and a career path the snapshot has) are
      written back as they were at selection time. Other students are
      unchanged. */
  function SaveProfileChanges(students: seq<Student>, selected: Student, edit: ProfileEdit): (r: seq<Student>)
    ensures |r| == |students|
    ensures forall i :: 0 <= i < |students| && students[i].id == selected.id ==>
      && r[i].id == selected.id && r[i].name == edit.name && r[i].batch == edit.batch
      && r[i].academicYear == edit.academicYear && r[i].contact == edit.contact && r[i].address == edit.address
      && r[i].rollNumber == selected.rollNumber && r[i].department == selected.department
      && r[i].email == selected.email && r[i].fees == selected.fees && r[i].studentType == selected.studentType
      && r[i].cgpa == selected.cgpa
      && r[i].careerPath == (if selected.careerPath.Some? then selected.careerPath else students[i].careerPath)
    ensures forall i :: 0 <= i < |students| && students[i].id != selected.id ==> r[i] == students[i]
  {
    MapWhere(students, (s: Student) => s.id == selected.id, (s: Student) => Spread(s, EditedSnapshot(selected, edit)))
  }

  /** Saving an untouched form over records that still equal the selected
      student changes nothing. */
  lemma SaveUntouchedIsIdentity(students: seq<Student>, selected: Student)
    requires forall i :: 0 <= i < |students| && students[i].id == selected.id ==> students[i] == selected
    ensures SaveProfileChanges(students, selected,
              ProfileEdit(selected.name, selected.batch, selected.academicYear, selected.contact, selected.address))
            == students
  {
    var edit := ProfileEdit(selected.name, selected.batch, selected.academicYear, selected.contact, selected.address);
    var r := SaveProfileChanges(students, selected, edit);
    forall i | 0 <= i < |students| ensures r[i] == students[i] {
      if students[i].id == selected.id {
        assert r[i] == Spread(students[i], EditedSnapshot(selected, edit));
      }
    }
  }

  /** A career path chosen after the faculty member selected the student
      survives the save when the snapshot had none. */
  lemma SaveKeepsLaterCareerPath(students: seq<Student>, selected: Student, edit: ProfileEdit, i: nat)
    requires i < |students| && students[i].id == selected.id
    requires selected.careerPath.None?
    ensures SaveProfileChanges(students, selected, edit)[i].careerPath == students[i].careerPath
  {
  }

  /** `CareerPathPage.handleSave`: sets the career path of the logged-in
      student's record and nothing else. Saving is disabled until a path is
      chosen, so the path is always present. */
  function SaveCareerPath(students: seq<Student>, studentId: string, path: CareerPath): (r: seq<Student>)
    ensures |r| == |students|
    ensures forall i :: 0 <= i < |students| && students[i].id == studentId ==>
      r[i].careerPath == Some(path) && r[i].(careerPath := students[i].careerPath) == students[i]
    ensures forall i :: 0 <= i < |students| && students[i].id != studentId ==> r[i] == students[i]
  {
    MapWhere(students, (s: Student) => s.id == studentId, (s: Student) => s.(careerPath := Some(path)))
  }

  /** `handleSaveFees`: replaces the fee list of the edited student. */
  function SaveFees(students: seq<Student>, studentId: string, fees: seq<FeeItem>): (r: seq<Student>)
    ensures |r| == |students|
    ensures forall i :: 0 <= i < |students| && students[i].id == studentId ==>
      r[i].fees == fees && r[i].(fees := students[i].fees) == students[i]
    ensures forall i :: 0 <= i < |students| && students[i].id != studentId ==> r[i] == students[i]
  {
    MapWhere(students, (s: Student) => s.id == studentId, (s: Student) => s.(fees := fees))
  }
}
