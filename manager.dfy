/** StudentManager: validates requests, enforces roll uniqueness and the
    mark and attendance ranges, and delegates persistence to the store. */
module Manager {
  import opened Wrappers
  import opened Text
  import opened Decimal
  import opened StudentModel
  import opened Store
  import opened Rules

  /** What buildResultCard reports: the fixed message for an unknown id, or
      the student's line, whether any mark is recorded, the attendance
      counters and whether the low-attendance warning is printed. */
  datatype ResultCard =
    | NotFound(message: string)
    | Card(student: string, hasMarks: bool, attendance: Attendance, warning: bool)

  /** What buildSummaryReport reports: the counts and the highest scorer's
      label, or "N/A" when there is none. */
  datatype SummaryReport = SummaryReport(total: nat, pass: nat, fail: int, highestScorer: string)

  /** How the summary names the highest scorer, up to the percentage that
      follows. */
  function ScorerLabel(id: int, d: StudentData): (shown: string)
    ensures |shown| > |d.name| && shown[..|d.name|] == d.name
    ensures shown != "N/A"
  {
    d.name + " (ID " + IntText(id) + ") - "
  }

  class StudentManager {
    const db: Database

    constructor (db: Database)
      ensures this.db == db
    {
      this.db := db;
    }

    /** addStudent: validates, rejects a roll that is already stored (looked
        up as given), then stores the trimmed fields under a new id. */
    method AddStudent(name: Option<string>, age: int, course: Option<string>, roll: Option<string>)
      returns (r: Result<Student, Error>)
      requires db.Valid()
      modifies db
      ensures db.Valid()
      ensures ValidateBasicInfo(name, age, course, roll).Some? ==>
                r == Failure(ValidateBasicInfo(name, age, course, roll).value)
      ensures ValidateBasicInfo(name, age, course, roll).None? && RollTaken(old(db.students), roll.value) ==>
                r == Failure(DuplicateRoll("Roll already exists."))
      ensures r.Failure? ==> unchanged(db)
      ensures r.Success? <==> ValidateBasicInfo(name, age, course, roll).None? && !RollTaken(old(db.students), roll.value)
      ensures r.Success? ==>
                && fresh(r.value) && r.value.id == old(db.nextId)
                && r.value.Data() == StudentData(Trim(name.value), age, Trim(course.value), Trim(roll.value))
                && db.students == old(db.students)[r.value.id := r.value.Data()]
                && db.nextId == old(db.nextId) + 1
                && db.marks == old(db.marks) && db.attendance == old(db.attendance)
      ensures RollsUnique(old(db.students)) && (roll.Some? ==> Trim(roll.value) == roll.value) ==>
                RollsUnique(db.students)
    {
      var invalid := ValidateBasicInfo(name, age, course, roll);
      if invalid.Some? {
        return Failure(invalid.value);
      }
      var existing := db.GetStudentByRoll(roll.value);
      if existing != null {
        return Failure(DuplicateRoll("Roll already exists."));
      }
      var s := new Student.Unsaved(Trim(name.value), age, Trim(course.value), Trim(roll.value));
      ghost var before := db.students;
      db.InsertStudent(s);
      if RollsUnique(before) && Trim(roll.value) == roll.value {
        AddStudentKeepsRollsUnique(before, s.id, name.value, age, course.value, roll.value);
      }
      return Success(s);
    }

    /** updateStudent: false for an unknown id; otherwise applies the
        supplied fields, rejects a trimmed roll held by another student, and
        writes the row back. */
    method UpdateStudent(id: int, name: Option<string>, age: Option<int>, course: Option<string>, roll: Option<string>)
      returns (r: Result<bool, Error>)
      requires db.Valid()
      modifies db
      ensures db.Valid()
      ensures id !in old(db.students) ==> r == Success(false)
      ensures r.Failure? ==>
                && r == Failure(DuplicateRoll("Another student already has this roll."))
                && id in old(db.students) && RollConflict(old(db.students), id, roll)
      ensures (id in old(db.students) && RollConflict(old(db.students), id, roll)
               && old(db.students)[id].roll != Trim(roll.value)) ==> r.Failure?
      ensures id in old(db.students) && !RollConflict(old(db.students), id, roll) ==> r == Success(true)
      ensures r != Success(true) ==> unchanged(db)
      ensures r == Success(true) ==>
                && id in old(db.students)
                && db.students == old(db.students)[id := ApplyChanges(old(db.students)[id], name, age, course, roll)]
                && db.nextId == old(db.nextId) && db.marks == old(db.marks) && db.attendance == old(db.attendance)
      ensures RollsUnique(old(db.students)) ==> RollsUnique(db.students)
    {
      var s := db.GetStudentById(id);
      if s == null {
        return Success(false);
      }
      ghost var before := db.students;
      ApplyBasicFields(s, name, age, course);
      if Supplied(roll) {
        var trimmed := Trim(roll.value);
        var other := db.GetStudentByRoll(trimmed);
        if other != null && other.id != id {
          assert before[other.id].roll == trimmed;
          return Failure(DuplicateRoll("Another student already has this roll."));
        }
        assert !RollConflict(before, id, roll) || before[id].roll == trimmed;
        s.SetRoll(trimmed);
      }
      assert s.Data() == ApplyChanges(before[id], name, age, course, roll);
      var ok := db.UpdateStudent(s);
      if RollsUnique(before) {
        UpdateKeepsRollsUnique(before, id, name, age, course, roll);
      }
      return Success(ok);
    }

    /** The first three steps of updateStudent: each supplied name or course
        is set trimmed and a present positive age is set; id and roll stay. */
    method ApplyBasicFields(s: Student, name: Option<string>, age: Option<int>, course: Option<string>)
      modifies s
      ensures s.id == old(s.id) && s.roll == old(s.roll)
      ensures s.name == Revise(old(s.name), name) && s.course == Revise(old(s.course), course)
      ensures s.age == if age.Some? && age.value > 0 then age.value else old(s.age)
    {
      if Supplied(name) {
        s.SetName(Trim(name.value));
      }
      if age.Some? && age.value > 0 {
        s.SetAge(age.value);
      }
      if Supplied(course) {
        s.SetCourse(Trim(course.value));
      }
    }

    /** deleteStudent: true exactly when a student was removed. */
    method DeleteStudent(id: int) returns (ok: bool)
      requires db.Valid()
      modifies db
      ensures db.Valid()
      ensures ok == (id in old(db.students))
      ensures db.students == old(db.students) - {id}
      ensures db.nextId == old(db.nextId) && db.marks == old(db.marks) && db.attendance == old(db.attendance)
      ensures AllWellFormed(old(db.students)) ==> AllWellFormed(db.students)
      ensures RollsUnique(old(db.students)) ==> RollsUnique(db.students)
    {
      ok := db.DeleteStudent(id);
    }

    /** addOrUpdateMark: rejects a blank subject and a mark outside [0, 100],
        answers false for an unknown student, and otherwise sets the mark of
        (student, trimmed subject). */
    method AddOrUpdateMark(studentId: int, subject: Option<string>, marks: real)
      returns (r: Result<bool, Error>)
      requires db.Valid()
      modifies db
      ensures db.Valid()
      ensures !Supplied(subject) ==> r == Failure(Validation("Subject required."))
      ensures Supplied(subject) && (marks < 0.0 || marks > 100.0) ==> r == Failure(Validation("Marks must be 0..100."))
      ensures Supplied(subject) && 0.0 <= marks <= 100.0 ==> r == Success(studentId in old(db.students))
      ensures r != Success(true) ==> unchanged(db)
      ensures r == Success(true) ==>
                && db.marks == old(db.marks)[(studentId, Trim(subject.value)) := marks]
                && db.students == old(db.students) && db.nextId == old(db.nextId)
                && db.attendance == old(db.attendance)
      ensures MarksWellFormed(old(db.marks)) ==> MarksWellFormed(db.marks)
    {
      if !Supplied(subject) {
        return Failure(Validation("Subject required."));
      }
      if marks < 0.0 || marks > 100.0 {
        return Failure(Validation("Marks must be 0..100."));
      }
      var s := db.GetStudentById(studentId);
      if s == null {
        return Success(false);
      }
      ghost var before := db.marks;
      db.UpsertMark(studentId, Trim(subject.value), marks);
      if MarksWellFormed(before) {
        UpsertKeepsMarksWellFormed(before, studentId, subject, marks);
      }
      return Success(true);
    }

    /** buildResultCard: the fixed message for an unknown id; otherwise the
        card, with the warning exactly when attendance is below 75%. */
    method BuildResultCard(studentId: int) returns (card: ResultCard)
      ensures studentId !in db.students <==> card == NotFound("Student not found.")
      ensures studentId in db.students ==>
                && card.Card?
                && card.student == Describe(studentId, db.students[studentId])
                && (card.hasMarks <==> !forall subject :: (studentId, subject) !in db.marks)
                && card.attendance == AttendanceOf(db.attendance, studentId)
                && (card.warning <==> AttendancePercentage(card.attendance) < 75.0)
    {
      var s := db.GetStudentById(studentId);
      if s == null {
        return NotFound("Student not found.");
      }
      var m := db.GetMarksForStudent(studentId);
      var att := db.GetAttendance(studentId);
      var attPct := db.GetAttendancePercentage(studentId);
      var text := s.ToString();
      card := Card(text, m != map[], att, attPct < 75.0);
      MarksOfEmpty(db.marks, studentId);
    }

    /** updateAttendance: rejects negative deltas and more present days than
        days, answers false for an unknown student, and otherwise adds both
        deltas to the student's counters. */
    method UpdateAttendance(studentId: int, addPresent: int, addTotal: int)
      returns (r: Result<bool, Error>)
      requires db.Valid()
      modifies db
      ensures db.Valid()
      ensures addPresent < 0 || addTotal < 0 ==> r == Failure(Validation("Days cannot be negative."))
      ensures 0 <= addTotal < addPresent ==> r == Failure(Validation("Present cannot exceed total."))
      ensures 0 <= addPresent <= addTotal ==> r == Success(studentId in old(db.students))
      ensures r != Success(true) ==> unchanged(db)
      ensures r == Success(true) ==>
                && 0 <= addPresent <= addTotal
                && db.attendance == old(db.attendance)[studentId :=
                     Accumulate(AttendanceOf(old(db.attendance), studentId), addPresent, addTotal)]
                && db.students == old(db.students) && db.nextId == old(db.nextId) && db.marks == old(db.marks)
      ensures AttendanceConsistent(old(db.attendance)) ==> AttendanceConsistent(db.attendance)
    {
      if addPresent < 0 || addTotal < 0 {
        return Failure(Validation("Days cannot be negative."));
      }
      if addPresent > addTotal {
        return Failure(Validation("Present cannot exceed total."));
      }
      var s := db.GetStudentById(studentId);
      if s == null {
        return Success(false);
      }
      ghost var before := db.attendance;
      db.AddAttendance(studentId, addPresent, addTotal);
      if AttendanceConsistent(before) {
        AccumulateKeepsConsistent(before, studentId, addPresent, addTotal);
      }
      return Success(true);
    }

    /** buildSummaryReport: the number of students, the pass count, the fail
        count as their difference, and the highest scorer or "N/A". */
    method BuildSummaryReport() returns (report: SummaryReport)
      ensures report.total == |db.students| && report.pass == |db.Passing()|
      ensures report.fail == report.total - report.pass && report.fail >= 0
      ensures report.highestScorer == "N/A" <==> db.students == map[]
      ensures db.students == map[] ==> report == SummaryReport(0, 0, 0, "N/A")
      ensures db.students != map[] ==>
                exists k :: k in db.students
                  && report.highestScorer == ScorerLabel(k, db.students[k])
                  && forall j :: j in db.students ==> db.Score(j) <= db.Score(k)
    {
      var total := db.CountStudents();
      var pass := db.GetPassCount();
      var fail := total - pass;
      var highest := db.GetHighestScorer();
      var scorer;
      if highest != null {
        scorer := ScorerLabel(highest.id, highest.Data());
      } else {
        scorer := "N/A";
      }
      report := SummaryReport(total, pass, fail, scorer);
    }

    /** addStudent with the duplicate lookup made on the trimmed roll, the
        roll that is actually stored. */
    method AddStudentTrimmedRoll(name: Option<string>, age: int, course: Option<string>, roll: Option<string>)
      returns (r: Result<Student, Error>)
      requires db.Valid()
      modifies db
      ensures db.Valid()
      ensures ValidateBasicInfo(name, age, course, roll).Some? ==>
                r == Failure(ValidateBasicInfo(name, age, course, roll).value)
      ensures ValidateBasicInfo(name, age, course, roll).None? && RollTaken(old(db.students), Trim(roll.value)) ==>
                r == Failure(DuplicateRoll("Roll already exists."))
      ensures r.Failure? ==> unchanged(db)
      ensures r.Success? <==> ValidateBasicInfo(name, age, course, roll).None? && !RollTaken(old(db.students), Trim(roll.value))
      ensures r.Success? ==>
                && fresh(r.value) && r.value.id == old(db.nextId)
                && r.value.Data() == StudentData(Trim(name.value), age, Trim(course.value), Trim(roll.value))
                && db.students == old(db.students)[r.value.id := r.value.Data()]
                && db.nextId == old(db.nextId) + 1
                && db.marks == old(db.marks) && db.attendance == old(db.attendance)
      ensures RollsUnique(old(db.students)) ==> RollsUnique(db.students)
    {
      var invalid := ValidateBasicInfo(name, age, course, roll);
      if invalid.Some? {
        return Failure(invalid.value);
      }
      var existing := db.GetStudentByRoll(Trim(roll.value));
      if existing != null {
        return Failure(DuplicateRoll("Roll already exists."));
      }
      var s := new Student.Unsaved(Trim(name.value), age, Trim(course.value), Trim(roll.value));
      ghost var before := db.students;
      db.InsertStudent(s);
      if RollsUnique(before) {
        InsertKeepsRollsUnique(before, s.id, s.Data());
      }
      return Success(s);
    }
  }
}
