/** The rules the record manager enforces, stated over values: field
    validation, the partial update of a student, and the invariants of the
    student, mark and attendance tables that the manager's operations keep. */
module Rules {
  import opened Wrappers
  import opened Text
  import opened StudentModel
  import opened Store

  /** IllegalArgumentException, split by the rule that was broken. */
  datatype Error = Validation(message: string) | DuplicateRoll(message: string)

  /** A nullable string argument that is non-null and not blank. */
  predicate Supplied(s: Option<string>) {
    s.Some? && !IsBlank(s.value)
  }

  /** validateBasicInfo: checks name, age, course and roll in that order and
      reports the first that fails. */
  function ValidateBasicInfo(name: Option<string>, age: int, course: Option<string>, roll: Option<string>): (r: Option<Error>)
    ensures r.None? <==> Supplied(name) && age > 0 && Supplied(course) && Supplied(roll)
    ensures r == Some(Validation("Name required.")) <==> !Supplied(name)
    ensures r == Some(Validation("Age must be positive.")) <==> Supplied(name) && age <= 0
    ensures r == Some(Validation("Course required.")) <==> Supplied(name) && age > 0 && !Supplied(course)
    ensures r == Some(Validation("Roll required.")) <==> Supplied(name) && age > 0 && Supplied(course) && !Supplied(roll)
  {
    if !Supplied(name) then Some(Validation("Name required."))
    else if age <= 0 then Some(Validation("Age must be positive."))
    else if !Supplied(course) then Some(Validation("Course required."))
    else if !Supplied(roll) then Some(Validation("Roll required."))
    else None
  }

  /** A text field as the manager stores it: non-empty, and neither its
      first nor its last character is whitespace (CleanIffTrimmedNotBlank:
      not blank, and its own trim). */
  predicate Clean(s: string) {
    s != [] && !IsWhitespace(s[0]) && !IsWhitespace(s[|s| - 1])
  }

  /** The columns of a student as the manager writes them: clean name,
      course and roll, positive age. */
  predicate WellFormed(d: StudentData) {
    Clean(d.name) && d.age > 0 && Clean(d.course) && Clean(d.roll)
  }

  /** One text field under a partial update: a supplied value replaces it
      trimmed, anything else keeps it. The field is clean afterwards when it
      was clean before or a value was supplied. */
  function Revise(current: string, given: Option<string>): (r: string)
    ensures Supplied(given) ==> r == Trim(given.value)
    ensures !Supplied(given) ==> r == current
    ensures Clean(current) || Supplied(given) ==> Clean(r)
  {
    if Supplied(given) then Trim(given.value) else current
  }

  /** The roll given to updateStudent is supplied and, trimmed, belongs to
      a stored student other than id. */
  predicate RollConflict(students: map<int, StudentData>, id: int, roll: Option<string>) {
    Supplied(roll) && RollTakenByOther(students, id, Trim(roll.value))
  }

  /** Every stored student is well formed. */
  predicate AllWellFormed(students: map<int, StudentData>) {
    forall k :: k in students ==> WellFormed(students[k])
  }

  /** The partial update of updateStudent: each text field is revised, a
      present positive age replaces the age, and everything else is kept; a
      well-formed student stays well formed. */
  function ApplyChanges(d: StudentData, name: Option<string>, age: Option<int>,
                        course: Option<string>, roll: Option<string>): (r: StudentData)
    ensures !Supplied(name) ==> r.name == d.name
    ensures !(age.Some? && age.value > 0) ==> r.age == d.age
    ensures !Supplied(course) ==> r.course == d.course
    ensures !Supplied(roll) ==> r.roll == d.roll
    ensures WellFormed(d) ==> WellFormed(r)
  {
    StudentData(
      Revise(d.name, name),
      if age.Some? && age.value > 0 then age.value else d.age,
      Revise(d.course, course),
      Revise(d.roll, roll))
  }

  /** Every stored mark lies in [0, 100] under a clean subject. */
  predicate MarksWellFormed(marks: map<(int, string), real>) {
    forall p :: p in marks ==> 0.0 <= marks[p] <= 100.0 && Clean(p.1)
  }

  /** No student was present on more days than were counted. */
  predicate AttendanceConsistent(attendance: map<int, Attendance>) {
    forall k :: k in attendance ==> attendance[k].present <= attendance[k].total
  }

  /** A clean field is exactly one that is not blank and that trim leaves
      as it is. */
  lemma CleanIffTrimmedNotBlank(s: string)
    ensures Clean(s) <==> !IsBlank(s) && Trim(s) == s
  {
    if Clean(s) {
      assert TrimStart(s) == s;
      assert TrimEnd(s) == s;
    }
  }

  /** Revising twice with the same value is revising once. */
  lemma ReviseIdempotent(current: string, given: Option<string>)
    ensures Revise(Revise(current, given), given) == Revise(current, given)
  {
  }

  /** What addStudent stores after validation is well formed. */
  lemma ValidatedIsWellFormed(name: Option<string>, age: int, course: Option<string>, roll: Option<string>)
    requires ValidateBasicInfo(name, age, course, roll).None?
    ensures WellFormed(StudentData(Trim(name.value), age, Trim(course.value), Trim(roll.value)))
  {
  }

  /** addStudent keeps every stored student well formed. */
  lemma AddStudentKeepsAllWellFormed(students: map<int, StudentData>, id: int, name: Option<string>,
                                     age: int, course: Option<string>, roll: Option<string>)
    requires AllWellFormed(students) && ValidateBasicInfo(name, age, course, roll).None?
    ensures AllWellFormed(students[id := StudentData(Trim(name.value), age, Trim(course.value), Trim(roll.value))])
  {
    ValidatedIsWellFormed(name, age, course, roll);
  }

  /** updateStudent keeps every stored student well formed. */
  lemma UpdateKeepsAllWellFormed(students: map<int, StudentData>, id: int, name: Option<string>,
                                 age: Option<int>, course: Option<string>, roll: Option<string>)
    requires AllWellFormed(students) && id in students
    ensures AllWellFormed(students[id := ApplyChanges(students[id], name, age, course, roll)])
  {
  }

  /** Applying the same partial update twice is applying it once. */
  lemma ApplyChangesIdempotent(d: StudentData, name: Option<string>, age: Option<int>,
                               course: Option<string>, roll: Option<string>)
    ensures var once := ApplyChanges(d, name, age, course, roll);
            ApplyChanges(once, name, age, course, roll) == once
  {
    ReviseIdempotent(d.name, name);
    ReviseIdempotent(d.course, course);
    ReviseIdempotent(d.roll, roll);
  }

  /** An update that supplies only an age changes the age alone, and only
      when that age is positive. */
  lemma AgeOnlyUpdate(d: StudentData, age: int)
    ensures ApplyChanges(d, None, Some(age), None, None)
            == if age > 0 then d.(age := age) else d
  {
  }

  /** Inserting a student whose roll nobody has keeps rolls unique. */
  lemma InsertKeepsRollsUnique(students: map<int, StudentData>, id: int, d: StudentData)
    requires RollsUnique(students) && id !in students && !RollTaken(students, d.roll)
    ensures RollsUnique(students[id := d])
  {
  }

  /** addStudent looks the roll up as given and stores it trimmed; rolls
      stay unique when the given roll was already trimmed. */
  lemma AddStudentKeepsRollsUnique(students: map<int, StudentData>, id: int,
                                   name: string, age: int, course: string, roll: string)
    requires RollsUnique(students) && id !in students && !RollTaken(students, roll)
    requires Trim(roll) == roll
    ensures RollsUnique(students[id := StudentData(Trim(name), age, Trim(course), Trim(roll))])
  {
    InsertKeepsRollsUnique(students, id, StudentData(Trim(name), age, Trim(course), Trim(roll)));
  }

  /** " R1 " is a roll that is not blank and trims to "R1". */
  lemma PaddedRoll()
    ensures !IsBlank(" R1 ") && Trim(" R1 ") == "R1"
  {
    assert " R1 "[1..] == "R1 ";
    assert !IsWhitespace("R1 "[0]);
    assert TrimStart("R1 ") == "R1 ";
    assert TrimStart(" R1 ") == "R1 ";
    assert "R1 "[..2] == "R1";
    assert !IsWhitespace("R1"[1]);
    assert TrimEnd("R1") == "R1";
    assert TrimEnd("R1 ") == "R1";
  }

  /** In a store of well-formed students, a supplied roll that trim would
      change is held by nobody, so addStudent's lookup of it as given finds
      nothing; when its trimmed form is already stored, the insert of the
      trimmed row duplicates that roll. */
  lemma UntrimmedLookupMisses(students: map<int, StudentData>, id: int, newId: int, d: StudentData,
                              roll: string, trimmed: string)
    requires AllWellFormed(students) && id in students && newId !in students
    requires !IsBlank(roll) && trimmed == Trim(roll) && trimmed != roll && students[id].roll == trimmed
    ensures !RollTaken(students, roll)
    ensures !RollsUnique(students[newId := d.(roll := trimmed)])
  {
    CleanIffTrimmedNotBlank(roll);
    if k :| k in students && students[k].roll == roll {
      CleanIffTrimmedNotBlank(students[k].roll);
      assert false;
    }
    var added := students[newId := d.(roll := trimmed)];
    assert id != newId && added[id].roll == added[newId].roll;
  }

  /** The padded registration of the counterexample passes validation. */
  lemma PaddedRegistrationValid()
    ensures ValidateBasicInfo(Some("Ravi"), 21, Some("CS"), Some(" R1 ")).None?
  {
    assert " R1 "[1..] == "R1 ";
    NotBlankByHead("R1 ");
    NotBlankByHead("Ravi");
    NotBlankByHead("CS");
  }

  /** A string whose first character is not whitespace is not blank. */
  lemma NotBlankByHead(s: string)
    requires s != [] && !IsWhitespace(s[0])
    ensures !IsBlank(s)
  {
  }

  /** The stored student of the counterexample is well formed. */
  lemma StoredExampleWellFormed()
    ensures WellFormed(StudentData("Asha", 20, "CS", "R1"))
  {
    NotBlankByHead("Asha");
    NotBlankByHead("CS");
    NotBlankByHead("R1");
  }

  /** The store of the counterexample has unique rolls. */
  lemma StoredExampleUnique()
    ensures RollsUnique(map[1 := StudentData("Asha", 20, "CS", "R1")])
  {
    var students := map[1 := StudentData("Asha", 20, "CS", "R1")];
    assert students.Keys == {1};
  }

  /** In the counterexample the lookup of " R1 " misses the stored "R1",
      and the insert of its trimmed form duplicates it. */
  lemma PaddedRollSlipsThrough()
    ensures var students := map[1 := StudentData("Asha", 20, "CS", "R1")];
            && !RollTaken(students, " R1 ")
            && !RollsUnique(students[2 := StudentData("Ravi", 21, "CS", "R1")])
  {
    var padded, stored := " R1 ", StudentData("Asha", 20, "CS", "R1");
    var students := map[1 := stored];
    assert AllWellFormed(students) by {
      StoredExampleWellFormed();
      assert students.Keys == {1};
    }
    assert !IsBlank(padded) && Trim(padded) == stored.roll by { PaddedRoll(); }
    assert stored.roll != padded by { assert |padded| != |stored.roll|; }
    UntrimmedLookupMisses(students, 1, 2, StudentData("Ravi", 21, "CS", padded), padded, stored.roll);
  }

  /** With "R1" stored, addStudent("Ravi", 21, "CS", " R1 ") passes
      validation and the lookup, and its insert duplicates roll "R1". */
  lemma UntrimmedRollAdmitsDuplicate()
    ensures var students := map[1 := StudentData("Asha", 20, "CS", "R1")];
            && RollsUnique(students)
            && ValidateBasicInfo(Some("Ravi"), 21, Some("CS"), Some(" R1 ")).None?
            && !RollTaken(students, " R1 ")
            && !RollsUnique(students[2 := StudentData("Ravi", 21, "CS", Trim(" R1 "))])
  {
    StoredExampleUnique();
    PaddedRegistrationValid();
    PaddedRoll();
    PaddedRollSlipsThrough();
  }

  /** With unique rolls, a conflicting roll never belongs to the student
      being updated, so updateStudent's duplicate check has one outcome. */
  lemma ConflictIsAnotherStudent(students: map<int, StudentData>, id: int, roll: string)
    requires RollsUnique(students) && id in students && RollTakenByOther(students, id, roll)
    ensures students[id].roll != roll
  {
  }

  /** A partial update that passes the duplicate check keeps rolls unique. */
  lemma UpdateKeepsRollsUnique(students: map<int, StudentData>, id: int, name: Option<string>,
                               age: Option<int>, course: Option<string>, roll: Option<string>)
    requires RollsUnique(students) && id in students
    requires !RollConflict(students, id, roll)
    ensures RollsUnique(students[id := ApplyChanges(students[id], name, age, course, roll)])
  {
  }

  /** A mark stored under a validated subject and in range keeps the mark
      table well formed. */
  lemma UpsertKeepsMarksWellFormed(marks: map<(int, string), real>, id: int, subject: Option<string>, mark: real)
    requires MarksWellFormed(marks) && Supplied(subject) && 0.0 <= mark <= 100.0
    ensures MarksWellFormed(marks[(id, Trim(subject.value)) := mark])
  {
  }

  /** Adding validated deltas keeps present <= total. */
  lemma AccumulateKeepsConsistent(attendance: map<int, Attendance>, id: int, present: nat, total: nat)
    requires AttendanceConsistent(attendance) && present <= total
    ensures AttendanceConsistent(attendance[id := Accumulate(AttendanceOf(attendance, id), present, total)])
  {
  }

  /** Attendance accumulates: two additions are one addition of the sums. */
  lemma AccumulateAdds(a: Attendance, p1: nat, t1: nat, p2: nat, t2: nat)
    ensures Accumulate(Accumulate(a, p1, t1), p2, t2) == Accumulate(a, p1 + p2, t1 + t2)
  {
  }

  /** The attendance warning is due exactly when nothing is recorded or
      fewer than three days in four were attended. */
  lemma WarningCondition(a: Attendance)
    ensures AttendancePercentage(a) < 75.0 <==> a.total == 0 || 4 * a.present < 3 * a.total
  {
    if a.total != 0 {
      var p, t := a.present as real, a.total as real;
      QuotientBelow(100.0 * p, t, 75.0);
      assert (4 * a.present) as real == 4.0 * p && (3 * a.total) as real == 3.0 * t;
    }
  }
}
