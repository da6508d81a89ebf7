/** The storage collaborator of the record manager, as an in-memory store.

    The real store is a SQL database; this class keeps the same tables as
    maps and gives each query and update the contract the manager relies on.
    Like a JDBC query, a lookup hands back a freshly built Student object. */
module Store {
  import opened Wrappers
  import opened StudentModel

  /** Cumulative attendance of one student. */
  datatype Attendance = Attendance(present: nat, total: nat)

  /** What a student without an attendance row counts as. */
  const NoAttendance := Attendance(0, 0)

  /** Some stored student has this roll. */
  predicate RollTaken(students: map<int, StudentData>, roll: string) {
    exists k :: k in students && students[k].roll == roll
  }

  /** Some stored student other than id has this roll. */
  predicate RollTakenByOther(students: map<int, StudentData>, id: int, roll: string) {
    exists k :: k in students && k != id && students[k].roll == roll
  }

  /** No two stored students share a roll. */
  predicate RollsUnique(students: map<int, StudentData>) {
    forall j, k :: j in students && k in students && j != k ==> students[j].roll != students[k].roll
  }

  /** The attendance counters of a student; zero when nothing is recorded. */
  function AttendanceOf(attendance: map<int, Attendance>, id: int): Attendance {
    if id in attendance then attendance[id] else NoAttendance
  }

  /** Adds attendance deltas to the counters: both only grow, the days
      absent grow by the absent days of the deltas, and present <= total
      is kept when the deltas keep it. */
  function Accumulate(a: Attendance, present: nat, total: nat): (r: Attendance)
    ensures a.present <= r.present && a.total <= r.total
    ensures r.total - r.present == (a.total - a.present) + (total - present)
    ensures a.present <= a.total && present <= total ==> r.present <= r.total
  {
    Attendance(a.present + present, a.total + total)
  }

  /** Attendance as a percentage: 0 when no day is recorded, never
      negative, and at most 100 when present <= total. */
  function AttendancePercentage(a: Attendance): (pct: real)
    ensures a.total == 0 ==> pct == 0.0
    ensures 0.0 <= pct
    ensures a.present <= a.total ==> pct <= 100.0
  {
    if a.total == 0 then 0.0
    else
      var p, t := a.present as real, a.total as real;
      QuotientBelow(100.0 * p, t, 0.0);
      QuotientBelow(100.0 * p, t, 100.0);
      100.0 * p / t
  }

  /** Scaling by a positive factor keeps the order. */
  lemma ScaledOrder(x: real, y: real, t: real)
    requires t > 0.0
    ensures x < y <==> x * t < y * t
    ensures x <= y <==> x * t <= y * t
  {
    assert (y - x) * t == y * t - x * t;
  }

  /** A quotient by a positive divisor compares with c as the dividend
      compares with c times the divisor. */
  lemma QuotientBelow(n: real, t: real, c: real)
    requires t > 0.0
    ensures n / t < c <==> n < c * t
    ensures n / t <= c <==> n <= c * t
  {
    var q := n / t;
    assert q * t == n;
    ScaledOrder(q, c, t);
  }

  /** The marks of one student, by subject. */
  function MarksOf(marks: map<(int, string), real>, id: int): (m: map<string, real>)
    ensures forall subject :: subject in m <==> (id, subject) in marks
    ensures forall subject :: subject in m ==> m[subject] == marks[(id, subject)]
  {
    map p | p in marks && p.0 == id :: p.1 := marks[p]
  }

  /** A subset has at most as many elements as its superset. */
  lemma SubsetCardinality(a: set<int>, b: set<int>)
    requires a <= b
    ensures |a| <= |b|
  {
    assert b == a + (b - a);
  }

  /** A non-empty set has a member. */
  lemma NonEmptyHasMember(s: set<int>)
    requires s != {}
    ensures exists k :: k in s
  {
    assert (forall k :: k !in s) ==> s == {};
  }

  /** A student has a mark exactly when some subject is recorded for it. */
  lemma MarksOfEmpty(marks: map<(int, string), real>, id: int)
    ensures MarksOf(marks, id) == map[] <==> forall subject :: (id, subject) !in marks
  {
    var m := MarksOf(marks, id);
    assert (forall subject :: subject !in m) ==> m == map[];
  }

  class Database {
    var students: map<int, StudentData>
    var nextId: int
    var marks: map<(int, string), real>
    var attendance: map<int, Attendance>
    /** The overall percentage of a student's marks (configuration of the
        store's ranking and pass queries). */
    const percentage: map<string, real> -> real
    /** The percentage at or above which a student passes. */
    const passMark: real

    /** Ids come from a counter that only goes up, so every stored id is
        below it. */
    ghost predicate Valid()
      reads this
    {
      1 <= nextId && forall k :: k in students ==> 1 <= k < nextId
    }

    constructor (percentage: map<string, real> -> real, passMark: real)
      ensures Valid()
      ensures students == map[] && marks == map[] && attendance == map[] && nextId == 1
      ensures this.percentage == percentage && this.passMark == passMark
    {
      students, marks, attendance, nextId := map[], map[], map[], 1;
      this.percentage, this.passMark := percentage, passMark;
    }

    /** The overall percentage of student id. */
    function Score(id: int): real
      reads this
    {
      percentage(MarksOf(marks, id))
    }

    /** The ids of the students whose percentage reaches the pass mark. */
    function Passing(): (ids: set<int>)
      reads this
      ensures ids <= students.Keys
    {
      set k | k in students && Score(k) >= passMark
    }

    /** getStudentById: a new object holding the stored row, or null. */
    method GetStudentById(id: int) returns (s: Student?)
      ensures s == null <==> id !in students
      ensures s != null ==> fresh(s) && s.id == id && s.Data() == students[id]
    {
      if id in students {
        var d := students[id];
        s := new Student(id, d.name, d.age, d.course, d.roll);
      } else {
        s := null;
      }
    }

    /** getStudentByRoll: some student with exactly this roll, or null. */
    method GetStudentByRoll(roll: string) returns (s: Student?)
      ensures s == null <==> !RollTaken(students, roll)
      ensures s != null ==> fresh(s) && s.id in students && s.Data() == students[s.id] && s.roll == roll
    {
      if k :| k in students && students[k].roll == roll {
        var d := students[k];
        s := new Student(k, d.name, d.age, d.course, d.roll);
      } else {
        s := null;
      }
    }

    /** The number of rows getAllStudents returns. */
    method CountStudents() returns (n: nat)
      ensures n == |students|
    {
      n := |students|;
    }

    /** insertStudent: stores the row under a new id and sets s's id to it. */
    method InsertStudent(s: Student)
      requires Valid()
      modifies this, s
      ensures Valid()
      ensures s.id == old(nextId) && s.Data() == old(s.Data())
      ensures students == old(students)[s.id := s.Data()] && old(nextId) !in old(students)
      ensures nextId == old(nextId) + 1
      ensures marks == old(marks) && attendance == old(attendance)
    {
      s.SetId(nextId);
      students := students[nextId := s.Data()];
      nextId := nextId + 1;
    }

    /** updateStudent: overwrites the row of s's id, when there is one. */
    method UpdateStudent(s: Student) returns (ok: bool)
      requires Valid()
      modifies this
      ensures Valid()
      ensures ok == (s.id in old(students))
      ensures students == if ok then old(students)[s.id := s.Data()] else old(students)
      ensures nextId == old(nextId) && marks == old(marks) && attendance == old(attendance)
    {
      ok := s.id in students;
      if ok {
        students := students[s.id := s.Data()];
      }
    }

    /** deleteStudent: removes the row of id, when there is one. */
    method DeleteStudent(id: int) returns (ok: bool)
      requires Valid()
      modifies this
      ensures Valid()
      ensures ok == (id in old(students))
      ensures students == old(students) - {id}
      ensures nextId == old(nextId) && marks == old(marks) && attendance == old(attendance)
    {
      ok := id in students;
      students := students - {id};
    }

    /** upsertMark: the mark of (id, subject) becomes mark. */
    method UpsertMark(id: int, subject: string, mark: real)
      requires Valid()
      modifies this
      ensures Valid()
      ensures marks == old(marks)[(id, subject) := mark]
      ensures students == old(students) && nextId == old(nextId) && attendance == old(attendance)
    {
      marks := marks[(id, subject) := mark];
    }

    /** addAttendance: adds the deltas to the counters of id. */
    method AddAttendance(id: int, present: nat, total: nat)
      requires Valid()
      modifies this
      ensures Valid()
      ensures attendance == old(attendance)[id := Accumulate(AttendanceOf(old(attendance), id), present, total)]
      ensures students == old(students) && nextId == old(nextId) && marks == old(marks)
    {
      attendance := attendance[id := Accumulate(AttendanceOf(attendance, id), present, total)];
    }

    /** getMarksForStudent. */
    method GetMarksForStudent(id: int) returns (m: map<string, real>)
      ensures m == MarksOf(marks, id)
    {
      m := MarksOf(marks, id);
    }

    /** getAttendance: the counters of id, zero when none are recorded. */
    method GetAttendance(id: int) returns (a: Attendance)
      ensures a == AttendanceOf(attendance, id)
    {
      a := AttendanceOf(attendance, id);
    }

    /** getAttendancePercentage. */
    method GetAttendancePercentage(id: int) returns (pct: real)
      ensures pct == AttendancePercentage(AttendanceOf(attendance, id))
    {
      pct := AttendancePercentage(AttendanceOf(attendance, id));
    }

    /** getPassCount. */
    method GetPassCount() returns (n: nat)
      ensures n == |Passing()| && n <= |students|
    {
      SubsetCardinality(Passing(), students.Keys);
      n := |Passing()|;
    }

    /** The id of a student with the highest percentage; None when no
        student is stored. */
    method TopScorer() returns (best: Option<int>)
      ensures best.None? <==> students == map[]
      ensures best.Some? ==> best.value in students
      ensures best.Some? ==> forall k :: k in students ==> Score(k) <= Score(best.value)
    {
      var rest := students.Keys;
      best := None;
      while rest != {}
        invariant rest <= students.Keys
        invariant best.None? <==> rest == students.Keys
        invariant best.Some? ==> best.value in students
        invariant best.Some? ==> forall k :: k in students && k !in rest ==> Score(k) <= Score(best.value)
        decreases rest
      {
        NonEmptyHasMember(rest);
        var k :| k in rest;
        if best.None? || Score(best.value) < Score(k) {
          best := Some(k);
        }
        rest := rest - {k};
      }
    }

    /** getHighestScorer: a new object for a top-scoring student, or null. */
    method GetHighestScorer() returns (s: Student?)
      ensures s == null <==> students == map[]
      ensures s != null ==> fresh(s) && s.id in students && s.Data() == students[s.id]
      ensures s != null ==> forall k :: k in students ==> Score(k) <= Score(s.id)
    {
      var best := TopScorer();
      if best.Some? {
        s := GetStudentById(best.value);
      } else {
        s := null;
      }
    }
  }
}
