/** The student entity: a storage id and four descriptive fields, with
    getters, setters and a one-line textual form. */
module StudentModel {
  import opened Decimal

  /** The persisted columns of a student, everything but the id. */
  datatype StudentData = StudentData(name: string, age: int, course: string, roll: string)

  /** The id a student carries before storage assigns one. */
  const UnsavedId := -1

  /** t is the toString text of a student with this id and these columns:
      the tag, the id, then each column behind its label in the order name,
      age, course, roll, and the closing bracket. */
  predicate ShowsStudent(t: string, id: int, d: StudentData) {
    var name := 11 + |IntText(id)|;
    var age := name + 7 + |d.name|;
    var course := age + 6 + |IntText(d.age)|;
    var roll := course + 9 + |d.course|;
    && |t| == roll + 7 + |d.roll| + 1
    && t[..11] == "Student[ID="
    && t[11..name] == IntText(id)
    && t[name..age] == ", Name=" + d.name
    && t[age..course] == ", Age=" + IntText(d.age)
    && t[course..roll] == ", Course=" + d.course
    && t[roll..] == ", Roll=" + d.roll + "]"
  }

  /** Student.toString for a student with the given id and columns: the
      layout above, with an id segment that reads back as the id. */
  function Describe(id: int, d: StudentData): (t: string)
    ensures ShowsStudent(t, id, d)
    ensures ParseInt(t[11..11 + |IntText(id)|]) == id
  {
    var tag, key := "Student[ID=", IntText(id);
    var name, age := ", Name=" + d.name, ", Age=" + IntText(d.age);
    var course, roll := ", Course=" + d.course, ", Roll=" + d.roll + "]";
    assert |tag| == 11 && |name| == 7 + |d.name| && |age| == 6 + |IntText(d.age)|;
    assert |course| == 9 + |d.course| && |roll| == 7 + |d.roll| + 1;
    SixParts(tag, key, name, age, course, roll);
    IntTextRoundTrip(id);
    tag + key + name + age + course + roll
  }

  /** Each of six concatenated strings is the slice of the whole that
      starts where the ones before it end. */
  lemma SixParts(a: string, b: string, c: string, d: string, e: string, f: string)
    ensures var t := a + b + c + d + e + f;
      var i, j, k := |a|, |a| + |b|, |a| + |b| + |c|;
      var l, m := k + |d|, k + |d| + |e|;
      && |t| == m + |f|
      && t[..i] == a && t[i..j] == b && t[j..k] == c
      && t[k..l] == d && t[l..m] == e && t[m..] == f
  {
    var t := a + b + c + d + e + f;
    SplitAt(a + b + c + d + e, f);
    SplitAt(a + b + c + d, e);
    SplitAt(a + b + c, d);
    SplitAt(a + b, c);
    SplitAt(a, b);
  }

  /** The two halves of a concatenation are its prefix and its suffix. */
  lemma SplitAt(a: string, b: string)
    ensures (a + b)[..|a|] == a && (a + b)[|a|..] == b
  {
  }

  class Student {
    var id: int
    var name: string
    var age: int
    var course: string
    var roll: string

    /** Student(int id, String name, int age, String course, String roll). */
    constructor (id: int, name: string, age: int, course: string, roll: string)
      ensures this.id == id && this.name == name && this.age == age
      ensures this.course == course && this.roll == roll
    {
      this.id := id;
      this.name := name;
      this.age := age;
      this.course := course;
      this.roll := roll;
    }

    /** Student(String name, int age, String course, String roll): not yet stored. */
    constructor Unsaved(name: string, age: int, course: string, roll: string)
      ensures id == UnsavedId
      ensures this.name == name && this.age == age && this.course == course && this.roll == roll
    {
      id := UnsavedId;
      this.name := name;
      this.age := age;
      this.course := course;
      this.roll := roll;
    }

    /** The persisted columns of this student. */
    function Data(): StudentData
      reads this
    {
      StudentData(name, age, course, roll)
    }

    method GetId() returns (r: int)
      ensures r == id
    {
      r := id;
    }

    method GetName() returns (r: string)
      ensures r == name
    {
      r := name;
    }

    method GetAge() returns (r: int)
      ensures r == age
    {
      r := age;
    }

    method GetCourse() returns (r: string)
      ensures r == course
    {
      r := course;
    }

    method GetRoll() returns (r: string)
      ensures r == roll
    {
      r := roll;
    }

    method SetId(id: int)
      modifies this
      ensures this.id == id && Data() == old(Data())
    {
      this.id := id;
    }

    method SetName(name: string)
      modifies this
      ensures this.name == name
      ensures id == old(id) && age == old(age) && course == old(course) && roll == old(roll)
    {
      this.name := name;
    }

    method SetAge(age: int)
      modifies this
      ensures this.age == age
      ensures id == old(id) && name == old(name) && course == old(course) && roll == old(roll)
    {
      this.age := age;
    }

    method SetCourse(course: string)
      modifies this
      ensures this.course == course
      ensures id == old(id) && name == old(name) && age == old(age) && roll == old(roll)
    {
      this.course := course;
    }

    method SetRoll(roll: string)
      modifies this
      ensures this.roll == roll
      ensures id == old(id) && name == old(name) && age == old(age) && course == old(course)
    {
      this.roll := roll;
    }

    /** Student.toString: the tag, the id (which reads back as the id) and
        the four columns, each behind its label. */
    function ToString(): (r: string)
      reads this
      ensures ShowsStudent(r, id, Data())
      ensures ParseInt(r[11..11 + |IntText(id)|]) == id
    {
      Describe(id, Data())
    }
  }
}
