# Student record manager

A Dafny model of the business layer of a student information system. The model covers
`StudentManager` and the `Student` entity it creates and edits. The manager checks its
inputs, keeps rolls unique, checks mark and attendance ranges, and hands everything it
stores to a storage collaborator. That collaborator (`DatabaseHelper`, a SQL database)
is not part of this model. It is replaced by `Store.Database`, an in-memory store with
these tables:

- `students: map<int, StudentData>`: one row per student id;
- `nextId`: the id counter, used and incremented by every insert;
- `marks: map<(int, string), real>`: the mark of a (student id, subject) pair;
- `attendance: map<int, Attendance>`: the cumulative present and total days of a student.

Like a JDBC query, a lookup in the store builds a new `Student` object from the stored
row. `updateStudent` edits that object with its setters and then writes it back.

Modules, one file each:

- `Wrappers`: `Option` stands for a Java reference that may be null, and `Result` for a
  value or a thrown exception.
- `Text`: `IsBlank` and `Trim`, the model of `String.isBlank` and `String.trim`.
- `Decimal`: the decimal text of an `int`, as `%d` and `StringBuilder.append(int)` write it.
- `StudentModel`: the `Student` class, and the `StudentData` row it holds apart from its id.
- `Store`: the storage collaborator.
- `Rules`: the validation and partial-update rules, stated over values, and the
  invariants of the tables, with the lemmas that the manager's updates keep them.
- `Manager`: the `StudentManager` class.

Each `IllegalArgumentException` of the source becomes a `Failure` with `Rules.Error`.
`Validation` covers a bad field and `DuplicateRoll` a roll clash; both keep the source's
message. On every failure the contract states `unchanged(db)`. An unknown id is a
normal result: `Success(false)` or the `NotFound("Student not found.")` card.

Java's `isBlank` and `trim` use different whitespace sets. The model gives both the
characters the two share: tab, line feed, vertical tab, form feed, carriage return,
U+001C to U+001F and space. With one set, a string is blank exactly when trimming
empties it (the contract of `Text.Trim`).
Marks are `real`, so the [0, 100] check is exact.

## Model

| member | source | states |
|---|---|---|
| Text.BlankIffAllWhitespace | src/StudentManager.java:135 | `isBlank(s)` holds exactly when every character of `s` is whitespace |
| Text.TrimStart | src/StudentManager.java:28 | `trim`'s first half keeps a suffix of the input that is empty or starts with a non-whitespace character |
| Text.TrimEnd | src/StudentManager.java:28 | `trim`'s second half keeps a prefix of the input that is empty or ends with a non-whitespace character |
| Text.TrimStartRemovesBlank | src/StudentManager.java:28 | all that is cut from the front is whitespace |
| Text.TrimEndRemovesBlank | src/StudentManager.java:28 | all that is cut from the end is whitespace |
| Text.Trim | src/StudentManager.java:19 | `trim` never lengthens; its result is empty exactly when the input is blank, and otherwise neither starts nor ends with whitespace |
| Text.TrimIdempotent | src/StudentManager.java:28 | trimming twice is trimming once |
| Decimal.NatText | src/Student.java:39-40 | the `%d` text of a natural number is a non-empty string of digits with no leading zero |
| Decimal.IntText | src/Student.java:39-40 | the `%d` text of an int starts with '-' exactly when the int is negative |
| Decimal.NatTextRoundTrip | src/Student.java:39-40 | reading the digits back gives the number |
| Decimal.IntTextRoundTrip | src/Student.java:39-40 | reading the text of an int back gives the int |
| Decimal.IntTextInjective | src/Student.java:39-40 | two different ints never have the same text |
| StudentModel.Describe | src/Student.java:38-41 | the `toString` text is `Student[ID=`, then the id text (which reads back as the id), then `, Name=` and the name, `, Age=` and the age text, `, Course=` and the course, `, Roll=` and the roll, and `]`, each at the position the lengths before it give |
| StudentModel.Student.constructor | src/Student.java:12-18 | the five-argument constructor stores each argument unchanged |
| StudentModel.Student.Unsaved | src/Student.java:20-22 | the four-argument constructor gives id -1 and stores the other arguments unchanged |
| StudentModel.Student.GetId | src/Student.java:24 | returns the id |
| StudentModel.Student.GetName | src/Student.java:27 | returns the name |
| StudentModel.Student.GetAge | src/Student.java:28 | returns the age |
| StudentModel.Student.GetCourse | src/Student.java:29 | returns the course |
| StudentModel.Student.GetRoll | src/Student.java:30 | returns the roll |
| StudentModel.Student.SetId | src/Student.java:25 | changes the id and leaves the four other fields as they were |
| StudentModel.Student.SetName | src/Student.java:32 | changes the name only |
| StudentModel.Student.SetAge | src/Student.java:33 | changes the age only |
| StudentModel.Student.SetCourse | src/Student.java:34 | changes the course only |
| StudentModel.Student.SetRoll | src/Student.java:35 | changes the roll only |
| StudentModel.Student.ToString | src/Student.java:38-41 | the object's text has the full layout of `Describe` for its own id and fields: tag, id, name, age, course and roll, each behind its label, in that order |
| Store.Accumulate | src/StudentManager.java:100 | adding deltas never lowers a counter; the absent days grow by exactly the absent days of the deltas; present ≤ total is kept when the deltas keep it |
| Store.AttendancePercentage | src/StudentManager.java:75 | the percentage is 0 when no day is recorded, never negative, and at most 100 when present ≤ total |
| Store.MarksOf | src/StudentManager.java:64 | a student's mark map holds exactly the subjects recorded for that id, with their marks |
| Store.MarksOfEmpty | src/StudentManager.java:80 | the mark map is empty exactly when no subject is recorded for the student |
| Store.Database.Passing | src/StudentManager.java:110 | the passing students are among the stored students |
| Store.Database.GetStudentById | src/StudentManager.java:25 | null exactly for an unknown id; otherwise a new object holding that id and its stored row |
| Store.Database.GetStudentByRoll | src/StudentManager.java:18 | null exactly when no stored student has that roll; otherwise a new object for a stored student with that roll |
| Store.Database.InsertStudent | src/StudentManager.java:20 | stores the row under the next unused id, sets the object's id to it, and changes nothing else |
| Store.Database.UpdateStudent | src/StudentManager.java:39 | true exactly when the object's id is stored, and then that row becomes the object's fields |
| Store.Database.DeleteStudent | src/StudentManager.java:43 | true exactly when the id was stored; the row is gone afterwards |
| Store.Database.UpsertMark | src/StudentManager.java:59 | sets the mark of (id, subject), replacing any earlier one |
| Store.Database.AddAttendance | src/StudentManager.java:100 | adds both deltas to the student's counters, counting from zero when none are recorded |
| Store.Database.CountStudents | src/StudentManager.java:108 | the number of stored students |
| Store.Database.GetMarksForStudent | src/StudentManager.java:64 | the student's marks by subject |
| Store.Database.GetAttendance | src/StudentManager.java:74 | the student's counters, zero when none are recorded |
| Store.Database.GetAttendancePercentage | src/StudentManager.java:75 | 100 × present / total, and 0 when no day is recorded |
| Store.Database.GetPassCount | src/StudentManager.java:110 | the number of passing students, at most the number of students |
| Store.Database.TopScorer | src/StudentManager.java:112 | None exactly when no student is stored; otherwise a stored id whose percentage no other student exceeds |
| Store.Database.GetHighestScorer | src/StudentManager.java:112 | null exactly when no student is stored; otherwise a new object for a top-scoring student |
| Rules.ValidateBasicInfo | src/StudentManager.java:134-139 | passes exactly when name, course and roll are non-null and not blank and age > 0; otherwise reports the first failing check in the order name, age, course, roll, with its message |
| Rules.CleanIffTrimmedNotBlank | src/StudentManager.java:19 | a field is clean (non-empty, with no whitespace at either end) exactly when it is not blank and `trim` leaves it as it is |
| Rules.Revise | src/StudentManager.java:28-31 | one field under a partial update: a supplied (non-null, not blank) value replaces it trimmed, anything else keeps it; the field is clean afterwards when it was clean before or a value was supplied |
| Rules.ReviseIdempotent | src/StudentManager.java:28-30 | revising a field twice with the same value is revising it once |
| Rules.ValidatedIsWellFormed | src/StudentManager.java:17-19 | under the model's one whitespace set, what `addStudent` stores after validation has a clean name, course and roll and a positive age |
| Rules.AddStudentKeepsAllWellFormed | src/StudentManager.java:17-20 | `addStudent` keeps every stored student well formed |
| Rules.UpdateKeepsAllWellFormed | src/StudentManager.java:28-39 | `updateStudent` keeps every stored student well formed |
| Rules.ApplyChanges | src/StudentManager.java:28-37 | the partial update of `updateStudent`: a name, course or roll that is not supplied is kept, an age that is absent or not positive is kept, and a well-formed student stays well formed |
| Rules.ApplyChangesIdempotent | src/StudentManager.java:28-37 | applying the same partial update twice is applying it once |
| Rules.AgeOnlyUpdate | src/StudentManager.java:29 | an update that supplies only an age changes the age alone, and only when that age is positive |
| Rules.InsertKeepsRollsUnique | src/StudentManager.java:18-20 | inserting a row whose roll no stored student has keeps rolls unique |
| Rules.AddStudentKeepsRollsUnique | src/StudentManager.java:18-20 | `addStudent` keeps rolls unique when the roll it is given is already trimmed |
| Rules.PaddedRoll | src/StudentManager.java:19 | `" R1 "` is not blank and trims to `"R1"` |
| Rules.UntrimmedLookupMisses | src/StudentManager.java:18-19 | in a store of well-formed students, any supplied roll that `trim` would change is held by nobody, so the lookup as given misses; when its trimmed form is stored, inserting the trimmed row duplicates that roll |
| Rules.PaddedRollSlipsThrough | src/StudentManager.java:18-20 | with `"R1"` stored, the lookup of `" R1 "` finds nothing, and inserting roll `"R1"` breaks uniqueness |
| Rules.UntrimmedRollAdmitsDuplicate | src/StudentManager.java:18-19 | with `"R1"` stored, roll `" R1 "` passes validation and the duplicate check, and storing its trimmed form gives two students with roll `"R1"` |
| Rules.ConflictIsAnotherStudent | src/StudentManager.java:33-35 | when rolls are unique, a clashing roll never belongs to the student being updated, so the duplicate check has a single outcome |
| Rules.UpdateKeepsRollsUnique | src/StudentManager.java:31-39 | an update that passes the duplicate check keeps rolls unique |
| Rules.UpsertKeepsMarksWellFormed | src/StudentManager.java:55-59 | storing a validated mark keeps every mark in [0, 100] under a clean subject |
| Rules.AccumulateKeepsConsistent | src/StudentManager.java:96-100 | adding validated deltas keeps present ≤ total for every student |
| Rules.AccumulateAdds | src/StudentManager.java:100 | attendance accumulates: two additions equal one addition of the sums |
| Rules.WarningCondition | src/StudentManager.java:89 | the warning is due exactly when no day is recorded or fewer than three days in four were attended |
| Manager.ScorerLabel | src/StudentManager.java:123-124 | the highest scorer's label starts with the name and is never `N/A` |
| Manager.StudentManager.constructor | src/StudentManager.java:11-13 | the manager keeps the store it is given |
| Manager.StudentManager.AddStudent | src/StudentManager.java:16-22 | fails with the validation error of `ValidateBasicInfo` before any lookup. Fails with "Roll already exists." when the roll, as given, is stored. Both failures change nothing. It succeeds exactly when validation passes and the roll, as given, is not stored. Then it inserts exactly one new row holding the trimmed name, course and roll and the age, under the next id, and returns that student. No other row, mark or attendance changes. Rolls stay unique when the given roll is already trimmed |
| Manager.StudentManager.UpdateStudent | src/StudentManager.java:24-40 | an unknown id gives false and no change. Fails only with "Another student already has this roll.", and only when the supplied trimmed roll belongs to another student. It does fail whenever such a student exists and the roll is not already the student's own. A failure persists nothing. Otherwise returns true, changes that one row by `ApplyChanges` and nothing else, and keeps rolls unique |
| Manager.StudentManager.ApplyBasicFields | src/StudentManager.java:28-30 | sets a supplied name or course trimmed and a present positive age; id and roll stay |
| Manager.StudentManager.DeleteStudent | src/StudentManager.java:42-44 | true exactly when the id was stored; removes that row only |
| Manager.StudentManager.AddOrUpdateMark | src/StudentManager.java:54-61 | a null or blank subject fails with "Subject required.". A mark outside [0, 100] fails with "Marks must be 0..100."; 0 and 100 are accepted. An unknown student gives false. Failures and false change nothing. Otherwise returns true and sets the (id, trimmed subject) mark, leaving every other entry and table unchanged |
| Manager.StudentManager.BuildResultCard | src/StudentManager.java:70-92 | exactly "Student not found." for an unknown id. Otherwise a card with the student's `toString` line, whether any mark is recorded, and the attendance counters. The card warns exactly when the attendance percentage is below 75 |
| Manager.StudentManager.UpdateAttendance | src/StudentManager.java:95-102 | a negative delta fails with "Days cannot be negative.". More present days than days fails with "Present cannot exceed total.". An unknown student gives false. Failures and false change nothing. Otherwise returns true and adds both deltas to that student's counters, keeping present ≤ total |
| Manager.StudentManager.BuildSummaryReport | src/StudentManager.java:107-132 | total is the number of students and pass the number of passing students. fail = total − pass, and fail ≥ 0. The highest scorer is `N/A` exactly when no student is stored; otherwise it is the label of a top scorer. An empty store gives 0, 0, 0 and `N/A` |
| Manager.StudentManager.AddStudentTrimmedRoll | src/StudentManager.java:16-22 | `addStudent` with the duplicate lookup made on the trimmed roll. It succeeds exactly when validation passes and the trimmed roll is not stored, and then inserts the trimmed row under the next id. Failures change nothing, and rolls always stay unique |

## Findings

| source | as written | input that shows it | evidently intended | confidence | as-written member | corrected member |
|---|---|---|---|---|---|---|
| src/StudentManager.java:18-19 | the duplicate check looks up the roll as passed, but the stored roll is the trimmed one | `"R1"` stored, then `addStudent("Ravi", 21, "CS", " R1 ")`: the lookup of `" R1 "` finds nothing, and a second student with roll `"R1"` is stored | look up the trimmed roll, which is the value actually stored, as `updateStudent` does at line 32 | medium, not executed; a unique constraint in the database, which is not part of this model, may reject the insert instead | Rules.UntrimmedRollAdmitsDuplicate | Manager.StudentManager.AddStudentTrimmedRoll |

`Manager.StudentManager.AddStudent` models the code as written. Its contract promises
unique rolls only when the given roll is already trimmed.

## Left out

- `DatabaseHelper` (SQL, JDBC, `SQLException`) is not part of this model. `Store.Database` stands in for it with the contracts listed above. Storage failures are not modelled.
- Whether `deleteStudent` also removes the student's marks and attendance depends on the database schema, which is not part of this model. The model keeps them.
- The source does not say which student `getStudentByRoll` returns when several share a roll. `Store.Database.GetStudentByRoll` may return any of them.
- Manager.StudentManager.UpdateStudent: when two stored students already share the supplied roll, the outcome depends on which one the roll lookup returns. So the contract bounds the outcome (it always fails when the clash is with another student's roll) rather than fixing it. With unique rolls, `Rules.ConflictIsAnotherStudent` makes the outcome exact.
- `insertStudent` is taken to set the generated id on the object it stores. The source returns that object as the created student.
- `Performance` (total, percentage, grade thresholds) and `getPerformance` are not part of this model. The store's percentage and pass mark are configuration values of `Store.Database`.
- Manager.StudentManager.BuildResultCard: returns the card's content, not its text. The header and footer lines, the per-subject lines, the total/percentage/grade line and the `%.2f` formatting are floating-point text and are not modelled.
- Manager.StudentManager.BuildSummaryReport: returns the report's figures, not its text. The class average, the average attendance and the highest scorer's percentage are floating-point values and are not modelled.
- `findById`, `findByRoll`, `searchByName`, `getAllStudents`, `listSubjects` and `getRankedStudents` only pass a store result through. Of these, only the store queries the manager itself relies on are modelled.
- Java's `isBlank` and `trim` use different whitespace sets; the model uses only the characters both treat as whitespace. It does not model `isBlank`'s other Unicode spaces, or `trim` removing the other control characters up to U+0020.
- Rules.ValidatedIsWellFormed: holds only under the one whitespace set. In Java, a name such as `"\u0001"` is not blank, so line 135 accepts it. But `trim` empties it, so line 19 stores an empty name. The well-formedness invariants of `Rules` (`AllWellFormed`, `MarksWellFormed`) therefore do not carry over to such inputs.
- `Student`'s fields are non-null strings. Java's constructors and setters also accept `null`, and `toString` then prints `null`. The manager never passes `null`, because it validates or trims every string it stores.
- Marks are exact reals, so a NaN mark is not modelled.
- Ids, ages and attendance counters are unbounded integers. A 32-bit overflow of the attendance sums is not modelled.
- Concurrency, including the check-then-act race on roll uniqueness, is not modelled.
