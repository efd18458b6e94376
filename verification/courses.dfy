/**
 The in-memory course store of the mock data layer: one ordered list of
 courses, each embedding its student roster, four read queries over it and
 one mutation, `createCourse`, that appends a course whose id is derived
 from the list length.

 The accessors' artificial latency is dropped, so each is a synchronous
 pure function of the store; the random draws and the clock reading that
 `createCourse` makes are passed in as parameters.
 */
module Courses {
  import opened Optional
  import opened Seqs
  import opened Text

  /** A student on a course roster; `studentId` is optional. */
  datatype Student = Student(
    id: string,
    name: string,
    email: string,
    studentId: Option<string>,
    enrolledAt: string
  )

  /** A course with its embedded roster. `studentsCount` is a separate
      counter: nothing ties it to the length of `students`. */
  datatype Course = Course(
    id: string,
    name: string,
    code: string,
    classroomCode: string,
    professorId: string,
    professorName: string,
    createdAt: string,
    students: seq<Student>,
    studentsCount: nat
  )

  /** The module-level course array, in insertion order. */
  type Store = seq<Course>

  function SeedStudent(id: string, name: string, email: string, studentId: string, enrolledAt: string): Student
  {
    Student(id, name, email, Some(studentId), enrolledAt)
  }

  /** Seed course "1". */
  function DiscreteStructures(): Course {
    Course("1", "Discrete Structures", "CS101", "DS2024", "prof-1", "Dr. Jane Smith",
      "2024-01-15T10:00:00Z",
      [
        SeedStudent("student-1", "John Doe", "john.doe@student.edu", "STU2024001", "2024-01-20T09:00:00Z"),
        SeedStudent("student-2", "Alice Johnson", "alice.johnson@student.edu", "STU2024002", "2024-01-20T09:30:00Z"),
        SeedStudent("student-3", "Bob Williams", "bob.williams@student.edu", "STU2024003", "2024-01-21T10:15:00Z"),
        SeedStudent("student-4", "Charlie Brown", "charlie.brown@student.edu", "STU2024004", "2024-01-21T11:00:00Z"),
        SeedStudent("student-5", "Diana Prince", "diana.prince@student.edu", "STU2024005", "2024-01-22T08:45:00Z")
      ],
      45)
  }

  /** Seed course "2". */
  function DataStructures(): Course {
    Course("2", "Data Structures and Algorithms", "CS201", "DSA2024", "prof-1", "Dr. Jane Smith",
      "2024-01-10T10:00:00Z",
      [
        SeedStudent("student-1", "John Doe", "john.doe@student.edu", "STU2024001", "2024-01-15T09:00:00Z"),
        SeedStudent("student-6", "Emma Watson", "emma.watson@student.edu", "STU2024006", "2024-01-15T10:00:00Z"),
        SeedStudent("student-7", "Frank Miller", "frank.miller@student.edu", "STU2024007", "2024-01-16T09:30:00Z"),
        SeedStudent("student-8", "Grace Lee", "grace.lee@student.edu", "STU2024008", "2024-01-16T11:15:00Z")
      ],
      32)
  }

  /** Seed course "3". */
  function WebDevelopment(): Course {
    Course("3", "Web Development", "CS301", "WEB2024", "prof-1", "Dr. Jane Smith",
      "2024-01-05T10:00:00Z",
      [
        SeedStudent("student-2", "Alice Johnson", "alice.johnson@student.edu", "STU2024002", "2024-01-08T09:00:00Z"),
        SeedStudent("student-9", "Henry Ford", "henry.ford@student.edu", "STU2024009", "2024-01-08T10:30:00Z"),
        SeedStudent("student-10", "Ivy Chen", "ivy.chen@student.edu", "STU2024010", "2024-01-09T08:45:00Z"),
        SeedStudent("student-11", "Jack Taylor", "jack.taylor@student.edu", "STU2024011", "2024-01-09T14:20:00Z")
      ],
      28)
  }

  /** `MOCK_COURSES` as the module loads: three courses, all taught by `prof-1`. */
  function Seed(): Store {
    [DiscreteStructures(), DataStructures(), WebDevelopment()]
  }

  // ---------------------------------------------------------------------
  // Predicates the queries filter and search by
  // ---------------------------------------------------------------------

  function TaughtBy(professorId: string): Course -> bool {
    (c: Course) => c.professorId == professorId
  }

  function HasId(courseId: string): Course -> bool {
    (c: Course) => c.id == courseId
  }

  function IsStudent(studentId: string): Student -> bool {
    (st: Student) => st.id == studentId
  }

  /** `course.students.some(student => student.id === studentId)`. */
  function Enrols(studentId: string): Course -> bool {
    (c: Course) => Exists(c.students, IsStudent(studentId))
  }

  /** True iff some roster entry of `c` carries the id `studentId`. */
  ghost predicate OnRoster(c: Course, studentId: string) {
    exists k :: 0 <= k < |c.students| && c.students[k].id == studentId
  }

  // ---------------------------------------------------------------------
  // Queries
  // ---------------------------------------------------------------------

  /** `getProfessorCourses`: the courses taught by `professorId`, in store order. */
  function ProfessorCourses(store: Store, professorId: string): (r: seq<Course>)
    ensures forall k :: 0 <= k < |r| ==> r[k] in store && r[k].professorId == professorId
    ensures forall i :: 0 <= i < |store| && store[i].professorId == professorId ==> store[i] in r
    ensures SelectsInOrder(store, TaughtBy(professorId), r)
  {
    FilterSelectsInOrder(store, TaughtBy(professorId));
    FilterMembers(store, TaughtBy(professorId));
    Filter(store, TaughtBy(professorId))
  }

  /** `getCourseById`: the first course carrying `courseId`, or `None`. */
  function CourseById(store: Store, courseId: string): (r: Option<Course>)
    ensures r.None? <==> forall i :: 0 <= i < |store| ==> store[i].id != courseId
    ensures r.Some? ==> r.value.id == courseId
    ensures r.Some? ==> exists i :: 0 <= i < |store| && store[i] == r.value
                                    && forall j :: 0 <= j < i ==> store[j].id != courseId
  {
    match FindFirst(store, HasId(courseId))
    case None => None
    case Some(i) => Some(store[i])
  }

  /** `getCourseStudents`: the roster of the first course carrying
      `courseId`, or the empty list when there is none. The source does its
      own search rather than calling `getCourseById`. */
  function CourseStudents(store: Store, courseId: string): (r: seq<Student>)
    ensures CourseById(store, courseId).Some? ==> r == CourseById(store, courseId).value.students
    ensures CourseById(store, courseId).None? ==> r == []
  {
    match FindFirst(store, HasId(courseId))
    case None => []
    case Some(i) => store[i].students
  }

  /** `getStudentCourses`: the courses whose roster lists `studentId`, in store order. */
  function StudentCourses(store: Store, studentId: string): (r: seq<Course>)
    ensures forall k :: 0 <= k < |r| ==> r[k] in store && OnRoster(r[k], studentId)
    ensures forall i :: 0 <= i < |store| && OnRoster(store[i], studentId) ==> store[i] in r
    ensures SelectsInOrder(store, Enrols(studentId), r)
  {
    FilterSelectsInOrder(store, Enrols(studentId));
    FilterMembers(store, Enrols(studentId));
    Filter(store, Enrols(studentId))
  }

  /** `getCurrentProfessorId`: the signed-in professor, fixed in the mock. */
  function CurrentProfessorId(): string {
    "prof-1"
  }

  /** `getCurrentStudentId`: the signed-in student, fixed in the mock. */
  function CurrentStudentId(): string {
    "student-1"
  }

  // ---------------------------------------------------------------------
  // createCourse
  // ---------------------------------------------------------------------

  /** `Math.floor(Math.random() * 900)` for the course code. */
  type CodeDraw = n: nat | n < 900

  /** `Math.floor(Math.random() * 1000)` for the classroom code. */
  type RoomDraw = n: nat | n < 1000

  /** The store after a creation, and the course that was created. */
  datatype Created = Created(store: Store, course: Course)

  function Min(a: nat, b: nat): nat {
    if a <= b then a else b
  }

  /** The classroom-code prefix: the first (at most three) characters of the
      name, upper-cased. */
  function RoomPrefix(name: string): string {
    UpperCase(name[..Min(3, |name|)])
  }

  /** `createCourse`: appends a course with an empty roster whose id is the
      decimal numeral of the new store length. */
  function CreateCourse(
    store: Store,
    name: string,
    professorId: string,
    professorName: string,
    codeDraw: CodeDraw,
    roomDraw: RoomDraw,
    createdAt: string
  ): (r: Created)
    ensures |r.store| == |store| + 1
    ensures r.store[..|store|] == store && r.store[|store|] == r.course
    ensures r.course.id == Decimal(|store| + 1) && ParseDecimal(r.course.id) == |store| + 1
    ensures r.course.name == name && r.course.professorId == professorId
    ensures r.course.professorName == professorName && r.course.createdAt == createdAt
    ensures r.course.students == [] && r.course.studentsCount == |r.course.students|
    ensures |r.course.code| == 5 && r.course.code[..2] == "CS" && AllDigits(r.course.code[2..])
    ensures 100 <= ParseDecimal(r.course.code[2..]) <= 999
    ensures ParseDecimal(r.course.code[2..]) == codeDraw + 100
    ensures var k := Min(3, |name|);
            |r.course.classroomCode| > k
            && r.course.classroomCode[..k] == UpperCase(name[..k])
            && AllDigits(r.course.classroomCode[k..])
            && ParseDecimal(r.course.classroomCode[k..]) == roomDraw
            && r.course.classroomCode[k..] == Decimal(roomDraw)
  {
    var number := Decimal(codeDraw + 100);
    var room := Decimal(roomDraw);
    var prefix := RoomPrefix(name);
    var course := Course(
      Decimal(|store| + 1),
      name,
      "CS" + number,
      prefix + room,
      professorId,
      professorName,
      createdAt,
      [],
      0
    );
    ParseDecimalOfDecimal(|store| + 1);
    ParseDecimalOfDecimal(codeDraw + 100);
    ParseDecimalOfDecimal(roomDraw);
    DecimalThreeDigits(codeDraw + 100);
    assert ("CS" + number)[2..] == number;
    assert (prefix + room)[|prefix|..] == room;
    assert (store + [course])[..|store|] == store;
    Created(store + [course], course)
  }

  // ---------------------------------------------------------------------
  // The id invariant
  // ---------------------------------------------------------------------

  /** The course at position `i` has the id `String(i + 1)`. */
  ghost predicate WellNumbered(store: Store) {
    forall i :: 0 <= i < |store| ==> store[i].id == Decimal(i + 1)
  }

  /** Course ids are pairwise distinct. */
  ghost predicate DistinctIds(store: Store) {
    forall i, j :: 0 <= i < j < |store| ==> store[i].id != store[j].id
  }

  /** A store numbered by position has distinct ids. */
  lemma WellNumberedDistinct(store: Store)
    requires WellNumbered(store)
    ensures DistinctIds(store)
  {
    forall i, j | 0 <= i < j < |store|
      ensures store[i].id != store[j].id
    {
      DecimalInjective(i + 1, j + 1);
    }
  }

  /** The seed store is numbered by position. */
  lemma SeedWellNumbered()
    ensures WellNumbered(Seed())
  {
    assert Decimal(1) == "1" && Decimal(2) == "2" && Decimal(3) == "3";
  }

  /** `createCourse` keeps the store numbered by position. */
  lemma CreatePreservesWellNumbered(
    store: Store, name: string, professorId: string, professorName: string,
    codeDraw: CodeDraw, roomDraw: RoomDraw, createdAt: string
  )
    requires WellNumbered(store)
    ensures WellNumbered(CreateCourse(store, name, professorId, professorName, codeDraw, roomDraw, createdAt).store)
  {
  }

  /** One call to `createCourse`, with the values the environment supplied. */
  datatype CreateRequest = CreateRequest(
    name: string,
    professorId: string,
    professorName: string,
    codeDraw: CodeDraw,
    roomDraw: RoomDraw,
    createdAt: string
  )

  /** The store after the given calls to `createCourse`, in order. */
  function ApplyCreates(store: Store, requests: seq<CreateRequest>): (r: Store)
    ensures |r| == |store| + |requests|
    ensures r[..|store|] == store
    decreases |requests|
  {
    if |requests| == 0 then store
    else
      var q := requests[0];
      ApplyCreates(CreateCourse(store, q.name, q.professorId, q.professorName, q.codeDraw, q.roomDraw, q.createdAt).store,
                   requests[1..])
  }

  /** Whatever courses are created, the store reachable from the seed keeps
      distinct ids, each equal to its position plus one. */
  lemma {:induction false} ReachableStoresWellNumbered(store: Store, requests: seq<CreateRequest>)
    requires WellNumbered(store)
    ensures WellNumbered(ApplyCreates(store, requests))
    ensures DistinctIds(ApplyCreates(store, requests))
    decreases |requests|
  {
    if |requests| == 0 {
      WellNumberedDistinct(store);
    } else {
      var q := requests[0];
      var next := CreateCourse(store, q.name, q.professorId, q.professorName, q.codeDraw, q.roomDraw, q.createdAt).store;
      CreatePreservesWellNumbered(store, q.name, q.professorId, q.professorName, q.codeDraw, q.roomDraw, q.createdAt);
      ReachableStoresWellNumbered(next, requests[1..]);
    }
  }

  /** Every store the running program can hold has distinct ids. */
  lemma SeedHistoryDistinctIds(requests: seq<CreateRequest>)
    ensures DistinctIds(ApplyCreates(Seed(), requests))
  {
    SeedWellNumbered();
    ReachableStoresWellNumbered(Seed(), requests);
  }

  // ---------------------------------------------------------------------
  // How createCourse changes the queries
  // ---------------------------------------------------------------------

  /** In a store numbered by position, the created course is what
      `getCourseById` returns for its id. */
  lemma CreatedCourseIsFound(
    store: Store, name: string, professorId: string, professorName: string,
    codeDraw: CodeDraw, roomDraw: RoomDraw, createdAt: string
  )
    requires WellNumbered(store)
    ensures var r := CreateCourse(store, name, professorId, professorName, codeDraw, roomDraw, createdAt);
            CourseById(r.store, r.course.id) == Some(r.course)
  {
    var r := CreateCourse(store, name, professorId, professorName, codeDraw, roomDraw, createdAt);
    CreatePreservesWellNumbered(store, name, professorId, professorName, codeDraw, roomDraw, createdAt);
    WellNumberedDistinct(r.store);
    FindFirstIs(r.store, HasId(r.course.id), |store|);
  }

  /** A lookup that succeeded before `createCourse` returns the same course
      afterwards, and so does the roster query. */
  lemma CreateKeepsLookups(
    store: Store, name: string, professorId: string, professorName: string,
    codeDraw: CodeDraw, roomDraw: RoomDraw, createdAt: string, courseId: string
  )
    requires CourseById(store, courseId).Some?
    ensures var r := CreateCourse(store, name, professorId, professorName, codeDraw, roomDraw, createdAt);
            CourseById(r.store, courseId) == CourseById(store, courseId)
            && CourseStudents(r.store, courseId) == CourseStudents(store, courseId)
  {
    var r := CreateCourse(store, name, professorId, professorName, codeDraw, roomDraw, createdAt);
    FindFirstAppendFound(store, [r.course], HasId(courseId));
  }

  /** `createCourse` adds the new course at the end of its professor's
      list and leaves every other professor's list alone. */
  lemma CreateExtendsProfessorCourses(
    store: Store, name: string, professorId: string, professorName: string,
    codeDraw: CodeDraw, roomDraw: RoomDraw, createdAt: string, p: string
  )
    ensures var r := CreateCourse(store, name, professorId, professorName, codeDraw, roomDraw, createdAt);
            ProfessorCourses(r.store, p)
            == ProfessorCourses(store, p) + (if p == professorId then [r.course] else [])
  {
    var r := CreateCourse(store, name, professorId, professorName, codeDraw, roomDraw, createdAt);
    FilterAppend(store, [r.course], TaughtBy(p));
  }

  /** A new course has an empty roster, so no student's course list changes. */
  lemma CreateKeepsStudentCourses(
    store: Store, name: string, professorId: string, professorName: string,
    codeDraw: CodeDraw, roomDraw: RoomDraw, createdAt: string, s: string
  )
    ensures var r := CreateCourse(store, name, professorId, professorName, codeDraw, roomDraw, createdAt);
            StudentCourses(r.store, s) == StudentCourses(store, s)
  {
    var r := CreateCourse(store, name, professorId, professorName, codeDraw, roomDraw, createdAt);
    FilterAppend(store, [r.course], Enrols(s));
  }

  // ---------------------------------------------------------------------
  // Facts about the seed data
  // ---------------------------------------------------------------------

  /** Course "1" is CS101; an unknown id gives no course and no roster. */
  lemma SeedLookups()
    ensures CourseById(Seed(), "1").Some? && CourseById(Seed(), "1").value.code == "CS101"
    ensures CourseById(Seed(), "nonexistent") == None
    ensures CourseStudents(Seed(), "nonexistent") == []
    ensures |CourseStudents(Seed(), "1")| == 5
  {
    FindFirstIs(Seed(), HasId("1"), 0);
  }

  /** The signed-in professor teaches every seed course. */
  lemma SeedCurrentProfessor()
    ensures ProfessorCourses(Seed(), CurrentProfessorId()) == Seed()
  {
    FilterKeepsAll(Seed(), TaughtBy(CurrentProfessorId()));
  }

  /** No entry on the roster of course "3" is `student-1`. */
  lemma WebDevelopmentWithoutStudent1()
    ensures !Enrols(CurrentStudentId())(WebDevelopment())
  {
    var roster := WebDevelopment().students;
    assert roster[0].id[8] == '2';
    assert roster[1].id[8] == '9';
    assert |roster[2].id| == 10;
    assert |roster[3].id| == 10;
    assert forall k :: 0 <= k < |roster| ==> roster[k].id != CurrentStudentId();
  }

  /** The signed-in student is enrolled in the first two seed courses only. */
  lemma SeedCurrentStudent()
    ensures StudentCourses(Seed(), CurrentStudentId()) == [Seed()[0], Seed()[1]]
  {
    var enrolled := Enrols(CurrentStudentId());
    var c1, c2, c3 := DiscreteStructures(), DataStructures(), WebDevelopment();
    assert c1.students[0].id == CurrentStudentId();
    assert c2.students[0].id == CurrentStudentId();
    assert enrolled(c1) && enrolled(c2);
    WebDevelopmentWithoutStudent1();
    FilterAppend([c1], [c2], enrolled);
    FilterAppend([c1, c2], [c3], enrolled);
    assert [c1] + [c2] == [c1, c2];
    assert [c1, c2] + [c3] == Seed();
    assert Filter([c1], enrolled) == [c1] by {
      assert [c1][..0] == [];
    }
    assert Filter([c2], enrolled) == [c2] by {
      assert [c2][..0] == [];
    }
    assert Filter([c3], enrolled) == [] by {
      assert [c3][..0] == [];
    }
  }

  /** The seed counters disagree with the rosters, so `studentsCount ==
      |students|` is not an invariant of the store. */
  lemma SeedCountsDisagree()
    ensures Seed()[0].studentsCount == 45 && |Seed()[0].students| == 5
  {
  }
}
