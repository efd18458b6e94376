# Dynamic LMS: course store, create-course form and login check

This project models the parts of the Dynamic LMS front end that are plain
sequential logic, and proves properties about them:

- **The mock course store** (`lib/mockData/courses.ts`). This is one ordered
  array of courses, and each course embeds its roster of students. Four
  queries read it: courses by professor, course by id, roster by course id,
  and courses by enrolled student. One mutation, `createCourse`, appends a
  course whose id is `String(length + 1)`. The model is a `seq<Course>`. The
  queries are pure functions, and `createCourse` maps a store to a new store
  plus the created course.
- **The professor navbar** (`utils/ProfessorNavbar.tsx`). Its state is the
  "Courses" dropdown flag, the "Create New Course" modal flag, the
  course-name field and the error message. Every click, keystroke and submit
  is an event. `Step` gives the next state and the effects outside the
  component: a call to the parent's `onCreateCourse`, or the fallback
  `alert`.
- **The login form** (`app/login/page.tsx`). `handleSubmit` checks only that
  both fields are non-empty. It does not trim them.

Modules:

| file | module | contents |
|---|---|---|
| `optional.dfy` | `Optional` | `Option`, standing for a `T \| null` result |
| `seqs.dfy` | `Seqs` | `filter`, `find` and `some` on sequences, plus a reference definition of filtering by kept positions (`KeptIndices`) |
| `text.dfy` | `Text` | `trim` with the ECMAScript whitespace set, ASCII `toUpperCase`, `String(n)` and its inverse `ParseDecimal` |
| `courses.dfy` | `Courses` | `Student`, `Course`, the seed data, the accessors, `createCourse` and the id invariant |
| `professor_navbar.dfy` | `ProfessorNavbar` | navbar state machine, submit validation and count labels |
| `login.dfy` | `Login` | the login submit handler |

Modelling choices:

- The random draws of `createCourse` are parameters of bounded subset types:
  `CodeDraw` (below 900) and `RoomDraw` (below 1000). The timestamp is a
  `createdAt` string parameter.
- A handler can only run while its control is on screen. So `Step` requires
  `Enabled(s, e)`: dropdown controls need the dropdown open, and modal
  controls need the modal open.
- React applies all state updates of a handler together. The model gives the
  state after the handler finishes. For example, in a rejected submit the
  error is first cleared and then set, so only the final error is visible.
- The course modal closes at once on a valid submit. It shows no success
  message and has no delayed auto-close.

## Model

| member | source | states |
|---|---|---|
| Seqs.FilterSelectsInOrder | dynamic-lms/src/lib/mockData/courses.ts:163 | the result of `filter` is the elements at the positions `KeptIndices` selects (every position whose element passes), in increasing order |
| Seqs.FilterMembers | dynamic-lms/src/lib/mockData/courses.ts:163 | `filter` returns only elements of the input that pass, and every element that passes appears in the result |
| Seqs.FilterAppend | dynamic-lms/src/lib/mockData/courses.ts:206 | filtering a concatenation gives the concatenation of the filtered parts, so appending to the store only appends to any filtered view |
| Seqs.FilterKeepsAll | dynamic-lms/src/lib/mockData/courses.ts:163 | a filter that every element passes returns its input unchanged |
| Seqs.FindFirst | dynamic-lms/src/lib/mockData/courses.ts:172 | `find` stops at the first position that satisfies the predicate, and finds nothing exactly when no position does |
| Seqs.FindFirstAppendFound | dynamic-lms/src/lib/mockData/courses.ts:206 | after elements are appended, a search that succeeded before gives the same position |
| Seqs.Exists | dynamic-lms/src/lib/mockData/courses.ts:231 | `some` holds exactly when some position satisfies the predicate |
| Text.TrimIsSlice | dynamic-lms/src/utils/ProfessorNavbar.tsx:33 | the trimmed name is a slice of the input, with only whitespace cut off at either end |
| Text.TrimEmptyIff | dynamic-lms/src/utils/ProfessorNavbar.tsx:33 | a name trims to `""` exactly when it is empty or all whitespace |
| Text.TrimIdempotent | dynamic-lms/src/utils/ProfessorNavbar.tsx:40 | trimming an already trimmed name changes nothing |
| Text.ParseDecimalOfDecimal | dynamic-lms/src/lib/mockData/courses.ts:195 | `String(n)` reads back as `n`, so the new id encodes the new store length |
| Text.DecimalInjective | dynamic-lms/src/lib/mockData/courses.ts:195 | different lengths give different id strings |
| Text.DecimalThreeDigits | dynamic-lms/src/lib/mockData/courses.ts:197 | a course-code number from 100 to 999 has exactly three digits |
| Text.UpperCaseSpec | dynamic-lms/src/lib/mockData/courses.ts:198 | upper-casing leaves no ASCII lower-case letter, keeps every other character, and applying it twice is the same as once |
| Courses.ProfessorCourses | dynamic-lms/src/lib/mockData/courses.ts:156-164 | returns every course of the given professor and no other course, in store order |
| Courses.CourseById | dynamic-lms/src/lib/mockData/courses.ts:166-174 | returns the first course with the given id, or `None` exactly when no course has that id; it never fails |
| Courses.CourseStudents | dynamic-lms/src/lib/mockData/courses.ts:176-184 | returns the roster of the course `getCourseById` finds, or the empty list when it finds none |
| Courses.StudentCourses | dynamic-lms/src/lib/mockData/courses.ts:223-233 | returns exactly the courses whose roster lists the student id, in store order |
| Courses.CreateCourse | dynamic-lms/src/lib/mockData/courses.ts:186-208 | appends exactly one course and keeps every earlier course. The new course has id `String(old length + 1)`, the given name, professor and timestamp, and an empty roster with count 0. Its code is `CS` plus the three-digit numeral of the code draw plus 100, a number from 100 to 999. Its classroom code is the upper-cased first min(3, length) characters of the name, followed by `String(roomDraw)`, the room draw's numeral without leading zeros |
| Courses.WellNumberedDistinct | dynamic-lms/src/lib/mockData/courses.ts:195 | when each course's id is its position plus one, all ids are pairwise distinct |
| Courses.SeedWellNumbered | dynamic-lms/src/lib/mockData/courses.ts:25-153 | the seed courses carry ids "1", "2", "3" at positions 0, 1, 2 |
| Courses.CreatePreservesWellNumbered | dynamic-lms/src/lib/mockData/courses.ts:194-206 | `createCourse` keeps "the course at position i has id `String(i + 1)`" |
| Courses.ApplyCreates | dynamic-lms/src/lib/mockData/courses.ts:206 | a series of creations grows the store by one course per call and keeps its prefix |
| Courses.ReachableStoresWellNumbered | dynamic-lms/src/lib/mockData/courses.ts:186-208 | after any series of creations, a well-numbered store stays well-numbered, and its ids stay distinct |
| Courses.SeedHistoryDistinctIds | dynamic-lms/src/lib/mockData/courses.ts:25-208 | every store reachable from the seed by `createCourse` calls has pairwise distinct ids |
| Courses.CreatedCourseIsFound | dynamic-lms/src/lib/mockData/courses.ts:194-207 | in a well-numbered store, `getCourseById` finds the created course under its new id |
| Courses.CreateKeepsLookups | dynamic-lms/src/lib/mockData/courses.ts:206 | an id that `getCourseById` found before a creation gives the same course and the same roster afterwards |
| Courses.CreateExtendsProfessorCourses | dynamic-lms/src/lib/mockData/courses.ts:199-206 | a creation appends the new course to its own professor's list and leaves every other professor's list as it was |
| Courses.CreateKeepsStudentCourses | dynamic-lms/src/lib/mockData/courses.ts:202-206 | a new course has an empty roster, so no student's course list changes |
| Courses.SeedLookups | dynamic-lms/src/lib/mockData/courses.ts:166-184 | on the seed data, course "1" has code CS101 and five roster entries, and an unknown id gives no course and an empty roster |
| Courses.SeedCurrentProfessor | dynamic-lms/src/lib/mockData/courses.ts:210-214 | the fixed current professor `prof-1` teaches all three seed courses |
| Courses.SeedCurrentStudent | dynamic-lms/src/lib/mockData/courses.ts:216-220 | the fixed current student `student-1` is enrolled in seed courses "1" and "2" only |
| Courses.SeedCountsDisagree | dynamic-lms/src/lib/mockData/courses.ts:34-71 | course "1" has a stored count of 45 but lists 5 students, so `studentsCount == students.length` is not a store invariant |
| ProfessorNavbar.SubmitForm | dynamic-lms/src/utils/ProfessorNavbar.tsx:29-48 | a blank or whitespace-only name only sets the error, with no effect. Otherwise exactly one create effect carries the trimmed name (the parent callback when one is passed, else the alert), the field is cleared, the error is `""` and the modal closes |
| ProfessorNavbar.Step | dynamic-lms/src/utils/ProfessorNavbar.tsx:95-338 | "Courses" toggles the dropdown. The dropdown backdrop and a course link close the dropdown and change nothing else. "Create Course" closes the dropdown and opens the modal, and changes nothing else. Typing sets the name and nothing else. Cancel, the X button and the backdrop close the modal and clear the name and the error. Only a submit produces effects |
| ProfessorNavbar.InitialInvariant | dynamic-lms/src/utils/ProfessorNavbar.tsx:24-27 | the state on mount satisfies the form invariant |
| ProfessorNavbar.StepPreservesInvariant | dynamic-lms/src/utils/ProfessorNavbar.tsx:29-338 | every handler keeps the invariant: a closed modal holds an empty name and no error, and the only error ever set is the blank-name message |
| ProfessorNavbar.RunEvents | dynamic-lms/src/utils/ProfessorNavbar.tsx:29-338 | the handlers run one after another: a run's effects start with the first handler's effects, and a run has at most as many effects as events |
| ProfessorNavbar.RunConcat | dynamic-lms/src/utils/ProfessorNavbar.tsx:29-338 | running `a + b` is running `a` and then `b` from the state `a` ends in, with the effects concatenated; a run that stops at an event whose control is not on screen keeps what happened before it |
| ProfessorNavbar.RunPreservesInvariant | dynamic-lms/src/utils/ProfessorNavbar.tsx:24-338 | every state reachable by a sequence of events satisfies the invariant |
| ProfessorNavbar.SubmitEmitsTrimmedName | dynamic-lms/src/utils/ProfessorNavbar.tsx:33-44 | a submit emits only non-empty names with no whitespace at either end |
| ProfessorNavbar.StepEmitsTrimmedNames | dynamic-lms/src/utils/ProfessorNavbar.tsx:39-44 | any single event emits only trimmed, non-empty course names |
| ProfessorNavbar.RunEmitsTrimmedNames | dynamic-lms/src/utils/ProfessorNavbar.tsx:39-44 | every course name emitted over any run is non-empty and already trimmed |
| ProfessorNavbar.BlankSubmitIdempotent | dynamic-lms/src/utils/ProfessorNavbar.tsx:31-36 | a blank submit keeps the modal open and the name unchanged, and submitting again changes nothing |
| ProfessorNavbar.Plural | dynamic-lms/src/utils/ProfessorNavbar.tsx:129 | the noun is singular exactly when the count is 1, and takes an `s` otherwise |
| ProfessorNavbar.CountLabelReadsBack | dynamic-lms/src/utils/ProfessorNavbar.tsx:129 | a count label is the count's numeral, a space, and the noun, which is bare exactly when the count is 1 |
| ProfessorNavbar.CountLabelsReadBack | dynamic-lms/src/utils/ProfessorNavbar.tsx:128-153 | the course and student labels start with the count's numeral and end with "course"/"student" exactly when the count is 1 |
| Login.HandleSubmit | dynamic-lms/src/app/login/page.tsx:10-20 | an empty email or password sets the missing-credentials error and shows no alert. Otherwise the error is cleared and the success alert shows exactly once |
| Login.OnlyEmptinessMatters | dynamic-lms/src/app/login/page.tsx:13 | the outcome depends only on which fields are empty, so no e-mail format is checked |
| Login.WhitespaceCredentialsAccepted | dynamic-lms/src/app/login/page.tsx:13 | whitespace-only credentials pass, because nothing is trimmed |
| Login.LoginDoesNotTrimButCourseFormDoes | dynamic-lms/src/app/login/page.tsx:13 | a single space passes the login check, while the same text as a course name is rejected with the blank-name error |

## Left out

- The fixed delays (`setTimeout`) before every accessor, and the Promise wrapping. The accessors are synchronous pure functions because the delays carry no meaning and the promises never reject.
- `Math.random()` and `new Date()` in `createCourse`. The random draws become bounded parameters, and the timestamp becomes an opaque string.
- The full Unicode `toUpperCase` of JavaScript. `UpperChar` maps only the ASCII letters `a`-`z`. Full case mapping can change the length of a string (`ß` becomes `SS`), and that is not modelled.
- The UTF-16 code-unit indexing of `substring` and `trim`. Strings are sequences of Unicode scalar values.
- Courses.CreateCourse: the classroom-code prefix is stated for the ASCII upper-casing above, so its length equals min(3, name length). It differs from the source for any name whose first three characters include a non-ASCII letter that JavaScript upper-cases: for `éclair` the model gives the prefix `éCL` where the source gives `ÉCL`, and `ß` becomes `SS` there but stays `ß` here.
- `studentsCount` is a `nat`. The source's `number` could in principle be fractional or negative, but no code path produces such a value.
- The `HandledCourse.studentsCount` label appears only when the count is defined. The model covers the label for a given count.
- `FollowCourseLink` closes the dropdown. The Next.js route change it also causes is not modelled. `Enabled` allows it whenever the dropdown is open, although the source renders course links only when the professor has courses; the transition is the same as the dropdown backdrop's, so no reachable state or effect is added.
- Rendering, Tailwind classes, the `currentPage` highlight, `e.preventDefault()`, `stopPropagation` on the modal body, `console.error`, and browser `type="email"` validation. These are UI behaviour with no state of the component's own. `alert` and the parent callback are effect values.
- The student-facing navbar, the student course list page, the course navigation bars and the dashboard and profile pages. They only fetch through the accessors modelled here, or they render fixed arrays.
