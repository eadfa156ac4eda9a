/**
 * The university registry as a value: the two indexes of `University`
 * (students by ID, courses by code) with the per-student and per-course
 * collections they reach, and one function per registry operation giving
 * the boolean the operation returns and the registry it leaves behind.
 *
 * Courses are identified by their code and students by their ID, as the
 * equality of the Java objects is: a student's enrolled and passed sets hold
 * course codes, a course's prerequisite list holds course codes and its
 * roster holds student IDs.
 */
module RegistrySpec {
  import opened Lists

  /** Java's `int`. */
  type Int32 = x: int | -0x8000_0000 <= x < 0x8000_0000

  /** A student as the registry sees it: its two `HashSet`s of courses, by code. */
  datatype StudentState = StudentState(name: string, id: Int32, enrolled: set<string>, previous: set<string>)

  /** A course: its prerequisite list and its roster, both ordered and both allowing repeats. */
  datatype CourseState = CourseState(name: string, code: string, prerequisites: seq<string>, roster: seq<Int32>)

  /** `studentBody` and `availableCourses`. */
  datatype Registry = Registry(students: map<Int32, StudentState>, courses: map<string, CourseState>)

  /** What an operation returns, and the registry afterwards. */
  datatype Step = Step(ok: bool, after: Registry)

  /** What an operation does when it may also end in an exception. */
  datatype Outcome = Returns(step: Step) | NullPointerException

  // ---------------------------------------------------------------- students

  /** A freshly constructed student: no current and no passed courses. */
  function NewStudent(name: string, id: Int32): StudentState {
    StudentState(name, id, {}, {})
  }

  /** `Student.enrollInCourse`: add to the set of current courses. */
  function EnrollIn(s: StudentState, code: string): StudentState {
    s.(enrolled := s.enrolled + {code})
  }

  /** Removing a course from the current courses through the live set. */
  function Withdraw(s: StudentState, code: string): StudentState {
    s.(enrolled := s.enrolled - {code})
  }

  /** Recording a passed course through the live set of previous courses. */
  function Pass(s: StudentState, code: string): StudentState {
    s.(previous := s.previous + {code})
  }

  // ----------------------------------------------------------------- courses

  /** A freshly constructed course: no prerequisites and nobody enrolled. */
  function NewCourse(name: string, code: string): CourseState {
    CourseState(name, code, [], [])
  }

  /** `Course.addStudentToCourse`: append to the roster. */
  function Enlist(c: CourseState, id: Int32): CourseState {
    c.(roster := c.roster + [id])
  }

  /** `getEnrolledStudents().remove(student)`: drop the first roster entry with that ID. */
  function Delist(c: CourseState, id: Int32): CourseState {
    c.(roster := RemoveFirst(c.roster, id))
  }

  /** `getPreRequisites().add(course)`: append to the prerequisite list. */
  function Require(c: CourseState, code: string): CourseState {
    c.(prerequisites := c.prerequisites + [code])
  }

  /** `getPreRequisites().remove(course)`: drop the first occurrence of that code. */
  function Unrequire(c: CourseState, code: string): CourseState {
    c.(prerequisites := RemoveFirst(c.prerequisites, code))
  }

  // ---------------------------------------------------------------- registry

  /** The registry of a newly constructed university. */
  function Empty(): Registry {
    Registry(map[], map[])
  }

  /** Every course of the prerequisite list is among the passed courses. */
  predicate PrerequisitesMet(previous: set<string>, prerequisites: seq<string>) {
    forall i :: 0 <= i < |prerequisites| ==> prerequisites[i] in previous
  }

  /** `addStudent(student)`: refused when the ID is already a key. */
  function AddStudent(r: Registry, s: StudentState): Step {
    if s.id in r.students then Step(false, r)
    else Step(true, r.(students := r.students[s.id := s]))
  }

  /** `addCourse(course)`: refused when the code is already a key. */
  function AddCourse(r: Registry, c: CourseState): Step {
    if c.code in r.courses then Step(false, r)
    else Step(true, r.(courses := r.courses[c.code := c]))
  }

  /** `addRequisiteToCourse(courseID, preReqCourseID)`: both codes must be known; no other check. */
  function AddPrerequisite(r: Registry, code: string, prerequisite: string): Step {
    if code in r.courses && prerequisite in r.courses then
      Step(true, r.(courses := r.courses[code := Require(r.courses[code], prerequisite)]))
    else Step(false, r)
  }

  /** `enrollStudentInCourse(studentID, courseCode)`: both sides are updated, or nothing is. */
  function Enroll(r: Registry, id: Int32, code: string): Step {
    if id in r.students && code in r.courses
       && PrerequisitesMet(r.students[id].previous, r.courses[code].prerequisites)
    then
      Step(true, Registry(r.students[id := EnrollIn(r.students[id], code)],
                          r.courses[code := Enlist(r.courses[code], id)]))
    else Step(false, r)
  }

  /** `removeStudentFromCourse(studentID, courseCode)`: only a current enrolment can be undone. */
  function Unenroll(r: Registry, id: Int32, code: string): Step {
    if id in r.students && code in r.courses && code in r.students[id].enrolled then
      Step(true, Registry(r.students[id := Withdraw(r.students[id], code)],
                          r.courses[code := Delist(r.courses[code], id)]))
    else Step(false, r)
  }

  /** The courses after each indexed course named in `codes` has lost one roster entry for `id`. */
  function DelistFrom(courses: map<string, CourseState>, codes: set<string>, id: Int32): (m: map<string, CourseState>)
    ensures m.Keys == courses.Keys
    ensures forall c :: c in m ==> m[c].prerequisites == courses[c].prerequisites && m[c].code == courses[c].code
    ensures forall c :: c in m && c !in codes ==> m[c] == courses[c]
  {
    map code | code in courses :: if code in codes then Delist(courses[code], id) else courses[code]
  }

  /** The students after each indexed student named in `ids` has stopped taking `code`. */
  function WithdrawAll(students: map<Int32, StudentState>, ids: seq<Int32>, code: string): (m: map<Int32, StudentState>)
    ensures m.Keys == students.Keys
    ensures forall i :: i in m ==> m[i].previous == students[i].previous && m[i].id == students[i].id
    ensures forall i :: i in m && i in ids ==> code !in m[i].enrolled
    ensures forall i :: i in m && i !in ids ==> m[i] == students[i]
  {
    map id | id in students :: if id in ids then Withdraw(students[id], code) else students[id]
  }

  /** The courses after each one's prerequisite list has lost its first occurrence of `code`. */
  function UnrequireAll(courses: map<string, CourseState>, code: string): (m: map<string, CourseState>)
    ensures m.Keys == courses.Keys
    ensures forall k :: k in m ==> m[k].roster == courses[k].roster && m[k].code == courses[k].code
    ensures forall k :: k in m && code !in courses[k].prerequisites ==> m[k] == courses[k]
  {
    map k | k in courses :: Unrequire(courses[k], code)
  }

  /** The cascade of removing a registered student: off every roster it is enrolled in, then out of the index. */
  function Expel(r: Registry, id: Int32): Registry
    requires id in r.students
  {
    Registry(r.students - {id}, DelistFrom(r.courses, r.students[id].enrolled, id))
  }

  /**
   * The cascade of removing a registered course: out of the enrolled set of
   * every student on its roster, out of every prerequisite list once, then out
   * of the index.
   */
  function Discontinue(r: Registry, code: string): Registry
    requires code in r.courses
  {
    Registry(WithdrawAll(r.students, r.courses[code].roster, code),
             UnrequireAll(r.courses, code) - {code})
  }

  /** `removeStudentFromUniversity` as written: an unknown ID is dereferenced as null. */
  function RemoveStudentAsWritten(r: Registry, id: Int32): Outcome {
    if id in r.students then Returns(Step(true, Expel(r, id))) else NullPointerException
  }

  /** `removeStudentFromUniversity` as documented: an unknown ID gives false. */
  function RemoveStudent(r: Registry, id: Int32): Step {
    if id in r.students then Step(true, Expel(r, id)) else Step(false, r)
  }

  /** `removeCourseFromUniversity` as written: an unknown code is dereferenced as null. */
  function RemoveCourseAsWritten(r: Registry, code: string): Outcome {
    if code in r.courses then Returns(Step(true, Discontinue(r, code))) else NullPointerException
  }

  /** `removeCourseFromUniversity` as documented: an unknown code gives false. */
  function RemoveCourse(r: Registry, code: string): Step {
    if code in r.courses then Step(true, Discontinue(r, code)) else Step(false, r)
  }
}
