# University registry

A model of the in-memory registry of a university:
- A `University` keeps two indexes. `studentBody` maps a student ID to a `Student`. `availableCourses` maps a course code to a `Course`.
- Every operation returns a boolean and keeps both sides of each enrolment in step:
  - a student's set of current courses;
  - a course's list of enrolled students.
- The operations:
  - file a student or a course, refusing a key that is already used;
  - attach a prerequisite;
  - enrol a student, gated on the courses they have passed;
  - take a student off a course;
  - remove a student from the university, and off every roster;
  - remove a course from the university, from every current-course set and from every prerequisite list.

The project has seven modules:

- `Lists`: Java's `List.add` and `List.remove(Object)`, which deletes the first equal element.
- `RegistrySpec`: the registry as a value.
  - A `Registry` holds students by ID and courses by code.
  - Each student keeps two sets of course codes (current and passed).
  - Each course keeps a prerequisite list of codes and a roster of student IDs.
  - There is one function per operation, giving the boolean it returns and the registry it leaves.
- `Students`: the `Student` class. Its course sets are changed in place.
- `Courses`: the `Course` class. Its prerequisite list and roster are changed in place.
- `Universities`: the `University` class. Its two indexes are `map` fields that the methods reassign.
  - `Model()` reads the registry off the objects.
  - Every public state-changing method promises `Step(ok, Model()) == <operation>(old(Model()), ...)` for its `RegistrySpec` operation.
  - Every public method that reassigns an index also says which objects the two indexes hold afterwards. A student or course filed by the caller is the caller's own object.
  - The loop helpers (`DelistEverywhere`, `WithdrawEveryone`, `UnrequireEverywhere`) and the index updates (`Unregister`, `Unlist`) promise `Model() == old(Model()).(...)` with the cascade function of `RegistrySpec`.
- `RegistryProperties`: what the operations promise, proved on the value model:
  - failure leaves everything unchanged;
  - students and courses stay filed under their own keys;
  - consistency between the two sides is kept;
  - the two removals cascade completely;
  - round trips restore the registry.
- `Walkthrough`: the Ana/CS101/CS201 enrolment example, stated on the objects: Ana is refused CS201 until CS101 is among her passed courses, and is then enrolled on both sides.

Courses are identified by code and students by ID throughout. `Student.equals` compares IDs. The source of `Course` is not available, so course equality is assumed to compare codes; only a course's code, prerequisite list and roster are modelled. So in every collection a student stands for its ID and a course for its code when the collection is searched or changed (`contains`, `add`, `remove`). The two removal cascades are the exception: they change the object stored in the set or on the roster, which the model takes to be the indexed object with the same key (see "## Left out").

## Model

| member | source | states |
|---|---|---|
| Lists.RemoveFirst | University.java:222 | `List.remove(Object)` leaves a list without the value unchanged. Otherwise the list loses exactly one element. |
| Lists.RemoveFirstMultiset | University.java:299 | Removal takes out exactly one copy of the value, so duplicates survive. |
| Lists.RemoveFirstAt | University.java:256 | The element removed is the first occurrence. Everything before and after it stays in order. |
| Lists.RemoveFirstOfAppended | University.java:189 | Appending a value the list lacked and then removing it gives back the original list. |
| Lists.RemoveFirstNoDup | University.java:222 | On a duplicate-free list, removal leaves the list duplicate-free and drops the value entirely. |
| Lists.RemoveFirstKeepsOthers | University.java:256 | Removal does not change whether any other value is in the list. |
| RegistrySpec.NewStudent | Student.java:30-36 | A new student: given name and ID, no current and no passed courses. |
| RegistrySpec.EnrollIn | Student.java:75-77 | `enrollInCourse` as a set union on the current courses. |
| RegistrySpec.Withdraw | University.java:219 | The removal through the live current-course set. |
| RegistrySpec.Pass | Student.java:61-65 | An addition through the live passed-course set. |
| RegistrySpec.NewCourse | University.java:325-326 | A new course: given name and code, no prerequisites, empty roster. |
| RegistrySpec.Enlist | University.java:189 | `addStudentToCourse` appends the ID to the roster. |
| RegistrySpec.Delist | University.java:221-222 | `remove` on the roster: the first entry for the ID goes. |
| RegistrySpec.Require | University.java:111-112 | `add` on the prerequisite list: appended at the end. |
| RegistrySpec.Unrequire | University.java:297-299 | `remove` on the prerequisite list: the first occurrence goes. When the code is absent nothing changes, which matches the `contains` guard. |
| RegistrySpec.PrerequisitesMet | University.java:178-182 | Every element of the prerequisite list is among the passed courses. |
| RegistrySpec.AddStudent | University.java:29-40 | Refused when the ID is a key. Otherwise the student is filed under its ID. |
| RegistrySpec.AddCourse | University.java:83-93 | Refused when the code is a key. Otherwise the course is filed under its code. |
| RegistrySpec.AddPrerequisite | University.java:103-116 | Both codes must be keys. The prerequisite is then appended to the target's list. |
| RegistrySpec.Enroll | University.java:169-193 | Both keys must exist and the prerequisites must be met. Then the course joins the student's set and the ID is appended to the roster. |
| RegistrySpec.Unenroll | University.java:202-226 | Both keys must exist and the course must be current. Then the course leaves the set and the first roster entry for the ID goes. |
| RegistrySpec.Expel | University.java:246-258 | The cascade for a registered student: one roster entry removed from each indexed current course, then the ID removed from the index. |
| RegistrySpec.Discontinue | University.java:277-302 | The cascade for a registered course: out of each listed student's set, one occurrence out of every prerequisite list, then out of the index. |
| RegistrySpec.RemoveStudentAsWritten | University.java:240-259 | An unknown ID ends in a null dereference. A known one is expelled and true is returned. |
| RegistrySpec.RemoveStudent | University.java:238-259 | As documented: an unknown ID gives false with nothing changed. A known one is expelled and true is returned. |
| RegistrySpec.RemoveCourseAsWritten | University.java:271-304 | An unknown code ends in a null dereference. A known one is discontinued and true is returned. |
| RegistrySpec.RemoveCourse | University.java:269-304 | As documented: an unknown code gives false with nothing changed. A known one is discontinued and true is returned. |
| RegistrySpec.DelistFrom | University.java:252-257 | The roster cascade of a student's removal keeps every course key. Prerequisite lists never change, and a course outside the student's set does not change at all. |
| RegistrySpec.WithdrawAll | University.java:281-285 | The cascade over a removed course's roster keeps every student key. No passed set changes, every listed student loses the course, and an unlisted student does not change at all. |
| RegistrySpec.UnrequireAll | University.java:294-301 | The prerequisite cascade keeps every course key. No roster changes, and a course whose list lacks the code does not change at all. |
| Students.Student.constructor | Student.java:30-36 | A new student keeps the given name and ID. Its current and passed course sets are empty. |
| Students.Student.EnrollInCourse | Student.java:75-77 | The course joins the current set. The passed set, name and ID stay as they were. |
| Students.Student.DropEnrolledCourse | Student.java:51-55 | A removal through the live set returned by `getEnrolledCourses` removes the course from the student's own current set. |
| Students.Student.AddPreviousCourse | Student.java:61-65 | An addition through the live set returned by `getPreviousCourses` records a passed course on the student itself. |
| Students.Student.Equals | Student.java:88-95 | Only another `Student` can be equal, and then exactly when the IDs agree. |
| Students.Student.HashCode | Student.java:83-86 | `Objects.hash(idNumber)`, which is `31 + idNumber` wrapped to 32 bits. |
| Students.EqualsIsEquivalence | Student.java:88-95 | `equals` on students is reflexive, symmetric and transitive. |
| Students.HashCodeAgreesWithEquals | Student.java:83-95 | Two students have the same `hashCode` if and only if they are `equals`. This holds because `31 + id` wraps around injectively in 32 bits. |
| Students.EnrollInIdempotent | Student.java:7-8 | Enrolling twice in the same course equals enrolling once. The course is then current, and the passed set and ID are untouched. |
| Courses.Course.constructor | University.java:325-326 | A new course has the given code, no prerequisites and an empty roster. |
| Courses.Course.AddStudentToCourse | University.java:189 | The student's ID goes at the end of the roster, even if it is already there. |
| Courses.Course.RemoveStudent | University.java:221-222 | The first roster entry for the student is removed and the rest stay in order. |
| Courses.Course.AddPreRequisite | University.java:111-112 | The prerequisite goes at the end of the course's own list. |
| Courses.Course.RemovePreRequisite | University.java:297-299 | The first occurrence of the code is removed from the course's own list. |
| Universities.University.constructor | University.java:17-22 | A new university has both indexes empty and keeps its name and motto. |
| Universities.University.AddStudent | University.java:29-40 | Returns true exactly when the ID is not yet a key. On false nothing changes. On true the caller's own student object is filed under its ID. The course index keeps the same objects, and keys stay valid. |
| Universities.University.GetStudent | University.java:47-51 | Returns null exactly when the ID is not a key. Otherwise returns the indexed student with that ID. |
| Universities.University.GetStudents | University.java:61-76 | Returns as many students as the index holds. Every indexed student appears, nothing else does, and none appears twice. |
| Universities.University.AddCourse | University.java:83-93 | Returns true exactly when the code is not yet a key. On false nothing changes. On true the caller's own course object is filed under its code. The student index keeps the same objects. |
| Universities.University.AddRequisiteToCourse | University.java:103-116 | Follows `AddPrerequisite`: both codes must be keys, and the prerequisite is appended to the target's list. |
| Universities.University.GetCourse | University.java:123-127 | Returns null exactly when the code is not a key. Otherwise returns the indexed course with that code. |
| Universities.University.GetCourses | University.java:137-152 | Returns as many courses as the index holds. Every indexed course appears, nothing else does, and none appears twice. |
| Universities.University.EnrollStudentInCourse | University.java:169-193 | Follows `Enroll`. A scan over the prerequisite list refuses the student at the first prerequisite they have not passed. Otherwise both sides record the enrolment. |
| Universities.University.RemoveStudentFromCourse | University.java:202-226 | Follows `Unenroll`. Only a current enrolment is undone: the course leaves the student's set and one roster entry goes. |
| Universities.University.RemoveStudentFromUniversity | University.java:240-259 | Follows the documented `RemoveStudent`. An unknown ID returns false. Otherwise the student comes off its courses' rosters and out of the index. The student index loses exactly that ID, and the course index keeps the same objects. |
| Universities.University.DelistEverywhere | University.java:252-257 | The loop over the student's current courses removes one roster entry for the student from the course indexed under each code; the source changes the stored object, which may differ (see "## Left out"). |
| Universities.University.Unregister | University.java:258 | The ID leaves the student index, which otherwise keeps the same objects. Nothing else changes. |
| Universities.University.RemoveCourseFromUniversity | University.java:271-304 | Follows the documented `RemoveCourse`. An unknown code returns false. Otherwise the course leaves every listed student's set, each prerequisite list loses one occurrence, and the code leaves the index. The course index loses exactly that code, and the student index keeps the same objects. |
| Universities.University.WithdrawEveryone | University.java:281-285 | The loop over the roster takes the course out of the current set of the student indexed under each listed ID; the source changes the stored object, which may differ (see "## Left out"). |
| Universities.University.UnrequireEverywhere | University.java:294-301 | The loop over the course index removes the first occurrence of the code from each prerequisite list. |
| Universities.University.Unlist | University.java:302 | The code leaves the course index, which otherwise keeps the same objects. Nothing else changes. |
| Universities.University.AddNewStudent | University.java:321-323 | Returns true exactly when the ID is new, and then files a freshly allocated student with empty sets under it. Every other entry keeps its object. |
| Universities.University.AddNewCourse | University.java:325-326 | Returns true exactly when the code is new, and then files a freshly allocated course with no prerequisites and an empty roster under it. Every other entry keeps its object. |
| RegistryProperties.AddStudentOutcome | University.java:29-40 | Returns true if and only if the ID is new. On false the registry is unchanged. On true the student is filed, exactly one key is added and the courses are untouched. |
| RegistryProperties.AddCourseOutcome | University.java:83-93 | Returns true if and only if the code is new. On false the registry is unchanged. On true the course is filed, exactly one key is added and the students are untouched. |
| RegistryProperties.AddTwiceFails | University.java:25 | Adding the same student, or the same course, a second time always fails. |
| RegistryProperties.AddPrerequisiteOutcome | University.java:96-116 | Returns true if and only if both codes are keys. The target's list is the old list plus the prerequisite, with repeats and self-reference allowed. Nothing else changes. |
| RegistryProperties.EnrollOutcome | University.java:154-193 | Returns true if and only if both keys exist and every prerequisite is among the passed courses. On false the registry is unchanged. On true both sides record the enrolment and the passed courses are untouched. |
| RegistryProperties.NoPrerequisitesAdmitsAll | University.java:178-182 | A course without prerequisites admits every registered student. |
| RegistryProperties.UnenrollOutcome | University.java:195-226 | Returns true if and only if both keys exist and the course is current for the student. The course then leaves the set and one copy of the ID leaves the roster. |
| RegistryProperties.UnenrollTwice | University.java:213-215 | A second removal of the same enrolment returns false and changes nothing. |
| RegistryProperties.AdditionsKeepKeys | University.java:4-9 | Filing, attaching prerequisites, enrolling and unenrolling keep every student under its ID and every course under its code. |
| RegistryProperties.RemovalsKeepKeys | University.java:240-304 | Both removals keep every remaining entry under its own key. |
| RegistryProperties.EmptyConsistent | University.java:17-22 | A new university is consistent. |
| RegistryProperties.AddStudentKeepsConsistent | University.java:29-40 | Filing a student with no current courses keeps the two sides of every enrolment in step. |
| RegistryProperties.AddCourseKeepsConsistent | University.java:83-93 | Filing a course with an empty roster keeps the two sides in step. |
| RegistryProperties.AddPrerequisiteKeepsConsistent | University.java:103-116 | Attaching a prerequisite keeps the two sides in step. |
| RegistryProperties.EnrollKeepsConsistentIffNew | University.java:155-159 | A successful enrolment keeps the registry consistent if and only if the student was not already enrolled. A repeat puts the ID on the roster twice, so the rosters are no longer duplicate-free. |
| RegistryProperties.EnrollAgainKeepsSidesAgreeing | University.java:186-190 | After a repeat enrolment, the two sides still agree on who takes which course. Only the roster's duplicate-freedom is lost, and a later removal from the course trips over it. |
| RegistryProperties.UnenrollKeepsConsistent | University.java:202-226 | Taking a student off a course keeps the two sides in step. |
| RegistryProperties.RemoveStudentKeepsConsistent | University.java:229-259 | Removing a student keeps the two sides in step. |
| RegistryProperties.RemoveCourseKeepsConsistent | University.java:261-304 | Removing a course keeps the two sides in step. |
| RegistryProperties.RemoveStudentCascade | University.java:229-259 | After a student is removed from a consistent registry, the ID is in no index and on no roster. Every other student is unchanged and no course key is lost. |
| RegistryProperties.RemoveCourseCascade | University.java:261-304 | After a course is removed from a consistent registry, the code is in no index and in no student's current set. Passed courses are untouched. Every prerequisite list holds one copy of the code fewer, if it had one. |
| RegistryProperties.RemoveCourseClearsSinglePrerequisite | University.java:266 | A course listed at most once as a prerequisite is listed nowhere after its removal. |
| RegistryProperties.EnrollThenUnenroll | University.java:169-226 | Enrolling a student who was not enrolled and then removing them from the course restores the registry exactly. |
| RegistryProperties.AddThenRemoveStudent | University.java:29-40 | Filing a new student with no current courses (`s.enrolled == {}`) and then removing them from the university restores the registry. |
| RegistryProperties.AddThenRemoveCourse | University.java:83-93 | Filing a new course with an empty roster (`c.roster == []`) that no prerequisite list names, and then removing it, restores the registry. |
| RegistryProperties.EnrollTwiceThenUnenrollDisagrees | University.java:186-190 | Enrolling twice and unenrolling once leaves the student on the roster although the course has left the student's set. |
| RegistryProperties.RemoveCourseKeepsRepeatedPrerequisite | University.java:298-299 | A course listed twice as a prerequisite is still listed once after its removal. |
| RegistryProperties.PrerequisiteScenario | University.java:154-193 | With CS101 required for CS201, Ana is refused until CS101 is among her passed courses. She is then on both sides of the CS201 enrolment. |
| RegistryProperties.UnknownKeyRemoval | University.java:238-277 | With an unknown key, both removals as written end in a null dereference, and both removals as documented return false with nothing changed. |
| Walkthrough.RegisterAna | University.java:29-40 | Filing a caller's new student leaves that very object in the student index, with its fresh state. |
| Walkthrough.Register | University.java:29-40 | Filing the caller's own student and courses keeps those very objects in the indexes, with their fresh states. |
| Walkthrough.Open | University.java:103-116 | Attaching CS101 as prerequisite of CS201 changes only CS201's list, and the indexes keep their objects. |
| Walkthrough.Attempt | University.java:169-193 | Enrolling Ana in CS201 on the example's objects behaves as `Enroll` on the registry read off them. |
| Walkthrough.PrerequisiteWalkthrough | University.java:154-193 | On the objects: Ana is refused CS201, CS101 is added through her live passed-course set, and she is then admitted. Afterwards she takes CS201 and CS201's roster is `[1]`. |
| RegistryProperties.KnownKeyRemovalAgrees | University.java:240-304 | With a known key, the removals as written and as documented do the same thing. |

## Left out

- Serialization of student lists to and from files (`writeStudentsToFile`, `loadStudentsFromFile`) is left out because it is file I/O.
- `toString`, `getFullStudentInfo` and the name, motto and `getName` getters are left out because they only format or read back fixed fields. `getIdNumber` is the constant field `idNumber`.
- The source of `Course` is not available. The `Courses.Course` class models only its name, code, prerequisite list and roster, under two assumptions:
  - `addStudentToCourse` appends;
  - two courses are equal exactly when their codes are.
- The getters that hand out live collections are not modelled as values. Each write the registry makes through them is a method on the owning object instead: `DropEnrolledCourse`, `RemoveStudent`, `AddPreRequisite` and `RemovePreRequisite`.
- The registry only reads the passed-course set. A caller records a passed course through `getPreviousCourses`, and `AddPreviousCourse` stands for that caller-side write.
- Nothing models a caller that keeps such a collection and writes to it later.
- `HashMap` and `HashSet` are Dafny `map` and `set`. Hashing, iteration order and the iterator mechanics are left out. `getStudents` and `getCourses` promise no order.
- Universities.University.DelistEverywhere: each course in the student's current set is looked up in the index by its code. The object in the set may differ from the indexed object with the same code, and the source changes that stored object. For example, a student removed while enrolled keeps the old `Course`; if the course is removed and re-added under the same code and the student is re-filed and enrolled again, `HashSet.add` keeps the old object, so the source's removal leaves the new course's roster unchanged while the model delists the student from it. A code missing from the index is skipped for the same reason. Re-filing a student with a non-empty current set already breaks consistency (`AddStudentKeepsConsistent`).
- Universities.University.WithdrawEveryone: each student on the course's roster is looked up in the index by its ID. The object on the roster may differ from the indexed object with the same ID, and the source changes that stored object. A student removed and re-filed as a new object under the same ID is such a case. An ID missing from the index is skipped for the same reason.
- An ID outside the documented range 0 to 999999 is not refused by the source, and the model does not refuse it either. IDs range over Java's `int`.
- The removal methods promise the documented `false` for an unknown key. The behaviour as written is kept in `RemoveStudentAsWritten` and `RemoveCourseAsWritten` (see Findings).

## Findings

| source | as written | input that shows it | evidently intended | confidence | as-written member | corrected member |
|---|---|---|---|---|---|---|
| University.java:240-259 | `studentBody.get` returns null for an unknown ID, and the result is dereferenced at :246 | `removeStudentFromUniversity(7)` on a new university | return false, as the doc comment at :238 says | not executed | RegistrySpec.RemoveStudentAsWritten, RegistryProperties.UnknownKeyRemoval | RegistrySpec.RemoveStudent, Universities.University.RemoveStudentFromUniversity |
| University.java:271-304 | `availableCourses.get` returns null for an unknown code, and the result is dereferenced at :277 | `removeCourseFromUniversity("CS101")` on a new university | return false, as the doc comment at :269 says | not executed | RegistrySpec.RemoveCourseAsWritten, RegistryProperties.UnknownKeyRemoval | RegistrySpec.RemoveCourse, Universities.University.RemoveCourseFromUniversity |
