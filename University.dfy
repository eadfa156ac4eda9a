/**
 * `University`: the two indexes, changed in place, and the operations that
 * keep the student-to-course and course-to-student collections of the
 * indexed objects in step. Each operation is specified by the function of
 * the same name in `RegistrySpec`, applied to the registry it sees.
 */
module Universities {
  import opened RegistrySpec
  import opened Students
  import opened Courses

  class University {
    const universityName: string
    const universityMotto: string
    var studentBody: map<Int32, Student>
    var availableCourses: map<string, Course>

    /** Every student is filed under its own ID and every course under its own code. */
    ghost predicate Valid()
      reads this
    {
      && (forall id :: id in studentBody ==> studentBody[id].idNumber == id)
      && (forall code :: code in availableCourses ==> availableCourses[code].courseCode == code)
    }

    /** The registry this university holds. */
    ghost function Model(): Registry
      reads this, studentBody.Values, availableCourses.Values
    {
      Registry(StudentIndex(), CourseIndex())
    }

    /** The student index, with each student's state. */
    ghost function StudentIndex(): map<Int32, StudentState>
      reads this`studentBody, studentBody.Values
    {
      map id | id in studentBody :: studentBody[id].State()
    }

    /** The course index, with each course's state. */
    ghost function CourseIndex(): map<string, CourseState>
      reads this`availableCourses, availableCourses.Values
    {
      map code | code in availableCourses :: availableCourses[code].State()
    }

    /** `StudentIndex()` is `m` when every indexed student shows its entry of `m`. */
    lemma StudentIndexIs(m: map<Int32, StudentState>)
      requires m.Keys == studentBody.Keys
      requires forall id :: id in studentBody ==> studentBody[id].State() == m[id]
      ensures StudentIndex() == m
    {
    }

    /** `CourseIndex()` is `m` when every indexed course shows its entry of `m`. */
    lemma CourseIndexIs(m: map<string, CourseState>)
      requires m.Keys == availableCourses.Keys
      requires forall code :: code in availableCourses ==> availableCourses[code].State() == m[code]
      ensures CourseIndex() == m
    {
    }

    constructor (universityName: string, universityMotto: string)
      ensures Valid() && Model() == Empty()
      ensures this.universityName == universityName && this.universityMotto == universityMotto
    {
      this.universityName := universityName;
      this.universityMotto := universityMotto;
      studentBody := map[];
      availableCourses := map[];
    }

    /** `addStudent(student)`. */
    method AddStudent(student: Student) returns (ok: bool)
      requires Valid()
      modifies this
      ensures Valid()
      ensures Step(ok, Model()) == RegistrySpec.AddStudent(old(Model()), student.State())
      ensures ok <==> student.idNumber !in old(studentBody)
      ensures studentBody == if ok then old(studentBody)[student.idNumber := student] else old(studentBody)
      ensures availableCourses == old(availableCourses)
    {
      if student.idNumber in studentBody {
        ok := false;
      } else {
        studentBody := studentBody[student.idNumber := student];
        ok := true;
      }
    }

    /** `getStudent(idNumber)`: the student filed under that ID, or null. */
    function GetStudent(idNumber: Int32): (s: Student?)
      requires Valid()
      reads this
      ensures s == null <==> idNumber !in studentBody
      ensures s != null ==> s in studentBody.Values && s.idNumber == idNumber
    {
      if idNumber in studentBody then studentBody[idNumber] else null
    }

    /** `getStudents()`: every indexed student once, in the order the key set is walked. */
    method GetStudents() returns (students: seq<Student>)
      requires Valid()
      ensures |students| == |studentBody|
      ensures forall i :: 0 <= i < |students| ==> students[i] in studentBody.Values
      ensures forall s :: s in studentBody.Values ==> s in students
      ensures forall i, j :: 0 <= i < j < |students| ==> students[i] != students[j]
    {
      var keys := studentBody.Keys;
      students := [];
      var i := 0;
      while i < |studentBody|
        invariant keys <= studentBody.Keys
        invariant i == |students| && |keys| == |studentBody| - i
        invariant forall k :: 0 <= k < i ==> students[k] in studentBody.Values && students[k].idNumber !in keys
        invariant forall id :: id in studentBody && id !in keys ==> studentBody[id] in students
        invariant forall k, l :: 0 <= k < l < i ==> students[k] != students[l]
      {
        var id :| id in keys;
        students := students + [studentBody[id]];
        keys := keys - {id};
        i := i + 1;
      }
    }

    /** `addCourse(course)`. */
    method AddCourse(course: Course) returns (ok: bool)
      requires Valid()
      modifies this
      ensures Valid()
      ensures Step(ok, Model()) == RegistrySpec.AddCourse(old(Model()), course.State())
      ensures ok <==> course.courseCode !in old(availableCourses)
      ensures availableCourses == if ok then old(availableCourses)[course.courseCode := course] else old(availableCourses)
      ensures studentBody == old(studentBody)
    {
      if course.courseCode in availableCourses {
        ok := false;
      } else {
        availableCourses := availableCourses[course.courseCode := course];
        ok := true;
      }
    }

    /** `addRequisiteToCourse(courseID, preReqCourseID)`. */
    method AddRequisiteToCourse(courseID: string, preReqCourseID: string) returns (ok: bool)
      requires Valid()
      modifies availableCourses.Values
      ensures Step(ok, Model()) == AddPrerequisite(old(Model()), courseID, preReqCourseID)
    {
      if courseID in availableCourses && preReqCourseID in availableCourses {
        var course := availableCourses[courseID];
        var preReqCourse := availableCourses[preReqCourseID];
        course.AddPreRequisite(preReqCourse.courseCode);
        ok := true;
      } else {
        ok := false;
      }
    }

    /** `getCourse(courseCode)`: the course filed under that code, or null. */
    function GetCourse(courseCode: string): (c: Course?)
      requires Valid()
      reads this
      ensures c == null <==> courseCode !in availableCourses
      ensures c != null ==> c in availableCourses.Values && c.courseCode == courseCode
    {
      if courseCode in availableCourses then availableCourses[courseCode] else null
    }

    /** `getCourses()`: every indexed course once, in the order the key set is walked. */
    method GetCourses() returns (courses: seq<Course>)
      requires Valid()
      ensures |courses| == |availableCourses|
      ensures forall i :: 0 <= i < |courses| ==> courses[i] in availableCourses.Values
      ensures forall c :: c in availableCourses.Values ==> c in courses
      ensures forall i, j :: 0 <= i < j < |courses| ==> courses[i] != courses[j]
    {
      var keys := availableCourses.Keys;
      courses := [];
      var i := 0;
      while i < |availableCourses|
        invariant keys <= availableCourses.Keys
        invariant i == |courses| && |keys| == |availableCourses| - i
        invariant forall k :: 0 <= k < i ==> courses[k] in availableCourses.Values && courses[k].courseCode !in keys
        invariant forall code :: code in availableCourses && code !in keys ==> availableCourses[code] in courses
        invariant forall k, l :: 0 <= k < l < i ==> courses[k] != courses[l]
      {
        var code :| code in keys;
        courses := courses + [availableCourses[code]];
        keys := keys - {code};
        i := i + 1;
      }
    }

    /** `enrollStudentInCourse(studentID, courseCode)`. */
    method EnrollStudentInCourse(studentID: Int32, courseCode: string) returns (ok: bool)
      requires Valid()
      modifies studentBody.Values, availableCourses.Values
      ensures Step(ok, Model()) == Enroll(old(Model()), studentID, courseCode)
    {
      if studentID in studentBody && courseCode in availableCourses {
        var courses := studentBody[studentID].previousCourses;
        var courses1 := availableCourses[courseCode].preRequisites;
        var i := 0;
        while i < |courses1|
          invariant 0 <= i <= |courses1|
          invariant forall k :: 0 <= k < i ==> courses1[k] in courses
        {
          if courses1[i] !in courses {
            return false;
          }
          i := i + 1;
        }
        var student := studentBody[studentID];
        var course := availableCourses[courseCode];
        ghost var before := old(Model());
        student.EnrollInCourse(course.courseCode);
        course.AddStudentToCourse(student);
        StudentIndexIs(before.students[studentID := EnrollIn(before.students[studentID], courseCode)]);
        CourseIndexIs(before.courses[courseCode := Enlist(before.courses[courseCode], studentID)]);
        ok := true;
      } else {
        ok := false;
      }
    }

    /** `removeStudentFromCourse(studentID, courseCode)`. */
    method RemoveStudentFromCourse(studentID: Int32, courseCode: string) returns (ok: bool)
      requires Valid()
      modifies studentBody.Values, availableCourses.Values
      ensures Step(ok, Model()) == Unenroll(old(Model()), studentID, courseCode)
    {
      if studentID in studentBody && courseCode in availableCourses {
        var student := studentBody[studentID];
        var course := availableCourses[courseCode];
        if course.courseCode !in student.enrolledCourses {
          return false;
        }
        ghost var before := old(Model());
        student.DropEnrolledCourse(course.courseCode);
        course.RemoveStudent(student);
        StudentIndexIs(before.students[studentID := Withdraw(before.students[studentID], courseCode)]);
        CourseIndexIs(before.courses[courseCode := Delist(before.courses[courseCode], studentID)]);
        ok := true;
      } else {
        ok := false;
      }
    }

    /**
     * `removeStudentFromUniversity(studentID)`: off the roster of every course
     * in its enrolled set, then out of the index. An unknown ID gives false, as
     * documented; the source dereferences null instead.
     */
    method RemoveStudentFromUniversity(studentID: Int32) returns (ok: bool)
      requires Valid()
      modifies this, availableCourses.Values
      ensures Valid()
      ensures Step(ok, Model()) == RemoveStudent(old(Model()), studentID)
      ensures studentBody == old(studentBody) - {studentID}
      ensures availableCourses == old(availableCourses)
    {
      if studentID !in studentBody {
        return false;
      }
      var student := studentBody[studentID];
      assert student.State() == old(Model()).students[studentID];
      DelistEverywhere(student);
      Unregister(studentID);
      ok := true;
    }

    /**
     * The loop over the student's enrolled courses: the course indexed under each
     * code loses one roster entry for the student. The course is found by its code,
     * not as the object stored in the student's set.
     */
    method DelistEverywhere(student: Student)
      requires Valid()
      modifies availableCourses.Values
      ensures Model() == old(Model()).(courses := DelistFrom(old(Model()).courses, student.enrolledCourses, student.idNumber))
    {
      ghost var before := CourseIndex();
      var courses := student.enrolledCourses;
      var pending := courses;
      while pending != {}
        invariant pending <= courses
        invariant forall code :: code in availableCourses ==>
          availableCourses[code].State() ==
            if code in courses - pending then Delist(before[code], student.idNumber) else before[code]
        decreases pending
      {
        var code :| code in pending;
        if code in availableCourses {
          availableCourses[code].RemoveStudent(student);
        }
        pending := pending - {code};
      }
      CourseIndexIs(DelistFrom(before, courses, student.idNumber));
      assert unchanged(studentBody.Values);
    }

    /** `studentBody.remove(studentID, student)`: the ID leaves the index. */
    method Unregister(studentID: Int32)
      requires Valid()
      modifies this`studentBody
      ensures Valid()
      ensures Model() == old(Model()).(students := old(Model()).students - {studentID})
      ensures studentBody == old(studentBody) - {studentID}
    {
      ghost var before := StudentIndex();
      studentBody := studentBody - {studentID};
      StudentIndexIs(before - {studentID});
    }

    /**
     * `removeCourseFromUniversity(courseCode)`: out of the enrolled set of every
     * student on its roster, out of every prerequisite list once, then out of
     * the index. An unknown code gives false, as documented; the source
     * dereferences null instead.
     */
    method RemoveCourseFromUniversity(courseCode: string) returns (ok: bool)
      requires Valid()
      modifies this, studentBody.Values, availableCourses.Values
      ensures Valid()
      ensures Step(ok, Model()) == RemoveCourse(old(Model()), courseCode)
      ensures availableCourses == old(availableCourses) - {courseCode}
      ensures studentBody == old(studentBody)
    {
      if courseCode !in availableCourses {
        return false;
      }
      var course := availableCourses[courseCode];
      assert course.State() == old(Model()).courses[courseCode];
      WithdrawEveryone(course.enrolledStudents, course.courseCode);
      UnrequireEverywhere(course.courseCode);
      Unlist(courseCode);
      ok := true;
    }

    /**
     * The loop over the roster of a course being removed: the student indexed under
     * each listed ID stops taking it. The student is found by its ID, not as the
     * object stored on the roster.
     */
    method WithdrawEveryone(students: seq<Int32>, courseCode: string)
      requires Valid()
      modifies studentBody.Values
      ensures Model() == old(Model()).(students := WithdrawAll(old(Model()).students, students, courseCode))
    {
      ghost var before := StudentIndex();
      var i := 0;
      while i < |students|
        invariant 0 <= i <= |students|
        invariant forall id :: id in studentBody ==>
          studentBody[id].State() ==
            if id in students[..i] then Withdraw(before[id], courseCode) else before[id]
      {
        var id := students[i];
        if id in studentBody {
          studentBody[id].DropEnrolledCourse(courseCode);
        }
        i := i + 1;
      }
      assert students[..i] == students;
      StudentIndexIs(WithdrawAll(before, students, courseCode));
      assert unchanged(availableCourses.Values);
    }

    /** The loop over the course index: each prerequisite list loses its first occurrence of the code. */
    method UnrequireEverywhere(courseCode: string)
      requires Valid()
      modifies availableCourses.Values
      ensures Model() == old(Model()).(courses := UnrequireAll(old(Model()).courses, courseCode))
    {
      ghost var before := CourseIndex();
      var courses := availableCourses;
      var pending := courses.Keys;
      while pending != {}
        invariant pending <= courses.Keys
        invariant forall code :: code in courses ==>
          courses[code].State() ==
            if code in pending then before[code] else Unrequire(before[code], courseCode)
        decreases pending
      {
        var code :| code in pending;
        var course1 := courses[code];
        assert course1.State() == before[code];
        if courseCode in course1.preRequisites {
          course1.RemovePreRequisite(courseCode);
        }
        assert course1.State() == Unrequire(before[code], courseCode);
        pending := pending - {code};
      }
      CourseIndexIs(UnrequireAll(before, courseCode));
      assert unchanged(studentBody.Values);
    }

    /** `availableCourses.remove(courseCode, course)`: the code leaves the index. */
    method Unlist(courseCode: string)
      requires Valid()
      modifies this`availableCourses
      ensures Valid()
      ensures Model() == old(Model()).(courses := old(Model()).courses - {courseCode})
      ensures availableCourses == old(availableCourses) - {courseCode}
    {
      ghost var before := CourseIndex();
      availableCourses := availableCourses - {courseCode};
      CourseIndexIs(before - {courseCode});
    }

    /** `addStudent(name, studentID)`: a new student under that ID. */
    method AddNewStudent(name: string, studentID: Int32) returns (ok: bool)
      requires Valid()
      modifies this
      ensures Valid()
      ensures Step(ok, Model()) == RegistrySpec.AddStudent(old(Model()), NewStudent(name, studentID))
      ensures ok <==> studentID !in old(studentBody)
      ensures ok ==> studentID in studentBody && fresh(studentBody[studentID])
      ensures studentBody == if ok then old(studentBody)[studentID := studentBody[studentID]] else old(studentBody)
      ensures availableCourses == old(availableCourses)
    {
      var student := new Student(name, studentID);
      ok := AddStudent(student);
    }

    /** `addCourse(name, courseID)`: a new course under that code. */
    method AddNewCourse(name: string, courseID: string) returns (ok: bool)
      requires Valid()
      modifies this
      ensures Valid()
      ensures Step(ok, Model()) == RegistrySpec.AddCourse(old(Model()), NewCourse(name, courseID))
      ensures ok <==> courseID !in old(availableCourses)
      ensures ok ==> courseID in availableCourses && fresh(availableCourses[courseID])
      ensures availableCourses == if ok then old(availableCourses)[courseID := availableCourses[courseID]] else old(availableCourses)
      ensures studentBody == old(studentBody)
    {
      var course := new Course(name, courseID);
      ok := AddCourse(course);
    }
  }
}
