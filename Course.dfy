/**
 * `Course`, whose source file is not available, reduced to what the
 * registry uses: a name and a code fixed at construction, a prerequisite list
 * and a roster, both changed in place. Two assumptions are made about it:
 * `addStudentToCourse` appends to the roster, and two courses are equal
 * exactly when their codes are, so a course stands for its code in every
 * collection.
 */
module Courses {
  import opened RegistrySpec
  import Students
  import Lists

  class Course {
    const name: string
    const courseCode: string
    var preRequisites: seq<string>
    var enrolledStudents: seq<Int32>

    /** The course as the registry sees it. */
    function State(): CourseState
      reads this
    {
      CourseState(name, courseCode, preRequisites, enrolledStudents)
    }

    constructor (name: string, courseCode: string)
      ensures State() == NewCourse(name, courseCode)
    {
      this.name := name;
      this.courseCode := courseCode;
      preRequisites := [];
      enrolledStudents := [];
    }

    /** `addStudentToCourse`: the student goes at the end of the roster, even when already on it. */
    method AddStudentToCourse(student: Students.Student)
      modifies this
      ensures State() == Enlist(old(State()), student.idNumber)
    {
      enrolledStudents := enrolledStudents + [student.idNumber];
    }

    /** `getEnrolledStudents().remove(student)`: the first entry equal to the student goes. */
    method RemoveStudent(student: Students.Student)
      modifies this
      ensures State() == Delist(old(State()), student.idNumber)
    {
      enrolledStudents := Lists.RemoveFirst(enrolledStudents, student.idNumber);
    }

    /** `getPreRequisites().add(course)`. */
    method AddPreRequisite(code: string)
      modifies this
      ensures State() == Require(old(State()), code)
    {
      preRequisites := preRequisites + [code];
    }

    /** `getPreRequisites().remove(course)`: the first occurrence of the course goes. */
    method RemovePreRequisite(code: string)
      modifies this
      ensures State() == Unrequire(old(State()), code)
    {
      preRequisites := Lists.RemoveFirst(preRequisites, code);
    }
  }
}
