/**
 * `Student`: a name and an ID fixed at construction, and two course sets
 * that are changed in place, the current one by `enrollInCourse` and by the
 * registry through the live set `getEnrolledCourses` hands out, the passed
 * one only through the live set `getPreviousCourses` hands out.
 */
module Students {
  import opened RegistrySpec

  /** Java's 32-bit two's-complement wrap-around of an integer result. */
  function Wrap32(v: int): Int32 {
    (v + 0x8000_0000) % 0x1_0000_0000 - 0x8000_0000
  }

  class Student {
    const name: string
    const idNumber: Int32
    var enrolledCourses: set<string>
    var previousCourses: set<string>

    /** The student as the registry sees it. */
    function State(): StudentState
      reads this
    {
      StudentState(name, idNumber, enrolledCourses, previousCourses)
    }

    constructor (name: string, idNumber: Int32)
      ensures State() == NewStudent(name, idNumber)
    {
      this.name := name;
      this.idNumber := idNumber;
      enrolledCourses := {};
      previousCourses := {};
    }

    /** Adds the course to the current ones; a second call changes nothing. */
    method EnrollInCourse(code: string)
      modifies this
      ensures State() == EnrollIn(old(State()), code)
    {
      enrolledCourses := enrolledCourses + {code};
    }

    /** `getEnrolledCourses().remove(course)`, a write through the returned live set. */
    method DropEnrolledCourse(code: string)
      modifies this
      ensures State() == Withdraw(old(State()), code)
    {
      enrolledCourses := enrolledCourses - {code};
    }

    /** `getPreviousCourses().add(course)`, a write through the returned live set. */
    method AddPreviousCourse(code: string)
      modifies this
      ensures State() == Pass(old(State()), code)
    {
      previousCourses := previousCourses + {code};
    }

    /** `equals`: only another `Student` can be equal, and then exactly when the IDs agree. */
    predicate Equals(o: object?)
    {
      o is Student && (o as Student).idNumber == idNumber
    }

    /** `hashCode`: `Objects.hash(idNumber)`, that is `31 + idNumber` in `int` arithmetic. */
    function HashCode(): Int32
    {
      Wrap32(31 + idNumber)
    }
  }

  /** `equals` is an equivalence on students. */
  lemma EqualsIsEquivalence(a: Student, b: Student, c: Student)
    ensures a.Equals(a)
    ensures a.Equals(b) <==> b.Equals(a)
    ensures a.Equals(b) && b.Equals(c) ==> a.Equals(c)
  {
  }

  /** Students that are `equals` have the same `hashCode`, and conversely. */
  lemma HashCodeAgreesWithEquals(a: Student, b: Student)
    ensures a.Equals(b) <==> a.HashCode() == b.HashCode()
  {
    var x, y := 31 + a.idNumber, 31 + b.idNumber;
    if Wrap32(x) == Wrap32(y) {
      assert x - y == (if x < 0x8000_0000 then 0 else 0x1_0000_0000) - (if y < 0x8000_0000 then 0 else 0x1_0000_0000);
    }
  }

  /** `enrollInCourse` is idempotent: enrolling twice is enrolling once. */
  lemma EnrollInIdempotent(s: StudentState, code: string)
    ensures EnrollIn(EnrollIn(s, code), code) == EnrollIn(s, code)
    ensures code in EnrollIn(s, code).enrolled
    ensures EnrollIn(s, code).previous == s.previous && EnrollIn(s, code).id == s.id
  {
  }
}
