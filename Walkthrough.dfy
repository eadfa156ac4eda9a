/**
 * The Ana/CS101/CS201 enrolment example, stated on the objects: Ana is refused
 * CS201 until CS101 is among her passed courses. A student filed by the caller
 * stays the caller's object, so passing a course through the live set of
 * previous courses is seen by the next enrolment.
 */
module Walkthrough {
  import opened RegistrySpec
  import opened Students
  import opened Courses
  import opened Universities

  /** The registry of the example, read off its three objects. */
  ghost function Snapshot(ana: Student, cs101: Course, cs201: Course): Registry
    reads ana, cs101, cs201
  {
    Registry(map[1 := ana.State()], map["CS101" := cs101.State(), "CS201" := cs201.State()])
  }

  /** A university whose indexes hold exactly the three objects holds their snapshot. */
  lemma ModelIsSnapshot(u: University, ana: Student, cs101: Course, cs201: Course)
    requires u.studentBody == map[1 := ana] && u.availableCourses == map["CS101" := cs101, "CS201" := cs201]
    ensures u.Model() == Snapshot(ana, cs101, cs201)
  {
    u.StudentIndexIs(map[1 := ana.State()]);
    u.CourseIndexIs(map["CS101" := cs101.State(), "CS201" := cs201.State()]);
  }

  /** A new university holding only Ana, filed by the caller. */
  method RegisterAna() returns (u: University, ana: Student)
    ensures fresh(u) && fresh(ana)
    ensures u.Valid() && u.studentBody == map[1 := ana] && u.availableCourses == map[]
    ensures ana.State() == NewStudent("Ana", 1)
  {
    u := new University("Dalhousie", "Ora et Labora");
    ana := new Student("Ana", 1);
    var filed := u.AddStudent(ana);
  }

  /** A university holding exactly Ana, CS101 and CS201, each filed by the caller. */
  method Register() returns (u: University, ana: Student, cs101: Course, cs201: Course)
    ensures fresh(u) && fresh(ana) && fresh(cs101) && fresh(cs201)
    ensures u.Valid() && u.studentBody == map[1 := ana] && u.availableCourses == map["CS101" := cs101, "CS201" := cs201]
    ensures ana.State() == NewStudent("Ana", 1)
    ensures cs101.State() == NewCourse("Introduction to Computer Science", "CS101")
    ensures cs201.State() == NewCourse("Data Structures", "CS201")
  {
    u, ana := RegisterAna();
    cs101 := new Course("Introduction to Computer Science", "CS101");
    cs201 := new Course("Data Structures", "CS201");
    var filed := u.AddCourse(cs101);
    assert u.availableCourses == map["CS101" := cs101];
    filed := u.AddCourse(cs201);
  }

  /** The same university once CS101 is required for CS201. */
  method Open() returns (u: University, ana: Student, cs101: Course, cs201: Course)
    ensures fresh(u) && fresh(ana) && fresh(cs101) && fresh(cs201)
    ensures u.Valid() && u.studentBody == map[1 := ana] && u.availableCourses == map["CS101" := cs101, "CS201" := cs201]
    ensures ana.State() == NewStudent("Ana", 1)
    ensures cs201.State() == Require(NewCourse("Data Structures", "CS201"), "CS101")
  {
    u, ana, cs101, cs201 := Register();
    ModelIsSnapshot(u, ana, cs101, cs201);
    var filed := u.AddRequisiteToCourse("CS201", "CS101");
    ModelIsSnapshot(u, ana, cs101, cs201);
    assert Snapshot(ana, cs101, cs201).courses["CS201"] == cs201.State();
    assert Snapshot(ana, cs101, cs201).students[1] == ana.State();
  }

  /** `enrollStudentInCourse(1, "CS201")` on the example's university, seen on its three objects. */
  method Attempt(u: University, ana: Student, cs101: Course, cs201: Course) returns (ok: bool)
    requires u.Valid() && u.studentBody == map[1 := ana] && u.availableCourses == map["CS101" := cs101, "CS201" := cs201]
    modifies ana, cs101, cs201
    ensures Step(ok, Snapshot(ana, cs101, cs201)) == Enroll(old(Snapshot(ana, cs101, cs201)), 1, "CS201")
  {
    ModelIsSnapshot(u, ana, cs101, cs201);
    ok := u.EnrollStudentInCourse(1, "CS201");
    ModelIsSnapshot(u, ana, cs101, cs201);
  }

  /**
   * With CS101 required for CS201, Ana is refused CS201 until CS101 is added
   * to her passed courses through the live set; she is then enrolled, on both sides.
   */
  method PrerequisiteWalkthrough() returns (refused: bool, admitted: bool, ana: Student, cs201: Course)
    ensures !refused && admitted
    ensures ana.enrolledCourses == {"CS201"} && ana.previousCourses == {"CS101"}
    ensures cs201.enrolledStudents == [1] && cs201.preRequisites == ["CS101"]
  {
    var u, cs101;
    u, ana, cs101, cs201 := Open();
    ghost var none: set<string> := {};
    assert !PrerequisitesMet(none, cs201.preRequisites) by {
      assert cs201.preRequisites[0] !in none;
    }
    refused := Attempt(u, ana, cs101, cs201);
    assert Snapshot(ana, cs101, cs201).courses["CS201"] == cs201.State();
    ana.AddPreviousCourse("CS101");
    assert PrerequisitesMet(ana.previousCourses, cs201.preRequisites);
    admitted := Attempt(u, ana, cs101, cs201);
    assert Snapshot(ana, cs101, cs201).courses["CS201"] == cs201.State();
  }
}
