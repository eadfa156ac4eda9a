/**
 * What the registry operations promise: the failure cases leave the registry
 * alone, the indexes stay keyed by ID and code, the student and course sides
 * of every enrolment stay in step, and the cascades of the two removals reach
 * everything they should.
 */
module RegistryProperties {
  import opened Lists
  import opened RegistrySpec

  /** Every student is filed under its own ID and every course under its own code. */
  ghost predicate WellKeyed(r: Registry) {
    && (forall id :: id in r.students ==> r.students[id].id == id)
    && (forall code :: code in r.courses ==> r.courses[code].code == code)
  }

  /** An indexed student's current course is indexed and has the student on its roster. */
  ghost predicate EnrolledAreListed(r: Registry) {
    forall id, code :: id in r.students && code in r.students[id].enrolled ==>
      code in r.courses && id in r.courses[code].roster
  }

  /** A student on an indexed course's roster is indexed and lists the course as current. */
  ghost predicate ListedAreEnrolled(r: Registry) {
    forall code, id :: code in r.courses && id in r.courses[code].roster ==>
      id in r.students && code in r.students[id].enrolled
  }

  /** No roster names a student twice. */
  ghost predicate RostersDistinct(r: Registry) {
    forall code :: code in r.courses ==> NoDup(r.courses[code].roster)
  }

  /**
   * The registry invariant: the student and course sides of every enrolment
   * agree, and each enrolment appears once on the course side.
   */
  ghost predicate Consistent(r: Registry) {
    EnrolledAreListed(r) && ListedAreEnrolled(r) && RostersDistinct(r)
  }

  // ------------------------------------------------------------ failure cases

  /** A used ID is refused and nothing changes; a new one is filed and the course index is untouched. */
  lemma AddStudentOutcome(r: Registry, s: StudentState)
    ensures AddStudent(r, s).ok <==> s.id !in r.students
    ensures !AddStudent(r, s).ok ==> AddStudent(r, s).after == r
    ensures AddStudent(r, s).ok ==>
      && AddStudent(r, s).after.students[s.id] == s
      && AddStudent(r, s).after.students.Keys == r.students.Keys + {s.id}
      && AddStudent(r, s).after.courses == r.courses
  {
  }

  /** A used code is refused and nothing changes; a new one is filed and the student index is untouched. */
  lemma AddCourseOutcome(r: Registry, c: CourseState)
    ensures AddCourse(r, c).ok <==> c.code !in r.courses
    ensures !AddCourse(r, c).ok ==> AddCourse(r, c).after == r
    ensures AddCourse(r, c).ok ==>
      && AddCourse(r, c).after.courses[c.code] == c
      && AddCourse(r, c).after.courses.Keys == r.courses.Keys + {c.code}
      && AddCourse(r, c).after.students == r.students
  {
  }

  /** Adding the same student, or the same course, a second time always fails. */
  lemma AddTwiceFails(r: Registry, s: StudentState, c: CourseState)
    ensures !AddStudent(AddStudent(r, s).after, s).ok
    ensures !AddCourse(AddCourse(r, c).after, c).ok
  {
  }

  /**
   * A prerequisite is attached when both codes are known: the target's list
   * grows by exactly that code at its end, repeats and self-references
   * included, and nothing else changes.
   */
  lemma AddPrerequisiteOutcome(r: Registry, code: string, prerequisite: string)
    ensures AddPrerequisite(r, code, prerequisite).ok <==> code in r.courses && prerequisite in r.courses
    ensures !AddPrerequisite(r, code, prerequisite).ok ==> AddPrerequisite(r, code, prerequisite).after == r
    ensures AddPrerequisite(r, code, prerequisite).ok ==>
      var after := AddPrerequisite(r, code, prerequisite).after;
      && after.students == r.students
      && after.courses.Keys == r.courses.Keys
      && after.courses[code].prerequisites == r.courses[code].prerequisites + [prerequisite]
      && after.courses[code].roster == r.courses[code].roster
      && (forall k :: k in r.courses && k != code ==> after.courses[k] == r.courses[k])
  {
  }

  /**
   * Enrolment is gated on the passed courses alone: it succeeds exactly when
   * both keys are known and every prerequisite has been passed, and then both
   * sides record the enrolment while the passed courses stay as they were.
   */
  lemma EnrollOutcome(r: Registry, id: Int32, code: string)
    ensures Enroll(r, id, code).ok <==>
      && id in r.students && code in r.courses
      && (forall p :: p in r.courses[code].prerequisites ==> p in r.students[id].previous)
    ensures !Enroll(r, id, code).ok ==> Enroll(r, id, code).after == r
    ensures Enroll(r, id, code).ok ==>
      var after := Enroll(r, id, code).after;
      && after.students.Keys == r.students.Keys && after.courses.Keys == r.courses.Keys
      && code in after.students[id].enrolled
      && after.courses[code].roster == r.courses[code].roster + [id]
      && after.students[id].previous == r.students[id].previous
  {
  }

  /** A course without prerequisites admits every registered student. */
  lemma NoPrerequisitesAdmitsAll(r: Registry, id: Int32, code: string)
    requires id in r.students && code in r.courses && r.courses[code].prerequisites == []
    ensures Enroll(r, id, code).ok
  {
  }

  /**
   * Removal from a course succeeds exactly for a current enrolment, and then
   * the course leaves the student's set and one entry for the student leaves
   * the roster.
   */
  lemma UnenrollOutcome(r: Registry, id: Int32, code: string)
    ensures Unenroll(r, id, code).ok <==> id in r.students && code in r.courses && code in r.students[id].enrolled
    ensures !Unenroll(r, id, code).ok ==> Unenroll(r, id, code).after == r
    ensures Unenroll(r, id, code).ok ==>
      var after := Unenroll(r, id, code).after;
      && code !in after.students[id].enrolled
      && after.students[id].previous == r.students[id].previous
      && multiset(after.courses[code].roster) == multiset(r.courses[code].roster) - multiset{id}
  {
    if Unenroll(r, id, code).ok {
      RemoveFirstMultiset(r.courses[code].roster, id);
    }
  }

  /** A second removal of the same enrolment fails and changes nothing. */
  lemma UnenrollTwice(r: Registry, id: Int32, code: string)
    requires Unenroll(r, id, code).ok
    ensures Unenroll(Unenroll(r, id, code).after, id, code) == Step(false, Unenroll(r, id, code).after)
  {
  }

  // ------------------------------------------------------------------ keying

  /** Filing, attaching a prerequisite, enrolling and unenrolling keep students under their IDs and courses under their codes. */
  lemma AdditionsKeepKeys(r: Registry, s: StudentState, c: CourseState, id: Int32, code: string, other: string)
    requires WellKeyed(r)
    ensures WellKeyed(AddStudent(r, s).after)
    ensures WellKeyed(AddCourse(r, c).after)
    ensures WellKeyed(AddPrerequisite(r, code, other).after)
    ensures WellKeyed(Enroll(r, id, code).after)
    ensures WellKeyed(Unenroll(r, id, code).after)
  {
  }

  /** Both removals leave every remaining student and course under its own key. */
  lemma RemovalsKeepKeys(r: Registry, id: Int32, code: string)
    requires WellKeyed(r)
    ensures WellKeyed(RemoveStudent(r, id).after)
    ensures WellKeyed(RemoveCourse(r, code).after)
  {
  }

  // ------------------------------------------------------------- consistency

  /** The empty registry is consistent. */
  lemma EmptyConsistent()
    ensures Consistent(Empty()) && WellKeyed(Empty())
  {
  }

  /** Filing a student with no current courses keeps the registry consistent. */
  lemma {:induction false} AddStudentKeepsConsistent(r: Registry, s: StudentState)
    requires Consistent(r) && s.enrolled == {}
    ensures Consistent(AddStudent(r, s).after)
  {
  }

  /** Filing a course with nobody on its roster keeps the registry consistent. */
  lemma {:induction false} AddCourseKeepsConsistent(r: Registry, c: CourseState)
    requires Consistent(r) && c.roster == []
    ensures Consistent(AddCourse(r, c).after)
  {
  }

  /** Attaching a prerequisite keeps the registry consistent. */
  lemma {:induction false} AddPrerequisiteKeepsConsistent(r: Registry, code: string, prerequisite: string)
    requires Consistent(r)
    ensures Consistent(AddPrerequisite(r, code, prerequisite).after)
  {
  }

  /**
   * A successful enrolment keeps the registry consistent exactly when the
   * student was not already enrolled: enrolling again puts the student on the
   * roster a second time.
   */
  lemma {:induction false} EnrollKeepsConsistentIffNew(r: Registry, id: Int32, code: string)
    requires Consistent(r) && Enroll(r, id, code).ok
    ensures Consistent(Enroll(r, id, code).after) <==> code !in r.students[id].enrolled
  {
    var after := Enroll(r, id, code).after;
    var roster := r.courses[code].roster;
    assert multiset(after.courses[code].roster) == multiset(roster) + multiset{id};
    if code in r.students[id].enrolled {
      assert id in roster;
      assert id in multiset(roster);
      assert multiset(after.courses[code].roster)[id] >= 2;
    } else {
      assert id !in roster;
      assert NoDup(after.courses[code].roster) by {
        forall x ensures multiset(after.courses[code].roster)[x] <= 1 {
          assert multiset(roster)[x] <= 1;
        }
      }
      assert RostersDistinct(after);
      assert EnrolledAreListed(after);
      assert ListedAreEnrolled(after);
    }
  }

  /**
   * A repeated enrolment still leaves the two sides agreeing on who takes
   * what; only the roster now names the student twice, which is what a later
   * removal from the course trips over.
   */
  lemma {:induction false} EnrollAgainKeepsSidesAgreeing(r: Registry, id: Int32, code: string)
    requires Consistent(r) && Enroll(r, id, code).ok && code in r.students[id].enrolled
    ensures EnrolledAreListed(Enroll(r, id, code).after)
    ensures ListedAreEnrolled(Enroll(r, id, code).after)
    ensures !RostersDistinct(Enroll(r, id, code).after)
  {
    var after := Enroll(r, id, code).after;
    var roster := r.courses[code].roster;
    assert multiset(after.courses[code].roster) == multiset(roster) + multiset{id};
    assert id in multiset(roster);
    assert multiset(after.courses[code].roster)[id] >= 2;
  }

  /** Undoing an enrolment keeps the registry consistent. */
  lemma {:induction false} UnenrollKeepsConsistent(r: Registry, id: Int32, code: string)
    requires Consistent(r)
    ensures Consistent(Unenroll(r, id, code).after)
  {
    if Unenroll(r, id, code).ok {
      var after := Unenroll(r, id, code).after;
      var roster := r.courses[code].roster;
      RemoveFirstNoDup(roster, id);
      forall other | other != id
        ensures other in after.courses[code].roster <==> other in roster
      {
        RemoveFirstKeepsOthers(roster, id, other);
      }
      assert RostersDistinct(after);
      assert EnrolledAreListed(after);
      assert ListedAreEnrolled(after);
    }
  }

  /** Removing a student keeps the registry consistent. */
  lemma {:induction false} RemoveStudentKeepsConsistent(r: Registry, id: Int32)
    requires Consistent(r)
    ensures Consistent(RemoveStudent(r, id).after)
  {
    if id in r.students {
      var after := RemoveStudent(r, id).after;
      var enrolled := r.students[id].enrolled;
      forall code | code in r.courses
        ensures NoDup(after.courses[code].roster)
        ensures id !in after.courses[code].roster
        ensures forall other :: other != id ==> (other in after.courses[code].roster <==> other in r.courses[code].roster)
      {
        var roster := r.courses[code].roster;
        RemoveFirstNoDup(roster, id);
        forall other | other != id
          ensures other in after.courses[code].roster <==> other in roster
        {
          RemoveFirstKeepsOthers(roster, id, other);
        }
      }
      assert RostersDistinct(after);
      assert EnrolledAreListed(after);
      assert ListedAreEnrolled(after);
    }
  }

  /** Removing a course keeps the registry consistent. */
  lemma {:induction false} RemoveCourseKeepsConsistent(r: Registry, code: string)
    requires Consistent(r)
    ensures Consistent(RemoveCourse(r, code).after)
  {
    if code in r.courses {
      var after := RemoveCourse(r, code).after;
      forall id | id in after.students
        ensures after.students[id].enrolled == r.students[id].enrolled - {code}
      {
        if code in r.students[id].enrolled {
          assert id in r.courses[code].roster;
        }
      }
      ConsistentWithoutCourse(r, after, code);
    }
  }

  /**
   * A registry that has lost course `code` from its index and from every
   * student's current courses, with every other roster as it was, is as
   * consistent as the registry it came from.
   */
  lemma ConsistentWithoutCourse(r: Registry, after: Registry, code: string)
    requires Consistent(r)
    requires after.students.Keys == r.students.Keys && after.courses.Keys == r.courses.Keys - {code}
    requires forall id :: id in after.students ==> after.students[id].enrolled == r.students[id].enrolled - {code}
    requires forall k :: k in after.courses ==> after.courses[k].roster == r.courses[k].roster
    ensures Consistent(after)
  {
  }

  // ---------------------------------------------------------------- cascades

  /**
   * After a student is removed from a consistent registry it is in no index
   * and on no roster, every other student is as it was, and no passed course
   * is touched.
   */
  lemma {:induction false} RemoveStudentCascade(r: Registry, id: Int32)
    requires Consistent(r) && id in r.students
    ensures RemoveStudent(r, id).ok
    ensures id !in RemoveStudent(r, id).after.students
    ensures forall code :: code in RemoveStudent(r, id).after.courses ==>
      id !in RemoveStudent(r, id).after.courses[code].roster
    ensures RemoveStudent(r, id).after.students == r.students - {id}
    ensures RemoveStudent(r, id).after.courses.Keys == r.courses.Keys
  {
    var after := RemoveStudent(r, id).after;
    forall code | code in after.courses
      ensures id !in after.courses[code].roster
    {
      var roster := r.courses[code].roster;
      if code in r.students[id].enrolled {
        RemoveFirstNoDup(roster, id);
      }
    }
  }

  /**
   * After a course is removed from a consistent registry it is in no index
   * and in no student's current courses, every prerequisite list has lost
   * exactly one copy of it, and no passed course is touched.
   */
  lemma {:induction false} RemoveCourseCascade(r: Registry, code: string)
    requires Consistent(r) && code in r.courses
    ensures RemoveCourse(r, code).ok
    ensures code !in RemoveCourse(r, code).after.courses
    ensures forall id :: id in RemoveCourse(r, code).after.students ==>
      code !in RemoveCourse(r, code).after.students[id].enrolled
    ensures forall id :: id in r.students ==>
      id in RemoveCourse(r, code).after.students &&
      RemoveCourse(r, code).after.students[id].previous == r.students[id].previous
    ensures forall k :: k in RemoveCourse(r, code).after.courses ==>
      multiset(RemoveCourse(r, code).after.courses[k].prerequisites)
        == multiset(r.courses[k].prerequisites) - multiset{code}
  {
    var after := RemoveCourse(r, code).after;
    forall id | id in after.students
      ensures code !in after.students[id].enrolled
    {
      if code in r.students[id].enrolled {
        assert id in r.courses[code].roster;
      }
    }
    forall k | k in after.courses
      ensures multiset(after.courses[k].prerequisites) == multiset(r.courses[k].prerequisites) - multiset{code}
    {
      RemoveFirstMultiset(r.courses[k].prerequisites, code);
    }
  }

  /** A course listed once as a prerequisite is listed nowhere after its removal. */
  lemma RemoveCourseClearsSinglePrerequisite(r: Registry, code: string, k: string)
    requires code in r.courses && k in r.courses && k != code
    requires multiset(r.courses[k].prerequisites)[code] <= 1
    ensures code !in RemoveCourse(r, code).after.courses[k].prerequisites
  {
    RemoveFirstMultiset(r.courses[k].prerequisites, code);
    assert multiset(RemoveCourse(r, code).after.courses[k].prerequisites)[code] == 0;
  }

  // ------------------------------------------------------------- round trips

  /** Enrolling a student who was not enrolled and then removing the enrolment restores the registry. */
  lemma {:induction false} EnrollThenUnenroll(r: Registry, id: Int32, code: string)
    requires Consistent(r) && Enroll(r, id, code).ok && code !in r.students[id].enrolled
    ensures Unenroll(Enroll(r, id, code).after, id, code) == Step(true, r)
  {
    var roster := r.courses[code].roster;
    assert id !in roster;
    RemoveFirstOfAppended(roster, id);
    var s := r.students[id];
    assert Withdraw(EnrollIn(s, code), code) == s;
    assert r.students[id := s] == r.students;
    assert r.courses[code := r.courses[code]] == r.courses;
  }

  /** Filing a new student and then removing it restores the registry. */
  lemma {:induction false} AddThenRemoveStudent(r: Registry, s: StudentState)
    requires s.id !in r.students && s.enrolled == {}
    ensures RemoveStudent(AddStudent(r, s).after, s.id) == Step(true, r)
  {
  }

  /** Filing a new course that no prerequisite list mentions, and then removing it, restores the registry. */
  lemma {:induction false} AddThenRemoveCourse(r: Registry, c: CourseState)
    requires c.code !in r.courses && c.roster == []
    requires forall k :: k in r.courses ==> c.code !in r.courses[k].prerequisites
    ensures RemoveCourse(AddCourse(r, c).after, c.code) == Step(true, r)
  {
  }

  // ----------------------------------------------------- documented behaviour

  /**
   * Enrolling twice puts the student on the roster twice, so after one removal
   * the roster still lists the student while the student's set no longer has
   * the course: the two sides disagree.
   */
  lemma EnrollTwiceThenUnenrollDisagrees()
    ensures
      var r0 := Registry(map[1 := NewStudent("Ana", 1)], map["CS101" := NewCourse("Intro", "CS101")]);
      var r1 := Enroll(r0, 1, "CS101").after;
      var r2 := Enroll(r1, 1, "CS101").after;
      var r3 := Unenroll(r2, 1, "CS101");
      && Consistent(r0) && r3.ok
      && 1 in r3.after.courses["CS101"].roster
      && "CS101" !in r3.after.students[1].enrolled
  {
    var r0 := Registry(map[1 := NewStudent("Ana", 1)], map["CS101" := NewCourse("Intro", "CS101")]);
    assert Consistent(r0) by {
      assert NoDup<Int32>([]);
    }
    var r2 := Enroll(Enroll(r0, 1, "CS101").after, 1, "CS101").after;
    assert r2.courses["CS101"].roster == [1, 1];
    assert RemoveFirst([1, 1], 1 as Int32) == [1];
  }

  /**
   * A course listed twice as a prerequisite is still listed once after its
   * removal: only the first occurrence goes.
   */
  lemma RemoveCourseKeepsRepeatedPrerequisite()
    ensures
      var r0 := Registry(map[], map["A" := NewCourse("Algebra", "A"), "B" := NewCourse("Calculus", "B")]);
      var r1 := AddPrerequisite(AddPrerequisite(r0, "B", "A").after, "B", "A").after;
      var r2 := RemoveCourse(r1, "A").after;
      "A" !in r2.courses && r2.courses["B"].prerequisites == ["A"]
  {
    var r0 := Registry(map[], map["A" := NewCourse("Algebra", "A"), "B" := NewCourse("Calculus", "B")]);
    var r1 := AddPrerequisite(AddPrerequisite(r0, "B", "A").after, "B", "A").after;
    assert r1.courses["B"].prerequisites == ["A", "A"];
    assert RemoveFirst(["A", "A"], "A") == ["A"];
  }

  /**
   * The Ana/CS101/CS201 enrolment example: with CS101 required for CS201, Ana is
   * refused until CS101 is among her passed courses, and is then on both sides.
   */
  lemma PrerequisiteScenario()
    ensures
      var r0 := AddPrerequisite(Registry(map[1 := NewStudent("Ana", 1)],
                                         map["CS101" := NewCourse("Intro", "CS101"),
                                             "CS201" := NewCourse("Data Structures", "CS201")]),
                                "CS201", "CS101").after;
      var refused := Enroll(r0, 1, "CS201");
      var r1 := r0.(students := r0.students[1 := Pass(r0.students[1], "CS101")]);
      var admitted := Enroll(r1, 1, "CS201");
      && !refused.ok && refused.after == r0
      && admitted.ok
      && "CS201" in admitted.after.students[1].enrolled
      && admitted.after.courses["CS201"].roster == [1]
  {
    var r0 := AddPrerequisite(Registry(map[1 := NewStudent("Ana", 1)],
                                       map["CS101" := NewCourse("Intro", "CS101"),
                                           "CS201" := NewCourse("Data Structures", "CS201")]),
                              "CS201", "CS101").after;
    assert r0.courses["CS201"].prerequisites == ["CS101"];
    var none: set<string> := {};
    assert !PrerequisitesMet(none, r0.courses["CS201"].prerequisites) by {
      assert r0.courses["CS201"].prerequisites[0] !in none;
    }
  }

  // ---------------------------------------------------------------- findings

  /**
   * Removing an unknown student or course: the source dereferences null where
   * its documentation promises `false`; the documented operations return
   * `false` and leave the registry alone.
   */
  lemma UnknownKeyRemoval(r: Registry, id: Int32, code: string)
    requires id !in r.students && code !in r.courses
    ensures RemoveStudentAsWritten(r, id) == NullPointerException
    ensures RemoveCourseAsWritten(r, code) == NullPointerException
    ensures RemoveStudent(r, id) == Step(false, r)
    ensures RemoveCourse(r, code) == Step(false, r)
  {
  }

  /** On a known key the removals as written and as documented agree. */
  lemma KnownKeyRemovalAgrees(r: Registry, id: Int32, code: string)
    ensures id in r.students ==> RemoveStudentAsWritten(r, id) == Returns(RemoveStudent(r, id))
    ensures code in r.courses ==> RemoveCourseAsWritten(r, code) == Returns(RemoveCourse(r, code))
  {
  }
}
