/** The roster store: the list of students the dashboard holds, and its one
    mutator, the trick toggle. */
module RosterStore {
  import opened Types
  import opened Scoring
  import opened Catalog
  import opened Progress

  class Roster {
    /** The catalog the points are summed over; always the fixed catalog. */
    const catalog: seq<Trick>
    var students: seq<Student>

    /** Distinct student ids, and at most one record per trick for every student. */
    ghost predicate Valid()
      reads this
    {
      DistinctStudentIds(students) &&
      forall i :: 0 <= i < |students| ==> UniqueTrickIds(students[i].tricks)
    }

    /** Every record of every student names a trick of the catalog. */
    ghost predicate Resolving()
      reads this
    {
      forall i :: 0 <= i < |students| ==> AllResolve(catalog, students[i].tricks)
    }

    /** The roster starts with the seed students, in their order. */
    constructor ()
      ensures catalog == Tricks && students == InitialStudents
      ensures Valid() && Resolving()
    {
      catalog := Tricks;
      students := InitialStudents;
      SeedWellFormed();
    }

    /** One click on trick `trickId` in the profile of student `studentId`.
        Every student is rebuilt in order: a student with another id is kept,
        the student with that id is replaced by its toggled copy. */
    method ToggleTrick(studentId: string, trickId: string, now: string)
      modifies this
      ensures students == ToggleAll(catalog, old(students), studentId, trickId, now)
      ensures old(Valid()) ==> Valid()
      ensures old(Resolving()) && Lookup(catalog, trickId).Some? ==> Resolving()
    {
      var prev := students;
      var next: seq<Student> := [];
      for i := 0 to |prev|
        invariant next == ToggleAll(catalog, prev[..i], studentId, trickId, now)
      {
        var student := prev[i];
        assert prev[..i + 1] == prev[..i] + [student];
        ToggleAllSnoc(catalog, prev[..i], student, studentId, trickId, now);
        if student.id != studentId {
          next := next + [student];
        } else {
          var toggled := ToggleStudent(catalog, student, trickId, now);
          next := next + [toggled];
        }
      }
      assert prev[..|prev|] == prev;
      students := next;
      if old(Valid()) {
        ToggleAllKeepsWellFormed(catalog, prev, studentId, trickId, now);
      }
      if old(Resolving()) && Lookup(catalog, trickId).Some? {
        ToggleAllKeepsResolved(catalog, prev, studentId, trickId, now);
      }
    }
  }

  /** The update of the student whose trick was clicked: the copy of the trick
      list moved one step (append a learning record, or mark learned stamped
      with `now`, or mark mastered, or remove), its points summed again over the
      catalog and its level chosen again from them. */
  method ToggleStudent(catalog: seq<Trick>, student: Student, trickId: string, now: string) returns (r: Student)
    ensures r == Toggled(catalog, student, trickId, now)
  {
    var hasTrick := FindRecord(student.tricks, trickId);
    var newTricks := student.tricks;
    if hasTrick.Some? {
      if hasTrick.value.status == Learning {
        newTricks := MarkLearned(newTricks, trickId, now);
      } else if hasTrick.value.status == Learned {
        newTricks := MarkMastered(newTricks, trickId);
      } else {
        newTricks := Without(newTricks, trickId);
      }
    } else {
      newTricks := newTricks + [TrickRecord(trickId, Learning, None)];
    }
    assert newTricks == NextTricks(student.tricks, trickId, now);
    var newPoints := TotalPoints(catalog, newTricks);
    var newLevel := ClassifyLevel(newPoints);
    RoundOfInteger(Score(catalog, newTricks));
    r := student.(tricks := newTricks, points := Round(newPoints), level := newLevel);
  }

  /** The toggle of a roster with one more student at the end. */
  lemma ToggleAllSnoc(catalog: seq<Trick>, ss: seq<Student>, s: Student, sid: string, id: string, now: string)
    ensures ToggleAll(catalog, ss + [s], sid, id, now) ==
            ToggleAll(catalog, ss, sid, id, now) + [if s.id == sid then Toggled(catalog, s, id, now) else s]
  {
    assert (ss + [s])[..|ss|] == ss;
  }

  /** Four clicks on the same trick of a student who did not have it leave that
      student's trick list as it was and every other student unchanged. */
  method FourClicks(r: Roster, studentId: string, trickId: string, t1: string, t2: string, t3: string, t4: string)
    requires forall i :: 0 <= i < |r.students| && r.students[i].id == studentId ==>
               forall j :: 0 <= j < |r.students[i].tricks| ==> r.students[i].tricks[j].trickId != trickId
    modifies r
    ensures |r.students| == |old(r.students)|
    ensures forall i :: 0 <= i < |r.students| ==>
              r.students[i].tricks == old(r.students[i].tricks) &&
              (old(r.students[i].id) != studentId ==> r.students[i] == old(r.students[i]))
  {
    ghost var before := r.students;
    r.ToggleTrick(studentId, trickId, t1);
    r.ToggleTrick(studentId, trickId, t2);
    r.ToggleTrick(studentId, trickId, t3);
    r.ToggleTrick(studentId, trickId, t4);
    FourToggleAllRoundTrip(r.catalog, before, studentId, trickId, t1, t2, t3, t4);
  }
}
