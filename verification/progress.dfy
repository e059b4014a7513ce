/** The trick toggle: one click on a trick moves a student's record for it one
    step around the cycle absent -> learning -> learned -> mastered -> absent,
    after which the student's points and level are recomputed. */
module Progress {
  import opened Types
  import opened Scoring

  /** The first record for the given trick, as a search from the front. */
  function FindRecord(ts: seq<TrickRecord>, id: string): (r: Option<TrickRecord>)
    ensures r.None? <==> forall i :: 0 <= i < |ts| ==> ts[i].trickId != id
    ensures r.Some? ==> exists k :: 0 <= k < |ts| && ts[k] == r.value && r.value.trickId == id &&
                          forall j :: 0 <= j < k ==> ts[j].trickId != id
  {
    if ts == [] then None
    else if ts[0].trickId == id then Some(ts[0])
    else
      assert forall i :: 1 <= i < |ts| ==> ts[i] == ts[1..][i - 1];
      FindRecord(ts[1..], id)
  }

  /** Every record for the trick becomes learned, stamped with `now`; the others
      are kept. */
  function MarkLearned(ts: seq<TrickRecord>, id: string, now: string): (rs: seq<TrickRecord>)
    ensures |rs| == |ts|
    ensures forall i :: 0 <= i < |ts| ==>
              rs[i] == if ts[i].trickId == id then ts[i].(status := Learned, dateLearned := Some(now)) else ts[i]
    decreases |ts|
  {
    if ts == [] then []
    else
      var last := ts[|ts| - 1];
      MarkLearned(ts[..|ts| - 1], id, now) +
      [if last.trickId == id then last.(status := Learned, dateLearned := Some(now)) else last]
  }

  /** Every record for the trick becomes mastered, keeping its date; the others
      are kept. */
  function MarkMastered(ts: seq<TrickRecord>, id: string): (rs: seq<TrickRecord>)
    ensures |rs| == |ts|
    ensures forall i :: 0 <= i < |ts| ==>
              rs[i] == if ts[i].trickId == id then ts[i].(status := Mastered) else ts[i]
    decreases |ts|
  {
    if ts == [] then []
    else
      var last := ts[|ts| - 1];
      MarkMastered(ts[..|ts| - 1], id) + [if last.trickId == id then last.(status := Mastered) else last]
  }

  /** The records for other tricks, in their order. */
  function Without(ts: seq<TrickRecord>, id: string): (rs: seq<TrickRecord>)
    ensures forall i :: 0 <= i < |rs| ==> rs[i] in ts && rs[i].trickId != id
    ensures forall i :: 0 <= i < |ts| && ts[i].trickId != id ==> ts[i] in rs
    ensures |rs| <= |ts|
    decreases |ts|
  {
    if ts == [] then []
    else
      var init, last := ts[..|ts| - 1], ts[|ts| - 1];
      var rest := Without(init, id);
      assert forall i :: 0 <= i < |init| ==> init[i] == ts[i];
      rest + if last.trickId == id then [] else [last]
  }

  /** The new trick list after one toggle of trick `id`; `now` is the time stamp
      a record receives when it becomes learned. */
  function NextTricks(ts: seq<TrickRecord>, id: string, now: string): seq<TrickRecord> {
    match FindRecord(ts, id)
    case None => ts + [TrickRecord(id, Learning, None)]
    case Some(t) =>
      match t.status
      case Learning => MarkLearned(ts, id, now)
      case Learned => MarkMastered(ts, id)
      case Mastered => Without(ts, id)
  }

  /** The student after one toggle: the new trick list, with points and level
      recomputed from it; every other field is kept. */
  function Toggled(catalog: seq<Trick>, s: Student, id: string, now: string): (r: Student)
    ensures r.tricks == NextTricks(s.tricks, id, now)
    ensures r.points == Score(catalog, r.tricks) && r.level == LevelOf(r.points)
    ensures r == s.(tricks := r.tricks, points := r.points, level := r.level)
  {
    var ts := NextTricks(s.tricks, id, now);
    s.(tricks := ts, points := Score(catalog, ts), level := LevelOf(Score(catalog, ts)))
  }

  /** The roster after a toggle aimed at student `sid`: each student with that id
      is toggled, every other student is kept as is, in the same order. */
  function ToggleAll(catalog: seq<Trick>, ss: seq<Student>, sid: string, id: string, now: string): (rs: seq<Student>)
    ensures |rs| == |ss|
    ensures forall i :: 0 <= i < |ss| ==>
              rs[i] == if ss[i].id == sid then Toggled(catalog, ss[i], id, now) else ss[i]
    decreases |ss|
  {
    if ss == [] then []
    else
      var init, last := ss[..|ss| - 1], ss[|ss| - 1];
      assert forall i :: 0 <= i < |init| ==> init[i] == ss[i];
      ToggleAll(catalog, init, sid, id, now) + [if last.id == sid then Toggled(catalog, last, id, now) else last]
  }

  /** Toggling a trick the student does not have appends a learning record for
      it, with no date, after the existing records. */
  lemma ToggleAbsent(ts: seq<TrickRecord>, id: string, now: string)
    requires forall i :: 0 <= i < |ts| ==> ts[i].trickId != id
    ensures NextTricks(ts, id, now) == ts + [TrickRecord(id, Learning, None)]
  {
  }

  /** In a list with one record per trick, the record at k is the one found. */
  lemma FindUnique(ts: seq<TrickRecord>, k: nat)
    requires UniqueTrickIds(ts) && k < |ts|
    ensures FindRecord(ts, ts[k].trickId) == Some(ts[k])
  {
    var r := FindRecord(ts, ts[k].trickId);
    var m :| 0 <= m < |ts| && ts[m] == r.value && r.value.trickId == ts[k].trickId &&
             forall j :: 0 <= j < m ==> ts[j].trickId != ts[k].trickId;
    assert m == k;
  }

  /** A learning record becomes learned and is stamped with `now`; every other
      record stays as it was, in place. */
  lemma ToggleLearning(ts: seq<TrickRecord>, k: nat, now: string)
    requires UniqueTrickIds(ts) && k < |ts| && ts[k].status == Learning
    ensures var rs := NextTricks(ts, ts[k].trickId, now);
      |rs| == |ts| && rs[k] == ts[k].(status := Learned, dateLearned := Some(now)) &&
      forall i :: 0 <= i < |ts| && i != k ==> rs[i] == ts[i]
  {
    FindUnique(ts, k);
  }

  /** A learned record becomes mastered and keeps its date; every other record
      stays as it was, in place. */
  lemma ToggleLearned(ts: seq<TrickRecord>, k: nat, now: string)
    requires UniqueTrickIds(ts) && k < |ts| && ts[k].status == Learned
    ensures var rs := NextTricks(ts, ts[k].trickId, now);
      |rs| == |ts| && rs[k] == ts[k].(status := Mastered) &&
      forall i :: 0 <= i < |ts| && i != k ==> rs[i] == ts[i]
  {
    FindUnique(ts, k);
  }

  /** A mastered record is removed; the records before and after it close up. */
  lemma ToggleMastered(ts: seq<TrickRecord>, k: nat, now: string)
    requires UniqueTrickIds(ts) && k < |ts| && ts[k].status == Mastered
    ensures NextTricks(ts, ts[k].trickId, now) == ts[..k] + ts[k + 1..]
  {
    FindUnique(ts, k);
    WithoutUnique(ts, k);
  }

  /** Removing the only record for a trick leaves the others in order. */
  lemma {:induction false} WithoutUnique(ts: seq<TrickRecord>, k: nat)
    requires UniqueTrickIds(ts) && k < |ts|
    ensures Without(ts, ts[k].trickId) == ts[..k] + ts[k + 1..]
    decreases |ts|
  {
    var id := ts[k].trickId;
    var n := |ts| - 1;
    var init := ts[..n];
    WithoutSnoc(init, ts[n], id);
    assert init + [ts[n]] == ts;
    if k == n {
      WithoutAbsent(init, id);
      assert ts[..k] + ts[k + 1..] == init;
    } else {
      assert init[k] == ts[k];
      WithoutUnique(init, k);
      SpliceSnoc(ts, k);
    }
  }

  /** Removing from a list with one more record at the end. */
  lemma WithoutSnoc(init: seq<TrickRecord>, last: TrickRecord, id: string)
    ensures Without(init + [last], id) == Without(init, id) + if last.trickId == id then [] else [last]
  {
    assert (init + [last])[..|init|] == init;
  }

  /** Cutting position k out of all but the last element, then putting the
      last element back, cuts position k out of the whole. */
  lemma SpliceSnoc<T>(xs: seq<T>, k: nat)
    requires k < |xs| - 1
    ensures xs[..|xs| - 1][..k] + xs[..|xs| - 1][k + 1..] + [xs[|xs| - 1]] == xs[..k] + xs[k + 1..]
  {
  }

  /** Removing a trick nobody has changes nothing. */
  lemma {:induction false} WithoutAbsent(ts: seq<TrickRecord>, id: string)
    requires forall i :: 0 <= i < |ts| ==> ts[i].trickId != id
    ensures Without(ts, id) == ts
    decreases |ts|
  {
    if ts != [] {
      var init := ts[..|ts| - 1];
      WithoutAbsent(init, id);
      assert init + [ts[|ts| - 1]] == ts;
    }
  }

  /** Marking a trick nobody has changes nothing. */
  lemma MarkAbsent(ts: seq<TrickRecord>, id: string, now: string)
    requires forall i :: 0 <= i < |ts| ==> ts[i].trickId != id
    ensures MarkLearned(ts, id, now) == ts && MarkMastered(ts, id) == ts
  {
  }

  /** Four toggles of a trick the student does not have bring the trick list
      back to exactly what it was, whatever the time stamps. */
  lemma FourTogglesRoundTrip(ts: seq<TrickRecord>, id: string, t1: string, t2: string, t3: string, t4: string)
    requires forall i :: 0 <= i < |ts| ==> ts[i].trickId != id
    ensures NextTricks(NextTricks(NextTricks(NextTricks(ts, id, t1), id, t2), id, t3), id, t4) == ts
  {
    var r1 := TrickRecord(id, Learning, None);
    var s1 := NextTricks(ts, id, t1);
    assert s1 == ts + [r1];
    FindLast(ts, r1);
    var r2 := r1.(status := Learned, dateLearned := Some(t2));
    var s2 := NextTricks(s1, id, t2);
    MarkAbsent(ts, id, t2);
    assert s2 == ts + [r2];
    FindLast(ts, r2);
    var r3 := r2.(status := Mastered);
    var s3 := NextTricks(s2, id, t3);
    assert s3 == ts + [r3];
    FindLast(ts, r3);
    var s4 := NextTricks(s3, id, t4);
    assert s3[..|s3| - 1] == ts;
    WithoutAbsent(ts, id);
    assert s4 == ts;
  }

  /** Four toggles of the same (student, trick), where that student does not
      have the trick, give every student back its trick list and leave every
      other student as it was. */
  lemma FourToggleAllRoundTrip(catalog: seq<Trick>, ss: seq<Student>, sid: string, id: string,
                               t1: string, t2: string, t3: string, t4: string)
    requires forall i :: 0 <= i < |ss| && ss[i].id == sid ==>
               forall j :: 0 <= j < |ss[i].tricks| ==> ss[i].tricks[j].trickId != id
    ensures var s1 := ToggleAll(catalog, ss, sid, id, t1);
      var s2 := ToggleAll(catalog, s1, sid, id, t2);
      var s3 := ToggleAll(catalog, s2, sid, id, t3);
      var s4 := ToggleAll(catalog, s3, sid, id, t4);
      |s4| == |ss| &&
      forall i :: 0 <= i < |ss| ==> s4[i].tricks == ss[i].tricks && (ss[i].id != sid ==> s4[i] == ss[i])
  {
    var s1 := ToggleAll(catalog, ss, sid, id, t1);
    var s2 := ToggleAll(catalog, s1, sid, id, t2);
    var s3 := ToggleAll(catalog, s2, sid, id, t3);
    var s4 := ToggleAll(catalog, s3, sid, id, t4);
    forall i | 0 <= i < |ss| ensures s4[i].tricks == ss[i].tricks && (ss[i].id != sid ==> s4[i] == ss[i]) {
      if ss[i].id == sid {
        FourTogglesRoundTrip(ss[i].tricks, id, t1, t2, t3, t4);
      }
    }
  }

  /** A record appended after records for other tricks is the one found. */
  lemma FindLast(ts: seq<TrickRecord>, r: TrickRecord)
    requires forall i :: 0 <= i < |ts| ==> ts[i].trickId != r.trickId
    ensures FindRecord(ts + [r], r.trickId) == Some(r)
  {
    var x := FindRecord(ts + [r], r.trickId);
    var k :| 0 <= k < |ts| + 1 && (ts + [r])[k] == x.value && x.value.trickId == r.trickId &&
             forall j :: 0 <= j < k ==> (ts + [r])[j].trickId != r.trickId;
    assert k == |ts|;
  }

  /** A toggle keeps a list with one record per trick that way. */
  lemma ToggleKeepsUnique(ts: seq<TrickRecord>, id: string, now: string)
    requires UniqueTrickIds(ts)
    ensures UniqueTrickIds(NextTricks(ts, id, now))
  {
    var rs := NextTricks(ts, id, now);
    match FindRecord(ts, id)
    case None =>
      assert forall i :: 0 <= i < |ts| ==> rs[i] == ts[i];
    case Some(t) =>
      if t.status == Mastered {
        var k :| 0 <= k < |ts| && ts[k] == t && t.trickId == id;
        RemovalKeepsUnique(ts, k);
        WithoutUnique(ts, k);
      } else {
        SameIdsKeepUnique(ts, rs);
      }
  }

  /** Closing up the gap left by record k keeps one record per trick. */
  lemma RemovalKeepsUnique(ts: seq<TrickRecord>, k: nat)
    requires UniqueTrickIds(ts) && k < |ts|
    ensures UniqueTrickIds(ts[..k] + ts[k + 1..])
  {
    var rs := ts[..k] + ts[k + 1..];
    forall i, j | 0 <= i < j < |rs| ensures rs[i].trickId != rs[j].trickId {
      var i', j' := if i < k then i else i + 1, if j < k then j else j + 1;
      assert rs[i] == ts[i'] && rs[j] == ts[j'] && i' < j';
    }
  }

  /** Records changed in place, each keeping its trick id, keep one record per trick. */
  lemma SameIdsKeepUnique(ts: seq<TrickRecord>, rs: seq<TrickRecord>)
    requires UniqueTrickIds(ts) && |rs| == |ts|
    requires forall i :: 0 <= i < |ts| ==> rs[i].trickId == ts[i].trickId
    ensures UniqueTrickIds(rs)
  {
  }

  /** A toggle of a catalog trick keeps every record resolving in the catalog. */
  lemma ToggleKeepsResolved(catalog: seq<Trick>, ts: seq<TrickRecord>, id: string, now: string)
    requires AllResolve(catalog, ts) && Lookup(catalog, id).Some?
    ensures AllResolve(catalog, NextTricks(ts, id, now))
  {
    var rs := NextTricks(ts, id, now);
    forall i | 0 <= i < |rs| ensures Lookup(catalog, rs[i].trickId).Some? {
      assert rs[i] in rs;
      match FindRecord(ts, id)
      case None =>
        if i < |ts| { assert rs[i] == ts[i]; }
      case Some(t) =>
        if t.status == Mastered {
          assert rs[i] in ts;
          var j :| 0 <= j < |ts| && ts[j] == rs[i];
        } else {
          assert rs[i].trickId == ts[i].trickId;
        }
    }
  }

  /** The toggle keeps every student's id, and therefore distinct ids stay
      distinct; the records of every student keep one record per trick. */
  lemma ToggleAllKeepsWellFormed(catalog: seq<Trick>, ss: seq<Student>, sid: string, id: string, now: string)
    requires DistinctStudentIds(ss)
    requires forall i :: 0 <= i < |ss| ==> UniqueTrickIds(ss[i].tricks)
    ensures var rs := ToggleAll(catalog, ss, sid, id, now);
      DistinctStudentIds(rs) && forall i :: 0 <= i < |rs| ==> UniqueTrickIds(rs[i].tricks)
  {
    var rs := ToggleAll(catalog, ss, sid, id, now);
    forall i | 0 <= i < |rs| ensures UniqueTrickIds(rs[i].tricks) && rs[i].id == ss[i].id {
      if ss[i].id == sid {
        ToggleKeepsUnique(ss[i].tricks, id, now);
      }
    }
  }

  /** A toggle of a catalog trick keeps every record of every student resolving
      in the catalog. */
  lemma ToggleAllKeepsResolved(catalog: seq<Trick>, ss: seq<Student>, sid: string, id: string, now: string)
    requires forall i :: 0 <= i < |ss| ==> AllResolve(catalog, ss[i].tricks)
    requires Lookup(catalog, id).Some?
    ensures var rs := ToggleAll(catalog, ss, sid, id, now);
      forall i :: 0 <= i < |rs| ==> AllResolve(catalog, rs[i].tricks)
  {
    var rs := ToggleAll(catalog, ss, sid, id, now);
    forall i | 0 <= i < |rs| ensures AllResolve(catalog, rs[i].tricks) {
      if ss[i].id == sid {
        ToggleKeepsResolved(catalog, ss[i].tricks, id, now);
      }
    }
  }

  /** A toggle aimed at an id no student has leaves the roster identical. */
  lemma ToggleUnknownStudent(catalog: seq<Trick>, ss: seq<Student>, sid: string, id: string, now: string)
    requires forall i :: 0 <= i < |ss| ==> ss[i].id != sid
    ensures ToggleAll(catalog, ss, sid, id, now) == ss
  {
  }

  /** After a toggle the student's points are the score of the new list: a
      non-negative multiple of 50, Math.round of the fractional sum, and the
      level is the one those points earn. */
  lemma ToggledPoints(catalog: seq<Trick>, s: Student, id: string, now: string)
    requires DifficultiesInRange(catalog)
    ensures var r := Toggled(catalog, s, id, now);
      r.points >= 0 && r.points % 50 == 0 && Round(r.points as real) == r.points && r.level == LevelOf(r.points)
  {
    var ts := NextTricks(s.tricks, id, now);
    ScoreNonNegative(catalog, ts);
    ScoreMultipleOf50(catalog, ts);
    RoundOfInteger(Score(catalog, ts));
  }

  /** Cycling a difficulty-10 trick on a student with no tricks gives 500 points
      (Beginner), 1500 (Intermediate, the boundary stays below), 2000 (Advanced,
      likewise) and 0 (Beginner). */
  lemma DifficultyTenCycle(catalog: seq<Trick>, s: Student, id: string, t1: string, t2: string, t3: string, t4: string)
    requires s.tricks == [] && Lookup(catalog, id).Some? && Lookup(catalog, id).value.difficulty == 10
    ensures var s1 := Toggled(catalog, s, id, t1);
      var s2 := Toggled(catalog, s1, id, t2);
      var s3 := Toggled(catalog, s2, id, t3);
      var s4 := Toggled(catalog, s3, id, t4);
      s1.points == 500 && s1.level == Beginner &&
      s2.points == 1500 && s2.level == Intermediate &&
      s3.points == 2000 && s3.level == Advanced &&
      s4.points == 0 && s4.level == Beginner && s4.tricks == []
  {
    var r1 := TrickRecord(id, Learning, None);
    var r2 := r1.(status := Learned, dateLearned := Some(t2));
    var r3 := r2.(status := Mastered);
    ScoreOfOne(catalog, r1);
    ScoreOfOne(catalog, r2);
    ScoreOfOne(catalog, r3);
    var s1 := Toggled(catalog, s, id, t1);
    assert s1.tricks == [r1];
    FindLast([], r1);
    var s2 := Toggled(catalog, s1, id, t2);
    assert s2.tricks == [r2];
    FindLast([], r2);
    var s3 := Toggled(catalog, s2, id, t3);
    assert s3.tricks == [r3];
    FourTogglesRoundTrip([], id, t1, t2, t3, t4);
  }

  /** A single record scores its contribution. */
  lemma ScoreOfOne(catalog: seq<Trick>, r: TrickRecord)
    ensures Score(catalog, [r]) == Contribution(catalog, r)
  {
    assert [r][..0] == [];
  }
}
