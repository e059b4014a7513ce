/** The read-only views derived from the roster on every render: the search
    filter, the ranking by points, a student's global rank, and the count of
    completed tricks behind the progress ring. */
module Queries {
  import opened Types
  import opened Scoring
  import opened Catalog
  import opened Progress

  // ---------------------------------------------------------------- search

  /** Lower-casing of one character; only ASCII letters are folded. */
  function LowerChar(c: char): char {
    if 'A' <= c <= 'Z' then (c as int + 32) as char else c
  }

  /** Lower-casing of a string, character by character. */
  function Lower(s: string): (r: string)
    ensures |r| == |s| && forall i :: 0 <= i < |s| ==> r[i] == LowerChar(s[i])
    ensures forall i :: 0 <= i < |r| ==> !('A' <= r[i] <= 'Z')
  {
    seq(|s|, i requires 0 <= i < |s| => LowerChar(s[i]))
  }

  /** Whether `t` occurs in `s` as a contiguous piece (String.includes). */
  predicate Contains(s: string, t: string)
    decreases |s|
  {
    |t| <= |s| && (s[..|t|] == t || Contains(s[1..], t))
  }

  /** `t` sits in `s` starting at position `i`. */
  predicate OccursAt(s: string, t: string, i: int) {
    0 <= i <= |s| - |t| && s[i..i + |t|] == t
  }

  /** Contains holds exactly when `t` sits at some position of `s`. */
  lemma {:induction false} ContainsAt(s: string, t: string)
    ensures Contains(s, t) <==> exists i :: OccursAt(s, t, i)
    decreases |s|
  {
    if |t| <= |s| {
      if s[..|t|] == t {
        assert OccursAt(s, t, 0);
      } else {
        ContainsAt(s[1..], t);
        if Contains(s[1..], t) {
          var i :| OccursAt(s[1..], t, i);
          assert s[i + 1..i + 1 + |t|] == s[1..][i..i + |t|];
          assert OccursAt(s, t, i + 1);
        }
        if exists i :: OccursAt(s, t, i) {
          var i :| OccursAt(s, t, i);
          assert i != 0;
          assert s[1..][i - 1..i - 1 + |t|] == s[i..i + |t|];
          assert OccursAt(s[1..], t, i - 1);
        }
      }
    }
  }

  /** The search test: the search term, lower-cased, occurs in the lower-cased
      name or in the lower-cased nickname; a student without a nickname is
      matched on the name alone. */
  predicate Matches(s: Student, term: string) {
    Contains(Lower(s.name), Lower(term)) ||
    (s.nickname.Some? && Contains(Lower(s.nickname.value), Lower(term)))
  }

  /** The students that match the search term, in roster order. */
  function Filter(ss: seq<Student>, term: string): (rs: seq<Student>)
    ensures forall i :: 0 <= i < |rs| ==> rs[i] in ss && Matches(rs[i], term)
    ensures forall i :: 0 <= i < |ss| && Matches(ss[i], term) ==> ss[i] in rs
    decreases |ss|
  {
    if ss == [] then []
    else
      var rest := Filter(ss[1..], term);
      assert forall i :: 1 <= i < |ss| ==> ss[i] == ss[1..][i - 1];
      (if Matches(ss[0], term) then [ss[0]] else []) + rest
  }

  /** `xs` can be obtained from `ys` by deleting elements, keeping the order. */
  ghost predicate SubsequenceOf<T>(xs: seq<T>, ys: seq<T>)
    decreases |ys|
  {
    if xs == [] then true
    else if ys == [] then false
    else (xs[0] == ys[0] && SubsequenceOf(xs[1..], ys[1..])) || SubsequenceOf(xs, ys[1..])
  }

  /** The filtered roster keeps the roster's order. */
  lemma {:induction false} FilterKeepsOrder(ss: seq<Student>, term: string)
    ensures SubsequenceOf(Filter(ss, term), ss)
    decreases |ss|
  {
    if ss != [] {
      FilterKeepsOrder(ss[1..], term);
      var rest := Filter(ss[1..], term);
      if Matches(ss[0], term) {
        assert Filter(ss, term)[0] == ss[0];
        assert Filter(ss, term)[1..] == rest;
      } else {
        assert Filter(ss, term) == rest;
      }
    }
  }

  /** The filtered roster holds each matching student as many times as the
      roster does, and no other student. */
  lemma {:induction false} FilterCount(ss: seq<Student>, term: string, x: Student)
    ensures multiset(Filter(ss, term))[x] == if Matches(x, term) then multiset(ss)[x] else 0
    decreases |ss|
  {
    if ss != [] {
      FilterCount(ss[1..], term, x);
      var head := if Matches(ss[0], term) then [ss[0]] else [];
      assert Filter(ss, term) == head + Filter(ss[1..], term);
      assert multiset(Filter(ss, term)) == multiset(head) + multiset(Filter(ss[1..], term));
      assert ss == [ss[0]] + ss[1..];
      assert multiset(ss) == multiset{ss[0]} + multiset(ss[1..]);
    }
  }

  /** An empty search term keeps the whole roster, in order. */
  lemma {:induction false} FilterEmptyTerm(ss: seq<Student>)
    ensures Filter(ss, "") == ss
    decreases |ss|
  {
    if ss != [] {
      FilterEmptyTerm(ss[1..]);
      assert Lower("") == "";
      assert Lower(ss[0].name)[..0] == "";
      assert Matches(ss[0], "");
      assert ss == [ss[0]] + ss[1..];
    }
  }

  // --------------------------------------------------------------- ranking

  /** Points never increase along the list. */
  predicate SortedByPoints(ss: seq<Student>) {
    forall i, j :: 0 <= i < j < |ss| ==> ss[i].points >= ss[j].points
  }

  /** Places `x` after every student with strictly more points and before the
      first one with no more, so that among equal points `x` stays first. */
  function Insert(x: Student, rs: seq<Student>): (r: seq<Student>)
    ensures |r| == |rs| + 1
    decreases |rs|
  {
    if rs == [] || rs[0].points <= x.points then [x] + rs
    else [rs[0]] + Insert(x, rs[1..])
  }

  /** Insertion adds exactly `x`. */
  lemma {:induction false} InsertPermutes(x: Student, rs: seq<Student>)
    ensures multiset(Insert(x, rs)) == multiset(rs) + multiset{x}
    decreases |rs|
  {
    if rs != [] && rs[0].points > x.points {
      InsertPermutes(x, rs[1..]);
      assert rs == [rs[0]] + rs[1..];
    }
  }

  /** A bound on the points of `x` and of every student of `rs` bounds every
      student of the insertion. */
  lemma {:induction false} InsertBounded(x: Student, rs: seq<Student>, b: int)
    requires x.points <= b && forall i :: 0 <= i < |rs| ==> rs[i].points <= b
    ensures forall i :: 0 <= i < |Insert(x, rs)| ==> Insert(x, rs)[i].points <= b
    decreases |rs|
  {
    if rs != [] && rs[0].points > x.points {
      InsertBounded(x, rs[1..], b);
    }
  }

  /** A student with at least the points of everyone in a sorted list can be
      put at its head. */
  lemma ConsSorted(a: Student, t: seq<Student>)
    requires SortedByPoints(t) && forall i :: 0 <= i < |t| ==> t[i].points <= a.points
    ensures SortedByPoints([a] + t)
  {
    var r := [a] + t;
    forall i, j | 0 <= i < j < |r| ensures r[i].points >= r[j].points {
      assert r[j] == t[j - 1];
      if i > 0 {
        assert r[i] == t[i - 1];
      }
    }
  }

  /** Insertion into a sorted list gives a sorted list. */
  lemma {:induction false} InsertSorted(x: Student, rs: seq<Student>)
    requires SortedByPoints(rs)
    ensures SortedByPoints(Insert(x, rs))
    decreases |rs|
  {
    if rs == [] || rs[0].points <= x.points {
      ConsSorted(x, rs);
    } else {
      InsertSorted(x, rs[1..]);
      InsertBounded(x, rs[1..], rs[0].points);
      ConsSorted(rs[0], Insert(x, rs[1..]));
    }
  }

  /** The ranking: a copy of the roster sorted by points, highest first, by a
      stable sort (equal points keep roster order). */
  function Ranking(ss: seq<Student>): (r: seq<Student>)
    ensures |r| == |ss|
    decreases |ss|
  {
    if ss == [] then [] else Insert(ss[0], Ranking(ss[1..]))
  }

  /** The ranking holds the same students as the roster, highest points first. */
  lemma {:induction false} RankingSortedPermutation(ss: seq<Student>)
    ensures multiset(Ranking(ss)) == multiset(ss)
    ensures SortedByPoints(Ranking(ss))
    decreases |ss|
  {
    if ss != [] {
      RankingSortedPermutation(ss[1..]);
      InsertPermutes(ss[0], Ranking(ss[1..]));
      InsertSorted(ss[0], Ranking(ss[1..]));
      assert ss == [ss[0]] + ss[1..];
    }
  }

  /** The students with exactly `p` points, in their order. */
  function WithPoints(ss: seq<Student>, p: int): seq<Student>
    decreases |ss|
  {
    if ss == [] then []
    else (if ss[0].points == p then [ss[0]] else []) + WithPoints(ss[1..], p)
  }

  lemma {:induction false} WithPointsCons(a: Student, rs: seq<Student>, p: int)
    ensures WithPoints([a] + rs, p) == (if a.points == p then [a] else []) + WithPoints(rs, p)
  {
    assert ([a] + rs)[0] == a;
    assert ([a] + rs)[1..] == rs;
  }

  lemma {:induction false} WithPointsInsert(x: Student, rs: seq<Student>, p: int)
    ensures WithPoints(Insert(x, rs), p) == (if x.points == p then [x] else []) + WithPoints(rs, p)
    decreases |rs|
  {
    if rs == [] || rs[0].points <= x.points {
      WithPointsCons(x, rs, p);
    } else {
      var tail := Insert(x, rs[1..]);
      WithPointsInsert(x, rs[1..], p);
      WithPointsCons(rs[0], tail, p);
      WithPointsCons(rs[0], rs[1..], p);
      assert rs == [rs[0]] + rs[1..];
      if x.points == p {
        assert rs[0].points != p;
      }
    }
  }

  /** The ranking is stable: the students with any given number of points
      appear in it in the same order as in the roster. */
  lemma {:induction false} RankingStable(ss: seq<Student>, p: int)
    ensures WithPoints(Ranking(ss), p) == WithPoints(ss, p)
    decreases |ss|
  {
    if ss != [] {
      RankingStable(ss[1..], p);
      WithPointsInsert(ss[0], Ranking(ss[1..]), p);
    }
  }

  // ------------------------------------------------------------------ rank

  /** The index of the first student with the given id, or -1 (findIndex). */
  function IndexOfId(ss: seq<Student>, id: string): (k: int)
    ensures -1 <= k < |ss|
    ensures k == -1 <==> forall i :: 0 <= i < |ss| ==> ss[i].id != id
    ensures k >= 0 ==> ss[k].id == id && forall j :: 0 <= j < k ==> ss[j].id != id
    decreases |ss|
  {
    if ss == [] then -1
    else if ss[0].id == id then 0
    else
      var k := IndexOfId(ss[1..], id);
      assert forall i :: 1 <= i < |ss| ==> ss[i] == ss[1..][i - 1];
      if k == -1 then -1 else k + 1
  }

  /** The global rank shown on a profile: one more than the student's index in
      the ranking, so 1 for the top scorer and 0 for an unknown id. */
  function GlobalRank(ss: seq<Student>, id: string): int {
    IndexOfId(Ranking(ss), id) + 1
  }

  /** The rank is 0 exactly for an id not on the roster, and otherwise lies
      in 1..|ss| with that student at position rank - 1 of the ranking. */
  lemma GlobalRankRange(ss: seq<Student>, id: string)
    ensures 0 <= GlobalRank(ss, id) <= |ss|
    ensures GlobalRank(ss, id) == 0 <==> forall i :: 0 <= i < |ss| ==> ss[i].id != id
    ensures GlobalRank(ss, id) > 0 ==> Ranking(ss)[GlobalRank(ss, id) - 1].id == id
  {
    var rk := Ranking(ss);
    RankingSortedPermutation(ss);
    if GlobalRank(ss, id) == 0 {
      forall i | 0 <= i < |ss| ensures ss[i].id != id {
        assert ss[i] in multiset(rk);
      }
    } else {
      var k := GlobalRank(ss, id) - 1;
      assert rk[k] in multiset(ss);
    }
  }

  /** Every student with more points than the ranked student is ranked
      ahead of it. */
  lemma GlobalRankAhead(ss: seq<Student>, id: string, x: Student)
    requires GlobalRank(ss, id) > 0
    requires x in ss && x.points > Ranking(ss)[GlobalRank(ss, id) - 1].points
    ensures x in Ranking(ss)[..GlobalRank(ss, id) - 1]
  {
    var rk := Ranking(ss);
    RankingSortedPermutation(ss);
    assert x in multiset(ss);
    SortedAhead(rk, GlobalRank(ss, id) - 1, x);
  }

  /** In a list sorted by points, anyone with more points than position `k`
      stands before it. */
  lemma SortedAhead(rk: seq<Student>, k: nat, x: Student)
    requires SortedByPoints(rk) && k < |rk|
    requires x in rk && x.points > rk[k].points
    ensures x in rk[..k]
  {
    var j :| 0 <= j < |rk| && rk[j] == x;
    assert rk[..k][j] == x;
  }

  /** On the seed roster the ranking is s3 (2100), s1 (1250), s2 (850), so the
      ranks shown are 1, 2 and 3 for s3, s1 and s2, whereas the stored `rank`
      fields say 2, 1 and 3. */
  lemma SeedRanking()
    ensures Ranking(InitialStudents) == [Gabriel, Lucas, Beatriz]
    ensures GlobalRank(InitialStudents, "s3") == 1 != Gabriel.rank
    ensures GlobalRank(InitialStudents, "s1") == 2 != Lucas.rank
    ensures GlobalRank(InitialStudents, "s2") == 3 == Beatriz.rank
  {
    RankingOfThree(Lucas, Beatriz, Gabriel);
    assert Gabriel.id[1] != Lucas.id[1] && Lucas.id[1] != Beatriz.id[1] && Gabriel.id[1] != Beatriz.id[1];
    IndexOfThree(Gabriel, Lucas, Beatriz);
  }

  /** Three students with points c > a > b, listed a, b, c, rank c, a, b. */
  lemma RankingOfThree(a: Student, b: Student, c: Student)
    requires c.points > a.points > b.points
    ensures Ranking([a, b, c]) == [c, a, b]
  {
    assert [a, b, c][1..] == [b, c];
    assert [b, c][1..] == [c];
    assert [c][1..] == [];
    assert Ranking([c]) == Insert(c, []) == [c];
    assert Insert(b, [c]) == [c] + Insert(b, []) == [c, b];
    assert Ranking([b, c]) == [c, b];
    assert [c, b][1..] == [b];
    assert Insert(a, [b]) == [a, b];
    assert Insert(a, [c, b]) == [c] + Insert(a, [b]) == [c, a, b];
  }

  /** Positions in a list of three students with distinct ids. */
  lemma IndexOfThree(a: Student, b: Student, c: Student)
    requires a.id != b.id && b.id != c.id && a.id != c.id
    ensures IndexOfId([a, b, c], a.id) == 0
    ensures IndexOfId([a, b, c], b.id) == 1
    ensures IndexOfId([a, b, c], c.id) == 2
  {
    assert [a, b, c][1..] == [b, c];
    assert [b, c][1..] == [c];
    assert IndexOfId([c], c.id) == 0;
    assert IndexOfId([b, c], c.id) == 1;
  }

  // ------------------------------------------------------------- progress

  /** A record past the learning stage: learned or mastered. */
  predicate Completed(r: TrickRecord) {
    r.status != Learning
  }

  /** The number of records past the learning stage, the count shown as
      completed tricks and the numerator of the progress ring. */
  function CompletedCount(ts: seq<TrickRecord>): (n: nat)
    ensures n <= |ts|
    decreases |ts|
  {
    if ts == [] then 0
    else CompletedCount(ts[..|ts| - 1]) + if Completed(ts[|ts| - 1]) then 1 else 0
  }

  /** The count is zero exactly when every record is still being learned, and
      equals the length exactly when none is. */
  lemma {:induction false} CompletedExtremes(ts: seq<TrickRecord>)
    ensures CompletedCount(ts) == 0 <==> forall i :: 0 <= i < |ts| ==> !Completed(ts[i])
    ensures CompletedCount(ts) == |ts| <==> forall i :: 0 <= i < |ts| ==> Completed(ts[i])
    decreases |ts|
  {
    if ts != [] {
      var init := ts[..|ts| - 1];
      CompletedExtremes(init);
      assert forall i :: 0 <= i < |init| ==> init[i] == ts[i];
    }
  }

  lemma {:induction false} CompletedAppend(a: seq<TrickRecord>, b: seq<TrickRecord>)
    ensures CompletedCount(a + b) == CompletedCount(a) + CompletedCount(b)
    decreases |b|
  {
    if b == [] {
      assert a + b == a;
    } else {
      var b' := b[..|b| - 1];
      assert (a + b)[..|a + b| - 1] == a + b';
      CompletedAppend(a, b');
    }
  }

  /** Splitting a list around position k. */
  lemma CompletedAround(ts: seq<TrickRecord>, k: nat)
    requires k < |ts|
    ensures CompletedCount(ts) ==
            CompletedCount(ts[..k]) + (if Completed(ts[k]) then 1 else 0) + CompletedCount(ts[k + 1..])
  {
    var front := ts[..k + 1];
    assert ts == front + ts[k + 1..];
    CompletedAppend(front, ts[k + 1..]);
    assert front[..|front| - 1] == ts[..k];
  }

  /** Replacing the record at k changes the count by that record alone. */
  lemma CompletedReplace(ts: seq<TrickRecord>, rs: seq<TrickRecord>, k: nat)
    requires |rs| == |ts| && k < |ts|
    requires forall i :: 0 <= i < |ts| && i != k ==> rs[i] == ts[i]
    ensures CompletedCount(rs) + (if Completed(ts[k]) then 1 else 0) ==
            CompletedCount(ts) + (if Completed(rs[k]) then 1 else 0)
  {
    CompletedAround(ts, k);
    CompletedAround(rs, k);
    assert rs[..k] == ts[..k];
    assert rs[k + 1..] == ts[k + 1..];
  }

  /** Removing the record at k changes the count by that record alone. */
  lemma CompletedRemove(ts: seq<TrickRecord>, k: nat)
    requires k < |ts|
    ensures CompletedCount(ts[..k] + ts[k + 1..]) + (if Completed(ts[k]) then 1 else 0) == CompletedCount(ts)
  {
    CompletedAround(ts, k);
    CompletedAppend(ts[..k], ts[k + 1..]);
  }

  /** How one toggle moves the completed count of a student with one record per
      trick: a new learning record and learned -> mastered leave it, learning ->
      learned adds one, removing a mastered record takes one away. */
  lemma CompletedAfterToggle(ts: seq<TrickRecord>, id: string, now: string)
    requires UniqueTrickIds(ts)
    ensures var before, after := CompletedCount(ts), CompletedCount(NextTricks(ts, id, now));
      match FindRecord(ts, id)
      case None => after == before
      case Some(t) =>
        (t.status == Learning ==> after == before + 1) &&
        (t.status == Learned ==> after == before) &&
        (t.status == Mastered ==> after == before - 1)
  {
    match FindRecord(ts, id)
    case None =>
      CompletedAppend(ts, [TrickRecord(id, Learning, None)]);
      assert [TrickRecord(id, Learning, None)][..0] == [];
    case Some(t) =>
      var k :| 0 <= k < |ts| && ts[k] == t && t.trickId == id &&
               forall j :: 0 <= j < k ==> ts[j].trickId != id;
      if t.status == Mastered {
        ToggleMastered(ts, k, now);
        CompletedRemove(ts, k);
      } else if t.status == Learning {
        ToggleLearning(ts, k, now);
        CompletedReplace(ts, NextTricks(ts, id, now), k);
      } else {
        ToggleLearned(ts, k, now);
        CompletedReplace(ts, NextTricks(ts, id, now), k);
      }
  }

  /** The set of trick ids a list of records names. */
  function TrickIds(ts: seq<TrickRecord>): set<string> {
    set i | 0 <= i < |ts| :: ts[i].trickId
  }

  /** The set of ids in the catalog. */
  function CatalogIds(catalog: seq<Trick>): set<string> {
    set i | 0 <= i < |catalog| :: catalog[i].id
  }

  /** The progress ring never passes 100%: a student with one record per trick,
      each for a catalog trick, has no more completed tricks than the catalog
      has tricks. */
  lemma CompletedAtMostCatalog(catalog: seq<Trick>, ts: seq<TrickRecord>)
    requires UniqueTrickIds(ts) && AllResolve(catalog, ts)
    ensures CompletedCount(ts) <= |ts| <= |catalog|
  {
    DistinctIdsCount(ts);
    IdsCount(catalog);
    assert TrickIds(ts) <= CatalogIds(catalog) by {
      forall id | id in TrickIds(ts) ensures id in CatalogIds(catalog) {
        var i :| 0 <= i < |ts| && ts[i].trickId == id;
        var t := Lookup(catalog, id);
        var k :| 0 <= k < |catalog| && catalog[k] == t.value && t.value.id == id &&
                 forall j :: 0 <= j < k ==> catalog[j].id != id;
      }
    }
    SubsetCardinality(TrickIds(ts), CatalogIds(catalog));
  }

  lemma {:induction false} DistinctIdsCount(ts: seq<TrickRecord>)
    requires UniqueTrickIds(ts)
    ensures |TrickIds(ts)| == |ts|
    decreases |ts|
  {
    if ts != [] {
      var init := ts[..|ts| - 1];
      DistinctIdsCount(init);
      assert TrickIds(ts) == TrickIds(init) + {ts[|ts| - 1].trickId};
      assert ts[|ts| - 1].trickId !in TrickIds(init);
    }
  }

  lemma {:induction false} IdsCount(catalog: seq<Trick>)
    ensures |CatalogIds(catalog)| <= |catalog|
    decreases |catalog|
  {
    if catalog != [] {
      var init := catalog[..|catalog| - 1];
      IdsCount(init);
      assert CatalogIds(catalog) == CatalogIds(init) + {catalog[|catalog| - 1].id};
    }
  }

  lemma SubsetCardinality(a: set<string>, b: set<string>)
    requires a <= b
    ensures |a| <= |b|
  {
    assert b == a + (b - a);
  }

  /** In a roster whose records each name one catalog trick at most once, the
      progress ring of every student is at most full: the completed count never
      exceeds the ten tricks of the catalog. */
  lemma ProgressAtMostFull(ss: seq<Student>)
    requires forall i :: 0 <= i < |ss| ==> UniqueTrickIds(ss[i].tricks) && AllResolve(Tricks, ss[i].tricks)
    ensures forall i :: 0 <= i < |ss| ==> CompletedCount(ss[i].tricks) <= |Tricks| == 10
  {
    CatalogWellFormed();
    forall i | 0 <= i < |ss| ensures CompletedCount(ss[i].tricks) <= |Tricks| {
      CompletedAtMostCatalog(Tricks, ss[i].tricks);
    }
  }
}
