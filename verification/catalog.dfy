/** The fixed data the school starts with: the trick catalog and the seed
    roster of three students. */
module Catalog {
  import opened Types
  import opened Scoring

  const Tricks: seq<Trick> := [
    Trick("1", "Ollie", Flat, 1),
    Trick("2", "Shove-it", Flat, 2),
    Trick("3", "Kickflip", Flip, 4),
    Trick("4", "Heelflip", Flip, 4),
    Trick("5", "Boardslide", Grind, 3),
    Trick("6", "50-50 Grind", Grind, 4),
    Trick("7", "360 Flip", Flip, 7),
    Trick("8", "Indy Grab", Grab, 3),
    Trick("9", "Dropping In", Transition, 2),
    Trick("10", "Rock to Fakie", Transition, 4)
  ]

  const LucasTricks: seq<TrickRecord> := [
    TrickRecord("1", Mastered, Some("2023-01-15")),
    TrickRecord("2", Mastered, Some("2023-02-10")),
    TrickRecord("3", Learned, Some("2023-05-20")),
    TrickRecord("5", Learning, None)
  ]

  const Lucas: Student := Student(
    "s1", "Lucas Silva", Some("Lukinha"), "https://picsum.photos/seed/skater1/400/400",
    Intermediate, LucasTricks, 1250, 1, Some("Focado em street e manobras de flip."))

  const BeatrizTricks: seq<TrickRecord> := [
    TrickRecord("1", Mastered, Some("2023-03-01")),
    TrickRecord("9", Learned, Some("2023-04-15")),
    TrickRecord("2", Learning, None)
  ]

  const Beatriz: Student := Student(
    "s2", "Beatriz Santos", Some("Bia"), "https://picsum.photos/seed/skater2/400/400",
    Beginner, BeatrizTricks, 850, 3, Some("Iniciando nas transições."))

  const GabrielTricks: seq<TrickRecord> := [
    TrickRecord("1", Mastered, None),
    TrickRecord("2", Mastered, None),
    TrickRecord("3", Mastered, None),
    TrickRecord("5", Mastered, None),
    TrickRecord("6", Learned, None),
    TrickRecord("7", Learning, None)
  ]

  const Gabriel: Student := Student(
    "s3", "Gabriel Oliveira", Some("Biel"), "https://picsum.photos/seed/skater3/400/400",
    Advanced, GabrielTricks, 2100, 2, Some("Especialista em corrimão."))

  const InitialStudents: seq<Student> := [Lucas, Beatriz, Gabriel]

  /** The catalog holds ten tricks with distinct ids and difficulties in 1..10;
      ten is the denominator of the completion ratio. */
  lemma CatalogWellFormed()
    ensures |Tricks| == 10
    ensures DistinctIds(Tricks)
    ensures DifficultiesInRange(Tricks)
  {
    forall i, j | 0 <= i < j < |Tricks| ensures Tricks[i].id != Tricks[j].id {
      if j == 9 {
        assert |Tricks[j].id| == 2 && |Tricks[i].id| == 1;
      } else {
        assert Tricks[i].id[0] != Tricks[j].id[0];
      }
    }
  }

  /** In a catalog with distinct ids, looking up an entry's id finds that entry. */
  lemma LookupOwnId(catalog: seq<Trick>, k: nat)
    requires DistinctIds(catalog)
    requires k < |catalog|
    ensures Lookup(catalog, catalog[k].id) == Some(catalog[k])
  {
    var r := Lookup(catalog, catalog[k].id);
    var i :| 0 <= i < |catalog| && catalog[i] == r.value && r.value.id == catalog[k].id &&
             forall j :: 0 <= j < i ==> catalog[j].id != catalog[k].id;
    assert i == k;
  }

  /** The seed roster: three students s1, s2, s3 with distinct ids, each with at
      most one record per trick and every record naming a catalog trick. */
  lemma SeedWellFormed()
    ensures |InitialStudents| == 3
    ensures DistinctStudentIds(InitialStudents)
    ensures forall i :: 0 <= i < |InitialStudents| ==>
              UniqueTrickIds(InitialStudents[i].tricks) && AllResolve(Tricks, InitialStudents[i].tricks)
  {
    SeedStudentWellFormed(LucasTricks);
    SeedStudentWellFormed(BeatrizTricks);
    SeedStudentWellFormed(GabrielTricks);
    SeedRosterWellFormed(InitialStudents);
  }

  /** One seed student's records: one per trick, each naming a catalog trick. */
  lemma SeedStudentWellFormed(ts: seq<TrickRecord>)
    requires ts == LucasTricks || ts == BeatrizTricks || ts == GabrielTricks
    ensures UniqueTrickIds(ts) && AllResolve(Tricks, ts)
  {
    SeedTricksWellFormed(ts);
  }

  // The seed facts are proved about parameters equal to the constants, which
  // keeps the solver from unfolding the literal data wholesale.
  lemma SeedRosterWellFormed(ss: seq<Student>)
    requires ss == InitialStudents
    requires UniqueTrickIds(LucasTricks) && AllResolve(Tricks, LucasTricks)
    requires UniqueTrickIds(BeatrizTricks) && AllResolve(Tricks, BeatrizTricks)
    requires UniqueTrickIds(GabrielTricks) && AllResolve(Tricks, GabrielTricks)
    ensures |ss| == 3 && DistinctStudentIds(ss)
    ensures forall i :: 0 <= i < |ss| ==> UniqueTrickIds(ss[i].tricks) && AllResolve(Tricks, ss[i].tricks)
  {
    assert ss[0].id[1] != ss[1].id[1];
    assert ss[0].id[1] != ss[2].id[1];
    assert ss[1].id[1] != ss[2].id[1];
    forall i | 0 <= i < |ss| ensures UniqueTrickIds(ss[i].tricks) && AllResolve(Tricks, ss[i].tricks) {
      assert ss[i].tricks == if i == 0 then LucasTricks else if i == 1 then BeatrizTricks else GabrielTricks;
    }
  }

  /** A record list whose ids are single digits 1..9, pairwise different, has
      one record per trick, and every such id is a catalog id. */
  lemma SeedTricksWellFormed(ts: seq<TrickRecord>)
    requires forall i :: 0 <= i < |ts| ==> |ts[i].trickId| == 1 && '1' <= ts[i].trickId[0] <= '9'
    requires forall i, j :: 0 <= i < j < |ts| ==> ts[i].trickId[0] != ts[j].trickId[0]
    ensures UniqueTrickIds(ts) && AllResolve(Tricks, ts)
  {
    CatalogWellFormed();
    forall i | 0 <= i < |ts| ensures Lookup(Tricks, ts[i].trickId).Some? {
      var c := ts[i].trickId[0];
      var k := c as int - '1' as int;
      assert Tricks[k].id == [c];
      assert ts[i].trickId == [c];
      LookupOwnId(Tricks, k);
    }
  }

  /** The stored seed points and levels do not follow the scoring rule: s1 scores
      1350 but stores 1250; s2 scores 600 but stores 850; s3 scores 2950, a Pro
      score, but stores 2100 and Advanced. Points equal the score only for a
      student whose tricks have been toggled. */
  lemma SeedPointsStale()
    ensures Score(Tricks, Lucas.tricks) == 1350 != Lucas.points
    ensures LevelOf(Score(Tricks, Lucas.tricks)) == Lucas.level
    ensures Score(Tricks, Beatriz.tricks) == 600 != Beatriz.points
    ensures LevelOf(Score(Tricks, Beatriz.tricks)) == Beatriz.level
    ensures Score(Tricks, Gabriel.tricks) == 2950 != Gabriel.points
    ensures LevelOf(Score(Tricks, Gabriel.tricks)) == Pro != Gabriel.level
  {
    LucasScore(Tricks, LucasTricks);
    BeatrizScore(Tricks, BeatrizTricks);
    GabrielScore(Tricks, GabrielTricks);
  }

  // The seed scores are proved about parameters equal to the constants, which
  // keeps the solver from unfolding the literal data wholesale.
  lemma LucasScore(catalog: seq<Trick>, ts: seq<TrickRecord>)
    requires catalog == Tricks && ts == LucasTricks
    ensures Score(catalog, ts) == 1350
  {
    CatalogWellFormed();
    LookupOwnId(catalog, 0);
    LookupOwnId(catalog, 1);
    LookupOwnId(catalog, 2);
    LookupOwnId(catalog, 4);
    ScoreAsSum(catalog, ts);
  }

  lemma BeatrizScore(catalog: seq<Trick>, ts: seq<TrickRecord>)
    requires catalog == Tricks && ts == BeatrizTricks
    ensures Score(catalog, ts) == 600
  {
    CatalogWellFormed();
    LookupOwnId(catalog, 0);
    LookupOwnId(catalog, 1);
    LookupOwnId(catalog, 8);
    ScoreAsSum(catalog, ts);
  }

  lemma GabrielScore(catalog: seq<Trick>, ts: seq<TrickRecord>)
    requires catalog == Tricks && ts == GabrielTricks
    ensures Score(catalog, ts) == 2950
  {
    CatalogWellFormed();
    LookupOwnId(catalog, 0);
    LookupOwnId(catalog, 1);
    LookupOwnId(catalog, 2);
    LookupOwnId(catalog, 4);
    LookupOwnId(catalog, 5);
    LookupOwnId(catalog, 6);
    ScoreAsSum(catalog, ts);
  }

  /** The score of a list of three, four or six records, written out as a sum. */
  lemma ScoreAsSum(catalog: seq<Trick>, ts: seq<TrickRecord>)
    requires |ts| == 3 || |ts| == 4 || |ts| == 6
    ensures |ts| == 3 ==>
              Score(catalog, ts) ==
              Contribution(catalog, ts[0]) + Contribution(catalog, ts[1]) + Contribution(catalog, ts[2])
    ensures |ts| == 4 ==>
              Score(catalog, ts) ==
              Contribution(catalog, ts[0]) + Contribution(catalog, ts[1]) +
              Contribution(catalog, ts[2]) + Contribution(catalog, ts[3])
    ensures |ts| == 6 ==>
              Score(catalog, ts) ==
              Contribution(catalog, ts[0]) + Contribution(catalog, ts[1]) + Contribution(catalog, ts[2]) +
              Contribution(catalog, ts[3]) + Contribution(catalog, ts[4]) + Contribution(catalog, ts[5])
  {
    assert ts[..1][..0] == [];
    ScoreOfPrefix(catalog, ts, 1);
    ScoreOfPrefix(catalog, ts, 2);
    ScoreOfPrefix(catalog, ts, 3);
    if |ts| >= 4 {
      ScoreOfPrefix(catalog, ts, 4);
    }
    if |ts| == 6 {
      ScoreOfPrefix(catalog, ts, 5);
      ScoreOfPrefix(catalog, ts, 6);
    }
    assert ts[..|ts|] == ts;
  }

  /** The score of the first n records is that of the first n - 1 plus the n-th. */
  lemma ScoreOfPrefix(catalog: seq<Trick>, ts: seq<TrickRecord>, n: nat)
    requires 0 < n <= |ts|
    ensures Score(catalog, ts[..n]) == Score(catalog, ts[..n - 1]) + Contribution(catalog, ts[n - 1])
  {
    assert ts[..n][..n - 1] == ts[..n - 1];
  }
}
