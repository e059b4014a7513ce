/** The scoring function: a student's trick records and the catalog give a
    number of points, and the points give a level. */
module Scoring {
  import opened Types

  /** Every catalog entry has a difficulty in 1..10. */
  predicate DifficultiesInRange(catalog: seq<Trick>) {
    forall i :: 0 <= i < |catalog| ==> 1 <= catalog[i].difficulty <= 10
  }

  /** Catalog ids are pairwise distinct. */
  predicate DistinctIds(catalog: seq<Trick>) {
    forall i, j :: 0 <= i < j < |catalog| ==> catalog[i].id != catalog[j].id
  }

  /** Every record names a trick of the catalog. */
  predicate AllResolve(catalog: seq<Trick>, ts: seq<TrickRecord>) {
    forall i :: 0 <= i < |ts| ==> Lookup(catalog, ts[i].trickId).Some?
  }

  /** The first catalog entry with the given id, as a search from the front. */
  function Lookup(catalog: seq<Trick>, id: string): (r: Option<Trick>)
    ensures r.None? <==> forall i :: 0 <= i < |catalog| ==> catalog[i].id != id
    ensures r.Some? ==> exists i :: 0 <= i < |catalog| && catalog[i] == r.value &&
                          r.value.id == id && forall j :: 0 <= j < i ==> catalog[j].id != id
  {
    if catalog == [] then None
    else if catalog[0].id == id then Some(catalog[0])
    else
      var r := Lookup(catalog[1..], id);
      assert forall i :: 1 <= i < |catalog| ==> catalog[i] == catalog[1..][i - 1];
      r
  }

  /** What one record adds to the score, in exact integers: difficulty * 100
      times the multiplier 2 (mastered), 1.5 (learned) or 0.5 (learning), that is
      200, 150 or 50 points per unit of difficulty. A record whose trick is not
      in the catalog adds nothing. */
  function Contribution(catalog: seq<Trick>, r: TrickRecord): int {
    match Lookup(catalog, r.trickId)
    case None => 0
    case Some(t) =>
      match r.status
      case Mastered => t.difficulty * 200
      case Learned => t.difficulty * 150
      case Learning => t.difficulty * 50
  }

  /** The score of a list of records, summed left to right. */
  function Score(catalog: seq<Trick>, ts: seq<TrickRecord>): int
    decreases |ts|
  {
    if ts == [] then 0
    else Score(catalog, ts[..|ts| - 1]) + Contribution(catalog, ts[|ts| - 1])
  }

  /** The same contribution in the original's number arithmetic, with the
      fractional multipliers 2, 1.5 and 0.5. */
  function ExactContribution(catalog: seq<Trick>, r: TrickRecord): real {
    match Lookup(catalog, r.trickId)
    case None => 0.0
    case Some(t) =>
      var multiplier := match r.status
        case Mastered => 2.0
        case Learned => 1.5
        case Learning => 0.5;
      t.difficulty as real * 100.0 * multiplier
  }

  /** Rounding to the nearest integer, halves upward. */
  function Round(x: real): int {
    (x + 0.5).Floor
  }

  /** The level of a number of points, tiers listed from the bottom:
      up to 800 Beginner, up to 1500 Intermediate, up to 2000 Advanced, above Pro. */
  function LevelOf(points: int): (l: Level)
    ensures l == Pro <==> points > 2000
    ensures l == Advanced <==> 1500 < points <= 2000
    ensures l == Intermediate <==> 800 < points <= 1500
    ensures l == Beginner <==> points <= 800
  {
    if points <= 800 then Beginner
    else if points <= 1500 then Intermediate
    else if points <= 2000 then Advanced
    else Pro
  }

  /** The catalog search of the scoring loop, front to back. */
  method FindTrick(catalog: seq<Trick>, id: string) returns (r: Option<Trick>)
    ensures r == Lookup(catalog, id)
  {
    var i := 0;
    while i < |catalog|
      invariant 0 <= i <= |catalog|
      invariant Lookup(catalog, id) == Lookup(catalog[i..], id)
    {
      if catalog[i].id == id {
        return Some(catalog[i]);
      }
      assert catalog[i..][1..] == catalog[i + 1..];
      i := i + 1;
    }
    return None;
  }

  /** The reduce over the new trick list: an accumulator that starts at 0 and
      adds difficulty * 100 * multiplier for every record found in the catalog. */
  method TotalPoints(catalog: seq<Trick>, ts: seq<TrickRecord>) returns (acc: real)
    ensures acc == Score(catalog, ts) as real
  {
    acc := 0.0;
    for i := 0 to |ts|
      invariant acc == Score(catalog, ts[..i]) as real
    {
      var st := ts[i];
      var trick := FindTrick(catalog, st.trickId);
      if trick.Some? {
        var multiplier := if st.status == Mastered then 2.0
                          else if st.status == Learned then 1.5
                          else 0.5;
        acc := acc + trick.value.difficulty as real * 100.0 * multiplier;
      }
      ExactContributionIsInteger(catalog, st);
      assert ts[..i + 1][..i] == ts[..i];
    }
    assert ts[..|ts|] == ts;
  }

  /** The level selection: start at Beginner and raise it at strict thresholds,
      highest first. */
  method ClassifyLevel(points: real) returns (level: Level)
    ensures level == Pro <==> points > 2000.0
    ensures level == Advanced <==> 1500.0 < points <= 2000.0
    ensures level == Intermediate <==> 800.0 < points <= 1500.0
    ensures level == Beginner <==> points <= 800.0
  {
    level := Beginner;
    if points > 2000.0 {
      level := Pro;
    } else if points > 1500.0 {
      level := Advanced;
    } else if points > 800.0 {
      level := Intermediate;
    }
  }

  /** The fractional multipliers never leave the integers: each contribution of
      the original arithmetic is the integer contribution, a multiple of 50. */
  lemma ExactContributionIsInteger(catalog: seq<Trick>, r: TrickRecord)
    ensures ExactContribution(catalog, r) == Contribution(catalog, r) as real
    ensures Contribution(catalog, r) % 50 == 0
  {
  }

  /** Rounding an integer-valued sum changes nothing. */
  lemma RoundOfInteger(n: int)
    ensures Round(n as real) == n
  {
  }

  /** A score is a whole multiple of 50 points. */
  lemma {:induction false} ScoreMultipleOf50(catalog: seq<Trick>, ts: seq<TrickRecord>)
    ensures Score(catalog, ts) % 50 == 0
  {
    if ts != [] {
      var init, last := ts[..|ts| - 1], ts[|ts| - 1];
      ScoreMultipleOf50(catalog, init);
      ExactContributionIsInteger(catalog, last);
      var a, b := Score(catalog, init) / 50, Contribution(catalog, last) / 50;
      assert Score(catalog, ts) == 50 * (a + b);
    }
  }

  /** The score is never negative when no difficulty is. */
  lemma {:induction false} ScoreNonNegative(catalog: seq<Trick>, ts: seq<TrickRecord>)
    requires forall i :: 0 <= i < |catalog| ==> catalog[i].difficulty >= 0
    ensures Score(catalog, ts) >= 0
  {
    if ts != [] {
      ScoreNonNegative(catalog, ts[..|ts| - 1]);
      var r := ts[|ts| - 1];
      match Lookup(catalog, r.trickId)
      case None =>
      case Some(t) =>
        assert t.difficulty >= 0;
    }
  }

  /** The score of two lists one after the other is the sum of their scores. */
  lemma {:induction false} ScoreAppend(catalog: seq<Trick>, a: seq<TrickRecord>, b: seq<TrickRecord>)
    ensures Score(catalog, a + b) == Score(catalog, a) + Score(catalog, b)
    decreases |b|
  {
    if b == [] {
      assert a + b == a;
    } else {
      var b' := b[..|b| - 1];
      assert (a + b)[..|a + b| - 1] == a + b';
      assert (a + b)[|a + b| - 1] == b[|b| - 1];
      ScoreAppend(catalog, a, b');
    }
  }

  /** The records whose trick id is found in the catalog, in order. */
  function Resolved(catalog: seq<Trick>, ts: seq<TrickRecord>): (rs: seq<TrickRecord>)
    ensures forall i :: 0 <= i < |rs| ==> rs[i] in ts && Lookup(catalog, rs[i].trickId).Some?
    ensures forall r :: r in ts && Lookup(catalog, r.trickId).Some? ==> r in rs
    decreases |ts|
  {
    if ts == [] then []
    else
      var rest := Resolved(catalog, ts[..|ts| - 1]);
      assert ts == ts[..|ts| - 1] + [ts[|ts| - 1]];
      if Lookup(catalog, ts[|ts| - 1].trickId).Some? then rest + [ts[|ts| - 1]] else rest
  }

  /** Records with an unknown trick id count zero: dropping them keeps the score. */
  lemma {:induction false} UnresolvedCountZero(catalog: seq<Trick>, ts: seq<TrickRecord>)
    ensures Score(catalog, Resolved(catalog, ts)) == Score(catalog, ts)
    decreases |ts|
  {
    if ts != [] {
      var init := ts[..|ts| - 1];
      var last := ts[|ts| - 1];
      UnresolvedCountZero(catalog, init);
      if Lookup(catalog, last.trickId).Some? {
        ScoreAppend(catalog, Resolved(catalog, init), [last]);
        assert [last][..0] == [];
      }
    }
  }

  /** Points listed from the bottom and the original's strict thresholds, read
      from the top, give the same tier; exactly 800, 1500 and 2000 stay below. */
  lemma LevelBoundaries()
    ensures LevelOf(800) == Beginner && LevelOf(801) == Intermediate
    ensures LevelOf(1500) == Intermediate && LevelOf(1501) == Advanced
    ensures LevelOf(2000) == Advanced && LevelOf(2001) == Pro
  {
  }

  /** More points never give a lower level. */
  lemma LevelMonotone(p: int, q: int)
    requires p <= q
    ensures Tier(LevelOf(p)) <= Tier(LevelOf(q))
  {
  }
}
