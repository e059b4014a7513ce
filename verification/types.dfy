/** The records of the skate school: the trick catalog entries, a student's
    progress record on one trick, and the student. Status and level are closed
    variants rather than the loosely typed strings of the original. */
module Types {

  datatype Option<+T> = None | Some(value: T)

  /** The five trick families of the catalog. */
  datatype Category = Flat | Grind | Flip | Grab | Transition

  /** A student's stage on one trick: learning, then learned, then mastered. */
  datatype Status = Learning | Learned | Mastered

  /** The four tiers shown next to a student, lowest first
      (Iniciante, Intermediario, Avancado, Profissional). */
  datatype Level = Beginner | Intermediate | Advanced | Pro

  /** A catalog entry; `difficulty` is meant to lie in 1..10. */
  datatype Trick = Trick(id: string, name: string, category: Category, difficulty: int)

  /** One student's progress on the trick with id `trickId`. `dateLearned` is an
      opaque timestamp, set when the record leaves the learning stage. */
  datatype TrickRecord = TrickRecord(trickId: string, status: Status, dateLearned: Option<string>)

  /** A student. `points` and `level` are stored values: they are recomputed from
      `tricks` only when a trick of this student is toggled. `rank` is stored but
      never read by the ranking, which is always recomputed from `points`. */
  datatype Student = Student(
    id: string,
    name: string,
    nickname: Option<string>,
    photoUrl: string,
    level: Level,
    tricks: seq<TrickRecord>,
    points: int,
    rank: int,
    bio: Option<string>)

  /** Position of a level on the ordered scale, lowest tier 0. */
  function Tier(l: Level): (n: nat)
    ensures n < 4
  {
    match l
    case Beginner => 0
    case Intermediate => 1
    case Advanced => 2
    case Pro => 3
  }

  /** A student holds at most one record per trick id. */
  predicate UniqueTrickIds(ts: seq<TrickRecord>) {
    forall i, j :: 0 <= i < j < |ts| ==> ts[i].trickId != ts[j].trickId
  }

  /** Student ids are pairwise distinct. */
  predicate DistinctStudentIds(ss: seq<Student>) {
    forall i, j :: 0 <= i < j < |ss| ==> ss[i].id != ss[j].id
  }
}
