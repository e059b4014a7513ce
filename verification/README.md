# Skate-school trick progress, modelled in Dafny

The skate-school dashboard keeps a roster of students. Each student holds a list of
trick records, one per trick, and each record is in the status learning, learned or
mastered. One click on a trick in a student's profile moves that record one step
round the cycle absent -> learning -> learned -> mastered -> absent. The student's
points are then summed again over the ten-trick catalog, as difficulty * 100 times 0.5,
1.5 or 2, and the level (Iniciante, Intermediario, Avancado, Profissional) is chosen
again from the points. The screens derive four things from the roster:
- a case-insensitive search on name and nickname;
- a ranking by points;
- each student's global rank in that ranking;
- the number of completed (learned or mastered) tricks behind the progress ring.

The project has six modules.
- `Types` (types.dfy): the records.
- `Scoring` (scoring.dfy): the points fold and the level thresholds.
  - The fold is modelled exactly in integers: 200, 150 or 50 points per unit of difficulty.
  - The original's fractional arithmetic and `Math.round` are modelled too, and proved equal to it.
- `Catalog` (catalog.dfy): the trick catalog and the three seed students, as constants.
- `Progress` (progress.dfy): the toggle step on a trick list, on one student and on the roster, as functions, with their properties.
- `RosterStore` (roster.dfy): the roster as a class.
  - Its one mutator, `ToggleTrick`, rebuilds the student list in a loop.
  - It is proved equal to the functional toggle and to keep the roster's invariants.
- `Queries` (queries.dfy): search filter, ranking, global rank and completed count.

The seed data does not satisfy "points = score". s1 stores 1250 but scores 1350. s2
stores 850 but scores 600. s3 stores 2100 and Advanced but scores 2950, which is a Pro
score. The stored points and level are only brought in line with the tricks when a
trick of that student is toggled. So the model states "points = score" as a
postcondition of the toggle, not as a roster invariant (`Catalog.SeedPointsStale`).
Likewise, the stored `rank` fields (1, 3, 2) disagree with the ranks the dashboard
shows (2, 3, 1), which are always recomputed from the points (`Queries.SeedRanking`).

## Model

| member | source | states |
|---|---|---|
| Scoring.Lookup | src/App.tsx:104 | The catalog search for a record's trick. It is None exactly when no catalog entry has the id. Otherwise it is the first entry with that id. |
| Scoring.FindTrick | src/App.tsx:104 | The front-to-back search loop returns exactly the first entry with the id, or nothing. |
| Scoring.TotalPoints | src/App.tsx:103-108 | The reduce, with its fractional multipliers 2, 1.5 and 0.5, yields exactly the integer score of the record list. |
| Scoring.ExactContributionIsInteger | src/App.tsx:105-107 | Each record's contribution `difficulty * 100 * multiplier` is an integer and a multiple of 50. An unknown trick contributes 0. |
| Scoring.RoundOfInteger | src/App.tsx:116 | `Math.round` (floor of x + 0.5) leaves an integer-valued sum unchanged. |
| Scoring.ScoreMultipleOf50 | src/App.tsx:103-108 | Every score is a whole multiple of 50. |
| Scoring.ScoreNonNegative | src/App.tsx:103-108 | When no difficulty is negative, the score is never negative. |
| Scoring.ScoreAppend | src/App.tsx:103-108 | The fold is additive: the score of a + b is the score of a plus the score of b. |
| Scoring.Resolved | src/App.tsx:104-105 | The records whose trick is in the catalog. Every kept record resolves, and every resolving record is kept. |
| Scoring.UnresolvedCountZero | src/App.tsx:105 | Records whose trick id is not in the catalog add nothing: dropping them leaves the score unchanged. |
| Scoring.LevelOf | src/App.tsx:111-114 | Pro iff points > 2000. Advanced iff 1500 < points <= 2000. Intermediate iff 800 < points <= 1500. Beginner iff points <= 800. |
| Scoring.ClassifyLevel | src/App.tsx:110-114 | The if-chain from Beginner with strict thresholds gives the same four iff-characterisations, on the unrounded points. |
| Scoring.LevelBoundaries | src/App.tsx:111-114 | Exactly 800, 1500 and 2000 stay in the lower tier. 801, 1501 and 2001 move up. |
| Scoring.LevelMonotone | src/App.tsx:111-114 | More points never give a lower level. |
| Progress.FindRecord | src/App.tsx:87 | The student's record for the trick. It is None exactly when no record names it. Otherwise it is the first one that does. |
| Progress.MarkLearned | src/App.tsx:91-92 | The map keeps the length. Every record of the trick becomes learned, stamped with the time. Every other record is unchanged in its place. |
| Progress.MarkMastered | src/App.tsx:93-94 | The map keeps the length. Every record of the trick becomes mastered and keeps its date. Every other record is unchanged in its place. |
| Progress.Without | src/App.tsx:96 | The filter keeps exactly the records of other tricks, and never makes the list longer. |
| Progress.Toggled | src/App.tsx:86-116 | The toggled student has the stepped trick list, points equal to that list's score, and the level those points earn. Every other field is unchanged. |
| Progress.ToggleAll | src/App.tsx:84-85 | The roster keeps its length. The student(s) with the id are toggled. Every other student is returned as is, in place. |
| Progress.ToggleAbsent | src/App.tsx:98-99 | A trick the student does not have is appended at the end as a learning record with no date. Earlier records are untouched. |
| Progress.ToggleLearning | src/App.tsx:90-92 | With one record per trick, a learning record becomes learned with the date set. All other records stay in place. |
| Progress.ToggleLearned | src/App.tsx:93-94 | With one record per trick, a learned record becomes mastered and keeps its date. All other records stay in place. |
| Progress.ToggleMastered | src/App.tsx:95-96 | With one record per trick, a mastered record is removed. The records before and after it close up, in order. |
| Progress.WithoutUnique | src/App.tsx:96 | Removing the only record of a trick is cutting out its position. |
| Progress.WithoutAbsent | src/App.tsx:96 | Removing a trick no record names changes nothing. |
| Progress.MarkAbsent | src/App.tsx:91-94 | Marking a trick no record names changes nothing. |
| Progress.FindLast | src/App.tsx:87 | A record appended after records of other tricks is the one the search finds. |
| Progress.FourTogglesRoundTrip | src/App.tsx:87-99 | Four toggles of a trick the student lacks return the trick list to exactly its original sequence, whatever the time stamps. |
| Progress.FourToggleAllRoundTrip | src/App.tsx:84-99 | At roster level, four toggles give every student back its trick list and leave every other student identical. |
| Progress.ToggleKeepsUnique | src/App.tsx:87-99 | A toggle keeps "at most one record per trick". |
| Progress.ToggleKeepsResolved | src/App.tsx:87-99 | A toggle of a catalog trick keeps every record naming a catalog trick. |
| Progress.ToggleAllKeepsWellFormed | src/App.tsx:84-117 | A roster toggle keeps student ids distinct and one record per trick for every student. |
| Progress.ToggleAllKeepsResolved | src/App.tsx:84-117 | A roster toggle of a catalog trick keeps every record of every student resolving. |
| Progress.ToggleUnknownStudent | src/App.tsx:84-85 | A toggle aimed at an id no student has leaves the roster identical. |
| Progress.ToggledPoints | src/App.tsx:103-116 | After a toggle the stored points are non-negative, a multiple of 50 and unchanged by `Math.round`, and the level is the one they earn. |
| Progress.DifficultyTenCycle | src/App.tsx:87-116 | For a difficulty-10 trick on a student with no tricks, the cycle gives 500 Beginner, then 1500 Intermediate, then 2000 Advanced, then 0 Beginner with the trick list back to empty. |
| RosterStore.Roster.constructor | src/App.tsx:60 | The roster starts as the seed students, scored over the fixed catalog, with its invariants established. |
| RosterStore.Roster.ToggleTrick | src/App.tsx:83-118 | The new roster is the functional roster toggle of the old one. Distinct ids and one record per trick are preserved. A catalog trick keeps all records resolving. |
| RosterStore.ToggleStudent | src/App.tsx:86-116 | The map callback for the clicked student computes exactly the toggled student: stepped list, recomputed points, rounded, and level. |
| RosterStore.FourClicks | src/App.tsx:83-118 | Four clicks on the same trick, on a roster whose target student lacks it, restore every trick list and leave every other student unchanged. |
| Catalog.CatalogWellFormed | src/constants.ts:3-14 | The catalog has exactly ten tricks, with pairwise distinct ids and every difficulty in 1..10. |
| Catalog.SeedWellFormed | src/constants.ts:16-66 | The seed roster has three students with distinct ids. Each has at most one record per trick, and every record names a catalog trick. |
| Catalog.SeedPointsStale | src/constants.ts:16-66 | The stored seed points 1250, 850 and 2100 differ from the scores 1350, 600 and 2950. s3's stored level Advanced differs from the Pro its score earns. |
| Queries.Lower | src/App.tsx:72-73 | Lower-casing keeps the length, folds each character, and leaves no upper-case ASCII letter. |
| Queries.ContainsAt | src/App.tsx:72-73 | `includes` holds exactly when the term occurs at some position of the text. |
| Queries.Filter | src/App.tsx:70-76 | Every kept student is on the roster and matches. Every matching roster student is kept. |
| Queries.FilterKeepsOrder | src/App.tsx:70-76 | The filtered roster is an order-preserving subsequence of the roster. |
| Queries.FilterCount | src/App.tsx:70-76 | Each matching student is kept as many times as the roster holds it, and a non-matching one not at all. |
| Queries.FilterEmptyTerm | src/App.tsx:70-76 | An empty search term returns the whole roster. |
| Queries.Ranking | src/App.tsx:78-81 | The ranking is a copy of the roster of the same length; the roster itself is a value and is not changed. |
| Queries.RankingSortedPermutation | src/App.tsx:78-81 | The ranking is a permutation of the roster, sorted by points non-increasing. |
| Queries.RankingStable | src/App.tsx:78-81 | The sort is stable: students with equal points keep their roster order. |
| Queries.IndexOfId | src/App.tsx:208 | `findIndex` gives -1 iff no student has the id. Otherwise it gives the first position holding it. |
| Queries.GlobalRankRange | src/App.tsx:208 | The rank is 0 iff the id is not on the roster. Otherwise it is in 1..n, and the ranking holds that student at position rank - 1. |
| Queries.GlobalRankAhead | src/App.tsx:244 | Every student with more points than the ranked one stands ahead of it in the ranking. |
| Queries.SeedRanking | src/App.tsx:78-81 | On the seed roster the ranking is s3, s1, s2. The ranks shown, 1, 2 and 3, disagree with the stored ranks of s3 and s1. |
| Queries.CompletedCount | src/App.tsx:227 | The number of learned or mastered records never exceeds the number of records. |
| Queries.CompletedExtremes | src/App.tsx:239 | The count is 0 iff every record is still learning. It equals the length iff none is. |
| Queries.CompletedAfterToggle | src/App.tsx:87-99 | With one record per trick, one toggle changes the count as follows. Adding a learning record: 0. learning -> learned: +1. learned -> mastered: 0. Removing a mastered record: -1. |
| Queries.CompletedAtMostCatalog | src/App.tsx:227 | With one record per trick and every record in the catalog, the count is at most the catalog's size. |
| Queries.ProgressAtMostFull | src/App.tsx:227 | On such a roster every student's completed count is at most 10 = the ratio's denominator, so the progress ring never passes 100%. |

## Left out

- Rendering is left out: the JSX, icons, animation, and the progress ring's SVG geometry, which is floating-point presentation.
- React's `useState`/`useMemo` machinery is left out. The state setter is a plain assignment to the roster's field, and the memoised views are functions of the roster.
- The time stamp from the clock is left out. It is a parameter `now` of the toggle, an opaque string.
- The view controller is left out: the screen switch, the selected student and the search-term setters. This is UI state with no logic beyond assignment. The selected-student lookup is the same front search as `IndexOfId`.
- The "Novo Aluno" button is left out: it has no handler.
- Queries.Lower: folds ASCII letters only. Unicode case folding of `toLowerCase` is not modelled.
- Queries.CompletedCount: the ring's percentage (count / 10 * 100) is a floating-point value. Only the integer count and its bound against the catalog's size are modelled.
- Scoring.TotalPoints: JavaScript's double precision is not modelled. The real-valued sum is exact here, which matches doubles as long as the sums stay far below 2^53, as every sum over this catalog does.
- The stored `rank` field is not modelled as behaviour: it is never read or updated. The stored seed `points` and `level` are stale data; see `Catalog.SeedPointsStale`.
- src/types.ts has no behaviour of its own. Its enums and records are the datatypes of `Types`, with status and level as closed variants instead of strings.
