# Spawn-point selection, modelled in Dafny

This project models the spawn algorithm of `SpawnManager` in a team-based
multiplayer demo. The request comes from a player of some `PlayerTeam`. The
selector then works in four steps:

1. It refreshes two metrics on every shared spawn point: the distance to the
   closest friendly player and the distance to the closest enemy player.
   Only players who are enabled, alive and on a real team count.
2. It sorts the pool ascending by friend distance.
3. The primary, distance-based tier walks the leading run of points that are
   within `maxDistanceToClosestFriend` of a friend. It keeps the points that
   are clear of friends and enemies, beyond the enemy safety margin, and off
   cooldown. If it keeps none, it falls back to the head of the sorted pool.
   The secondary, squad-based tier drops the safety margin and would run only
   if the primary list were empty.
4. It picks a random candidate from the closer half of the list and arms that
   point's cooldown timer.

Modules, leaves first:

- `SpawnTypes` (`types.dfy`) holds the teams and the enemy-team mapping.
  It also holds players, spawn points, the thresholds (defaults 30 / 10 / 2),
  and `Dist`, a distance extended with +infinity.
- `Distances` (`distances.dfy`) holds the closest-member query, as a pure
  function and as the source's loop, plus the per-point refresh.
- `Sorting` (`sorting.dfy`) sorts the pool ascending by friend distance.
- `Tiers` (`tiers.dfy`) holds the prefix scan, the two tiers' predicates and
  the head-of-pool fallback.
- `Selection` (`selection.dfy`) holds the choice between tiers, the
  closer-half pick, cooldown arming and the whole selection. An empty pool
  returns `Failure(NoSpawnPointsAvailable)`.
- `Findings` (`findings.dfy`) models two defects as written, with
  counterexamples.

Modelling choices:

- Player positions and point positions are opaque `Vec3` values. The
  distance between two of them comes from a caller-supplied function
  `dist`, which stands in for `Vector3.Distance`.
- A query that finds no player yields `Infinity`. This is the model's fresh
  sentinel for the running minimum. Against a finite threshold, `Infinity`
  is never "at most" and always "above".
- The source's lists hold references to the shared points. So a candidate is
  modelled as its position in the sorted pool, and arming a timer updates
  that position.
- `System.Random.Next(0, n)` is modelled as `roll % n`. The raw draw `roll`
  comes from the caller, and every value in `[0, n)` is reachable.
- `(int)((float)count * .5f)` is modelled as `count / 2`.
- The cooldown armed by `SpawnPoint.StartTimer` is a parameter, `cooldown`.
  `SpawnPoint` is not part of this model, so its duration is unknown.

Departures from the source. The source does not compile as written; each
point below is also noted in a comment at the member concerned.

- A stray `}` at `Assets/Scripts/SpawnManager.cs:94` closes the class early.
  The squad tier is then declared `private partial` with no return type, at
  line 96. The model treats the squad tier as the selector member it
  evidently is. It fills the caller's list.
- The primary tier fills `suitableSpawnPoints`, which is declared nowhere
  (line 55). The model returns that list as the tier's candidates.
- The primary tier asks whether a point spawned someone within its
  cooldown by calling the whole selection again (line 81), which never
  terminates. It then tests the timer of the point that call returns, a point
  line 49 has just armed (line 82). The question meant is the candidate's own
  cooldown. Line 75 already tests that as `SpawnTimer <= 0`, the same test
  the squad tier makes at line 117. So the model drops the recursive check,
  and both tiers require a timer of at most 0.
- The running minimum `_closestDistance` is a field. It starts at 0 and is
  never reset (lines 19 and 145). The model starts every query at +infinity.
  See Findings.
- The primary tier's list is never copied into the list the pick draws from
  (lines 41-44). The model passes the primary list on. See Findings.

## Model

| member | source | states |
|---|---|---|
| SpawnTypes.EnemyTeam | Assets/Scripts/SpawnManager.cs:134 | Blue gives Red, Red gives Blue, None gives None, each as an if-and-only-if |
| SpawnTypes.EnemyTeamIsInvolution | Assets/Scripts/SpawnManager.cs:134 | opposition is symmetric (the enemy of the enemy is the team itself), and a real team never opposes itself |
| Distances.ClosestMember | Assets/Scripts/SpawnManager.cs:138-152 | the result is at most the distance to every player who counts (enabled, on a real team, on the requested team, alive) and equals one such distance; it is +infinity exactly when no player counts |
| Distances.GetDistanceToClosestMember | Assets/Scripts/SpawnManager.cs:138-152 | the loop with a running minimum, started at +infinity, returns the same distance as the reference minimum |
| Distances.NoTeamHasNoClosestMember | Assets/Scripts/SpawnManager.cs:142 | a query for team None always yields +infinity, because None never matches a player |
| Distances.CalculateDistancesForSpawnPoints | Assets/Scripts/SpawnManager.cs:129-136 | every point, in place, gets its friend distance from the requesting team and its enemy distance from the opposing team; positions and timers are unchanged |
| Distances.RefreshIsIdempotent | Assets/Scripts/SpawnManager.cs:129-136 | refreshing twice with the same roster yields the same pool as refreshing once |
| Distances.NoTeamRefreshIsUnbounded | Assets/Scripts/SpawnManager.cs:134 | for a team-less request, every point's friend distance and enemy distance is +infinity |
| Sorting.SortByFriend | Assets/Scripts/SpawnManager.cs:60-71 | the result is ascending by friend distance and is a permutation (same multiset) of the pool |
| Sorting.SortSortedIsIdentity | Assets/Scripts/SpawnManager.cs:103-114 | sorting a pool that is already sorted leaves it unchanged, so the second tier's sort keeps the first tier's order |
| Tiers.Scan | Assets/Scripts/SpawnManager.cs:72-88 | the kept positions are strictly ascending (candidates keep the sorted order) and lie between the starting position and the end of the pool |
| Tiers.ScanKeepsReachedSuitable | Assets/Scripts/SpawnManager.cs:72-88 | the loop keeps a point exactly when every point from the start up to it is within the friend maximum and the tier accepts it |
| Tiers.ScanKeepsOnlySuitable | Assets/Scripts/SpawnManager.cs:72-78 | every point the scan keeps is within the friend maximum and passes the tier's predicate |
| Tiers.SortedScanIsFilter | Assets/Scripts/SpawnManager.cs:72 | on a sorted pool, stopping at the first point beyond the maximum loses nothing: a point is kept if and only if it is within the maximum and the tier accepts it |
| Tiers.SpawnPointsForTier | Assets/Scripts/SpawnManager.cs:59-92 | the pool comes back sorted and permuted; the candidates are never empty and keep the sorted order; they are exactly the accepted points within reach, or exactly [head] when there are none |
| Tiers.GetSpawnPointsByDistanceSpawning | Assets/Scripts/SpawnManager.cs:53-93 | unless the list is the fallback [head], each candidate is within the friend maximum, above the member distance from friend and enemy, above the enemy safety margin, and has a timer of at most 0; with no such point the list is [head] |
| Tiers.GetSpawnPointsBySquadSpawning | Assets/Scripts/SpawnManager.cs:96-127 | unless the list is the fallback [head], each candidate is within the friend maximum, above the member distance from friend and enemy, and has a timer of at most 0; with no such point the list is [head] |
| Tiers.DistanceCandidatesAreSquadCandidates | Assets/Scripts/SpawnManager.cs:115-119 | both tiers leave the pool in the same order; when the primary tier finds points itself, each of them is also a secondary-tier candidate |
| Selection.SelectCandidates | Assets/Scripts/SpawnManager.cs:44-47 | the list the pick draws from is never empty and lies within the pool; a non-empty primary list is used unchanged |
| Selection.SquadTierNeverReached | Assets/Scripts/SpawnManager.cs:43-47 | because the primary tier's fallback makes its list non-empty, the secondary tier never runs |
| Selection.HalfCount | Assets/Scripts/SpawnManager.cs:48 | half the count, truncated: twice the result is at most the count and the count is less than twice the result plus 2 |
| Selection.RandomNext | Assets/Scripts/SpawnManager.cs:48 | the draw lies in [0, bound), and every value of that range is the draw for some roll |
| Selection.PickIndex | Assets/Scripts/SpawnManager.cs:48 | the index is 0 for a single candidate; otherwise it lies in the closer half, [0, floor(count/2)), which lies within the list |
| Selection.PickCoversCloserHalf | Assets/Scripts/SpawnManager.cs:48 | for two or more candidates the closer half is non-empty and shorter than the list, and every index in it is picked by some roll |
| Selection.PickSpawnPoint | Assets/Scripts/SpawnManager.cs:48-49 | the chosen point is a candidate: the only one, or one from the closer half of the list; its timer becomes the cooldown and no other point changes |
| Selection.GetSharedSpawnPoint | Assets/Scripts/SpawnManager.cs:39-51 | fails with NoSpawnPointsAvailable exactly when the pool is empty; otherwise returns the refreshed, sorted pool with only the chosen point's timer armed; the chosen point passes every primary-tier test, or it is the head and no point passes; it is the only primary candidate or one from the closer half of the primary list |
| Selection.ArmedPointOnlyAsFallback | Assets/Scripts/SpawnManager.cs:75 | a point whose timer is positive is a primary-tier candidate only as the sole fallback, when no point qualifies |
| Selection.NoTeamAlwaysFallsBack | Assets/Scripts/SpawnManager.cs:134 | for a team-less request the primary tier always returns [head]: no point is within reach of a friend |
| Findings.ClosestMemberAsWritten | Assets/Scripts/SpawnManager.cs:138-152 | as written, the result never exceeds the value the field carried in, and is either that value or the distance to a player who counts |
| Findings.CalculateDistancesAsWritten | Assets/Scripts/SpawnManager.cs:129-136 | as written, one field is threaded through both queries of every point, and it only ever decreases |
| Findings.AsWrittenMetricsAreZero | Assets/Scripts/SpawnManager.cs:19 | as written, with the field starting at 0 and distances never negative, every metric is 0; with a member distance of at least 0, no point passes either tier |
| Findings.StaleMinimumCounterexample | Assets/Scripts/SpawnManager.cs:145-147 | one Blue player 5 units away: as written the query reads 0, while the corrected query reads 5 |
| Findings.CandidatesAsWritten | Assets/Scripts/SpawnManager.cs:41-47 | as written, the list the pick draws from is always the secondary tier's |
| Findings.DiscardedPrimaryCounterexample | Assets/Scripts/SpawnManager.cs:41-48 | with the default thresholds and the pool [crowded, exposed], neither point is beyond the enemy safety margin, so the recursive self-call of line 81 is never reached; the primary list is the fallback [crowded head], which the corrected selection picks, while every roll as written picks the exposed point from the secondary tier's list |

## Left out

- Point discovery in `Awake` (`Assets/Scripts/SpawnManager.cs:31-36`) is engine I/O. The pool and the roster are parameters instead.
- `TestGetSpawnPoint` (lines 159-163) moves the test player to the chosen point. This is engine I/O, not selection logic.
- `Vector3.Distance` and float arithmetic are left out. Distances are exact `real`s from the caller's `dist`. NaN and rounding are not modelled, and `count * 0.5f` is exact only below 2^24 candidates.
- `System.Random` is left out. The draw is a caller-supplied `roll`.
- The `SpawnPoint` and `DummyPlayer` classes are not part of this model. `StartTimer`, `IsDead` and `Disabled` appear only as record fields and a `cooldown` parameter. The timer's countdown happens outside this file and is not modelled.
- The recursive self-call at lines 81-85 does not terminate. It is left out. The candidate's own timer test at line 75 stands for it, as described above.
- Sorting.SortByFriend picks one order among points with equal friend distance: a stable insertion sort that keeps tied points in input order. `List.Sort` is unstable and may order ties differently. Ties are common: every point is +infinity for a team-less request, or when no friend is alive.
- Selection.GetSharedSpawnPoint, Tiers.DistanceCandidatesAreSquadCandidates, Sorting.SortSortedIsIdentity and Findings.CandidatesAsWritten depend on that fixed order. The model's pool order, its candidate positions and its fallback head match the source only up to reordering of points with equal friend distance. The fallback head is, in either order, a point of least friend distance, so the sorted order alone guarantees that much.
- Selection.PickSpawnPoint and Selection.GetSharedSpawnPoint assume each `SpawnPoint` object appears in the pool once. The source's pool is an editor-filled list to which `Awake` appends every `SpawnPoint` in the scene (lines 17 and 33), so one object can appear twice. The list holds references, so `StartTimer` at line 49 arms every entry of the chosen object, and both metrics are shared too. The model treats entries as independent values and arms one entry only. With a duplicated point, "no other point changes" is therefore not what the source does: the unarmed copy stays a candidate for the next selection, where the source would see it on cooldown.
- The tier functions require a non-empty pool, because the source indexes the head without a check (lines 91 and 124). The whole selection returns `Failure(NoSpawnPointsAvailable)` for an empty pool instead.
- Validation of the configuration (rejecting negative thresholds) is not in the source, so it is not modelled.

## Findings

| source | as written | input that shows it | evidently intended | confidence | as-written member | corrected member |
|---|---|---|---|---|---|---|
| Assets/Scripts/SpawnManager.cs:19 | The running minimum is a float field that starts at 0. It is lowered only when a player is closer, and it is never reset between queries. | Any roster with non-negative distances, for example one Blue player 5 units away, and a member distance of at least 0, such as the default 2. Every metric reads 0, so no point ever passes a tier. | Each query starts from "no player" (+infinity) and returns the true minimum. | high (not executed) | Findings.AsWrittenMetricsAreZero | Distances.ClosestMember |
| Assets/Scripts/SpawnManager.cs:43-44 | The primary tier fills its own list. The caller's `spawnPoints` stays empty, so the squad tier always decides. | Default thresholds, with points (friend 1, enemy 5) and (friend 3, enemy 5), both off cooldown. These metrics arise only once line 19 is corrected; as written every metric is 0 and both tiers fall back to the head, which hides this defect. No point is beyond the enemy margin, so line 81 is never reached. The primary tier falls back to the first point, but as written the squad tier's list [second point] decides and the second point is always picked. | The pick draws from the primary tier's list. The squad tier runs only when that list is empty. | high (not executed) | Findings.DiscardedPrimaryCounterexample | Selection.GetSharedSpawnPoint |
