/** The selector's public operation: refresh the metrics for the requesting
    team, take the primary tier's candidates (the secondary tier only if
    those are empty), pick one at random from the closer half, and arm its
    cooldown. */
module Selection {
  import opened SpawnTypes
  import opened Distances
  import opened Sorting
  import opened Tiers

  /** The one way a selection fails: the shared pool is empty. */
  datatype SpawnError = NoSpawnPointsAvailable

  datatype Result<T> = Success(value: T) | Failure(error: SpawnError)

  /** The pool as the selection leaves it (sorted, with the chosen point's
      timer armed) and the position of the chosen point in it. */
  datatype Spawned = Spawned(pool: seq<SpawnPoint>, chosen: nat)

  /** The list the final pick draws from: the primary tier's candidates,
      or, when that list is empty, the secondary tier's, computed on the
      pool as the primary tier left it. Never empty, and within the pool. */
  function SelectCandidates(primary: TierResult, cfg: Config): (r: TierResult)
    requires |primary.pool| > 0
    requires InPool(primary.candidates, |primary.pool|)
    ensures |r.candidates| > 0 && InPool(r.candidates, |r.pool|)
    ensures multiset(r.pool) == multiset(primary.pool) && |r.pool| == |primary.pool|
    ensures |primary.candidates| > 0 ==> r == primary
  {
    if |primary.candidates| == 0 then GetSpawnPointsBySquadSpawning(primary.pool, cfg) else primary
  }

  /** The primary tier's fallback means its list is never empty, so the
      secondary tier never runs: the pick draws from the primary list. */
  lemma SquadTierNeverReached(pool: seq<SpawnPoint>, cfg: Config)
    requires |pool| > 0
    ensures var primary := GetSpawnPointsByDistanceSpawning(pool, cfg);
            SelectCandidates(primary, cfg) == primary
  {
  }

  /** The number of closer-half positions a list of `count` candidates
      offers: `count * 0.5` truncated towards zero. */
  function HalfCount(count: nat): (h: nat)
    ensures 2 * h <= count < 2 * h + 2
  {
    count / 2
  }

  /** A uniform draw from `[0, bound)`, given the generator's raw draw
      `roll`. */
  function RandomNext(roll: nat, bound: nat): (r: nat)
    requires bound > 0
    ensures r < bound
    ensures roll < bound ==> r == roll
  {
    roll % bound
  }

  /** The position in the candidate list the pick takes: the only one when
      there is one, otherwise a random one from the closer half. */
  function PickIndex(count: nat, roll: nat): (k: nat)
    requires count > 0
    ensures k < count
    ensures count == 1 ==> k == 0
    ensures count >= 2 ==> 2 * (k + 1) <= count
  {
    if count <= 1 then 0 else RandomNext(roll, HalfCount(count))
  }

  /** For two or more candidates the closer half is not empty, and every
      position in it is picked by some draw, so no closer-half candidate is
      shut out. */
  lemma PickCoversCloserHalf(count: nat, k: nat)
    requires count >= 2
    requires 2 * (k + 1) <= count
    ensures 1 <= HalfCount(count) < count
    ensures PickIndex(count, k) == k
  {
  }

  /** The final pick: the candidate at `PickIndex`, with that point's timer
      set to `cooldown` and every other point of the pool left alone. */
  method PickSpawnPoint(pool: seq<SpawnPoint>, candidates: seq<nat>, roll: nat, cooldown: real)
    returns (chosen: nat, armed: seq<SpawnPoint>)
    requires |candidates| > 0
    requires InPool(candidates, |pool|)
    ensures chosen < |pool| && chosen in candidates
    ensures |candidates| == 1 ==> chosen == candidates[0]
    ensures |candidates| >= 2 ==> exists k :: 0 <= k && 2 * (k + 1) <= |candidates| && candidates[k] == chosen
    ensures |armed| == |pool|
    ensures armed[chosen] == pool[chosen].(spawnTimer := cooldown)
    ensures forall j :: 0 <= j < |pool| && j != chosen ==> armed[j] == pool[j]
  {
    var k := PickIndex(|candidates|, roll);
    chosen := candidates[k];
    armed := pool[chosen := pool[chosen].(spawnTimer := cooldown)];
  }

  /** A whole selection for `team`. It fails exactly when the pool is empty.
      Otherwise the pool comes back refreshed and sorted with only the
      chosen point changed, its timer now `cooldown`; and the chosen point
      is a primary-tier point (within reach of a friend, clear of friends,
      enemies and the safety margin, off cooldown), or, when no point is,
      the one closest to a friend; and it comes from the closer half of the
      primary tier's candidate list. The source never copies the primary
      tier's list into the list it picks from, so as written the secondary
      tier always decides (see the Findings module); the model passes the
      primary list on, as evidently intended. */
  method GetSharedSpawnPoint(pool: seq<SpawnPoint>, players: seq<Player>, team: PlayerTeam, cfg: Config,
                             dist: (Vec3, Vec3) -> real, roll: nat, cooldown: real)
    returns (r: Result<Spawned>)
    ensures |pool| == 0 <==> r == Failure(NoSpawnPointsAvailable)
    ensures r.Success? ==>
              var s := SortByFriend(CalculateDistancesForSpawnPoints(pool, team, players, dist));
              && r.value.chosen < |s|
              && r.value.pool == s[r.value.chosen := s[r.value.chosen].(spawnTimer := cooldown)]
              && ((WithinReach(s[r.value.chosen], cfg) && DistanceSuitable(s[r.value.chosen], cfg))
                  || (r.value.chosen == 0 && !Found(s, cfg, DistanceSpawning)))
    ensures r.Success? ==>
              var d := GetSpawnPointsByDistanceSpawning(CalculateDistancesForSpawnPoints(pool, team, players, dist), cfg);
              && (|d.candidates| == 1 ==> r.value.chosen == d.candidates[0])
              && (|d.candidates| >= 2 ==>
                    exists k :: 0 <= k && 2 * (k + 1) <= |d.candidates| && d.candidates[k] == r.value.chosen)
  {
    if |pool| == 0 {
      return Failure(NoSpawnPointsAvailable);
    }
    var refreshed := CalculateDistancesForSpawnPoints(pool, team, players, dist);
    var primary := GetSpawnPointsByDistanceSpawning(refreshed, cfg);
    SquadTierNeverReached(refreshed, cfg);
    var spawnPoints := SelectCandidates(primary, cfg);
    var chosen, armed := PickSpawnPoint(spawnPoints.pool, spawnPoints.candidates, roll, cooldown);
    r := Success(Spawned(armed, chosen));
  }

  /** A point whose cooldown is running is never a primary-tier candidate
      on its own merits: right after a selection armed it with a positive
      cooldown, the next selection takes it only as the sole fallback, when
      no point qualifies. */
  lemma ArmedPointOnlyAsFallback(pool: seq<SpawnPoint>, cfg: Config)
    requires |pool| > 0
    ensures var d := GetSpawnPointsByDistanceSpawning(pool, cfg);
            forall k :: 0 <= k < |d.candidates| && d.pool[d.candidates[k]].spawnTimer > 0.0 ==>
              d.candidates == [0] && !Found(d.pool, cfg, DistanceSpawning)
  {
  }

  /** A team-less request finds no friend within reach of any point, so
      the primary tier always falls back to the head of the pool. */
  lemma NoTeamAlwaysFallsBack(pool: seq<SpawnPoint>, players: seq<Player>, cfg: Config, dist: (Vec3, Vec3) -> real)
    requires |pool| > 0
    ensures GetSpawnPointsByDistanceSpawning(CalculateDistancesForSpawnPoints(pool, None, players, dist), cfg).candidates == [0]
  {
    var refreshed := CalculateDistancesForSpawnPoints(pool, None, players, dist);
    NoTeamRefreshIsUnbounded(pool, players, dist);
    var d := GetSpawnPointsByDistanceSpawning(refreshed, cfg);
    assert forall x :: x in multiset(d.pool) ==> x.distanceToClosestFriend == Infinity by {
      forall x | x in multiset(d.pool)
        ensures x.distanceToClosestFriend == Infinity
      {
        assert x in multiset(refreshed);
        var i :| 0 <= i < |refreshed| && refreshed[i] == x;
      }
    }
    assert !Found(d.pool, cfg, DistanceSpawning) by {
      forall j | 0 <= j < |d.pool|
        ensures !WithinReach(d.pool[j], cfg)
      {
        assert d.pool[j] in multiset(d.pool);
      }
    }
  }
}
