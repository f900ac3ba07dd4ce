/** Two places where the selector's source does something other than what
    it evidently means, each modelled as written next to a counterexample;
    the rest of the model uses the corrected behaviour. */
module Findings {
  import opened SpawnTypes
  import opened Distances
  import opened Sorting
  import opened Tiers
  import opened Selection

  /** The closest-member query as written: the running minimum is a field
      (`carried`) that is neither reset before the scan nor between queries,
      so the result can never exceed what an earlier query left behind. */
  function ClosestMemberAsWritten(carried: real, position: Vec3, team: PlayerTeam, players: seq<Player>,
                                  dist: (Vec3, Vec3) -> real): (r: real)
    ensures r <= carried
    ensures r == carried || exists j :: 0 <= j < |players| && Counts(players[j], team)
                                        && r == dist(position, players[j].position)
    decreases |players|
  {
    if |players| == 0 then carried
    else
      var closest := ClosestMemberAsWritten(carried, position, team, players[..|players| - 1], dist);
      var last := players[|players| - 1];
      if Counts(last, team) && dist(position, last.position) < closest
      then dist(position, last.position)
      else closest
  }

  /** The refresh as written: both queries for every point share the one
      field, threaded from query to query; the field's final value comes
      back with the pool. */
  function CalculateDistancesAsWritten(carried: real, pool: seq<SpawnPoint>, team: PlayerTeam, players: seq<Player>,
                                       dist: (Vec3, Vec3) -> real): (r: (seq<SpawnPoint>, real))
    ensures |r.0| == |pool|
    ensures r.1 <= carried
    decreases |pool|
  {
    if |pool| == 0 then ([], carried)
    else
      var p := pool[0];
      var friend := ClosestMemberAsWritten(carried, p.position, team, players, dist);
      var enemy := ClosestMemberAsWritten(friend, p.position, EnemyTeam(team), players, dist);
      var rest := CalculateDistancesAsWritten(enemy, pool[1..], team, players, dist);
      ([p.(distanceToClosestFriend := Finite(friend), distanceToClosestEnemy := Finite(enemy))] + rest.0, rest.1)
  }

  /** With non-negative distances the field never drops below zero. */
  lemma AsWrittenStaysNonNegative(carried: real, position: Vec3, team: PlayerTeam, players: seq<Player>,
                                  dist: (Vec3, Vec3) -> real)
    requires carried >= 0.0
    requires forall a, b :: dist(a, b) >= 0.0
    ensures ClosestMemberAsWritten(carried, position, team, players, dist) >= 0.0
  {
  }

  /** The field starts at the language default 0 and distances are never
      negative, so as written every metric of every point is 0, and -- with
      a non-negative member distance such as the default 2 -- no point ever
      passes either tier: every selection falls back to the head of the pool. */
  lemma {:induction false} AsWrittenMetricsAreZero(pool: seq<SpawnPoint>, team: PlayerTeam, players: seq<Player>,
                                                   dist: (Vec3, Vec3) -> real, cfg: Config)
    requires forall a, b :: dist(a, b) >= 0.0
    requires cfg.minMemberDistance >= 0.0
    ensures var r := CalculateDistancesAsWritten(0.0, pool, team, players, dist);
            && r.1 == 0.0
            && forall i :: 0 <= i < |r.0| ==>
                 && r.0[i].distanceToClosestFriend == Finite(0.0)
                 && r.0[i].distanceToClosestEnemy == Finite(0.0)
                 && !SquadSuitable(r.0[i], cfg) && !DistanceSuitable(r.0[i], cfg)
    decreases |pool|
  {
    if |pool| > 0 {
      var p := pool[0];
      var friend := ClosestMemberAsWritten(0.0, p.position, team, players, dist);
      AsWrittenStaysNonNegative(0.0, p.position, team, players, dist);
      var enemy := ClosestMemberAsWritten(friend, p.position, EnemyTeam(team), players, dist);
      AsWrittenStaysNonNegative(friend, p.position, EnemyTeam(team), players, dist);
      AsWrittenMetricsAreZero(pool[1..], team, players, dist, cfg);
    }
  }

  /** One Blue player 5 units from every point: as written a Blue request
      reads a friend at distance 0, while the corrected query reads 5. */
  lemma StaleMinimumCounterexample(position: Vec3, blue: Player)
    requires blue.team == BlueTeam && !blue.disabled && !blue.dead
    ensures ClosestMemberAsWritten(0.0, position, BlueTeam, [blue], (a: Vec3, b: Vec3) => 5.0) == 0.0
    ensures ClosestMember(position, BlueTeam, [blue], (a: Vec3, b: Vec3) => 5.0) == Finite(5.0)
  {
    var dist := (a: Vec3, b: Vec3) => 5.0;
    assert [blue][..0] == [];
    assert ClosestMember(position, BlueTeam, [blue][..0], dist) == Infinity;
  }

  /** Lines 41-47 as written: the primary tier fills a list the caller
      never sees, so the caller's list is still empty and the secondary
      tier always decides. */
  function CandidatesAsWritten(pool: seq<SpawnPoint>, cfg: Config): (r: TierResult)
    requires |pool| > 0
    ensures |r.candidates| > 0 && InPool(r.candidates, |r.pool|)
    ensures r == GetSpawnPointsBySquadSpawning(GetSpawnPointsByDistanceSpawning(pool, cfg).pool, cfg)
  {
    var primary := GetSpawnPointsByDistanceSpawning(pool, cfg);
    SelectCandidates(TierResult(primary.pool, []), cfg)
  }

  const Origin := Vec3(0.0, 0.0, 0.0)

  /** Off cooldown, but a friend stands 1 unit away, inside the member
      distance, and an enemy 5 units away. */
  const CrowdedPoint := SpawnPoint(Origin, Finite(1.0), Finite(5.0), 0.0)

  /** Off cooldown and clear of friends and enemies, but only 5 units from an
      enemy, inside the safety margin. */
  const ExposedPoint := SpawnPoint(Origin, Finite(3.0), Finite(5.0), 0.0)

  /** The two-point pool [crowded, exposed] is already sorted. */
  lemma PairIsSorted()
    ensures SortByFriend([CrowdedPoint, ExposedPoint]) == [CrowdedPoint, ExposedPoint]
  {
    assert SortedByFriend([CrowdedPoint, ExposedPoint]);
    SortSortedIsIdentity([CrowdedPoint, ExposedPoint]);
  }

  /** Strictly ascending positions in a pool of `n` points number at most `n`. */
  lemma {:induction false} IncreasingPositionsAreFew(c: seq<nat>, n: nat)
    requires Increasing(c) && InPool(c, n)
    ensures |c| <= n
    decreases n
  {
    if |c| > 0 {
      var front := c[..|c| - 1];
      assert InPool(front, c[|c| - 1]);
      IncreasingPositionsAreFew(front, c[|c| - 1]);
    }
  }

  /** An ascending list of positions in a two-point pool is determined by
      which of the two positions it holds. */
  lemma PositionsInPair(c: seq<nat>)
    requires Increasing(c) && InPool(c, 2)
    ensures c == (if 0 in c then [0] else []) + (if 1 in c then [1] else [])
  {
    IncreasingPositionsAreFew(c, 2);
    if |c| == 2 {
      assert c[0] < c[1];
      assert c == [0, 1];
    } else if |c| == 1 {
      if c[0] == 0 {
        assert c == [0] && 1 !in c;
      } else {
        assert c == [1] && 0 !in c;
      }
    }
  }

  /** With the default thresholds no point of [crowded, exposed] clears the
      primary tier, so the corrected list is the fallback [head]. */
  lemma CorrectedPairCandidates()
    ensures var c := SelectCandidates(GetSpawnPointsByDistanceSpawning([CrowdedPoint, ExposedPoint], DefaultConfig), DefaultConfig);
            c.pool == [CrowdedPoint, ExposedPoint] && c.candidates == [0]
  {
    var pool := [CrowdedPoint, ExposedPoint];
    PairIsSorted();
    var d := GetSpawnPointsByDistanceSpawning(pool, DefaultConfig);
    assert d.pool == pool;
    assert !DistanceSuitable(pool[0], DefaultConfig) && !DistanceSuitable(pool[1], DefaultConfig);
    assert !Found(pool, DefaultConfig, DistanceSpawning);
  }

  /** With the default thresholds the list as written for [crowded, exposed]
      is the secondary tier's, which holds only the exposed point. */
  lemma AsWrittenPairCandidates()
    ensures var w := CandidatesAsWritten([CrowdedPoint, ExposedPoint], DefaultConfig);
            w.pool == [CrowdedPoint, ExposedPoint] && w.candidates == [1]
  {
    var pool := [CrowdedPoint, ExposedPoint];
    PairIsSorted();
    SortSortedIsIdentity(pool);
    var w := CandidatesAsWritten(pool, DefaultConfig);
    assert w.pool == pool;
    assert !SquadSuitable(pool[0], DefaultConfig);
    assert WithinReach(pool[1], DefaultConfig) && SquadSuitable(pool[1], DefaultConfig);
    assert Found(pool, DefaultConfig, SquadSpawning);
    PositionsInPair(w.candidates);
  }

  /** With the default thresholds and the pool [crowded, exposed], the two
      defects can be told apart: neither point is beyond the enemy safety
      margin, so the primary tier never reaches its recursive self-call and
      only the stale minimum has to be corrected for these metrics to arise.
      The primary tier then falls back to the crowded head, which the
      evidently intended selection picks; as written its list is discarded
      and every draw picks the exposed point from the secondary tier. */
  lemma DiscardedPrimaryCounterexample(roll: nat)
    ensures forall j :: 0 <= j < 2 ==>
              !AboveReal([CrowdedPoint, ExposedPoint][j].distanceToClosestEnemy, DefaultConfig.minDistanceToClosestEnemy)
    ensures var w := CandidatesAsWritten([CrowdedPoint, ExposedPoint], DefaultConfig);
            w.pool[w.candidates[PickIndex(|w.candidates|, roll)]] == ExposedPoint
    ensures var c := SelectCandidates(GetSpawnPointsByDistanceSpawning([CrowdedPoint, ExposedPoint], DefaultConfig), DefaultConfig);
            c.pool[c.candidates[PickIndex(|c.candidates|, roll)]] == CrowdedPoint
  {
    var pool := [CrowdedPoint, ExposedPoint];
    AsWrittenPairCandidates();
    var w := CandidatesAsWritten(pool, DefaultConfig);
    assert PickIndex(|w.candidates|, roll) == 0;
    CorrectedPairCandidates();
    var c := SelectCandidates(GetSpawnPointsByDistanceSpawning(pool, DefaultConfig), DefaultConfig);
    assert PickIndex(|c.candidates|, roll) == 0;
  }
}
