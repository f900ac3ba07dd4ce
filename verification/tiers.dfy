/** The two filtering tiers. Each sorts the shared pool by friend distance,
    walks the leading run of points that are within reach of a friend,
    keeps those its predicate accepts, and falls back to the head of the
    sorted pool when it keeps none. Candidates are positions in the sorted
    pool, since the source's lists hold references to the pool's points. */
module Tiers {
  import opened SpawnTypes
  import opened Sorting

  /** The primary, distance-based tier and the secondary, squad-based one. */
  datatype Tier = DistanceSpawning | SquadSpawning

  /** Not on top of a friend or an enemy, and off cooldown. */
  predicate SquadSuitable(p: SpawnPoint, cfg: Config)
  {
    && AboveReal(p.distanceToClosestFriend, cfg.minMemberDistance)
    && AboveReal(p.distanceToClosestEnemy, cfg.minMemberDistance)
    && p.spawnTimer <= 0.0
  }

  /** Squad-suitable and clear of the enemy safety margin. The source also
      asks whether this point spawned someone within its cooldown, by
      calling the whole selection again and testing the timer of the point
      that call returns; that never terminates, and the question it means
      is the candidate's own cooldown, which the squad-suitability test
      already puts as a timer of at most 0. */
  predicate DistanceSuitable(p: SpawnPoint, cfg: Config)
  {
    && SquadSuitable(p, cfg)
    && AboveReal(p.distanceToClosestEnemy, cfg.minDistanceToClosestEnemy)
  }

  predicate Suitable(tier: Tier, p: SpawnPoint, cfg: Config)
  {
    match tier
    case DistanceSpawning => DistanceSuitable(p, cfg)
    case SquadSpawning => SquadSuitable(p, cfg)
  }

  /** The scan's loop condition: the closest friend is within the maximum. */
  predicate WithinReach(p: SpawnPoint, cfg: Config)
  {
    AtMostReal(p.distanceToClosestFriend, cfg.maxDistanceToClosestFriend)
  }

  /** A scan started at `from` gets as far as `j`: every point from `from`
      up to and including `j` is within reach. */
  predicate Reached(s: seq<SpawnPoint>, cfg: Config, from: nat, j: nat)
    requires j < |s|
  {
    forall k :: from <= k <= j ==> WithinReach(s[k], cfg)
  }

  /** Positions listed in strictly ascending order. */
  predicate Increasing(c: seq<nat>)
  {
    forall a, b :: 0 <= a < b < |c| ==> c[a] < c[b]
  }

  /** Every listed position lies within a pool of `n` points. */
  predicate InPool(c: seq<nat>, n: nat)
  {
    forall k :: 0 <= k < |c| ==> c[k] < n
  }

  /** The scan loop from position `i`: it stops at the first point beyond
      reach, and collects, in order, the suitable points it passed. */
  function Scan(s: seq<SpawnPoint>, cfg: Config, tier: Tier, i: nat): (r: seq<nat>)
    requires i <= |s|
    ensures Increasing(r)
    ensures forall k :: 0 <= k < |r| ==> i <= r[k] < |s|
    decreases |s| - i
  {
    if i == |s| || !WithinReach(s[i], cfg) then []
    else (if Suitable(tier, s[i], cfg) then [i] else []) + Scan(s, cfg, tier, i + 1)
  }

  /** The scan keeps a point exactly when the loop reached it -- every
      point from the start up to it is within reach -- and the tier
      accepts it. */
  lemma {:induction false} ScanKeepsReachedSuitable(s: seq<SpawnPoint>, cfg: Config, tier: Tier, i: nat)
    requires i <= |s|
    ensures forall j :: i <= j < |s| ==>
              (j in Scan(s, cfg, tier, i) <==> Reached(s, cfg, i, j) && Suitable(tier, s[j], cfg))
    decreases |s| - i
  {
    if i < |s| {
      if !WithinReach(s[i], cfg) {
        assert forall j :: i <= j < |s| ==> !Reached(s, cfg, i, j);
      } else {
        ScanKeepsReachedSuitable(s, cfg, tier, i + 1);
        forall j | i < j < |s|
          ensures Reached(s, cfg, i, j) <==> Reached(s, cfg, i + 1, j)
        {
        }
      }
    }
  }

  /** Every point the scan keeps is within reach and accepted by the tier. */
  lemma ScanKeepsOnlySuitable(s: seq<SpawnPoint>, cfg: Config, tier: Tier)
    ensures var r := Scan(s, cfg, tier, 0);
            forall k :: 0 <= k < |r| ==> WithinReach(s[r[k]], cfg) && Suitable(tier, s[r[k]], cfg)
  {
    var r := Scan(s, cfg, tier, 0);
    ScanKeepsReachedSuitable(s, cfg, tier, 0);
    forall k | 0 <= k < |r|
      ensures WithinReach(s[r[k]], cfg) && Suitable(tier, s[r[k]], cfg)
    {
      assert r[k] in r;
      assert Reached(s, cfg, 0, r[k]);
    }
  }

  /** On a sorted pool the early cutoff loses nothing: the scan keeps
      exactly the suitable points within reach, wherever they are. */
  lemma SortedScanIsFilter(s: seq<SpawnPoint>, cfg: Config, tier: Tier)
    requires SortedByFriend(s)
    ensures forall j :: 0 <= j < |s| ==>
              (j in Scan(s, cfg, tier, 0) <==> WithinReach(s[j], cfg) && Suitable(tier, s[j], cfg))
  {
    ScanKeepsReachedSuitable(s, cfg, tier, 0);
    forall j | 0 <= j < |s| && WithinReach(s[j], cfg)
      ensures Reached(s, cfg, 0, j)
    {
      forall k | 0 <= k <= j
        ensures WithinReach(s[k], cfg)
      {
        if k < j {
          assert AtMost(s[k].distanceToClosestFriend, s[j].distanceToClosestFriend);
        }
      }
    }
  }

  /** Some point of `s` is within reach and suitable for `tier`. */
  predicate Found(s: seq<SpawnPoint>, cfg: Config, tier: Tier)
  {
    exists j :: 0 <= j < |s| && WithinReach(s[j], cfg) && Suitable(tier, s[j], cfg)
  }

  /** A tier's outcome: the pool as the tier left it (sorted in place) and
      the candidates, as positions in that pool. */
  datatype TierResult = TierResult(pool: seq<SpawnPoint>, candidates: seq<nat>)

  /** The shape both tiers share: sort the pool, scan it, fall back to the
      head. The candidates are never empty, keep the sorted order, and are
      exactly the suitable points within reach, or else the single point
      closest to a friend. */
  function SpawnPointsForTier(pool: seq<SpawnPoint>, cfg: Config, tier: Tier): (r: TierResult)
    requires |pool| > 0
    ensures SortedByFriend(r.pool) && multiset(r.pool) == multiset(pool) && |r.pool| == |pool|
    ensures |r.candidates| > 0 && Increasing(r.candidates) && InPool(r.candidates, |r.pool|)
    ensures Found(r.pool, cfg, tier) ==>
              forall j :: 0 <= j < |r.pool| ==>
                (j in r.candidates <==> WithinReach(r.pool[j], cfg) && Suitable(tier, r.pool[j], cfg))
    ensures !Found(r.pool, cfg, tier) ==> r.candidates == [0]
  {
    var sorted := SortByFriend(pool);
    var found := Scan(sorted, cfg, tier, 0);
    SortedScanIsFilter(sorted, cfg, tier);
    ScanKeepsOnlySuitable(sorted, cfg, tier);
    assert |found| > 0 ==> Found(sorted, cfg, tier) by {
      if |found| > 0 {
        assert WithinReach(sorted[found[0]], cfg) && Suitable(tier, sorted[found[0]], cfg);
      }
    }
    TierResult(sorted, if |found| == 0 then [0] else found)
  }

  /** The primary tier. Each candidate is within reach of a friend, more
      than the member distance from any friend and enemy, beyond the enemy
      safety margin, and off cooldown -- unless the tier
      found nothing and fell back to the point closest to a friend.
      The source fills a list that is declared nowhere; the model returns
      it as the tier's candidates. */
  function GetSpawnPointsByDistanceSpawning(pool: seq<SpawnPoint>, cfg: Config): (r: TierResult)
    requires |pool| > 0
    ensures SortedByFriend(r.pool) && multiset(r.pool) == multiset(pool) && |r.pool| == |pool|
    ensures |r.candidates| > 0 && Increasing(r.candidates) && InPool(r.candidates, |r.pool|)
    ensures r.candidates == [0] || forall k :: 0 <= k < |r.candidates| ==>
              var p := r.pool[r.candidates[k]];
              && AtMostReal(p.distanceToClosestFriend, cfg.maxDistanceToClosestFriend)
              && AboveReal(p.distanceToClosestFriend, cfg.minMemberDistance)
              && AboveReal(p.distanceToClosestEnemy, cfg.minMemberDistance)
              && AboveReal(p.distanceToClosestEnemy, cfg.minDistanceToClosestEnemy)
              && p.spawnTimer <= 0.0
    ensures Found(r.pool, cfg, DistanceSpawning) ==>
              forall j :: 0 <= j < |r.pool| ==>
                (j in r.candidates <==> WithinReach(r.pool[j], cfg) && DistanceSuitable(r.pool[j], cfg))
    ensures !Found(r.pool, cfg, DistanceSpawning) ==> r.candidates == [0]
  {
    SpawnPointsForTier(pool, cfg, DistanceSpawning)
  }

  /** The secondary tier: as the primary one without the enemy safety
      margin. Each candidate is within reach of a friend, more than the
      member distance from any friend and enemy, and off cooldown -- unless
      the tier found nothing and fell back to the point closest to a friend.
      In the source this method sits after a stray closing brace, outside
      its class, and is declared without a return type; the model treats it
      as the member of the selector it evidently is, filling the caller's
      list. */
  function GetSpawnPointsBySquadSpawning(pool: seq<SpawnPoint>, cfg: Config): (r: TierResult)
    requires |pool| > 0
    ensures SortedByFriend(r.pool) && multiset(r.pool) == multiset(pool) && |r.pool| == |pool|
    ensures |r.candidates| > 0 && Increasing(r.candidates) && InPool(r.candidates, |r.pool|)
    ensures r.candidates == [0] || forall k :: 0 <= k < |r.candidates| ==>
              var p := r.pool[r.candidates[k]];
              && AtMostReal(p.distanceToClosestFriend, cfg.maxDistanceToClosestFriend)
              && AboveReal(p.distanceToClosestFriend, cfg.minMemberDistance)
              && AboveReal(p.distanceToClosestEnemy, cfg.minMemberDistance)
              && p.spawnTimer <= 0.0
    ensures Found(r.pool, cfg, SquadSpawning) ==>
              forall j :: 0 <= j < |r.pool| ==>
                (j in r.candidates <==> WithinReach(r.pool[j], cfg) && SquadSuitable(r.pool[j], cfg))
    ensures !Found(r.pool, cfg, SquadSpawning) ==> r.candidates == [0]
  {
    SpawnPointsForTier(pool, cfg, SquadSpawning)
  }

  /** Both tiers leave the pool in the same order, and whatever the primary
      tier finds on its own the secondary tier finds too: dropping the
      safety margin only relaxes the filter. */
  lemma DistanceCandidatesAreSquadCandidates(pool: seq<SpawnPoint>, cfg: Config)
    requires |pool| > 0
    ensures var d := GetSpawnPointsByDistanceSpawning(pool, cfg);
            var q := GetSpawnPointsBySquadSpawning(d.pool, cfg);
            && q.pool == d.pool
            && (Found(d.pool, cfg, DistanceSpawning) ==>
                  forall j :: j in d.candidates ==> j in q.candidates)
  {
    var d := GetSpawnPointsByDistanceSpawning(pool, cfg);
    var q := GetSpawnPointsBySquadSpawning(d.pool, cfg);
    SortSortedIsIdentity(d.pool);
    assert q.pool == SortByFriend(d.pool);
    if Found(d.pool, cfg, DistanceSpawning) {
      var j :| 0 <= j < |d.pool| && WithinReach(d.pool[j], cfg) && DistanceSuitable(d.pool[j], cfg);
      assert Found(q.pool, cfg, SquadSpawning);
      forall i | i in d.candidates
        ensures i in q.candidates
      {
        var k :| 0 <= k < |d.candidates| && d.candidates[k] == i;
        assert WithinReach(q.pool[i], cfg) && SquadSuitable(q.pool[i], cfg);
      }
    }
  }
}
