/** The distance evaluator: for a position and a team, the distance to the
    closest player of that team who is enabled and alive, and the refresh
    that stores the friend and enemy distances on every spawn point. */
module Distances {
  import opened SpawnTypes

  /** Whether `p` is a member of `team` that a distance query takes into
      account: enabled, on a real team, on the requested team, and alive. */
  predicate Counts(p: Player, team: PlayerTeam)
  {
    !p.disabled && p.team != None && p.team == team && !p.dead
  }

  /** The running minimum over `players`, visited in order, started from
      +infinity afresh on every query. It is the least distance to a player
      who counts, and +infinity exactly when nobody counts. (The source
      keeps the minimum in a field that starts at 0 and is never reset; see
      the Findings module.) */
  function ClosestMember(position: Vec3, team: PlayerTeam, players: seq<Player>, dist: (Vec3, Vec3) -> real): (r: Dist)
    ensures r.Infinity? <==> forall j :: 0 <= j < |players| ==> !Counts(players[j], team)
    ensures forall j :: 0 <= j < |players| && Counts(players[j], team) ==>
              AtMost(r, Finite(dist(position, players[j].position)))
    ensures r.Finite? ==> exists j :: 0 <= j < |players| && Counts(players[j], team)
                                      && r.value == dist(position, players[j].position)
    decreases |players|
  {
    if |players| == 0 then Infinity
    else
      var closest := ClosestMember(position, team, players[..|players| - 1], dist);
      var last := players[|players| - 1];
      if Counts(last, team) && Below(Finite(dist(position, last.position)), closest)
      then Finite(dist(position, last.position))
      else closest
  }

  /** A team-less query finds nobody: `None` never matches a player. */
  lemma NoTeamHasNoClosestMember(position: Vec3, players: seq<Player>, dist: (Vec3, Vec3) -> real)
    ensures ClosestMember(position, None, players, dist) == Infinity
  {
  }

  /** The query as a loop over the roster with a running minimum that starts
      at +infinity. */
  method GetDistanceToClosestMember(position: Vec3, team: PlayerTeam, players: seq<Player>, dist: (Vec3, Vec3) -> real)
    returns (closest: Dist)
    ensures closest == ClosestMember(position, team, players, dist)
  {
    closest := Infinity;
    var i := 0;
    while i < |players|
      invariant 0 <= i <= |players|
      invariant closest == ClosestMember(position, team, players[..i], dist)
    {
      var player := players[i];
      if Counts(player, team) {
        var d := dist(position, player.position);
        if Below(Finite(d), closest) {
          closest := Finite(d);
        }
      }
      assert players[..i + 1][..i] == players[..i];
      i := i + 1;
    }
    assert players[..i] == players;
  }

  /** One spawn point with both metrics recomputed for `team`: the friend
      distance from `team`'s players, the enemy distance from the opposing
      team's players. */
  function RefreshPoint(p: SpawnPoint, team: PlayerTeam, players: seq<Player>, dist: (Vec3, Vec3) -> real): SpawnPoint
  {
    p.(distanceToClosestFriend := ClosestMember(p.position, team, players, dist),
       distanceToClosestEnemy := ClosestMember(p.position, EnemyTeam(team), players, dist))
  }

  /** Every spawn point of the pool, in place, with its metrics refreshed
      for `team`; positions and timers are untouched. */
  function CalculateDistancesForSpawnPoints(pool: seq<SpawnPoint>, team: PlayerTeam, players: seq<Player>, dist: (Vec3, Vec3) -> real)
    : (r: seq<SpawnPoint>)
    ensures |r| == |pool|
    ensures forall i :: 0 <= i < |pool| ==>
              && r[i].position == pool[i].position
              && r[i].spawnTimer == pool[i].spawnTimer
              && r[i].distanceToClosestFriend == ClosestMember(pool[i].position, team, players, dist)
              && r[i].distanceToClosestEnemy == ClosestMember(pool[i].position, EnemyTeam(team), players, dist)
  {
    seq(|pool|, i requires 0 <= i < |pool| => RefreshPoint(pool[i], team, players, dist))
  }

  /** Refreshing twice with the same roster gives the same metrics as
      refreshing once. */
  lemma RefreshIsIdempotent(pool: seq<SpawnPoint>, team: PlayerTeam, players: seq<Player>, dist: (Vec3, Vec3) -> real)
    ensures var once := CalculateDistancesForSpawnPoints(pool, team, players, dist);
            CalculateDistancesForSpawnPoints(once, team, players, dist) == once
  {
    var once := CalculateDistancesForSpawnPoints(pool, team, players, dist);
    var twice := CalculateDistancesForSpawnPoints(once, team, players, dist);
    assert forall i :: 0 <= i < |once| ==> twice[i] == once[i];
  }

  /** For a team-less request every metric is +infinity: no friend is near
      and no enemy threatens any point. */
  lemma NoTeamRefreshIsUnbounded(pool: seq<SpawnPoint>, players: seq<Player>, dist: (Vec3, Vec3) -> real)
    ensures var r := CalculateDistancesForSpawnPoints(pool, None, players, dist);
            forall i :: 0 <= i < |r| ==>
              r[i].distanceToClosestFriend == Infinity && r[i].distanceToClosestEnemy == Infinity
  {
    var r := CalculateDistancesForSpawnPoints(pool, None, players, dist);
    forall i | 0 <= i < |r|
      ensures r[i].distanceToClosestFriend == Infinity && r[i].distanceToClosestEnemy == Infinity
    {
      NoTeamHasNoClosestMember(pool[i].position, players, dist);
    }
  }
}
