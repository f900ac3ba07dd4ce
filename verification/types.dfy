/** The data the spawn-point selector works on: teams, players, spawn points,
    its three distance thresholds, and distances extended with +infinity
    (the value a "closest player" query yields when no player qualifies). */
module SpawnTypes {

  /** The allegiances a player can have; `None` is "no team" and never
      matches a player in a distance query. */
  datatype PlayerTeam = None | BlueTeam | RedTeam

  /** The team whose players are the enemies of `team`: Blue and Red face
      each other, and a team-less request has no enemies. */
  function EnemyTeam(team: PlayerTeam): (r: PlayerTeam)
    ensures team == BlueTeam <==> r == RedTeam
    ensures team == RedTeam <==> r == BlueTeam
    ensures team == None <==> r == None
  {
    match team
    case BlueTeam => RedTeam
    case RedTeam => BlueTeam
    case None => None
  }

  /** Opposition is symmetric, and a real team never opposes itself. */
  lemma EnemyTeamIsInvolution(team: PlayerTeam)
    ensures EnemyTeam(EnemyTeam(team)) == team
    ensures team != None ==> EnemyTeam(team) != team
  {
  }

  /** A point in the scene. Only the caller-supplied distance function looks
      inside it. */
  datatype Vec3 = Vec3(x: real, y: real, z: real)

  /** A player as the selector sees it: read-only team, position and state. */
  datatype Player = Player(team: PlayerTeam, position: Vec3, disabled: bool, dead: bool)

  /** A distance, or +infinity when there is no player to measure to. */
  datatype Dist = Finite(value: real) | Infinity

  /** `a <= b` on distances extended with +infinity. */
  predicate AtMost(a: Dist, b: Dist)
  {
    b.Infinity? || (a.Finite? && a.value <= b.value)
  }

  /** `a < b` on distances extended with +infinity. */
  predicate Below(a: Dist, b: Dist)
  {
    !AtMost(b, a)
  }

  /** `d <= bound` for a finite threshold: +infinity is never within it. */
  predicate AtMostReal(d: Dist, bound: real)
  {
    d.Finite? && d.value <= bound
  }

  /** `d > bound` for a finite threshold: +infinity always exceeds it. */
  predicate AboveReal(d: Dist, bound: real)
  {
    !AtMostReal(d, bound)
  }

  /** A spawn location: its position, the two metrics refreshed for the
      requesting team on every selection, and its respawn cooldown timer
      (ready when it is at most zero). */
  datatype SpawnPoint = SpawnPoint(
    position: Vec3,
    distanceToClosestFriend: Dist,
    distanceToClosestEnemy: Dist,
    spawnTimer: real)

  /** The selector's thresholds. */
  datatype Config = Config(
    maxDistanceToClosestFriend: real,
    minDistanceToClosestEnemy: real,
    minMemberDistance: real)

  /** The thresholds the selector ships with. */
  const DefaultConfig := Config(30.0, 10.0, 2.0)
}
