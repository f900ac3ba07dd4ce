/** The ordering both filtering tiers put the shared pool in: ascending by
    distance to the closest friend, +infinity last. */
module Sorting {
  import opened SpawnTypes

  /** `s` is in ascending order of friend distance. */
  predicate SortedByFriend(s: seq<SpawnPoint>)
  {
    forall i, j :: 0 <= i < j < |s| ==> AtMost(s[i].distanceToClosestFriend, s[j].distanceToClosestFriend)
  }

  /** `x` put into the sorted `s` before the first point that is farther
      from a friend than `x`. */
  function Insert(x: SpawnPoint, s: seq<SpawnPoint>): (r: seq<SpawnPoint>)
    requires SortedByFriend(s)
    ensures SortedByFriend(r)
    ensures multiset(r) == multiset(s) + multiset{x}
    decreases |s|
  {
    if |s| == 0 || AtMost(x.distanceToClosestFriend, s[0].distanceToClosestFriend) then [x] + s
    else
      var rest := Insert(x, s[1..]);
      assert s == [s[0]] + s[1..];
      assert forall k :: 0 <= k < |rest| ==> rest[k] in multiset(s[1..]) + multiset{x};
      [s[0]] + rest
  }

  /** The pool sorted ascending by friend distance: a rearrangement of the
      same points, nothing added or lost. */
  function SortByFriend(s: seq<SpawnPoint>): (r: seq<SpawnPoint>)
    ensures SortedByFriend(r)
    ensures multiset(r) == multiset(s)
    ensures |r| == |s|
    decreases |s|
  {
    if |s| == 0 then []
    else
      assert s == [s[0]] + s[1..];
      Insert(s[0], SortByFriend(s[1..]))
  }

  /** Sorting an already sorted pool leaves it as it is, so the second
      tier's sort does not move anything the first tier placed. */
  lemma {:induction false} SortSortedIsIdentity(s: seq<SpawnPoint>)
    requires SortedByFriend(s)
    ensures SortByFriend(s) == s
    decreases |s|
  {
    if |s| > 0 {
      assert SortedByFriend(s[1..]);
      SortSortedIsIdentity(s[1..]);
      assert s == [s[0]] + s[1..];
    }
  }
}
