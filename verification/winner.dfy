/**
 This module models winner selection at the moment the round starts ending:
 an ascending scan for the closest alive player, with a strict comparison.
 */
module Winner {
  import opened Players

  /** Initial "closest distance" of the scan; a player must be nearer to be picked. */
  const FarAway: real := 99999.0

  /** Slot `k` is the first alive slot at minimal distance, and nearer than FarAway. */
  ghost predicate IsFirstClosest(ps: seq<Player>, k: int) {
    && 0 <= k < |ps|
    && ps[k].isAlive
    && ps[k].dist < FarAway
    && (forall j :: 0 <= j < |ps| && ps[j].isAlive ==> ps[k].dist <= ps[j].dist)
    && (forall j :: 0 <= j < k && ps[j].isAlive ==> ps[k].dist < ps[j].dist)
  }

  /** Some alive slot is nearer than FarAway, so the scan picks somebody. */
  ghost predicate HasCandidate(ps: seq<Player>) {
    exists j :: 0 <= j < |ps| && ps[j].isAlive && ps[j].dist < FarAway
  }

  /** At most one slot is the first closest one. */
  lemma FirstClosestUnique(ps: seq<Player>, k1: int, k2: int)
    requires IsFirstClosest(ps, k1) && IsFirstClosest(ps, k2)
    ensures k1 == k2
  {
  }

  /** Whichever slot satisfies the reference description is the one picked. */
  lemma CheckWinnerPicksFirstClosest(ps: seq<Player>, previous: nat, k: int)
    requires IsFirstClosest(ps, k)
    ensures CheckWinner(ps, previous) == Selection(k, true)
  {
  }

  /** The scan from slot `i` on, with the best distance and slot found so far
      (`bestIdx` is -1 while nothing was found). */
  function ClosestFrom(ps: seq<Player>, i: nat, best: real, bestIdx: int): (r: int)
    requires i <= |ps|
    requires bestIdx == -1 || 0 <= bestIdx < i
    ensures r == bestIdx || i <= r < |ps|
    ensures r == bestIdx <==> forall j :: i <= j < |ps| && ps[j].isAlive ==> best <= ps[j].dist
    ensures r != bestIdx ==>
              && ps[r].isAlive
              && ps[r].dist < best
              && (forall j :: i <= j < |ps| && ps[j].isAlive ==> ps[r].dist <= ps[j].dist)
              && (forall j :: i <= j < r && ps[j].isAlive ==> ps[r].dist < ps[j].dist)
    decreases |ps| - i
  {
    if i == |ps| then bestIdx
    else if ps[i].isAlive && ps[i].dist < best then ClosestFrom(ps, i + 1, ps[i].dist, i)
    else ClosestFrom(ps, i + 1, best, bestIdx)
  }

  /** Result of winner selection: the winner slot afterwards, and whether the
      "stop" sound cue is played (it is, exactly when somebody was picked). */
  datatype Selection = Selection(winner: nat, stopCue: bool)

  /** Winner selection: picks the first closest alive slot, or leaves the
      previous winner in place when nobody alive is nearer than FarAway. */
  function CheckWinner(ps: seq<Player>, previous: nat): (r: Selection)
    ensures r.stopCue <==> HasCandidate(ps)
    ensures r.stopCue ==> IsFirstClosest(ps, r.winner)
    ensures !r.stopCue ==> r.winner == previous
  {
    var k := ClosestFrom(ps, 0, FarAway, -1);
    if k != -1 then Selection(k, true) else Selection(previous, false)
  }

  /** With nobody alive the previous winner is kept and no cue is played. */
  lemma NobodyAliveKeepsWinner(ps: seq<Player>, previous: nat)
    requires forall j :: 0 <= j < |ps| ==> !ps[j].isAlive
    ensures CheckWinner(ps, previous) == Selection(previous, false)
  {
  }
}
