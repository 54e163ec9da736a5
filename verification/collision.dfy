/**
 This module models the collision pass run once per fixed tick while the round
 is active: one ascending scan over the slots with a single potential-winner
 slot that is never cleared during the scan.
 */
module Collision {
  import opened Wrappers
  import opened Players

  /** A slot the pass acts on: inside the hitbox and still in control. */
  predicate Entrant(p: Player) {
    p.dist < HitboxRadius && HasControl(p)
  }

  /** Number of entrants among the slots from `i` on. */
  function CountEntrants(ps: seq<Player>, i: nat): (n: nat)
    requires i <= |ps|
    ensures n <= |ps| - i
    decreases |ps| - i
  {
    if i == |ps| then 0
    else (if Entrant(ps[i]) then 1 else 0) + CountEntrants(ps, i + 1)
  }

  /** The scan from slot `i` on, with `slot` the potential winner recorded so far.
      An entrant is stopped; the first one is recorded, and each later one is
      eliminated together with the recorded one. */
  function CollisionPass(ps: seq<Player>, i: nat, slot: Option<nat>): (r: seq<Player>)
    requires i <= |ps|
    requires slot.Some? ==> slot.value < i
    ensures |r| == |ps|
    ensures forall j :: 0 <= j < |ps| ==>
              r[j].(isStopped := ps[j].isStopped, isAlive := ps[j].isAlive) == ps[j]
    ensures forall j :: 0 <= j < |ps| ==> ps[j].isStopped ==> r[j].isStopped
    ensures forall j :: 0 <= j < |ps| ==> r[j].isAlive ==> ps[j].isAlive
    ensures forall j :: i <= j < |ps| && !Entrant(ps[j]) ==> r[j] == ps[j]
    ensures forall j :: i <= j < |ps| && Entrant(ps[j]) ==> r[j].isStopped
    ensures forall j :: 0 <= j < i && slot != Some(j) ==> r[j] == ps[j]
    decreases |ps| - i
  {
    if i == |ps| then ps
    else if Entrant(ps[i]) then
      match slot
      case None =>
        CollisionPass(ps[i := ps[i].(isStopped := true)], i + 1, Some(i))
      case Some(w) =>
        var caught := ps[i := ps[i].(isStopped := true, isAlive := false)];
        CollisionPass(caught[w := caught[w].(isAlive := false)], i + 1, slot)
    else CollisionPass(ps, i + 1, slot)
  }

  /** One collision check over all slots. */
  function CheckCollision(ps: seq<Player>): (r: seq<Player>)
    ensures |r| == |ps|
    ensures forall j :: 0 <= j < |ps| ==> r[j].dist == ps[j].dist
    ensures forall j :: 0 <= j < |ps| ==> ps[j].isStopped ==> r[j].isStopped
    ensures forall j :: 0 <= j < |ps| ==> r[j].isAlive ==> ps[j].isAlive
    ensures forall j :: 0 <= j < |ps| && !Entrant(ps[j]) ==> r[j] == ps[j]
    ensures forall j :: 0 <= j < |ps| && r[j].dist < HitboxRadius ==> !HasControl(r[j])
  {
    var r := CollisionPass(ps, 0, None);
    assert forall j :: 0 <= j < |ps| ==>
      r[j].dist == r[j].(isStopped := ps[j].isStopped, isAlive := ps[j].isAlive).dist;
    r
  }

  /** Independent description of slot `j` after the scan from `i` with `slot`:
      entrants from `i` on end stopped, and alive only when no slot was recorded
      and they are the only entrant left; the recorded slot dies as soon as any
      entrant follows it. */
  function PassEntry(ps: seq<Player>, i: nat, slot: Option<nat>, j: nat): Player
    requires i <= |ps| && j < |ps|
  {
    if i <= j && Entrant(ps[j]) then
      ps[j].(isStopped := true, isAlive := slot.None? && CountEntrants(ps, i) == 1)
    else if slot == Some(j) && CountEntrants(ps, i) >= 1 then
      ps[j].(isAlive := false)
    else
      ps[j]
  }

  /** An entrant at or after `i` is counted. */
  lemma {:induction false} EntrantCounted(ps: seq<Player>, i: nat, j: nat)
    requires i <= j < |ps| && Entrant(ps[j])
    ensures CountEntrants(ps, i) >= 1
    decreases j - i
  {
    if i < j {
      EntrantCounted(ps, i + 1, j);
    }
  }

  /** Two distinct entrants at or after `i` are both counted. */
  lemma {:induction false} TwoEntrantsCounted(ps: seq<Player>, i: nat, j1: nat, j2: nat)
    requires i <= j1 < j2 < |ps| && Entrant(ps[j1]) && Entrant(ps[j2])
    ensures CountEntrants(ps, i) >= 2
    decreases j1 - i
  {
    if i < j1 {
      TwoEntrantsCounted(ps, i + 1, j1, j2);
    } else {
      EntrantCounted(ps, i + 1, j2);
    }
  }

  /** Two entrants in one pass are both stopped and eliminated. */
  lemma PairEliminated(ps: seq<Player>, j1: nat, j2: nat)
    requires j1 < j2 < |ps| && Entrant(ps[j1]) && Entrant(ps[j2])
    ensures CheckCollision(ps)[j1].isStopped && !CheckCollision(ps)[j1].isAlive
    ensures CheckCollision(ps)[j2].isStopped && !CheckCollision(ps)[j2].isAlive
  {
    TwoEntrantsCounted(ps, 0, j1, j2);
    CheckCollisionOutcome(ps, j1);
    CheckCollisionOutcome(ps, j2);
  }

  /** Slots that agree from `i` on have the same entrant count from `i` on. */
  lemma {:induction false} CountEntrantsSuffix(ps: seq<Player>, qs: seq<Player>, i: nat)
    requires i <= |ps| == |qs|
    requires forall j :: i <= j < |ps| ==> ps[j] == qs[j]
    ensures CountEntrants(ps, i) == CountEntrants(qs, i)
    decreases |ps| - i
  {
    if i < |ps| {
      CountEntrantsSuffix(ps, qs, i + 1);
    }
  }

  /** The scan agrees slot by slot with its independent description. */
  lemma {:induction false} CollisionPassCharacterised(ps: seq<Player>, i: nat, slot: Option<nat>)
    requires i <= |ps|
    requires slot.Some? ==> slot.value < i
    ensures forall j :: 0 <= j < |ps| ==> CollisionPass(ps, i, slot)[j] == PassEntry(ps, i, slot, j)
    decreases |ps| - i
  {
    if i == |ps| {
      return;
    }
    var r := CollisionPass(ps, i, slot);
    var c := CountEntrants(ps, i + 1);
    if !Entrant(ps[i]) {
      CollisionPassCharacterised(ps, i + 1, slot);
      forall j | 0 <= j < |ps|
        ensures r[j] == PassEntry(ps, i, slot, j)
      {
        assert PassEntry(ps, i + 1, slot, j) == PassEntry(ps, i, slot, j);
      }
    } else if slot.None? {
      var ps' := ps[i := ps[i].(isStopped := true)];
      CountEntrantsSuffix(ps, ps', i + 1);
      CollisionPassCharacterised(ps', i + 1, Some(i));
      forall j | 0 <= j < |ps|
        ensures r[j] == PassEntry(ps, i, slot, j)
      {
        assert r[j] == PassEntry(ps', i + 1, Some(i), j);
        if i < j && Entrant(ps[j]) {
          EntrantCounted(ps, i + 1, j);
        }
      }
    } else {
      var w := slot.value;
      var caught := ps[i := ps[i].(isStopped := true, isAlive := false)];
      var ps' := caught[w := caught[w].(isAlive := false)];
      CountEntrantsSuffix(ps, ps', i + 1);
      CollisionPassCharacterised(ps', i + 1, slot);
      forall j | 0 <= j < |ps|
        ensures r[j] == PassEntry(ps, i, slot, j)
      {
        assert r[j] == PassEntry(ps', i + 1, slot, j);
      }
    }
  }

  /** Outcome of a whole collision check: an entrant ends stopped, and stays
      alive exactly when it is the only entrant of the pass; every other slot
      is untouched. */
  lemma CheckCollisionOutcome(ps: seq<Player>, j: nat)
    requires j < |ps|
    ensures CheckCollision(ps)[j] ==
              if Entrant(ps[j])
              then ps[j].(isStopped := true, isAlive := CountEntrants(ps, 0) == 1)
              else ps[j]
  {
    CollisionPassCharacterised(ps, 0, None);
  }

  /** A lone entrant is stopped and survives the pass. */
  lemma SoleEntrantSurvives(ps: seq<Player>, k: nat)
    requires k < |ps| && Entrant(ps[k]) && CountEntrants(ps, 0) == 1
    ensures CheckCollision(ps)[k].isStopped && CheckCollision(ps)[k].isAlive
  {
    CheckCollisionOutcome(ps, k);
  }

  /** With two or more entrants in one pass every entrant is eliminated, the
      recorded first one included and not only the first pair. */
  lemma CrowdAllEliminated(ps: seq<Player>)
    requires CountEntrants(ps, 0) >= 2
    ensures forall j :: 0 <= j < |ps| && Entrant(ps[j]) ==>
              CheckCollision(ps)[j].isStopped && !CheckCollision(ps)[j].isAlive
  {
    forall j | 0 <= j < |ps| && Entrant(ps[j])
      ensures CheckCollision(ps)[j].isStopped && !CheckCollision(ps)[j].isAlive
    {
      CheckCollisionOutcome(ps, j);
    }
  }

  /** The pass keeps every slot fact: it never revives or unstops anyone. */
  lemma CheckCollisionKeepsPlayerOk(ps: seq<Player>)
    requires forall j :: 0 <= j < |ps| ==> PlayerOk(ps[j])
    ensures forall j :: 0 <= j < |ps| ==> PlayerOk(CheckCollision(ps)[j])
  {
  }
}
