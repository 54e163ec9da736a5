/** An optional value type used across the model. */
module Wrappers {

  /** An optional value: a potential-winner slot, a reported winner. */
  datatype Option<+T> = None | Some(value: T)
}

/**
 This module models one player slot of the Chicken3D minigame: the control
 predicate, movement toward the centre, the human "stop" input, and the
 state a slot starts a round with.
 */
module Players {

  /** Number of player slots in a round (MAXPLAYERS). */
  const MaxPlayers: nat := 4

  /** A moving player closer than this to the centre is caught (HITBOX_RADIUS). */
  const HitboxRadius: real := 8.0

  /** One player slot.
      `dist` stands for the distance from the player's position to the centre,
      which the game computes with floating-point vector geometry.
      `stopAnimPlaying` stands for whether the stop animation is playing.
      `aiTarget` and `aiReactionSpeed` are set at creation and never read. */
  datatype Player = Player(
    dist: real,
    isStopped: bool,
    isAlive: bool,
    stopAnimPlaying: bool,
    aiTarget: int,
    aiReactionSpeed: int)

  /** A player may move and may stop itself exactly while alive and not stopped. */
  predicate HasControl(p: Player) {
    p.isAlive && !p.isStopped
  }

  /** Facts every reachable slot satisfies: distances are non-negative, a dead
      player is stopped, and the stop animation only plays for a stopped player. */
  predicate PlayerOk(p: Player) {
    && 0.0 <= p.dist
    && (!p.isAlive ==> p.isStopped)
    && (p.stopAnimPlaying ==> p.isStopped)
  }

  /** The ascending scan with early exit: true when no slot from `i` on has control. */
  function AllStoppedFrom(ps: seq<Player>, i: nat): (r: bool)
    requires i <= |ps|
    ensures r <==> forall j :: i <= j < |ps| ==> !HasControl(ps[j])
    decreases |ps| - i
  {
    if i == |ps| then true
    else if HasControl(ps[i]) then false
    else AllStoppedFrom(ps, i + 1)
  }

  /** The round may start ending once this holds: nobody can still move. */
  function AllStoppedOrCollided(ps: seq<Player>): (r: bool)
    ensures r <==> forall j :: 0 <= j < |ps| ==> !HasControl(ps[j])
    ensures r ==> forall j :: 0 <= j < |ps| ==> ps[j].isStopped || !ps[j].isAlive
  {
    AllStoppedFrom(ps, 0)
  }

  /** One player's fixed-step movement. The geometry of a step is not modelled:
      `moved` is the distance to the centre the player would have after walking
      this tick, and it is taken only by a player with control. */
  function Move(p: Player, moved: real): (r: Player)
    ensures r.(dist := p.dist) == p
    ensures HasControl(r) == HasControl(p)
    ensures HasControl(p) ==> r.dist == moved
    ensures !HasControl(p) ==> r == p
  {
    if HasControl(p) then p.(dist := moved) else p
  }

  /** Movement of every slot, in slot order. */
  function MoveAll(ps: seq<Player>, moved: seq<real>): (r: seq<Player>)
    requires |moved| == |ps|
    ensures |r| == |ps|
    ensures forall i :: 0 <= i < |ps| ==> r[i].(dist := ps[i].dist) == ps[i]
    ensures forall i :: 0 <= i < |ps| ==> HasControl(ps[i]) ==> r[i].dist == moved[i]
    ensures forall i :: 0 <= i < |ps| ==> !HasControl(ps[i]) ==> r[i] == ps[i]
  {
    seq(|ps|, i requires 0 <= i < |ps| => Move(ps[i], moved[i]))
  }

  /** Buttons newly pressed by one controller this frame. */
  datatype Buttons = Buttons(a: bool, start: bool)

  /** A slot after its input was read, and whether its controller asked to quit. */
  datatype InputOut = InputOut(player: Player, quit: bool)

  /** The input branch of a player's per-frame update: only a human with control
      reads buttons; Start requests the end of the minigame, and A stops the
      player unless the stop animation is already playing. */
  function PlayerInput(p: Player, isHuman: bool, pressed: Buttons): (r: InputOut)
    ensures r.quit <==> isHuman && HasControl(p) && pressed.start
    ensures r.player.isStopped <==>
              p.isStopped || (isHuman && HasControl(p) && pressed.a && !p.stopAnimPlaying)
    ensures r.player.isAlive == p.isAlive && r.player.dist == p.dist
    ensures !r.player.isStopped ==> r.player == p
  {
    if isHuman && HasControl(p) then
      var p' := if pressed.a && !p.stopAnimPlaying
                then p.(isStopped := true, stopAnimPlaying := true)
                else p;
      InputOut(p', pressed.start)
    else
      InputOut(p, false)
  }

  /** In every reachable slot the animation guard never blocks a stop:
      a human with control stops exactly when A is pressed. */
  lemma StopInputGuardRedundant(p: Player, isHuman: bool, pressed: Buttons)
    requires PlayerOk(p)
    ensures PlayerInput(p, isHuman, pressed).player.isStopped <==>
              p.isStopped || (isHuman && HasControl(p) && pressed.a)
    ensures PlayerOk(PlayerInput(p, isHuman, pressed).player)
  {
  }

  /** Reaction speed of an AI player for a difficulty in 0..2 (easy, medium,
      hard) and a non-negative random number `rnd`. */
  function AiReactionSpeed(difficulty: int, rnd: nat): (r: int)
    requires 0 <= difficulty <= 2
    ensures (2 - difficulty) * 5 <= r < (2 - difficulty) * 5 + (3 - difficulty) * 3
  {
    (2 - difficulty) * 5 + rnd % ((3 - difficulty) * 3)
  }

  /** Every value in that range is the reaction speed of some random draw, so
      the bounds above are exact. */
  lemma AiReactionSpeedRange(difficulty: int, v: int)
    requires 0 <= difficulty <= 2
    ensures (exists rnd: nat :: AiReactionSpeed(difficulty, rnd) == v) <==>
              (2 - difficulty) * 5 <= v < (2 - difficulty) * 5 + (3 - difficulty) * 3
  {
    var lo := (2 - difficulty) * 5;
    if lo <= v < lo + (3 - difficulty) * 3 {
      var rnd: nat := v - lo;
      assert AiReactionSpeed(difficulty, rnd) == v;
    }
  }

  /** A freshly created slot at distance `dist` from the centre. */
  function PlayerInit(dist: real, difficulty: int, targetRoll: nat, reactionRoll: nat): (r: Player)
    requires 0 <= difficulty <= 2
    ensures HasControl(r) && !r.stopAnimPlaying
    ensures r.dist == dist
    ensures 0 <= r.aiTarget < MaxPlayers
    ensures 0.0 <= dist ==> PlayerOk(r)
  {
    Player(dist, false, true, false, targetRoll % MaxPlayers, AiReactionSpeed(difficulty, reactionRoll))
  }
}
