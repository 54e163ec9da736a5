/**
 This module models the round of the Chicken3D minigame: the fixed-step update
 that moves players, runs the collision check, starts the ending phase and
 counts down to the end of the round; the per-frame input of human players;
 and runs of such events from the start of a round.
 */
module Minigame {
  import opened Wrappers
  import opened Players
  import opened Collision
  import opened Winner

  /** Seconds into the ending phase at which the winner is announced (WIN_SHOW_DELAY). */
  const WinShowDelay: real := 2.0

  /** Seconds into the ending phase after which the round is ended (WIN_DELAY). */
  const WinDelay: real := 5.0

  /** Sound cues the update asks the audio layer to play. */
  datatype Cue =
    | StartCue   // the "start" sound
    | StopCue    // the "stop" sound, played when a winner is picked
    | WinnerCue  // the "winner" sound

  /** The round's state: the slots, whether the ending phase has begun, the
      seconds spent in it, and the winner slot. There is no separate finished
      state: the round keeps ending until the host stops calling the update. */
  datatype Round = Round(players: seq<Player>, isEnding: bool, endTimer: real, winner: nat)

  /** What the reachable rounds satisfy. */
  predicate Valid(r: Round) {
    && |r.players| == MaxPlayers
    && (forall j :: 0 <= j < |r.players| ==> PlayerOk(r.players[j]))
    && 0.0 <= r.endTimer
    && (!r.isEnding ==> r.endTimer == 0.0)
    && (r.isEnding ==> AllStoppedOrCollided(r.players))
    && r.winner < MaxPlayers
  }

  /** The round as it starts: every slot created at its start distance, not
      ending, timer at zero and winner slot 0 (the zero-initialised globals). */
  function InitialRound(dists: seq<real>, difficulty: int, targetRolls: seq<nat>, reactionRolls: seq<nat>): (r: Round)
    requires |dists| == MaxPlayers && |targetRolls| == MaxPlayers && |reactionRolls| == MaxPlayers
    requires 0 <= difficulty <= 2
    ensures !r.isEnding && r.endTimer == 0.0 && r.winner == 0
    ensures |r.players| == MaxPlayers
    ensures forall i :: 0 <= i < MaxPlayers ==> HasControl(r.players[i]) && r.players[i].dist == dists[i]
    ensures (forall i :: 0 <= i < MaxPlayers ==> 0.0 <= dists[i]) ==> Valid(r)
  {
    var ps := seq(MaxPlayers, i requires 0 <= i < MaxPlayers =>
                PlayerInit(dists[i], difficulty, targetRolls[i], reactionRolls[i]));
    Round(ps, false, 0.0, 0)
  }

  /** Conversion of a float to an integer, which truncates toward zero. */
  function Trunc(x: real): (n: int)
    ensures 0.0 <= x ==> n as real <= x < n as real + 1.0
    ensures x < 0.0 ==> n as real - 1.0 < x <= n as real
  {
    if 0.0 <= x then x.Floor else -((-x).Floor)
  }

  /** Truncation of non-negative values is monotone. */
  lemma TruncMonotone(x: real, y: real)
    requires 0.0 <= x <= y
    ensures Trunc(x) <= Trunc(y)
  {
  }

  /** The winner sound is due when the whole seconds of the timer change and
      the new whole seconds equal WinShowDelay. */
  predicate WinnerCueDue(before: real, after: real) {
    Trunc(before) != Trunc(after) && Trunc(after) as real == WinShowDelay
  }

  /** With ticks of at most one second the winner sound is due exactly on the
      tick that carries the timer across WinShowDelay. */
  lemma WinnerCueOnCrossing(before: real, dt: real)
    requires 0.0 <= before && 0.0 < dt <= 1.0
    ensures WinnerCueDue(before, before + dt) <==> before < WinShowDelay <= before + dt
  {
  }

  /** A tick longer than a second can jump over the announcement entirely. */
  lemma LongTickSkipsWinnerCue()
    ensures 1.5 < WinShowDelay <= 1.5 + 2.0
    ensures !WinnerCueDue(1.5, 1.5 + 2.0)
  {
  }

  /** Outcome of one fixed-step update: the new round, the cues it plays in
      order, and, when the round is being ended, the winner reported to the host. */
  datatype TickOut = TickOut(round: Round, cues: seq<Cue>, finish: Option<nat>)

  /** The fixed-step update, given the tick length and the distance each player
      would have after walking this tick. */
  function FixedLoop(r: Round, dt: real, moved: seq<real>): (t: TickOut)
    requires |r.players| == MaxPlayers && |moved| == MaxPlayers
    ensures |t.round.players| == MaxPlayers
    ensures !r.isEnding ==> t.round.players == CheckCollision(MoveAll(r.players, moved))
    ensures r.isEnding ==> t.round.players == MoveAll(r.players, moved)
    ensures r.isEnding ==> t.round.isEnding
    ensures !r.isEnding ==> (t.round.isEnding <==> AllStoppedOrCollided(t.round.players))
    ensures !r.isEnding ==> forall j :: 0 <= j < MaxPlayers && t.round.players[j].dist < HitboxRadius ==>
                              !HasControl(t.round.players[j])
    ensures t.round.endTimer == if r.isEnding then r.endTimer + dt else r.endTimer
    ensures t.finish.Some? <==> r.isEnding && WinDelay < t.round.endTimer
    ensures t.finish.Some? ==> t.finish.value == r.winner
    ensures WinnerCue in t.cues <==> r.isEnding && WinnerCueDue(r.endTimer, t.round.endTimer)
    ensures StopCue in t.cues <==> !r.isEnding && t.round.isEnding && HasCandidate(t.round.players)
    ensures StartCue !in t.cues
    ensures !r.isEnding && t.round.isEnding ==>
              if HasCandidate(t.round.players) then IsFirstClosest(t.round.players, t.round.winner)
              else t.round.winner == r.winner
    ensures r.isEnding || !t.round.isEnding ==> t.round.winner == r.winner
    ensures forall j :: 0 <= j < MaxPlayers ==>
              && (r.players[j].isStopped ==> t.round.players[j].isStopped)
              && (t.round.players[j].isAlive ==> r.players[j].isAlive)
  {
    var before := HasControl(r.players[0]);
    var walked := MoveAll(r.players, moved);
    var start := if !before && HasControl(walked[0]) then [StartCue] else [];
    if !r.isEnding then
      var caught := CheckCollision(walked);
      if AllStoppedOrCollided(caught) then
        var sel := CheckWinner(caught, r.winner);
        TickOut(Round(caught, true, r.endTimer, sel.winner),
                start + (if sel.stopCue then [StopCue] else []), None)
      else
        TickOut(r.(players := caught), start, None)
    else
      var timer := r.endTimer + dt;
      TickOut(Round(walked, true, timer, r.winner),
              start + (if WinnerCueDue(r.endTimer, timer) then [WinnerCue] else []),
              if WinDelay < timer then Some(r.winner) else None)
  }

  /** The fixed-step update keeps a reachable round reachable. */
  lemma FixedLoopKeepsValid(r: Round, dt: real, moved: seq<real>)
    requires Valid(r) && 0.0 < dt
    requires |moved| == MaxPlayers && forall i :: 0 <= i < MaxPlayers ==> 0.0 <= moved[i]
    ensures Valid(FixedLoop(r, dt, moved).round)
  {
  }

  /** When every slot still moving reaches the hitbox in the same tick, the
      whole field is eliminated and the winner slot is left as it was. */
  lemma SimultaneousArrivalLeavesNoSurvivor(r: Round, dt: real, moved: seq<real>)
    requires Valid(r) && !r.isEnding && |moved| == MaxPlayers
    requires forall i :: 0 <= i < MaxPlayers ==> HasControl(r.players[i]) && moved[i] < HitboxRadius
    ensures FixedLoop(r, dt, moved).round.isEnding
    ensures forall i :: 0 <= i < MaxPlayers ==> !FixedLoop(r, dt, moved).round.players[i].isAlive
    ensures FixedLoop(r, dt, moved).round.winner == r.winner
    ensures StopCue !in FixedLoop(r, dt, moved).cues
  {
    var walked := MoveAll(r.players, moved);
    assert Entrant(walked[0]) && Entrant(walked[1]);
    TwoEntrantsCounted(walked, 0, 0, 1);
    CrowdAllEliminated(walked);
    var caught := CheckCollision(walked);
    assert forall i :: 0 <= i < MaxPlayers ==> Entrant(walked[i]);
    assert !HasCandidate(caught);
  }

  /** Outcome of reading one frame's input: the new round, and whether some
      human asked to leave the minigame. */
  datatype FrameOut = FrameOut(round: Round, quit: bool)

  /** The input part of the per-frame update, given the buttons newly pressed
      on each controller port: the first `playerCount` slots are human and read
      their controller; the others are AI players, which never stop by themselves. */
  function FrameInput(r: Round, playerCount: nat, pressed: seq<Buttons>): (f: FrameOut)
    requires |pressed| == |r.players|
    ensures f.round.(players := r.players) == r
    ensures |f.round.players| == |r.players|
    ensures forall i :: 0 <= i < |r.players| ==>
              f.round.players[i] == PlayerInput(r.players[i], i < playerCount, pressed[i]).player
    ensures forall i :: playerCount <= i < |r.players| ==> f.round.players[i] == r.players[i]
    ensures f.quit <==> exists i :: 0 <= i < |r.players| && i < playerCount &&
                                    HasControl(r.players[i]) && pressed[i].start
  {
    var ps := seq(|r.players|, i requires 0 <= i < |r.players| =>
                PlayerInput(r.players[i], i < playerCount, pressed[i]).player);
    var quit := exists i :: 0 <= i < |r.players| && PlayerInput(r.players[i], i < playerCount, pressed[i]).quit;
    FrameOut(r.(players := ps), quit)
  }

  /** Reading input keeps a reachable round reachable. */
  lemma FrameInputKeepsValid(r: Round, playerCount: nat, pressed: seq<Buttons>)
    requires Valid(r) && |pressed| == MaxPlayers
    ensures Valid(FrameInput(r, playerCount, pressed).round)
  {
  }

  /** Something the host does to the round: a fixed-step update of `dt` seconds
      with the distances players would walk to, or a frame that reads input. */
  datatype Event =
    | FixedTick(dt: real, moved: seq<real>)
    | FrameTick(playerCount: nat, pressed: seq<Buttons>)

  /** Events the host can deliver: positive tick lengths, non-negative distances,
      one entry per slot. */
  predicate EventOk(e: Event) {
    match e
    case FixedTick(dt, moved) =>
      0.0 < dt && |moved| == MaxPlayers && forall i :: 0 <= i < MaxPlayers ==> 0.0 <= moved[i]
    case FrameTick(_, pressed) =>
      |pressed| == MaxPlayers
  }

  /** What one event shows the outside world. */
  datatype Output = Output(cues: seq<Cue>, finish: Option<nat>, quit: bool)

  /** One event applied to the round. */
  function Apply(r: Round, e: Event): (p: (Round, Output))
    requires |r.players| == MaxPlayers && EventOk(e)
    ensures |p.0.players| == MaxPlayers
    ensures e.FrameTick? ==> p.1.cues == [] && p.1.finish.None? && p.0.(players := r.players) == r
    ensures e.FixedTick? ==> p.1 == Output(FixedLoop(r, e.dt, e.moved).cues, FixedLoop(r, e.dt, e.moved).finish, false)
                             && p.0 == FixedLoop(r, e.dt, e.moved).round
  {
    match e
    case FixedTick(dt, moved) =>
      var t := FixedLoop(r, dt, moved);
      (t.round, Output(t.cues, t.finish, false))
    case FrameTick(n, pressed) =>
      var f := FrameInput(r, n, pressed);
      (f.round, Output([], None, f.quit))
  }

  /** Every event keeps a reachable round reachable. */
  lemma ApplyKeepsValid(r: Round, e: Event)
    requires Valid(r) && EventOk(e)
    ensures Valid(Apply(r, e).0)
  {
  }

  /** The outputs of a sequence of events, in order. */
  function Run(r: Round, es: seq<Event>): (outs: seq<Output>)
    requires |r.players| == MaxPlayers
    requires forall k :: 0 <= k < |es| ==> EventOk(es[k])
    ensures |outs| == |es|
    decreases |es|
  {
    if |es| == 0 then []
    else
      var p := Apply(r, es[0]);
      [p.1] + Run(p.0, es[1..])
  }

  /** Once the timer has reached WinShowDelay the winner sound never plays again. */
  lemma {:induction false} NoWinnerCueOnceShown(r: Round, es: seq<Event>)
    requires Valid(r) && WinShowDelay <= r.endTimer
    requires forall k :: 0 <= k < |es| ==> EventOk(es[k])
    ensures forall k :: 0 <= k < |es| ==> WinnerCue !in Run(r, es)[k].cues
    decreases |es|
  {
    if |es| > 0 {
      var p := Apply(r, es[0]);
      ApplyKeepsValid(r, es[0]);
      if es[0].FixedTick? {
        TruncMonotone(r.endTimer, r.endTimer + es[0].dt);
      }
      NoWinnerCueOnceShown(p.0, es[1..]);
      assert forall k :: 1 <= k < |es| ==> Run(r, es)[k] == Run(p.0, es[1..])[k - 1];
    }
  }

  /** Over any run from a reachable round the winner sound plays at most once. */
  lemma {:induction false} WinnerCueAtMostOnce(r: Round, es: seq<Event>)
    requires Valid(r)
    requires forall k :: 0 <= k < |es| ==> EventOk(es[k])
    ensures forall k1, k2 :: 0 <= k1 < k2 < |es| ==>
              !(WinnerCue in Run(r, es)[k1].cues && WinnerCue in Run(r, es)[k2].cues)
    decreases |es|
  {
    if |es| > 0 {
      var p := Apply(r, es[0]);
      ApplyKeepsValid(r, es[0]);
      var outs, rest := Run(r, es), Run(p.0, es[1..]);
      assert forall k :: 1 <= k < |es| ==> outs[k] == rest[k - 1];
      if WinnerCue in outs[0].cues {
        NoWinnerCueOnceShown(p.0, es[1..]);
      }
      WinnerCueAtMostOnce(p.0, es[1..]);
    }
  }

  /** Once the timer is past WinDelay, every later update reports the same
      winner and ends the round again. */
  lemma {:induction false} EndRepeatsAfterDelay(r: Round, es: seq<Event>)
    requires Valid(r) && r.isEnding && WinDelay < r.endTimer
    requires forall k :: 0 <= k < |es| ==> EventOk(es[k])
    ensures forall k :: 0 <= k < |es| && es[k].FixedTick? ==> Run(r, es)[k].finish == Some(r.winner)
    decreases |es|
  {
    if |es| > 0 {
      var p := Apply(r, es[0]);
      ApplyKeepsValid(r, es[0]);
      EndRepeatsAfterDelay(p.0, es[1..]);
      assert forall k :: 1 <= k < |es| ==> Run(r, es)[k] == Run(p.0, es[1..])[k - 1];
    }
  }

  /** Over any run, a round-end request is repeated with the same winner on
      every later fixed-step update. */
  lemma {:induction false} EndRequestRepeats(r: Round, es: seq<Event>)
    requires Valid(r)
    requires forall k :: 0 <= k < |es| ==> EventOk(es[k])
    ensures forall k1, k2 :: 0 <= k1 < k2 < |es| && Run(r, es)[k1].finish.Some? && es[k2].FixedTick? ==>
              Run(r, es)[k2].finish == Run(r, es)[k1].finish
    decreases |es|
  {
    if |es| > 0 {
      var p := Apply(r, es[0]);
      ApplyKeepsValid(r, es[0]);
      var outs, rest := Run(r, es), Run(p.0, es[1..]);
      assert forall k :: 1 <= k < |es| ==> outs[k] == rest[k - 1];
      if outs[0].finish.Some? {
        EndRepeatsAfterDelay(p.0, es[1..]);
      }
      EndRequestRepeats(p.0, es[1..]);
    }
  }
}
