# Chicken3D round logic in Dafny

Chicken3D is a four-player minigame: every player walks toward the centre of
the arena and tries to stop as close to it as possible. A player still walking
when it comes within the hitbox radius (8 units) of the centre is caught there.
If two or more players are caught in the same tick, they are eliminated. When
nobody can move any more, the closest surviving player wins. A short ending
phase then announces the winner and ends the round.

This project models that round logic and proves properties of it:

- `players.dfy` holds module `Players`: the player slot and the control
  predicate (`HasControl`: alive and not stopped). It also has the
  "nobody can move" check, movement, the human stop input and the creation of
  a slot with its AI reaction speed. It also holds the `Wrappers.Option` type.
- `collision.dfy` holds module `Collision`: the collision pass. It is one
  ascending scan with a potential-winner slot that is never cleared. It is
  written as a fold over slot indices carrying an `Option<nat>` accumulator.
  A reference description (`PassEntry`) is proved equal to it slot by slot.
- `winner.dfy` holds module `Winner`: winner selection. It is an ascending
  argmin with a strict comparison. A reference predicate `IsFirstClosest`
  names the first alive slot at minimal distance.
- `minigame.dfy` holds module `Minigame`: the round state and the fixed-step
  update with its two phases (active, then ending, driven by `isEnding` and
  `endTimer`). It also has the per-frame input of all slots and runs of these
  events from any reachable round. The run lemmas state the winner-cue and
  round-end behaviour.

Abstractions:

- Each player's distance to the centre is an abstract non-negative `real`.
  Movement is a parameter: the caller gives the distance each player would
  have after walking this tick. Only a player with control takes it.
- The tick length `dt` is a positive `real`. The float-to-int conversion is
  modelled as truncation toward zero (`Trunc`).
- Button presses, the AI difficulty and `rand()` results are inputs.
- Sound playback is a list of emitted cues: `StartCue`, `StopCue`, `WinnerCue`.
- The round-end calls (`core_set_winner(winner)` followed by
  `minigame_end()`) are modelled as a `finish` output carrying the reported
  winner.

Some behaviours of the code are not what the rules shown to players
("Press A to stop! ... without colliding into another player") might suggest.
The model follows the code:

- **Collision pass.** The potential-winner slot is never cleared. So when
  three or four players enter the hitbox in one pass, ALL of them are
  eliminated, not only the first pair (`Collision.CrowdAllEliminated`).
- **No finished state.** The round has no separate finished state. Once
  `endTimer > 5`, every later fixed-step update reports the winner and ends
  the round again (`Minigame.EndRequestRepeats`).
- **Nobody alive.** When nobody is alive at the end of the active phase, no
  winner is picked. The global `winner` keeps its previous value, and that
  value is reported (`Winner.NobodyAliveKeepsWinner`,
  `Minigame.SimultaneousArrivalLeavesNoSurvivor`). The model starts every round
  with winner slot 0; "## Left out" states that assumption.
- **Start cue.** The "start" sound can never play. Player 0's control is read
  before movement and compared after it, but movement never changes control
  (`StartCue !in t.cues` in `Minigame.FixedLoop`).
- **Winner cue.** The winner sound plays on the tick where the truncated timer
  changes and becomes 2. It is not simply "the first tick with
  `endTimer >= 2`": a tick longer than one second can skip it
  (`Minigame.LongTickSkipsWinnerCue`). With ticks of at most one second the
  two readings coincide (`Minigame.WinnerCueOnCrossing`).

## Model

| member | source | states |
|---|---|---|
| `Players.HasControl` | code/chicken3d/chicken3d.c:207-210 | A player has control iff it is alive and not stopped |
| `Players.AllStoppedFrom` | code/chicken3d/chicken3d.c:212-220 | The early-exit scan from slot `i` returns true iff no slot from `i` on has control |
| `Players.AllStoppedOrCollided` | code/chicken3d/chicken3d.c:207-220 | True iff no slot has control, so then every slot is stopped or dead |
| `Players.Move` | code/chicken3d/chicken3d.c:271-285 | A player with control takes the new distance. A player without control does not move. Moving changes nothing but the distance, and never changes control |
| `Players.MoveAll` | code/chicken3d/chicken3d.c:362-364 | Every slot with control takes its new distance. Slots without control are unchanged. No flag changes |
| `Players.PlayerInput` | code/chicken3d/chicken3d.c:289-300 | Quit is requested iff a human with control pressed Start. The player ends stopped iff it was stopped, or it is a human with control that pressed A while the stop animation was idle. Alive and distance are unchanged |
| `Players.StopInputGuardRedundant` | code/chicken3d/chicken3d.c:295-299 | In every reachable slot the animation guard never blocks a stop: a human with control stops iff A was pressed. The slot facts are kept |
| `Players.AiReactionSpeed` | code/chicken3d/chicken3d.c:127 | For difficulty 0..2 the reaction speed lies in [(2-d)*5, (2-d)*5 + (3-d)*3) |
| `Players.AiReactionSpeedRange` | code/chicken3d/chicken3d.c:127 | Every value in that interval is reached by some random draw, and no other value is, so the bounds are exact |
| `Players.PlayerInit` | code/chicken3d/chicken3d.c:121-127 | A new slot has control, its stop animation is idle, its AI target slot is in 0..3, and it satisfies the slot facts |
| `Collision.Entrant` | code/chicken3d/chicken3d.c:229 | The pass acts on a slot iff its distance is below the hitbox radius and it has control |
| `Collision.CollisionPass` | code/chicken3d/chicken3d.c:225-241 | Only `isStopped` and `isAlive` change, stopped never becomes false and alive never becomes true. Non-entrants and earlier unrecorded slots are untouched. Every entrant ends stopped |
| `Collision.CheckCollision` | code/chicken3d/chicken3d.c:222-242 | The pass never unstops or revives anyone and leaves every non-entrant unchanged. Afterwards no slot inside the hitbox radius has control |
| `Collision.CollisionPassCharacterised` | code/chicken3d/chicken3d.c:224-241 | The scan from any index and slot state equals the reference description slot by slot. That description says entrants stop, survive only as the sole remaining entrant with an empty slot, and the recorded slot dies once any entrant follows |
| `Collision.CheckCollisionOutcome` | code/chicken3d/chicken3d.c:229-238 | After a whole pass an entrant is stopped and alive iff it was the only entrant. Every other slot is unchanged |
| `Collision.SoleEntrantSurvives` | code/chicken3d/chicken3d.c:236-238 | A sole entrant ends stopped and alive |
| `Collision.PairEliminated` | code/chicken3d/chicken3d.c:232-235 | Any two entrants of one pass both end stopped and dead |
| `Collision.CrowdAllEliminated` | code/chicken3d/chicken3d.c:224-235 | With two or more entrants every entrant ends stopped and dead, since the slot is never cleared |
| `Collision.CheckCollisionKeepsPlayerOk` | code/chicken3d/chicken3d.c:229-235 | The pass keeps non-negative distances, "dead implies stopped" and "animation implies stopped" |
| `Winner.FirstClosestUnique` | code/chicken3d/chicken3d.c:254-257 | Because the comparison is strict, at most one slot is the first alive slot at minimal distance |
| `Winner.ClosestFrom` | code/chicken3d/chicken3d.c:249-259 | Keeps the previous best iff no alive slot ahead is strictly nearer. Otherwise returns an alive slot nearer than the best so far, no farther than any alive slot ahead, and strictly nearer than every alive slot before it |
| `Winner.CheckWinner` | code/chicken3d/chicken3d.c:244-269 | The stop cue plays iff some alive slot is nearer than 99999. The winner is then the first closest alive slot. Otherwise the winner is unchanged |
| `Winner.CheckWinnerPicksFirstClosest` | code/chicken3d/chicken3d.c:246-263 | Whichever slot meets the reference description is the one selected, with the stop cue |
| `Winner.NobodyAliveKeepsWinner` | code/chicken3d/chicken3d.c:261-268 | With nobody alive the previous winner stays and no cue plays |
| `Minigame.InitialRound` | code/chicken3d/chicken3d.c:73-75 | A new round is active, its timer is 0 and its winner slot is 0 (the zero values of these globals). Every slot is created by the player initialisation with control at its start distance, and the round is reachable |
| `Minigame.Trunc` | code/chicken3d/chicken3d.c:379 | The float-to-int conversion truncates toward zero: the floor for non-negative values, the ceiling for negative ones |
| `Minigame.WinnerCueDue` | code/chicken3d/chicken3d.c:379 | The winner cue is due iff the truncated timer differs before and after the tick and equals 2 after it |
| `Minigame.TruncMonotone` | code/chicken3d/chicken3d.c:379 | Truncation of non-negative timer values is monotone |
| `Minigame.WinnerCueOnCrossing` | code/chicken3d/chicken3d.c:377-380 | With ticks of at most one second the winner cue is due iff the tick carries the timer across 2 seconds |
| `Minigame.LongTickSkipsWinnerCue` | code/chicken3d/chicken3d.c:377-380 | A 2-second tick from 1.5 crosses 2 seconds but the cue is not due |
| `Minigame.FixedLoop` | code/chicken3d/chicken3d.c:358-386 | While active, the new slots are the collision pass applied to the moved slots; while ending, they are the moved slots. `isEnding` only goes false to true, on exactly the active tick where no slot has control after the collision pass. The timer advances by `dt` only while ending. Round end is requested, with the stored winner, iff ending and the timer exceeds 5. The winner cue plays iff ending and the truncated timer changes to 2. The stop cue plays iff the round starts ending with an alive candidate, who becomes the first closest winner; otherwise the winner is unchanged. The start cue never plays. No slot is unstopped or revived |
| `Minigame.FixedLoopKeepsValid` | code/chicken3d/chicken3d.c:358-386 | A reachable round stays reachable. Slot facts hold, the timer is non-negative and 0 while active, nobody has control while ending, and the winner is a slot index |
| `Minigame.SimultaneousArrivalLeavesNoSurvivor` | code/chicken3d/chicken3d.c:370-375 | If all four slots have control and reach the hitbox in one active tick, all die. The round starts ending with the winner unchanged and no stop cue |
| `Minigame.FrameInput` | code/chicken3d/chicken3d.c:396-400 | Only slots change, each by the input branch with "human" meaning index below the player count. AI slots are unchanged. Quit is requested iff some human with control pressed Start |
| `Minigame.FrameInputKeepsValid` | code/chicken3d/chicken3d.c:287-301 | Reading input keeps a reachable round reachable, including "nobody has control while ending" |
| `Minigame.ApplyKeepsValid` | code/chicken3d/chicken3d.c:358-400 | Every fixed-step update and every input frame keeps a reachable round reachable |
| `Minigame.NoWinnerCueOnceShown` | code/chicken3d/chicken3d.c:377-380 | From a reachable round whose timer has reached 2 seconds, no later event plays the winner cue |
| `Minigame.WinnerCueAtMostOnce` | code/chicken3d/chicken3d.c:377-380 | Over any run of events with positive tick lengths from a reachable round, the winner cue plays on at most one event |
| `Minigame.EndRepeatsAfterDelay` | code/chicken3d/chicken3d.c:381-384 | From a reachable ending round whose timer exceeds 5, every later fixed-step update requests round end with the same winner |
| `Minigame.EndRequestRepeats` | code/chicken3d/chicken3d.c:381-384 | Over any run, once round end is requested, every later fixed-step update requests it again with the same winner |

## Left out

- Vector geometry of movement (direction, normalisation, position update) and the distance computation are floating-point numerics. The model uses an abstract distance per player; the new distance after a step is an input, taken only by a player with control.
- Float rounding of `endTimer` and of distances. Both are exact reals here.
- Animation, skeleton and matrix updates in the per-frame player update, and the stop animation finishing on its own, are left out. The animation finishing only clears the "stop animation playing" flag, which keeps every slot fact. The `currSpeed` field is set but never read, so it is dropped.
- Rendering and on-screen text are left out: the minigame's draw loop, player and billboard drawing, and the "Player N wins!" text shown while ending with `endTimer >= 2`.
- Asset loading and cleanup are left out: fonts, models, display, viewport, sound and music handles. Sound playback is modelled only as emitted cues.
- Joypad polling and `rand()` are inputs. Button presses are taken as already edge-detected ("pressed this frame"). The AI difficulty is taken in 0..2. The module defining it (core.h) is not part of this model, and a difficulty of 3 would divide by zero.
- The AI never decides to stop: the source computes `ai_target` and `ai_reactionspeed` but never reads them, and the model keeps that behaviour.
- The host loop that interleaves fixed-step updates with frames, and what happens after round end is requested, are left out. A run is any sequence of the two kinds of event.
- RSP syncpoints are hardware pipelining and are left out.
- `Minigame.InitialRound`: assumes `isEnding`, `endTimer` and `winner` are zero when a round starts. The minigame's initialisation never assigns them, so this holds only if their storage is zero-initialised each time the minigame is loaded.
- `Players.MoveAll`: does not state how far a player walks per tick (10 units per second toward the centre), because the geometry is abstracted to supplied distances.
