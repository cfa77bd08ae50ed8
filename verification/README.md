# Maze Runners: the simulation driver

A model of the fixed-timestep driver of a two-player maze game (class
`Execute`). The driver has four parts:

- **Key flags.** Eight "key is held" flags: the arrow keys for player 1 and
  W/A/S/D for player 2. The press and release callbacks set or clear them.
- **Intent and movement.** Once per step, each player's flags become a
  signed intent in {-1, 0, +1} on each axis. Every player that is not idle
  is asked to move by intent × step duration × speed.
- **Tick scheduler.** Each frame cuts the elapsed milliseconds into
  five-millisecond steps, plus one shorter step for any remainder.
- **Win check.** Each frame asks player 1 whether it has reached its goal
  and, only if player 1 is not at its goal, asks player 2. A winner ends the
  loop after the current frame.

The player entities are collaborators outside the model. A move is a
recorded `MoveRequest`, and the goal test is a boolean input per frame. A
frame is a pure function from the held keys, the elapsed time and the two
goal answers to the step durations, the move requests, the outcome and
whether the loop goes round again. The loop itself is a method over a
finite supply of frames.

Modules, one per part: `Input` (flags and key events), `Movement` (intent and
one logic step), `Schedule` (tick splitting), `Match` (win check) and
`GameLoop` (one frame and the `while (gameRunning)` loop).

Speed is in integer thousandths of a tile per millisecond (`SpeedMilli = 3`
for the source's `0.003f`). So a displacement is `intent * dt * 3`
thousandths of a tile.

The code does not clamp the elapsed time. The model takes it as a `nat`,
which holds because `System.nanoTime` is monotonic. On non-negative values
Java's truncating `/` and `%` agree with Dafny's.

## Model

| member | source | states |
|---|---|---|
| Input.KeyOf | src/maze/Execute.java:246-272 | A key code denotes at most one of the eight keys, and each key's code denotes exactly that key (inverse of `CodeOf`) |
| Input.GetSet | src/maze/Execute.java:246-305 | The reference update of one flag gives that flag the new value and leaves the other seven alone |
| Input.GetRecord | src/maze/Execute.java:246-305 | The eight independent code tests store the value into the flag whose code matches and leave every other flag alone |
| Input.RecordIsSet | src/maze/Execute.java:246-305 | The code tests equal the reference update of the flag the code denotes, and are no change for a code the game ignores |
| Input.RecordOfKey | src/maze/Execute.java:246-305 | The code tests for a key's own code equal the reference update of that key's flag |
| Input.SetTwice | src/maze/Execute.java:246-305 | Of two updates of the same flag, the second wins |
| Input.KeyPressed | src/maze/Execute.java:246-272 | After a press, a key is held iff it is the pressed key or it was held before |
| Input.KeyReleased | src/maze/Execute.java:279-305 | After a release, a key is held iff it is not the released key and it was held before |
| Input.KeyPressedIsSet | src/maze/Execute.java:246-272 | A press of a recognised key equals the reference update of that one flag to true; an unrecognised key changes nothing |
| Input.KeyReleasedIsSet | src/maze/Execute.java:279-305 | A release of a recognised key equals the reference update of that one flag to false; an unrecognised key changes nothing |
| Input.KeyPressedIdempotent | src/maze/Execute.java:246-272 | Repeating a press event changes nothing further |
| Input.KeyReleasedIdempotent | src/maze/Execute.java:279-305 | Repeating a release event changes nothing further |
| Input.PressThenRelease | src/maze/Execute.java:246-305 | Press then release of a key leaves it released, whatever it was before, and every other flag as before the press |
| Input.ReleaseThenPress | src/maze/Execute.java:246-305 | Release then press of a key leaves it held and every other flag as before |
| Movement.Axis | src/maze/Execute.java:195-218 | An axis intent is in -1..1; it is 0 iff both or neither key is held (opposite keys cancel); -1 iff only the negative key, +1 iff only the positive key |
| Movement.Intent | src/maze/Execute.java:191-218 | Both components of a player's intent are in -1..1; each axis is zero iff its two keys agree, -1 iff only its negative key is held and +1 iff only its positive key is held, where left, up, a and w are negative and right, down, d and s positive |
| Movement.Request | src/maze/Execute.java:223-230 | A player gets at most one move request per step, gets one iff its intent is non-zero, and that request is addressed to it and asks for intent × dt × speed |
| Movement.Logic | src/maze/Execute.java:188-231 | One logic call issues at most two requests: at most one per player, one for a player iff its intent is non-zero, each of intent × dt × speed, player 1's before player 2's |
| Movement.IntentDependsOnOwnKeys | src/maze/Execute.java:195-218 | Key states that agree on a player's four keys give that player the same intent |
| Movement.RequestDependsOnOwnKeys | src/maze/Execute.java:195-230 | Key states that agree on a player's four keys give that player the same move request, so the other player's keys never affect it |
| Movement.LogicSplitsByPlayer | src/maze/Execute.java:223-230 | The requests one logic call addresses to a player are exactly that player's own request |
| Movement.OtherPlayersKeyIsIrrelevant | src/maze/Execute.java:246-305 | A press or release of one player's key leaves the other player's move request unchanged |
| Schedule.FullSteps | src/maze/Execute.java:171-173 | n full steps are n durations of 5 that sum to 5n |
| Schedule.Steps | src/maze/Execute.java:171-178 | The durations of one frame sum to exactly the elapsed time, are each in 1..5, are all 5 except possibly the last, number ceil(delta / 5) with no cap, and are empty iff delta is 0 |
| Schedule.StepsIsTheOnlySchedule | src/maze/Execute.java:171-178 | A sequence is a valid schedule of delta (durations in 1..5, all but the last full, summing to delta) iff it is exactly `Steps(delta)` |
| GameLoop.Trace | src/maze/Execute.java:171-178 | Running the logic over a sequence of steps only ever addresses players whose intent is non-zero (the exact per-player sequence is stated by `TraceRequestsOf`) |
| GameLoop.LogicTotalMove | src/maze/Execute.java:224-229 | The displacement one logic call requests for a player is intent × dt × speed |
| GameLoop.TraceRequestsOf | src/maze/Execute.java:171-230 | Over any steps, the requests to an active player are exactly one per step, in step order, each of intent × that step's duration × speed (`MovesPerStep`); an idle player gets none |
| GameLoop.TraceTotalMove | src/maze/Execute.java:171-229 | The displacements requested for a player over a sequence of steps add up to intent × (sum of the steps) × speed |
| GameLoop.TraceDependsOnOwnKeys | src/maze/Execute.java:188-231 | Over any steps, a player's requests depend only on its own four keys |
| Match.CheckWinner | src/maze/Execute.java:128-148 | Player 1 at goal wins whatever player 2 says; player 2 wins iff player 1 is not at goal and player 2 is; no outcome iff neither is |
| GameLoop.Frame | src/maze/Execute.java:128-178 | One frame's steps are a valid schedule of its elapsed time; its outcome follows the player-1-first check; the loop continues iff neither player was at goal |
| GameLoop.FrameMoves | src/maze/Execute.java:162-178 | In a frame, an active player gets exactly one request per step of `Steps(delta)`, full steps first and then the remainder, each of intent × that step × speed; that is ceil(delta / 5) requests (an idle one none), adding up to intent × delta × speed, whatever the win check saw |
| GameLoop.WinningFrameStillMoves | src/maze/Execute.java:128-178 | The frame that sees a winner stops the loop, yet every active player is still asked to move once per step of that frame |
| GameLoop.Play | src/maze/Execute.java:98-179 | The loop plays frames in order; the first always runs; every frame but the last played one continued; it stops only after a frame that saw a winner, so no frame after the first winning one is played |
| GameLoop.PlayedExtends | src/maze/Execute.java:108-179 | One more iteration of a running loop keeps the loop invariant: frames played in order, every played frame but the last continued, and the flag is the last frame's |
| GameLoop.NoFrameAfterAWin | src/maze/Execute.java:108-148 | In any run of the loop, no frame after one whose win check found a winner is played |
| GameLoop.StepsExample | src/maze/Execute.java:171-178 | 12 ms gives steps [5, 5, 2] in that order |
| GameLoop.LogicExample | src/maze/Execute.java:188-231 | Holding only "right" for one 5 ms step asks player 1, and only player 1, to move 15 thousandths of a tile right |
| GameLoop.FrameExample | src/maze/Execute.java:162-231 | A 12 ms frame holding only "right" asks player 1 to move 15, 15 and then 6 thousandths of a tile right, in that order |

## Left out

- Window, canvas, buffer strategy and drawing, including the choice between `paint` and `paintFrame` and the win/lose images: these are rendering only.
- The window listener, `System.exit` and `main`: these are process plumbing.
- `Thread.sleep(5)` and the `System.nanoTime()` sampling: the elapsed milliseconds of each frame are an input. The loop takes its second clock sample after computing the elapsed time. So the time between the two samples, and the sub-millisecond part truncated away, count towards no frame.
- The float speed `0.003f`: displacements are integer thousandths of a tile, with no float rounding.
- `CanvasMaze` and `Entity` are not part of this model. Collision, sprites and the goal test are not modelled: a move is a recorded request, and `isWinner` is a boolean input per frame.
- Concurrency: the key callbacks run on the platform's event thread and write the (non-volatile) flags while the loop runs. The model fixes the flags for the length of a frame.
- Schedule.Steps: the step counter `i` is a 32-bit `int` compared with the 64-bit `delta / 5`. When `delta / 5` exceeds 2^31 - 1 (a frame longer than about 124 days), `i++` wraps from `Integer.MAX_VALUE` to `Integer.MIN_VALUE`, which is still below `delta / 5`, so the `for` loop never ends. The model uses unbounded integers there and always returns the finite `Steps(delta)`.
- Movement.Logic: the `long` step duration is treated as unbounded. That does not matter here, because the durations the loop passes are at most 5.
- The catch-up loop has no cap. This is modelled faithfully, not corrected: `Steps` returns ceil(delta / 5) steps for any delta.
