/**
 The game loop: every frame it checks for a winner, then runs the logic once
 per step of the frame's schedule, and it stops after the first frame that
 saw a winner. Drawing, the five-millisecond sleep and the clock are left
 out; a frame's elapsed milliseconds and the players' goal tests are inputs.
 The held keys are taken to stay the same for the length of one frame.
 */
module GameLoop {
  import opened Input
  import opened Movement
  import opened Schedule
  import opened Match

  /** What the loop reads during one iteration: the held keys, the elapsed
      milliseconds since the previous iteration, and what each player's goal
      test answers at the win check. */
  datatype FrameInput = FrameInput(keys: KeyFlags, delta: nat, p1AtGoal: bool, p2AtGoal: bool)

  /** What one iteration does: the step durations it passes to the logic, the
      move requests those steps issue, the outcome of its win check, and
      whether the loop goes round again. */
  datatype FrameResult = FrameResult(steps: seq<nat>, trace: seq<MoveRequest>,
                                     outcome: Outcome, running: bool)

  /** The move requests of running the logic once per step of `steps`. */
  function Trace(f: KeyFlags, steps: seq<nat>): (r: seq<MoveRequest>)
    ensures forall i :: 0 <= i < |r| ==> Intent(f, r[i].player) != Zero
  {
    if |steps| == 0 then [] else Logic(f, steps[0]) + Trace(f, steps[1..])
  }

  /** The sum of the displacements `trace` requests for `p`. */
  function TotalMove(trace: seq<MoveRequest>, p: Player): Vec {
    if |trace| == 0 then Zero
    else if trace[0].player == p then Add(trace[0].delta, TotalMove(trace[1..], p))
    else TotalMove(trace[1..], p)
  }

  lemma {:induction false} TotalMoveAppend(s: seq<MoveRequest>, t: seq<MoveRequest>, p: Player)
    ensures TotalMove(s + t, p) == Add(TotalMove(s, p), TotalMove(t, p))
    decreases |s|
  {
    if |s| == 0 {
      assert s + t == t;
    } else {
      assert (s + t)[1..] == s[1..] + t;
      TotalMoveAppend(s[1..], t, p);
    }
  }

  lemma {:induction false} RequestTotalMove(f: KeyFlags, q: Player, dt: nat, p: Player)
    ensures TotalMove(Request(f, q, dt), p) == if q == p then Scale(Intent(f, p), dt * SpeedMilli) else Zero
  {
  }

  lemma {:induction false} LogicTotalMove(f: KeyFlags, dt: nat, p: Player)
    ensures TotalMove(Logic(f, dt), p) == Scale(Intent(f, p), dt * SpeedMilli)
  {
    TotalMoveAppend(Request(f, P1, dt), Request(f, P2, dt), p);
    RequestTotalMove(f, P1, dt, p);
    RequestTotalMove(f, P2, dt, p);
  }

  lemma AddScaled(v: Vec, x: Vec, y: Vec, a: int, b: int, c: int)
    requires x == Scale(v, a) && y == Scale(v, b) && c == a + b
    ensures Add(x, y) == Scale(v, c)
  {
    assert v.x * a + v.x * b == v.x * c;
    assert v.y * a + v.y * b == v.y * c;
  }

  /** Cutting time into steps does not change how far a player is asked to
      move in total: intent × total time × speed. */
  lemma {:induction false} TraceTotalMove(f: KeyFlags, steps: seq<nat>, p: Player)
    ensures TotalMove(Trace(f, steps), p) == Scale(Intent(f, p), Sum(steps) * SpeedMilli)
    decreases |steps|
  {
    if |steps| == 0 {
      assert Scale(Intent(f, p), 0) == Zero;
    } else {
      var v, a, rest := Intent(f, p), steps[0], steps[1..];
      TotalMoveAppend(Logic(f, a), Trace(f, rest), p);
      LogicTotalMove(f, a, p);
      TraceTotalMove(f, rest, p);
      AddScaled(v, TotalMove(Logic(f, a), p), TotalMove(Trace(f, rest), p),
                a * SpeedMilli, Sum(rest) * SpeedMilli, Sum(steps) * SpeedMilli);
    }
  }

  /** A player's requests over any number of steps depend on its own keys
      only. */
  lemma {:induction false} TraceDependsOnOwnKeys(f: KeyFlags, g: KeyFlags, steps: seq<nat>, p: Player)
    requires SameKeysOf(f, g, p)
    ensures RequestsOf(Trace(f, steps), p) == RequestsOf(Trace(g, steps), p)
    decreases |steps|
  {
    if |steps| > 0 {
      RequestsOfAppend(Logic(f, steps[0]), Trace(f, steps[1..]), p);
      RequestsOfAppend(Logic(g, steps[0]), Trace(g, steps[1..]), p);
      RequestDependsOnOwnKeys(f, g, p, steps[0]);
      TraceDependsOnOwnKeys(f, g, steps[1..], p);
    }
  }

  /** The requests a player whose intent is `v` gets over `steps`, one per
      step in step order, each of `v` × that step's duration × speed; the
      reference the logic calls are proved to follow. */
  function MovesPerStep(p: Player, v: Vec, steps: seq<nat>): (r: seq<MoveRequest>)
    ensures |r| == |steps|
    ensures forall k :: 0 <= k < |r| ==> r[k] == Move(p, Scale(v, steps[k] * SpeedMilli))
  {
    seq(|steps|, k requires 0 <= k < |steps| => Move(p, Scale(v, steps[k] * SpeedMilli)))
  }

  lemma MovesPerStepCons(p: Player, v: Vec, steps: seq<nat>)
    requires |steps| > 0
    ensures MovesPerStep(p, v, steps) == [Move(p, Scale(v, steps[0] * SpeedMilli))] + MovesPerStep(p, v, steps[1..])
  {
    var lhs, rhs := MovesPerStep(p, v, steps), [Move(p, Scale(v, steps[0] * SpeedMilli))] + MovesPerStep(p, v, steps[1..]);
    assert |lhs| == |rhs|;
    forall k | 0 <= k < |lhs| ensures lhs[k] == rhs[k] {
      if k > 0 {
        assert rhs[k] == MovesPerStep(p, v, steps[1..])[k - 1];
      }
    }
  }

  /** An active player is asked to move exactly once per step, in step order,
      by its intent × that step's duration × speed; an idle one never. */
  lemma {:induction false} TraceRequestsOf(f: KeyFlags, steps: seq<nat>, p: Player)
    ensures RequestsOf(Trace(f, steps), p)
         == if Intent(f, p) != Zero then MovesPerStep(p, Intent(f, p), steps) else []
    ensures |RequestsOf(Trace(f, steps), p)| == if Intent(f, p) != Zero then |steps| else 0
    decreases |steps|
  {
    if |steps| > 0 {
      var v, a, rest := Intent(f, p), steps[0], steps[1..];
      assert RequestsOf(Trace(f, steps), p) == Request(f, p, a) + RequestsOf(Trace(f, rest), p) by {
        RequestsOfAppend(Logic(f, a), Trace(f, rest), p);
        LogicSplitsByPlayer(f, a, p);
      }
      TraceRequestsOf(f, rest, p);
      if v != Zero {
        MovesPerStepCons(p, v, steps);
      }
    }
  }

  /** One iteration of the loop: the win check, then the steps. The steps run
      whatever the win check saw; only the next iteration is cancelled. */
  function Frame(input: FrameInput): (r: FrameResult)
    ensures IsSchedule(r.steps, input.delta)
    ensures input.p1AtGoal ==> r.outcome == Player1Won
    ensures r.outcome == Player2Won <==> !input.p1AtGoal && input.p2AtGoal
    ensures r.running <==> !Terminal(r.outcome)
    ensures r.running <==> !input.p1AtGoal && !input.p2AtGoal
  {
    var outcome := CheckWinner(input.p1AtGoal, input.p2AtGoal);
    var steps := Steps(input.delta);
    FrameResult(steps, Trace(input.keys, steps), outcome, outcome == InProgress)
  }

  /** What one frame asks of player `p`, whatever its win check saw: one move
      per step when `p` is not idle and none when it is, adding up to
      intent × elapsed time × speed. The moves follow the steps: full steps
      first, then the remainder. */
  lemma {:induction false} FrameMoves(input: FrameInput, p: Player)
    ensures RequestsOf(Frame(input).trace, p)
         == if Intent(input.keys, p) != Zero then MovesPerStep(p, Intent(input.keys, p), Steps(input.delta)) else []
    ensures |RequestsOf(Frame(input).trace, p)|
         == if Intent(input.keys, p) != Zero then (input.delta + Step - 1) / Step else 0
    ensures TotalMove(Frame(input).trace, p) == Scale(Intent(input.keys, p), input.delta * SpeedMilli)
  {
    var r := Frame(input);
    StepsIsTheOnlySchedule(r.steps, input.delta);
    TraceRequestsOf(input.keys, r.steps, p);
    TraceTotalMove(input.keys, r.steps, p);
  }

  /** The frame that sees a winner still moves every active player: with
      time elapsed, each non-idle player is asked to move once per step of
      that frame, although the loop then stops. */
  lemma {:induction false} WinningFrameStillMoves(input: FrameInput, p: Player)
    requires input.p1AtGoal || input.p2AtGoal
    requires input.delta > 0 && Intent(input.keys, p) != Zero
    ensures !Frame(input).running
    ensures |RequestsOf(Frame(input).trace, p)| == |Steps(input.delta)|
    ensures |RequestsOf(Frame(input).trace, p)| > 0
  {
    var r := Frame(input);
    StepsIsTheOnlySchedule(r.steps, input.delta);
    TraceRequestsOf(input.keys, r.steps, p);
  }

  /** `played` is what the loop has done so far with the supply `frames`, and
      `running` is its `gameRunning` flag. */
  predicate Played(frames: seq<FrameInput>, played: seq<FrameResult>, running: bool) {
    && |played| <= |frames|
    && (forall k :: 0 <= k < |played| ==> played[k] == Frame(frames[k]))
    && (forall k :: 0 <= k < |played| - 1 ==> played[k].running)
    && (running <==> |played| == 0 || played[|played| - 1].running)
  }

  /** One more iteration keeps `Played`. */
  lemma PlayedExtends(frames: seq<FrameInput>, played: seq<FrameResult>)
    requires Played(frames, played, true) && |played| < |frames|
    ensures Played(frames, played + [Frame(frames[|played|])], Frame(frames[|played|]).running)
  {
    var next := played + [Frame(frames[|played|])];
    MapExtends(frames, played, Frame);
    assert forall k :: 0 <= k < |next| - 1 ==> next[k].running by {
      forall k | 0 <= k < |next| - 1 ensures next[k].running {
        assert next[k] == played[k];
      }
    }
  }

  /** If `ys` is `f` applied to a prefix of `xs`, so is `ys` extended by `f`
      of the next element. */
  lemma MapExtends<A, B>(xs: seq<A>, ys: seq<B>, f: A -> B)
    requires |ys| < |xs| && forall k :: 0 <= k < |ys| ==> ys[k] == f(xs[k])
    ensures forall k :: 0 <= k < |ys| + 1 ==> (ys + [f(xs[|ys|])])[k] == f(xs[k])
  {
    var next := ys + [f(xs[|ys|])];
    forall k | 0 <= k < |next| ensures next[k] == f(xs[k]) {
      if k < |ys| {
        assert next[k] == ys[k];
      }
    }
  }

  /** The loop `while (gameRunning)` over the frames the environment supplies:
      it plays frames in order and stops after the first one whose win check
      found a winner (or when the supply runs out). */
  method Play(frames: seq<FrameInput>) returns (played: seq<FrameResult>)
    ensures |played| <= |frames|
    ensures |frames| > 0 ==> |played| > 0
    ensures forall i :: 0 <= i < |played| ==> played[i] == Frame(frames[i])
    ensures forall i :: 0 <= i < |played| - 1 ==> played[i].running
    ensures |played| < |frames| ==> !played[|played| - 1].running
    ensures forall j :: 0 <= j < |frames| && (frames[j].p1AtGoal || frames[j].p2AtGoal) ==> |played| <= j + 1
  {
    var gameRunning := true;
    played := [];
    while gameRunning && |played| < |frames|
      invariant Played(frames, played, gameRunning)
      decreases |frames| - |played|
    {
      PlayedExtends(frames, played);
      var r := Frame(frames[|played|]);
      played := played + [r];
      gameRunning := r.running;
    }
    NoFrameAfterAWin(frames, played);
  }

  /** If every played frame but the last continued and each played frame is
      the frame function of its input, then no frame after one whose win check
      found a winner was played. */
  lemma NoFrameAfterAWin(frames: seq<FrameInput>, played: seq<FrameResult>)
    requires |played| <= |frames|
    requires forall i :: 0 <= i < |played| ==> played[i] == Frame(frames[i])
    requires forall i :: 0 <= i < |played| - 1 ==> played[i].running
    ensures forall j :: 0 <= j < |frames| && (frames[j].p1AtGoal || frames[j].p2AtGoal) ==> |played| <= j + 1
  {
    forall j | 0 <= j < |frames| && (frames[j].p1AtGoal || frames[j].p2AtGoal)
      ensures |played| <= j + 1
    {
      assert !Frame(frames[j]).running;
    }
  }

  /** The worked example of the scheduler: 12 elapsed milliseconds give two
      full steps and one of 2 ms, in that order. */
  lemma StepsExample()
    ensures Steps(12) == [5, 5, 2]
  {
  }

  /** The worked example of one logic call: holding only "right" for one full
      step asks player 1, and only player 1, to move 15 thousandths of a tile
      to the right. */
  lemma LogicExample()
    ensures Logic(Set(NoKeysHeld, Right, true), Step) == [Move(P1, Vec(15, 0))]
  {
  }

  /** A whole frame of 12 ms holding only "right": player 1 is asked to move
      15, 15 and then 6 thousandths of a tile to the right, in that order. */
  lemma FrameExample()
    ensures RequestsOf(Frame(FrameInput(Set(NoKeysHeld, Right, true), 12, false, false)).trace, P1)
         == [Move(P1, Vec(15, 0)), Move(P1, Vec(15, 0)), Move(P1, Vec(6, 0))]
  {
    var input := FrameInput(Set(NoKeysHeld, Right, true), 12, false, false);
    assert Intent(input.keys, P1) == Vec(1, 0);
    StepsExample();
    var moves := MovesPerStep(P1, Vec(1, 0), [5, 5, 2]);
    assert moves == [Move(P1, Vec(15, 0)), Move(P1, Vec(15, 0)), Move(P1, Vec(6, 0))];
    FrameMoves(input, P1);
  }
}
