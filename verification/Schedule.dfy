/**
 The tick scheduler of the game loop: the milliseconds elapsed since the
 previous frame are cut into full steps of five milliseconds, followed by
 one shorter step for what is left over, if anything is. Each step becomes
 one call of the game logic.

 The elapsed time is a natural number: it is the difference of two samples
 of a monotonic nanosecond clock, truncated to whole milliseconds. On
 non-negative operands the platform's truncating division and remainder
 agree with Dafny's. Note that the loop takes its second clock sample
 after computing the elapsed time, so the time between the two samples,
 and the sub-millisecond part truncated away, belong to no frame.
 */
module Schedule {

  /** The fixed step length in milliseconds. */
  const Step: nat := 5

  function Sum(s: seq<nat>): nat {
    if |s| == 0 then 0 else s[0] + Sum(s[1..])
  }

  lemma {:induction false} SumAppend(s: seq<nat>, t: seq<nat>)
    ensures Sum(s + t) == Sum(s) + Sum(t)
    decreases |s|
  {
    if |s| == 0 {
      assert s + t == t;
    } else {
      assert (s + t)[1..] == s[1..] + t;
      SumAppend(s[1..], t);
    }
  }

  /** `n` full steps. */
  function FullSteps(n: nat): (r: seq<nat>)
    ensures |r| == n
    ensures forall i :: 0 <= i < |r| ==> r[i] == Step
    ensures Sum(r) == n * Step
  {
    if n == 0 then [] else [Step] + FullSteps(n - 1)
  }

  /** The durations, in call order, of the logic calls that one frame makes for
      `delta` elapsed milliseconds: `delta / 5` full steps, then the
      remainder `delta % 5` if it is not zero. */
  function Steps(delta: nat): (r: seq<nat>)
    ensures Sum(r) == delta
    ensures forall i :: 0 <= i < |r| ==> 1 <= r[i] <= Step
    ensures forall i :: 0 <= i < |r| - 1 ==> r[i] == Step
    ensures |r| == (delta + Step - 1) / Step
    ensures |r| == 0 <==> delta == 0
  {
    var full := FullSteps(delta / Step);
    var rest := if delta % Step != 0 then [delta % Step] else [];
    SumAppend(full, rest);
    full + rest
  }

  /** An independent description of a frame's schedule: steps of one to five
      milliseconds, all of them full except possibly the last, adding up to
      the elapsed time. */
  predicate IsSchedule(s: seq<nat>, delta: nat) {
    && (forall i :: 0 <= i < |s| ==> 1 <= s[i] <= Step)
    && (forall i :: 0 <= i < |s| - 1 ==> s[i] == Step)
    && Sum(s) == delta
  }

  lemma {:induction false} StepsPeel(delta: nat)
    requires delta >= Step
    ensures Steps(delta) == [Step] + Steps(delta - Step)
  {
  }

  /** `Steps` is the one and only schedule of `delta`: a frame can split its
      time into steps of at most five milliseconds, all but the last full,
      in no other way. */
  lemma StepsIsTheOnlySchedule(s: seq<nat>, delta: nat)
    ensures IsSchedule(s, delta) <==> s == Steps(delta)
  {
    if IsSchedule(s, delta) {
      ScheduleIsSteps(s, delta);
    }
  }

  lemma {:induction false} ScheduleIsSteps(s: seq<nat>, delta: nat)
    requires IsSchedule(s, delta)
    ensures s == Steps(delta)
    decreases |s|
  {
    if |s| == 1 {
      assert Sum(s) == s[0] + Sum(s[1..]) && s[1..] == [];
      if s[0] == Step {
        StepsPeel(delta);
      }
    } else if |s| > 1 {
      var rest := s[1..];
      assert Sum(s) == Step + Sum(rest);
      assert Sum(rest) == rest[0] + Sum(rest[1..]);
      assert IsSchedule(rest, delta - Step) by {
        forall i | 0 <= i < |rest| - 1 ensures rest[i] == Step {
          assert rest[i] == s[i + 1];
        }
      }
      ScheduleIsSteps(rest, delta - Step);
      StepsPeel(delta);
      assert s == [s[0]] + rest;
    }
  }
}
