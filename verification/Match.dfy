/**
 The win check done once per frame: player 1 is asked first whether it has
 reached its goal, and player 2 is asked only when player 1 has not. The
 goal test itself belongs to the player entities, so its two answers are
 inputs here.
 */
module Match {

  datatype Outcome = InProgress | Player1Won | Player2Won

  predicate Terminal(o: Outcome) {
    o != InProgress
  }

  /** The outcome the frame's `if / else if` on the two goal tests yields. */
  function CheckWinner(p1AtGoal: bool, p2AtGoal: bool): (r: Outcome)
    ensures p1AtGoal ==> r == Player1Won
    ensures r == Player2Won <==> !p1AtGoal && p2AtGoal
    ensures r == InProgress <==> !p1AtGoal && !p2AtGoal
  {
    if p1AtGoal then Player1Won
    else if p2AtGoal then Player2Won
    else InProgress
  }
}
