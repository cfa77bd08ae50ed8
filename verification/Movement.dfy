/**
 One simulation step of the maze game: the held keys become a signed
 per-axis intent for each player, and every player whose intent is not zero
 is asked to move by intent × step duration × speed. The player entity that
 carries out (or blocks) the move is outside this model, so a step is
 described by the list of move requests it issues, in issue order.
 */
module Movement {
  import opened Input

  /** A per-axis integer vector: an intent, or a displacement in thousandths
      of a maze tile. Screen y grows downwards, so "up" is negative. */
  datatype Vec = Vec(x: int, y: int)

  const Zero := Vec(0, 0)

  /** The speed factor 0.003 tiles per millisecond, as thousandths of a tile
      per millisecond, so that displacements stay integers. */
  const SpeedMilli: nat := 3

  /** A request to the entity of `player` to attempt a move by `delta`
      (thousandths of a tile). Whether the maze lets it through is the
      entity's business. */
  datatype MoveRequest = Move(player: Player, delta: Vec)

  function Add(u: Vec, v: Vec): Vec {
    Vec(u.x + v.x, u.y + v.y)
  }

  function Scale(v: Vec, k: int): Vec {
    Vec(v.x * k, v.y * k)
  }

  /** One axis of an intent: the negative key counts -1, the positive key +1,
      starting from 0. */
  function Axis(negative: bool, positive: bool): (r: int)
    ensures -1 <= r <= 1
    ensures r == 0 <==> negative == positive
    ensures r == -1 <==> negative && !positive
    ensures r == 1 <==> positive && !negative
  {
    (if positive then 1 else 0) - (if negative then 1 else 0)
  }

  /** The direction `p` is asking to move in, from its own four keys. */
  function Intent(f: KeyFlags, p: Player): (r: Vec)
    ensures -1 <= r.x <= 1 && -1 <= r.y <= 1
    ensures p == P1 ==> (r.x == 0 <==> f.left == f.right) && (r.y == 0 <==> f.up == f.down)
    ensures p == P2 ==> (r.x == 0 <==> f.a == f.d) && (r.y == 0 <==> f.w == f.s)
    ensures p == P1 ==> (r.x == -1 <==> f.left && !f.right) && (r.x == 1 <==> f.right && !f.left)
    ensures p == P1 ==> (r.y == -1 <==> f.up && !f.down) && (r.y == 1 <==> f.down && !f.up)
    ensures p == P2 ==> (r.x == -1 <==> f.a && !f.d) && (r.x == 1 <==> f.d && !f.a)
    ensures p == P2 ==> (r.y == -1 <==> f.w && !f.s) && (r.y == 1 <==> f.s && !f.w)
  {
    match p
    case P1 => Vec(Axis(f.left, f.right), Axis(f.up, f.down))
    case P2 => Vec(Axis(f.a, f.d), Axis(f.w, f.s))
  }

  /** The move requests of player `p` in one step of `dt` milliseconds:
      none when it is idle, otherwise exactly one. */
  function Request(f: KeyFlags, p: Player, dt: nat): (r: seq<MoveRequest>)
    ensures |r| <= 1
    ensures |r| == 1 <==> Intent(f, p) != Zero
    ensures forall i :: 0 <= i < |r| ==> r[i].player == p
    ensures forall i :: 0 <= i < |r| ==> r[i].delta == Scale(Intent(f, p), dt * SpeedMilli)
  {
    var i := Intent(f, p);
    if i.x != 0 || i.y != 0 then [Move(p, Scale(i, dt * SpeedMilli))] else []
  }

  /** The game logic of one step of `dt` milliseconds: player 1's request, if
      any, then player 2's. */
  function Logic(f: KeyFlags, dt: nat): (r: seq<MoveRequest>)
    ensures |r| <= 2
    ensures forall p :: (exists i :: 0 <= i < |r| && r[i].player == p) <==> Intent(f, p) != Zero
    ensures forall i, j :: 0 <= i < |r| && 0 <= j < |r| && r[i].player == r[j].player ==> i == j
    ensures forall i :: 0 <= i < |r| ==> r[i].delta == Scale(Intent(f, r[i].player), dt * SpeedMilli)
    ensures forall i :: 0 <= i < |r| && r[i].player == P2 ==> i == |r| - 1
  {
    var r1, r2 := Request(f, P1, dt), Request(f, P2, dt);
    var r := r1 + r2;
    assert |r1| == 1 ==> r[0] == r1[0];
    assert |r2| == 1 ==> r[|r| - 1] == r2[0];
    r
  }

  /** The requests `trace` addresses to `p`, in order. */
  function RequestsOf(trace: seq<MoveRequest>, p: Player): (r: seq<MoveRequest>)
    ensures |r| <= |trace|
    ensures forall i :: 0 <= i < |r| ==> r[i].player == p && r[i] in trace
  {
    if |trace| == 0 then []
    else if trace[0].player == p then [trace[0]] + RequestsOf(trace[1..], p)
    else RequestsOf(trace[1..], p)
  }

  lemma {:induction false} RequestsOfAppend(s: seq<MoveRequest>, t: seq<MoveRequest>, p: Player)
    ensures RequestsOf(s + t, p) == RequestsOf(s, p) + RequestsOf(t, p)
    decreases |s|
  {
    if |s| == 0 {
      assert s + t == t;
    } else {
      assert (s + t)[1..] == s[1..] + t;
      RequestsOfAppend(s[1..], t, p);
    }
  }

  /** Two key states agree on every key `p` steers with. */
  predicate SameKeysOf(f: KeyFlags, g: KeyFlags, p: Player) {
    forall k :: Owner(k) == p ==> Get(f, k) == Get(g, k)
  }

  /** A player's move request depends on its own four keys only: the other
      player's keys cannot change it. */
  lemma {:induction false} RequestDependsOnOwnKeys(f: KeyFlags, g: KeyFlags, p: Player, dt: nat)
    requires SameKeysOf(f, g, p)
    ensures Request(f, p, dt) == Request(g, p, dt)
    ensures RequestsOf(Logic(f, dt), p) == RequestsOf(Logic(g, dt), p)
  {
    IntentDependsOnOwnKeys(f, g, p);
    LogicSplitsByPlayer(f, dt, p);
    LogicSplitsByPlayer(g, dt, p);
  }

  /** A player's intent is a function of its own four keys. */
  lemma {:induction false} IntentDependsOnOwnKeys(f: KeyFlags, g: KeyFlags, p: Player)
    requires SameKeysOf(f, g, p)
    ensures Intent(f, p) == Intent(g, p)
  {
    match p
    case P1 =>
      assert Owner(Left) == P1 && Owner(Right) == P1 && Owner(Up) == P1 && Owner(Down) == P1;
      assert Get(f, Left) == Get(g, Left) && Get(f, Right) == Get(g, Right);
      assert Get(f, Up) == Get(g, Up) && Get(f, Down) == Get(g, Down);
    case P2 =>
      assert Owner(A) == P2 && Owner(D) == P2 && Owner(W) == P2 && Owner(S) == P2;
      assert Get(f, A) == Get(g, A) && Get(f, D) == Get(g, D);
      assert Get(f, W) == Get(g, W) && Get(f, S) == Get(g, S);
  }

  /** The requests one step addresses to `p` are exactly `p`'s own request. */
  lemma {:induction false} LogicSplitsByPlayer(f: KeyFlags, dt: nat, p: Player)
    ensures RequestsOf(Logic(f, dt), p) == Request(f, p, dt)
  {
  }

  /** A key event of one player's key leaves the other player's requests
      unchanged. */
  lemma {:induction false} OtherPlayersKeyIsIrrelevant(f: KeyFlags, code: int, p: Player, dt: nat)
    requires KeyOf(code).Some? && Owner(KeyOf(code).value) != p
    ensures Request(KeyPressed(f, code), p, dt) == Request(f, p, dt)
    ensures Request(KeyReleased(f, code), p, dt) == Request(f, p, dt)
  {
    var pressed, released := KeyPressed(f, code), KeyReleased(f, code);
    assert SameKeysOf(pressed, f, p) && SameKeysOf(released, f, p) by {
      forall k | Owner(k) == p ensures Get(pressed, k) == Get(f, k) == Get(released, k) {
        assert KeyOf(code) != Some(k);
      }
    }
    IntentDependsOnOwnKeys(pressed, f, p);
    IntentDependsOnOwnKeys(released, f, p);
  }
}
