/**
 The keyboard state of the maze game: eight independent "is this key held"
 flags, four per player, and the press/release callbacks that maintain them.
 Player 1 steers with the arrow keys, player 2 with W, A, S and D.
 */
module Input {

  datatype Option<T> = None | Some(value: T)

  /** The eight keys the game listens to. */
  datatype Key = Left | Right | Up | Down | W | A | S | D

  datatype Player = P1 | P2

  /** The held/not-held flag of every key the game listens to. */
  datatype KeyFlags = KeyFlags(left: bool, right: bool, up: bool, down: bool,
                               w: bool, a: bool, s: bool, d: bool)

  /** No key held: the state before any event arrives. */
  const NoKeysHeld := KeyFlags(false, false, false, false, false, false, false, false)

  // Virtual key codes of the platform's key events.
  const VK_LEFT: int := 0x25
  const VK_UP: int := 0x26
  const VK_RIGHT: int := 0x27
  const VK_DOWN: int := 0x28
  const VK_A: int := 0x41
  const VK_D: int := 0x44
  const VK_S: int := 0x53
  const VK_W: int := 0x57

  /** The player a key steers. */
  function Owner(k: Key): Player {
    match k
    case Left | Right | Up | Down => P1
    case W | A | S | D => P2
  }

  /** The key code that identifies `k` in a key event. */
  function CodeOf(k: Key): int {
    match k
    case Left => VK_LEFT
    case Right => VK_RIGHT
    case Up => VK_UP
    case Down => VK_DOWN
    case W => VK_W
    case A => VK_A
    case S => VK_S
    case D => VK_D
  }

  /** The key a key code denotes, if the game listens to it at all. */
  function KeyOf(code: int): (r: Option<Key>)
    ensures r.Some? ==> CodeOf(r.value) == code
    ensures forall k :: CodeOf(k) == code ==> r == Some(k)
  {
    if code == VK_LEFT then Some(Left)
    else if code == VK_RIGHT then Some(Right)
    else if code == VK_UP then Some(Up)
    else if code == VK_DOWN then Some(Down)
    else if code == VK_W then Some(W)
    else if code == VK_A then Some(A)
    else if code == VK_S then Some(S)
    else if code == VK_D then Some(D)
    else None
  }

  /** The flag of key `k`. */
  function Get(f: KeyFlags, k: Key): bool {
    match k
    case Left => f.left
    case Right => f.right
    case Up => f.up
    case Down => f.down
    case W => f.w
    case A => f.a
    case S => f.s
    case D => f.d
  }

  /** `f` with the flag of `k` overwritten by `v`; the reference update that
      the key callbacks are proved to agree with. */
  function Set(f: KeyFlags, k: Key, v: bool): KeyFlags {
    match k
    case Left => f.(left := v)
    case Right => f.(right := v)
    case Up => f.(up := v)
    case Down => f.(down := v)
    case W => f.(w := v)
    case A => f.(a := v)
    case S => f.(s := v)
    case D => f.(d := v)
  }

  /** `Set` changes the flag of its key and no other: reading any key `j`
      after the update gives `v` for the updated key and the old flag for
      every other key. */
  lemma GetSet(f: KeyFlags, k: Key, v: bool, j: Key)
    ensures Get(Set(f, k, v), j) == if j == k then v else Get(f, j)
  {
    match j
    case Left => case Right => case Up => case Down =>
    case W => case A => case S => case D =>
  }

  /** The second of two updates of the same flag wins. */
  lemma SetTwice(f: KeyFlags, k: Key, u: bool, v: bool)
    ensures Set(Set(f, k, u), k, v) == Set(f, k, v)
  {
    match k
    case Left => case Right => case Up => case Down =>
    case W => case A => case S => case D =>
  }

  /** The eight independent code tests shared by both callbacks: every test
      whose code matches stores `v` into its own flag. The tests touch
      distinct flags, so they are written field by field. */
  function Record(f: KeyFlags, code: int, v: bool): KeyFlags {
    KeyFlags(
      left := if code == VK_LEFT then v else f.left,
      right := if code == VK_RIGHT then v else f.right,
      up := if code == VK_UP then v else f.up,
      down := if code == VK_DOWN then v else f.down,
      w := if code == VK_W then v else f.w,
      a := if code == VK_A then v else f.a,
      s := if code == VK_S then v else f.s,
      d := if code == VK_D then v else f.d)
  }

  /** The code tests store `v` into the flag whose code matches and leave every
      other flag alone. */
  lemma GetRecord(f: KeyFlags, code: int, v: bool)
    ensures forall k :: Get(Record(f, code, v), k) == if CodeOf(k) == code then v else Get(f, k)
  {
    forall k ensures Get(Record(f, code, v), k) == if CodeOf(k) == code then v else Get(f, k) {
      if k.Left? {} else if k.Right? {} else if k.Up? {} else if k.Down? {}
      else if k.W? {} else if k.A? {} else if k.S? {} else {}
    }
  }

  /** The code tests are the reference update of the flag the code denotes,
      and no update at all for a code the game ignores. */
  lemma RecordIsSet(f: KeyFlags, code: int, v: bool)
    ensures KeyOf(code).Some? ==> Record(f, code, v) == Set(f, KeyOf(code).value, v)
    ensures KeyOf(code).None? ==> Record(f, code, v) == f
  {
    match KeyOf(code)
    case Some(k) => RecordOfKey(f, k, v);
    case None =>
  }

  /** The code tests for a key's own code update that key's flag. */
  lemma RecordOfKey(f: KeyFlags, k: Key, v: bool)
    ensures Record(f, CodeOf(k), v) == Set(f, k, v)
  {
    match k
    case Left => case Right => case Up => case Down =>
    case W => case A => case S => case D =>
  }

  /** The press callback: sets exactly the flag of the pressed key. */
  function KeyPressed(f: KeyFlags, code: int): (r: KeyFlags)
    ensures forall k :: Get(r, k) == (KeyOf(code) == Some(k) || Get(f, k))
  {
    GetRecord(f, code, true);
    Record(f, code, true)
  }

  /** The release callback: clears exactly the flag of the released key. */
  function KeyReleased(f: KeyFlags, code: int): (r: KeyFlags)
    ensures forall k :: Get(r, k) == (KeyOf(code) != Some(k) && Get(f, k))
  {
    GetRecord(f, code, false);
    Record(f, code, false)
  }

  /** A press of a key the game listens to is the reference update of that one
      flag to true, and a press of any other key is no change at all. */
  lemma {:induction false} KeyPressedIsSet(f: KeyFlags, code: int)
    ensures KeyOf(code).Some? ==> KeyPressed(f, code) == Set(f, KeyOf(code).value, true)
    ensures KeyOf(code).None? ==> KeyPressed(f, code) == f
  {
    RecordIsSet(f, code, true);
  }

  /** The release counterpart of `KeyPressedIsSet`. */
  lemma {:induction false} KeyReleasedIsSet(f: KeyFlags, code: int)
    ensures KeyOf(code).Some? ==> KeyReleased(f, code) == Set(f, KeyOf(code).value, false)
    ensures KeyOf(code).None? ==> KeyReleased(f, code) == f
  {
    RecordIsSet(f, code, false);
  }

  /** Repeating a press (keyboard auto-repeat) changes nothing more. */
  lemma {:induction false} KeyPressedIdempotent(f: KeyFlags, code: int)
    ensures KeyPressed(KeyPressed(f, code), code) == KeyPressed(f, code)
  {
  }

  /** Repeating a release changes nothing more. */
  lemma {:induction false} KeyReleasedIdempotent(f: KeyFlags, code: int)
    ensures KeyReleased(KeyReleased(f, code), code) == KeyReleased(f, code)
  {
  }

  /** Press then release of the same key leaves that key released, whatever it
      was before, and every other key as it was before the press. The last
      event wins. */
  lemma {:induction false} PressThenRelease(f: KeyFlags, k: Key)
    ensures KeyReleased(KeyPressed(f, CodeOf(k)), CodeOf(k)) == Set(f, k, false)
    ensures !Get(KeyReleased(KeyPressed(f, CodeOf(k)), CodeOf(k)), k)
  {
    assert KeyOf(CodeOf(k)) == Some(k);
    KeyPressedIsSet(f, CodeOf(k));
    KeyReleasedIsSet(Set(f, k, true), CodeOf(k));
    SetTwice(f, k, true, false);
  }

  /** Release then press of the same key leaves it held and the others as they
      were. */
  lemma {:induction false} ReleaseThenPress(f: KeyFlags, k: Key)
    ensures KeyPressed(KeyReleased(f, CodeOf(k)), CodeOf(k)) == Set(f, k, true)
  {
    assert KeyOf(CodeOf(k)) == Some(k);
    KeyReleasedIsSet(f, CodeOf(k));
    KeyPressedIsSet(Set(f, k, false), CodeOf(k));
    SetTwice(f, k, false, true);
  }
}
