/**
 * The input half of the game loop: what a polled event does to the
 * snake's velocity, and which events end the session.
 */
module Input {
  import opened Coordinates

  /** The keys the game distinguishes; every other key is OtherKey. */
  datatype Key = Escape | Up | Left | Right | Down | Q | OtherKey

  /**
   * One result of a non-blocking poll. A key event is delivered for both
   * key-down and key-up (`pressed`), and the game reacts to both alike.
   */
  datatype Event = NoEvent | QuitEvent | KeyEvent(key: Key, pressed: bool) | OtherEvent

  /** What the loop does with an event. */
  datatype Action = Stop | SetSpeed(velocity: Coords) | Ignore

  predicate IsQuitKey(k: Key) {
    k == Escape || k == Q
  }

  predicate IsArrowKey(k: Key) {
    k == Up || k == Left || k == Right || k == Down
  }

  /** The match on the polled event in the main loop. */
  function Control(e: Event): (a: Action)
    ensures a == Stop <==> e == QuitEvent || (e.KeyEvent? && IsQuitKey(e.key))
    ensures a.SetSpeed? <==> e.KeyEvent? && IsArrowKey(e.key)
    ensures a.SetSpeed? ==> IsDirection(a.velocity)
  {
    match e
    case QuitEvent => Stop
    case KeyEvent(k, _) =>
      (match k
      case Escape => Stop
      case Up => SetSpeed(Coords(0, -1))
      case Left => SetSpeed(Coords(-1, 0))
      case Right => SetSpeed(Coords(1, 0))
      case Down => SetSpeed(Coords(0, 1))
      case Q => Stop
      case OtherKey => Ignore)
    case _ => Ignore
  }

  /** The velocity after the event: the arrow key's, else unchanged. */
  function NextSpeed(speed: Coords, e: Event): (s: Coords)
    ensures IsDirection(speed) ==> IsDirection(s)
    ensures e.KeyEvent? && IsArrowKey(e.key) ==> Control(e) == SetSpeed(s)
    ensures !(e.KeyEvent? && IsArrowKey(e.key)) ==> s == speed
  {
    match Control(e)
    case SetSpeed(v) => v
    case _ => speed
  }

  /** Screen coordinates grow downwards, so Up decreases y. */
  lemma ArrowVelocities(pressed: bool)
    ensures Control(KeyEvent(Up, pressed)) == SetSpeed(Coords(0, -1))
    ensures Control(KeyEvent(Left, pressed)) == SetSpeed(Coords(-1, 0))
    ensures Control(KeyEvent(Right, pressed)) == SetSpeed(Coords(1, 0))
    ensures Control(KeyEvent(Down, pressed)) == SetSpeed(Coords(0, 1))
  {
  }

  /** Each of the four directions is selected by exactly one key. */
  lemma SteeringIsOneToOne(d: Coords)
    requires IsDirection(d)
    ensures exists k :: Control(KeyEvent(k, true)) == SetSpeed(d)
    ensures forall k1, k2, p1, p2 ::
              Control(KeyEvent(k1, p1)) == SetSpeed(d) && Control(KeyEvent(k2, p2)) == SetSpeed(d) ==> k1 == k2
  {
    var k := if d.x == 1 then Right else if d.x == -1 then Left else if d.y == 1 then Down else Up;
    assert Control(KeyEvent(k, true)) == SetSpeed(d);
  }

  /**
   * Steering does not forbid turning back on the body: from any direction
   * some event selects the opposite one.
   */
  lemma ReversalAccepted(speed: Coords)
    requires IsDirection(speed)
    ensures exists e :: NextSpeed(speed, e) == Negate(speed) && IsDirection(Negate(speed))
  {
    var d := Negate(speed);
    SteeringIsOneToOne(d);
    var k :| Control(KeyEvent(k, true)) == SetSpeed(d);
    assert NextSpeed(speed, KeyEvent(k, true)) == d;
  }
}
