/**
 * The session the main loop owns: body, apple, velocity, the random
 * generator's remaining draws and the time of the last tick, updated in
 * place by the tick and by steering.
 */
module Session {
  import opened Coordinates
  import opened Input
  import opened Simulation
  import opened TickProperties

  /** Milliseconds that must pass, strictly, between two ticks. */
  const TICK_MS: int := 100

  /** The tick gate: more than TICK_MS since the last tick. */
  function TickDue(last: int, now: int): (due: bool)
    ensures due ==> now - last >= TICK_MS + 1
    ensures now <= last ==> !due
  {
    last + TICK_MS < now
  }

  /** Exactly TICK_MS after the last tick is still too early. */
  lemma TickGateIsStrict(last: int)
    ensures !TickDue(last, last + TICK_MS) && TickDue(last, last + TICK_MS + 1)
    ensures forall now :: now <= last + TICK_MS ==> !TickDue(last, now)
  {
  }

  /** Once due, a tick stays due as time goes on. */
  lemma TickGateIsMonotone(last: int, now: int, later: int)
    requires TickDue(last, now) && now <= later
    ensures TickDue(last, later)
  {
  }

  class Game {
    var snake: seq<Coords>
    var apple: Coords
    var speed: Coords
    var rng: seq<Coords>
    var lastRender: int

    function State(): World
      reads this
    {
      World(snake, apple, speed, rng)
    }

    ghost predicate Valid()
      reads this
    {
      WellFormed(State())
    }

    /**
     * Session start: draw the apple, draw the tail until its column
     * differs from the apple's, then push the tail and the two cells
     * ahead of it to the front.
     */
    constructor (draws: seq<Coords>, start: int)
      requires CanSeed(draws)
      ensures Valid() && State() == Seeded(draws) && lastRender == start
    {
      var v := START_SPEED;
      var a := draws[0];
      var tail, used := PickTail(a, draws[1..]);
      var body: seq<Coords> := [];
      body := [tail] + body;
      body := [Add(tail, v)] + body;
      body := [Add(Add(tail, v), v)] + body;
      snake, apple, speed, rng, lastRender := body, a, v, draws[1 + used..], start;
      SeededShape(draws);
    }

    /** One simulation tick: win, grow and respawn, lose, or move. */
    method Tick() returns (outcome: Outcome)
      requires Valid() && CanTick(State())
      modifies this
      ensures Valid()
      ensures (outcome, State()) == Step(old(State()))
      ensures lastRender == old(lastRender)
    {
      StepPreservesWellFormed(State());
      var next := Add(snake[0], speed);
      if Eq(next, apple) {
        if |snake| == WIN_LENGTH {
          return Won;
        }
        snake := [next] + snake;
        var a, used := SpawnApple(snake, rng);
        apple, rng := a, rng[used..];
      } else {
        if next in snake {
          return Lost;
        }
        snake := snake[..|snake| - 1];
        snake := [next] + snake;
      }
      outcome := Running;
    }

    /**
     * One pass of the main loop at time `now`: tick if due (a terminal
     * outcome ends the pass), then act on the polled event.
     */
    method Iterate(now: int, e: Event) returns (outcome: Outcome)
      requires Valid()
      requires TickDue(lastRender, now) ==> CanTick(State())
      modifies this
      ensures Valid()
      ensures var due := TickDue(old(lastRender), now);
        var ticked := if due then Step(old(State())) else (Running, old(State()));
        lastRender == (if due then now else old(lastRender)) &&
        (ticked.0 != Running ==> outcome == ticked.0 && State() == ticked.1) &&
        (ticked.0 == Running ==>
           State() == ticked.1.(speed := NextSpeed(ticked.1.speed, e)) &&
           outcome == (if Control(e) == Stop then Quit else Running))
    {
      if TickDue(lastRender, now) {
        lastRender := now;
        outcome := Tick();
        if outcome != Running {
          return;
        }
      }
      outcome := Running;
      match Control(e)
      case Stop =>
        outcome := Quit;
      case SetSpeed(v) =>
        speed := v;
      case Ignore =>
    }
  }
}
