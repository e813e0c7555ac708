/** The two closed enumerations every other component switches on. */
module Types {

  /** High-level game states, in declaration order RUNNING, GAME_OVER, PAUSED. */
  datatype GameState = Running | GameOver | Paused

  /** Movement directions, in declaration order NONE, UP, DOWN, LEFT, RIGHT. */
  datatype Direction = None | Up | Down | Left | Right

  /** The underlying integer of a direction: its position in the declaration. */
  function DirectionOrdinal(d: Direction): (n: nat)
    ensures n < 5
    ensures n == 0 <==> d == None
  {
    match d
    case None => 0
    case Up => 1
    case Down => 2
    case Left => 3
    case Right => 4
  }

  /** A cast from an integer that names an enumerator back to the direction. */
  function DirectionFromOrdinal(n: int): (d: Direction)
    requires 0 <= n < 5
    ensures DirectionOrdinal(d) == n
  {
    if n == 0 then None
    else if n == 1 then Up
    else if n == 2 then Down
    else if n == 3 then Left
    else Right
  }

  /** The two casts are inverse, so exactly five directions exist, NONE first. */
  lemma DirectionOrdinalRoundTrip(d: Direction)
    ensures DirectionFromOrdinal(DirectionOrdinal(d)) == d
  {
  }

  /** Every integer in 1..4 names a moving direction, never NONE. */
  lemma MovingOrdinals(n: int)
    requires 1 <= n <= 4
    ensures DirectionFromOrdinal(n) != None
    ensures DirectionFromOrdinal(n) in {Up, Down, Left, Right}
  {
  }

  /** The underlying integer of a game state: its position in the declaration. */
  function GameStateOrdinal(s: GameState): (n: nat)
    ensures n < 3
    ensures n == 0 <==> s == Running
  {
    match s
    case Running => 0
    case GameOver => 1
    case Paused => 2
  }

  /** Distinct game states have distinct ordinals: exactly three states exist. */
  lemma GameStateOrdinalInjective(s: GameState, t: GameState)
    ensures GameStateOrdinal(s) == GameStateOrdinal(t) ==> s == t
  {
  }
}
