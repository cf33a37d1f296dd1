/**
 src/stochastic.rs: simulating a game and a series of games. The expected
 outcome of a pairing (`calculate_expected_outcome`, floating-point maths)
 is the parameter `expected`, and the uniform draw `thread_rng().gen::<f64>()`
 of each game is supplied: one draw per game, consumed in order.
 */
module Stochastic {
  import opened Elo
  import opened Chess

  /** The function from a (white, black) rating pair to its expected outcome. */
  type Model = (Rating, Rating) -> ExpectedOutcome

  /**
   The outcome the draw `v` selects: `v <= e.white` is a white win,
   `v <= e.white + e.black` a black win, anything larger a draw; both
   bands are closed at the top.
   */
  function SelectOutcome(e: ExpectedOutcome, v: real): Outcome
  {
    if v <= e.white then WhiteWin
    else if v <= e.white + e.black then BlackWin
    else Draw
  }

  /**
   `simulate_game`: the outcome of one pairing under the draw `v`, from the
   three bands of the pairing's expected outcome, each closed at the top.
   */
  function SimulateGame(expected: Model, white: Rating, black: Rating, v: real): (o: Outcome)
    ensures o == WhiteWin <==> v <= expected(white, black).white
    ensures o == BlackWin <==>
      expected(white, black).white < v <= expected(white, black).white + expected(white, black).black
    ensures o == Draw <==>
      expected(white, black).white < v && expected(white, black).white + expected(white, black).black < v
  {
    SelectOutcome(expected(white, black), v)
  }

  /**
   `simulate_games`: every game keeps its players, names and ratings, and
   gets the outcome its own ratings and its own draw select.
   */
  function SimulateGames(expected: Model, actual: seq<Game>, draws: seq<real>): (simulated: seq<Game>)
    requires |draws| == |actual|
    ensures |simulated| == |actual|
    ensures forall i :: 0 <= i < |actual| ==>
      && simulated[i].white == actual[i].white
      && simulated[i].black == actual[i].black
      && simulated[i].outcome == SelectOutcome(expected(actual[i].white.rating, actual[i].black.rating), draws[i])
  {
    if actual == [] then []
    else
      [Game(actual[0].white, actual[0].black,
            SimulateGame(expected, actual[0].white.rating, actual[0].black.rating, draws[0]))]
      + SimulateGames(expected, actual[1..], draws[1..])
  }

  /**
   The three bands of the draw, with their closed upper ends; they are
   disjoint and cover every draw. With a non-negative black probability the
   draw band is everything above `e.white + e.black`.
   */
  lemma SelectOutcomeBands(e: ExpectedOutcome, v: real)
    ensures SelectOutcome(e, v) == WhiteWin <==> v <= e.white
    ensures SelectOutcome(e, v) == BlackWin <==> e.white < v <= e.white + e.black
    ensures SelectOutcome(e, v) == Draw <==> e.white < v && e.white + e.black < v
    ensures e.black >= 0.0 ==> (SelectOutcome(e, v) == Draw <==> e.white + e.black < v)
  {
  }

  /** Position of an outcome in the order the bands are laid out on the unit interval. */
  function BandIndex(o: Outcome): nat
  {
    match o
    case WhiteWin => 0
    case BlackWin => 1
    case Draw => 2
  }

  /**
   A larger draw never selects an earlier band. (With a negative black
   probability the black band is empty, and the order still holds.)
   */
  lemma SelectOutcomeMonotone(e: ExpectedOutcome, v: real, w: real)
    requires v <= w
    ensures BandIndex(SelectOutcome(e, v)) <= BandIndex(SelectOutcome(e, w))
  {
  }

  /**
   The draws are consumed in input order: simulating a concatenation with
   the concatenated draws simulates each part with its own draws.
   */
  lemma SimulateGamesAppend(expected: Model, a: seq<Game>, b: seq<Game>, da: seq<real>, db: seq<real>)
    requires |da| == |a| && |db| == |b|
    ensures SimulateGames(expected, a + b, da + db) == SimulateGames(expected, a, da) + SimulateGames(expected, b, db)
  {
  }

  /**
   Simulating a simulated series with the same draws changes nothing: the
   outcome of a game depends on nothing but its ratings and its draw.
   */
  lemma SimulateGamesIdempotent(expected: Model, actual: seq<Game>, draws: seq<real>)
    requires |draws| == |actual|
    ensures SimulateGames(expected, SimulateGames(expected, actual, draws), draws) == SimulateGames(expected, actual, draws)
  {
  }

  /** Two series with the same pairings (players and ratings) simulate to the same series under the same draws. */
  lemma SimulateGamesIgnoresOutcomes(expected: Model, a: seq<Game>, b: seq<Game>, draws: seq<real>)
    requires |a| == |b| == |draws|
    requires forall i :: 0 <= i < |a| ==> a[i].white == b[i].white && a[i].black == b[i].black
    ensures SimulateGames(expected, a, draws) == SimulateGames(expected, b, draws)
  {
  }
}
