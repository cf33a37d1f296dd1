/**
 src/chess.rs: the `Player`, `Game` and `Outcome` types shared by the whole
 program, and the loop of `parse_games` that turns regex captures into games.
 The PGN regex and its `captures_iter` are a foreign library; the loop is
 fed the sequence of captures it would produce, one `Capture` per match,
 holding the five named groups the loop reads.
 */
module Chess {
  import opened Wrappers
  import opened Elo

  /** A player: name and rating. */
  datatype Player = Player(name: string, rating: Rating)

  datatype Outcome = WhiteWin | BlackWin | Draw

  /** A game, its two players and its outcome (observed or simulated). */
  datatype Game = Game(white: Player, black: Player, outcome: Outcome)

  /** The groups White, WhiteElo, Black, BlackElo and Result of one match. */
  datatype Capture = Capture(white: string, whiteElo: string, black: string, blackElo: string, result: string)

  /** The `match` on the Result group; `None` is the `continue` arm. */
  function ResultOutcome(result: string): Option<Outcome>
  {
    if result == "1-0" then Some(WhiteWin)
    else if result == "0-1" then Some(BlackWin)
    else if result == "1/2-1/2" then Some(Draw)
    else None
  }

  /** Both `Rating::from_str(..).unwrap()` calls of a record succeed. */
  predicate RatingsParse(c: Capture) {
    ParseRating(c.whiteElo).Ok? && ParseRating(c.blackElo).Ok?
  }

  /** The game one record becomes, or `None` when the record is skipped. */
  function GameOf(c: Capture): (g: Option<Game>)
    requires RatingsParse(c)
    ensures c.result == "1-0" ==> g.Some? && g.value.outcome == WhiteWin
    ensures c.result == "0-1" ==> g.Some? && g.value.outcome == BlackWin
    ensures c.result == "1/2-1/2" ==> g.Some? && g.value.outcome == Draw
    ensures c.result !in {"1-0", "0-1", "1/2-1/2"} ==> g == None
    ensures g.Some? ==>
      && g.value.white == Player(c.white, ParseRating(c.whiteElo).value)
      && g.value.black == Player(c.black, ParseRating(c.blackElo).value)
  {
    match ResultOutcome(c.result)
    case Some(outcome) =>
      Some(Game(Player(c.white, ParseRating(c.whiteElo).value),
                Player(c.black, ParseRating(c.blackElo).value),
                outcome))
    case None => None
  }

  predicate Recognized(c: Capture) {
    ResultOutcome(c.result).Some?
  }

  /** The games a sequence of records converts to, record by record. */
  function Converted(caps: seq<Capture>): seq<Game>
    requires forall i :: 0 <= i < |caps| ==> RatingsParse(caps[i])
  {
    if caps == [] then []
    else
      var last := caps[|caps| - 1];
      Converted(caps[..|caps| - 1]) + match GameOf(last) case Some(g) => [g] case None => []
  }

  /** How many records carry one of the three recognised results. */
  function CountRecognized(caps: seq<Capture>): nat
  {
    if caps == [] then 0
    else CountRecognized(caps[..|caps| - 1]) + if Recognized(caps[|caps| - 1]) then 1 else 0
  }

  /**
   `parse_games` after the regex: build both players (each rating parse
   panics on bad text, so every record must parse, even one the Result
   match then skips), skip a record with an unknown Result, and push the
   rest in order.
   */
  method ParseGames(captures: seq<Capture>) returns (games: seq<Game>)
    requires forall i :: 0 <= i < |captures| ==> RatingsParse(captures[i])
    ensures games == Converted(captures)
    ensures |games| == CountRecognized(captures)
  {
    games := [];
    for i := 0 to |captures|
      invariant games == Converted(captures[..i])
    {
      assert captures[..i + 1][..i] == captures[..i];
      var caps := captures[i];
      var whitePlayer := Player(caps.white, ParseRating(caps.whiteElo).value);
      var blackPlayer := Player(caps.black, ParseRating(caps.blackElo).value);
      var outcome;
      if caps.result == "1-0" {
        outcome := WhiteWin;
      } else if caps.result == "0-1" {
        outcome := BlackWin;
      } else if caps.result == "1/2-1/2" {
        outcome := Draw;
      } else {
        continue;
      }
      games := games + [Game(whitePlayer, blackPlayer, outcome)];
    }
    assert captures[..|captures|] == captures;
    ConvertedLength(captures);
  }

  /** One output game per recognised record. */
  lemma {:induction false} ConvertedLength(caps: seq<Capture>)
    requires forall i :: 0 <= i < |caps| ==> RatingsParse(caps[i])
    ensures |Converted(caps)| == CountRecognized(caps)
  {
    if caps != [] {
      ConvertedLength(caps[..|caps| - 1]);
    }
  }

  /** Conversion distributes over concatenation: records keep their order. */
  lemma {:induction false} ConvertedAppend(a: seq<Capture>, b: seq<Capture>)
    requires forall i :: 0 <= i < |a| ==> RatingsParse(a[i])
    requires forall i :: 0 <= i < |b| ==> RatingsParse(b[i])
    ensures forall i :: 0 <= i < |a + b| ==> RatingsParse((a + b)[i])
    ensures Converted(a + b) == Converted(a) + Converted(b)
    decreases |b|
  {
    if b == [] {
      assert a + b == a;
    } else {
      var b' := b[..|b| - 1];
      assert (a + b)[..|a + b| - 1] == a + b';
      ConvertedAppend(a, b');
    }
  }

  /** Each output game comes from some recognised record, its names copied verbatim. */
  lemma {:induction false} ConvertedFromRecords(caps: seq<Capture>, j: nat)
    requires forall i :: 0 <= i < |caps| ==> RatingsParse(caps[i])
    requires j < |Converted(caps)|
    ensures exists i :: 0 <= i < |caps| && Recognized(caps[i]) && GameOf(caps[i]) == Some(Converted(caps)[j])
    ensures Converted(caps)[j].white.name in set i | 0 <= i < |caps| :: caps[i].white
    ensures Converted(caps)[j].black.name in set i | 0 <= i < |caps| :: caps[i].black
  {
    var init := caps[..|caps| - 1];
    if j < |Converted(init)| {
      ConvertedFromRecords(init, j);
      var i :| 0 <= i < |init| && Recognized(init[i]) && GameOf(init[i]) == Some(Converted(init)[j]);
      assert caps[i] == init[i];
    } else {
      var i := |caps| - 1;
      assert GameOf(caps[i]) == Some(Converted(caps)[j]);
    }
  }
}
