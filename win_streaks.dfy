/**
 `generate_win_streak_histogram` of src/main.rs: the lengths of the runs of
 consecutive wins of one named player in an ordered list of games, counted
 into a histogram. A loss and a draw both end a run.
 */
module WinStreaks {
  import opened Chess
  import opened Histograms

  /** The named player is the white or the black player of `g`. */
  predicate Involves(g: Game, name: string) {
    g.white.name == name || g.black.name == name
  }

  /** The named player won `g`, as white with `WhiteWin` or as black with `BlackWin`. */
  predicate Won(g: Game, name: string) {
    || (g.white.name == name && g.outcome == WhiteWin)
    || (g.black.name == name && g.outcome == BlackWin)
  }

  /** Number of games the named player won. */
  function Wins(name: string, games: seq<Game>): nat
  {
    if games == [] then 0
    else Wins(name, games[..|games| - 1]) + if Won(games[|games| - 1], name) then 1 else 0
  }

  /** Length of the run of wins that `games` ends with. */
  function Trailing(name: string, games: seq<Game>): nat
  {
    if games == [] then 0
    else if Won(games[|games| - 1], name) then Trailing(name, games[..|games| - 1]) + 1
    else 0
  }

  /** Lengths of the runs of wins in `games` that a loss or a draw has ended, in order. */
  function Closed(name: string, games: seq<Game>): seq<nat>
  {
    if games == [] then []
    else
      var init := games[..|games| - 1];
      if Won(games[|games| - 1], name) || Trailing(name, init) == 0 then Closed(name, init)
      else Closed(name, init) + [Trailing(name, init)]
  }

  /** Lengths of all runs of wins in `games`, the final one included. */
  function Streaks(name: string, games: seq<Game>): seq<nat>
  {
    Closed(name, games) + if Trailing(name, games) > 0 then [Trailing(name, games)] else []
  }

  /**
   The scan over the games: a win extends the current streak; a loss or a
   draw records a non-zero streak and resets it; a streak still running at
   the end is recorded after the loop. The source asserts that the player
   takes part in every game, so that is required here.
   */
  method WinStreakHistogram(playerName: string, games: seq<Game>) returns (histogram: Histogram)
    requires forall i :: 0 <= i < |games| ==> Involves(games[i], playerName)
    ensures histogram == HistogramOf(Streaks(playerName, games))
  {
    histogram := map[];
    var currentStreak: nat := 0;
    for i := 0 to |games|
      invariant currentStreak == Trailing(playerName, games[..i])
      invariant histogram == HistogramOf(Closed(playerName, games[..i]))
    {
      ScanStep(playerName, games, i);
      var game := games[i];
      var isPlayerWhite := game.white.name == playerName;
      var isPlayerBlack := game.black.name == playerName;
      assert isPlayerWhite || isPlayerBlack;

      var wonAsWhite := isPlayerWhite && game.outcome == WhiteWin;
      var wonAsBlack := isPlayerBlack && game.outcome == BlackWin;

      if wonAsWhite || wonAsBlack {
        currentStreak := currentStreak + 1;
      } else if currentStreak > 0 {
        HistogramOfSnoc(Closed(playerName, games[..i]), currentStreak);
        histogram := Record(histogram, currentStreak);
        currentStreak := 0;
      }
    }
    assert games[..|games|] == games;
    ghost var closed := Closed(playerName, games);
    if currentStreak > 0 {
      HistogramOfSnoc(closed, currentStreak);
      histogram := Record(histogram, currentStreak);
    } else {
      assert closed + [] == closed;
    }
  }

  /** One game more: how the running streak and the closed streaks change. */
  lemma ScanStep(name: string, games: seq<Game>, i: nat)
    requires i < |games|
    ensures Trailing(name, games[..i + 1]) ==
      if Won(games[i], name) then Trailing(name, games[..i]) + 1 else 0
    ensures Closed(name, games[..i + 1]) ==
      if Won(games[i], name) || Trailing(name, games[..i]) == 0 then Closed(name, games[..i])
      else Closed(name, games[..i]) + [Trailing(name, games[..i])]
  {
    assert games[..i + 1][..i] == games[..i];
  }

  /**
   A loss or a draw adds no streak and changes no streak length: it only
   moves the running streak, if any, into the recorded ones.
   */
  lemma NonWinKeepsStreaks(name: string, games: seq<Game>, g: Game)
    requires !Won(g, name)
    ensures Streaks(name, games + [g]) == Streaks(name, games)
    ensures Trailing(name, games + [g]) == 0
  {
    assert (games + [g])[..|games|] == games;
  }

  /**
   A win either starts a new streak of length 1 or lengthens the running
   one by one; the streaks before it are unchanged.
   */
  lemma WinExtendsStreak(name: string, games: seq<Game>, g: Game)
    requires Won(g, name)
    ensures Trailing(name, games) == 0 ==> Streaks(name, games + [g]) == Streaks(name, games) + [1]
    ensures Trailing(name, games) > 0 ==>
      && |Streaks(name, games)| > 0
      && Streaks(name, games + [g]) ==
         Streaks(name, games)[..|Streaks(name, games)| - 1] + [Trailing(name, games) + 1]
  {
    var next := games + [g];
    assert next[..|games|] == games;
    var c, t := Closed(name, games), Trailing(name, games);
    assert Trailing(name, next) == t + 1 && Closed(name, next) == c;
    assert Streaks(name, next) == c + [t + 1];
    if t > 0 {
      assert Streaks(name, games) == c + [t];
      assert (c + [t])[..|c|] == c;
    } else {
      assert Streaks(name, games) == c + [];
    }
  }

  /** Every recorded streak is at least one long and at most as long as the game list. */
  lemma {:induction false} StreaksBounded(name: string, games: seq<Game>)
    ensures forall i :: 0 <= i < |Streaks(name, games)| ==> 1 <= Streaks(name, games)[i] <= |games|
  {
    ClosedBounded(name, games);
  }

  lemma {:induction false} ClosedBounded(name: string, games: seq<Game>)
    ensures Trailing(name, games) <= |games|
    ensures forall i :: 0 <= i < |Closed(name, games)| ==> 1 <= Closed(name, games)[i] <= |games|
  {
    if games != [] {
      ClosedBounded(name, games[..|games| - 1]);
    }
  }

  /** Each win lies in exactly one streak: the streak lengths add up to the number of wins. */
  lemma {:induction false} StreaksCoverWins(name: string, games: seq<Game>)
    ensures Sum(Streaks(name, games)) == Wins(name, games)
  {
    ClosedCoverWins(name, games);
    SumAppend(Closed(name, games), if Trailing(name, games) > 0 then [Trailing(name, games)] else []);
  }

  /** The wins so far are those in closed streaks plus those in the running one. */
  lemma {:induction false} ClosedCoverWins(name: string, games: seq<Game>)
    ensures Sum(Closed(name, games)) + Trailing(name, games) == Wins(name, games)
  {
    if games != [] {
      var init := games[..|games| - 1];
      ClosedCoverWins(name, init);
      if !Won(games[|games| - 1], name) && Trailing(name, init) != 0 {
        SumAppend(Closed(name, init), [Trailing(name, init)]);
      }
    }
  }

  lemma {:induction false} SumAppend(a: seq<nat>, b: seq<nat>)
    ensures Sum(a + b) == Sum(a) + Sum(b)
    decreases |b|
  {
    if b == [] {
      assert a + b == a;
    } else {
      assert (a + b)[..|a + b| - 1] == a + b[..|b| - 1];
      SumAppend(a, b[..|b| - 1]);
    }
  }

  /**
   The histogram's keys are streak lengths from 1 to the number of games,
   and the sum over lengths `k` of `k * count(k)` is the number of wins.
   */
  lemma StreakHistogramAccountsForWins(name: string, games: seq<Game>)
    ensures forall k :: k in HistogramOf(Streaks(name, games)) ==> 1 <= k <= |games|
    ensures Weight(HistogramOf(Streaks(name, games)), |games| + 1) == Wins(name, games)
  {
    var s := Streaks(name, games);
    StreaksBounded(name, games);
    HistogramOfCounts(s);
    WeightOfHistogram(s, |games| + 1);
    StreaksCoverWins(name, games);
  }

  /** A player who never wins, and in particular an empty game list, gives an empty histogram. */
  lemma {:induction false} NoWinsNoStreaks(name: string, games: seq<Game>)
    requires forall i :: 0 <= i < |games| ==> !Won(games[i], name)
    ensures Streaks(name, games) == []
    ensures HistogramOf(Streaks(name, games)) == map[]
  {
    if games != [] {
      var init := games[..|games| - 1];
      NoWinsNoStreaks(name, init);
    }
  }

  /** `n` wins in a row and nothing else give the single streak `n`, flushed after the loop. */
  lemma {:induction false} AllWinsOneStreak(name: string, games: seq<Game>)
    requires |games| > 0
    requires forall i :: 0 <= i < |games| ==> Won(games[i], name)
    ensures Streaks(name, games) == [|games|]
    ensures HistogramOf(Streaks(name, games)) == map[|games| := 1]
  {
    AllWinsTrailing(name, games);
  }

  lemma {:induction false} AllWinsTrailing(name: string, games: seq<Game>)
    requires forall i :: 0 <= i < |games| ==> Won(games[i], name)
    ensures Trailing(name, games) == |games| && Closed(name, games) == []
  {
    if games != [] {
      AllWinsTrailing(name, games[..|games| - 1]);
    }
  }

  /** A game of "Hikaru" as white against "Nakamura". */
  function HikaruAsWhite(outcome: Outcome): Game
  {
    Game(Player("Hikaru", Elo.Rating(3000)), Player("Nakamura", Elo.Rating(2800)), outcome)
  }

  /**
   Win, win, loss, win, draw, win, win, win: streaks 2, 1 and 3, the lone win
   between the loss and the draw being a streak of its own.
   */
  lemma StreaksExample()
    ensures Streaks("Hikaru", [HikaruAsWhite(WhiteWin), HikaruAsWhite(WhiteWin), HikaruAsWhite(BlackWin),
                               HikaruAsWhite(WhiteWin), HikaruAsWhite(Draw), HikaruAsWhite(WhiteWin),
                               HikaruAsWhite(WhiteWin), HikaruAsWhite(WhiteWin)]) == [2, 1, 3]
  {
    var name := "Hikaru";
    var w, l, d := HikaruAsWhite(WhiteWin), HikaruAsWhite(BlackWin), HikaruAsWhite(Draw);
    assert Won(w, name) && !Won(l, name) && !Won(d, name);
    var p1 := [w];
    assert p1[..0] == [];
    assert Trailing(name, p1) == 1 && Closed(name, p1) == [];
    var p2 := p1 + [w];
    assert p2[..1] == p1;
    assert Trailing(name, p2) == 2 && Closed(name, p2) == [];
    var p3 := p2 + [l];
    assert p3[..2] == p2;
    assert Trailing(name, p3) == 0 && Closed(name, p3) == [2];
    var p4 := p3 + [w];
    assert p4[..3] == p3;
    assert Trailing(name, p4) == 1 && Closed(name, p4) == [2];
    var p5 := p4 + [d];
    assert p5[..4] == p4;
    assert Trailing(name, p5) == 0 && Closed(name, p5) == [2, 1];
    var p6 := p5 + [w];
    assert p6[..5] == p5;
    assert Trailing(name, p6) == 1 && Closed(name, p6) == [2, 1];
    var p7 := p6 + [w];
    assert p7[..6] == p6;
    assert Trailing(name, p7) == 2 && Closed(name, p7) == [2, 1];
    var p8 := p7 + [w];
    assert p8[..7] == p7;
    assert Trailing(name, p8) == 3 && Closed(name, p8) == [2, 1];
    assert p8 == [w, w, l, w, d, w, w, w];
  }

  /** The streaks 2, 1 and 3 make the histogram {1: 1, 2: 1, 3: 1}. */
  lemma StreaksExampleHistogram()
    ensures HistogramOf([2, 1, 3]) == map[1 := 1, 2 := 1, 3 := 1]
  {
    assert [2, 1, 3][..2] == [2, 1];
    assert [2, 1][..1] == [2];
    assert [2][..0] == [];
  }
}
