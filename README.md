# Win-streak significance by Elo simulation — a Dafny model

The program reads a player's chess games. It computes the histogram of that
player's win-streak lengths. It then simulates the same series of pairings
many times, with outcomes drawn from Elo-based probabilities, and adds the
simulated histograms key by key for comparison.

This project models the discrete, order-sensitive logic of that program:

- `chess.dfy` (module `Chess`): the `Player`, `Game` and `Outcome` types, and the
  loop of `parse_games` that turns regex captures into games. Unknown results
  are skipped. A rating that does not parse panics.
- `elo.dfy` (module `Elo`): `Rating` as a `u32`, its parse from text with Rust's
  error kinds, and the `ExpectedOutcome` record.
- `stochastic.dfy` (module `Stochastic`): `simulate_game` and `simulate_games`.
  The Elo probability function and the random draws are parameters.
- `histograms.dfy` (module `Histograms`): the `HashMap<usize, usize>` histogram,
  the `entry(k).or_insert(0) += 1` update, and the weight `sum k * count(k)`.
- `win_streaks.dfy` (module `WinStreaks`): `generate_win_streak_histogram` as a
  loop. It is proved equal to the histogram of the maximal win runs, defined
  game by game.
- `trials.dfy` (module `Trials`): the per-trial map, run one trial after another,
  and the `reduce` that merges the histograms. The merge is a loop over the
  keys of a map, visited in an unspecified order.
- `wrappers.dfy` (module `Wrappers`): `Option` and `Result`.

Three behaviours of the code that a reader might expect otherwise:

- For the games win, win, loss, win, draw, win, win, win, the lone win
  between the loss and the draw is recorded as a streak of 1. The histogram
  is `{1: 1, 2: 1, 3: 1}` (`WinStreaks.StreaksExample`).
- Zero trials do not give an empty histogram. The code's
  `reduce(..).unwrap()` panics on an empty list, so at least one trial is
  required (`Trials.MergeHistograms`, `Trials.RunTrials`).
- The bands of the random draw are closed at the top. The code tests
  `v <= e.white` and `v <= e.white + e.black`, so a draw equal to a band's
  upper end selects that band (`Stochastic.SimulateGame`).

## Model

| member | source | states |
|---|---|---|
| `Elo.ParseRating` | src/elo.rs:23-26 | A parse succeeds only on text that starts with `+` or a digit; any other first character is `InvalidDigit` |
| `Elo.ParseRatingDecimal` | src/elo.rs:23-26 | Every `u32` rating's decimal text parses back to that same rating |
| `Chess.GameOf` | src/chess.rs:66-86 | "1-0" gives a white win, "0-1" a black win and "1/2-1/2" a draw; any other result skips the record; names are copied verbatim and ratings are the parsed Elo fields |
| `Chess.ParseGames` | src/chess.rs:62-90 | The loop returns the record-by-record conversion of the captures, with one game per record whose result is recognised; every record's ratings must parse, including records that are then skipped |
| `Chess.ConvertedLength` | src/chess.rs:75-86 | The number of games equals the number of records with one of the three recognised results |
| `Chess.ConvertedAppend` | src/chess.rs:65-86 | Converting a concatenation concatenates the conversions, so games keep the order of their records |
| `Chess.ConvertedFromRecords` | src/chess.rs:66-86 | Every output game is the conversion of some recognised record; its white and black names occur among the captured names |
| `Stochastic.SimulateGame` | src/stochastic.rs:9-25 | For the pairing's expected outcome `e`: a white win iff `v <= e.white`; a black win iff `e.white < v <= e.white + e.black`; a draw iff `v` is above both |
| `Stochastic.SimulateGames` | src/stochastic.rs:28-37 | The output has the input's length; game i keeps both players (names and ratings), and its outcome is the one selected by its own ratings' expected outcome and the i-th draw |
| `Stochastic.SelectOutcomeBands` | src/stochastic.rs:18-24 | A white win iff `v <= white`; a black win iff `white < v <= white + black`; a draw iff `v` is above both; with `black >= 0`, a draw iff `v > white + black` |
| `Stochastic.SelectOutcomeMonotone` | src/stochastic.rs:18-24 | A larger draw never selects an earlier band (white win, then black win, then draw) |
| `Stochastic.SimulateGamesAppend` | src/stochastic.rs:28-37 | Draws are consumed in input order: simulating `a + b` with draws `da + db` equals simulating `a` with `da` followed by `b` with `db` |
| `Stochastic.SimulateGamesIdempotent` | src/stochastic.rs:31-34 | Re-simulating a simulated series with the same draws gives the same series, because only the outcome is new |
| `Stochastic.SimulateGamesIgnoresOutcomes` | src/stochastic.rs:9-34 | Two series with the same pairings and the same draws simulate to the same games, whatever their recorded outcomes |
| `Histograms.Record` | src/main.rs:49 | Recording `k` adds one to `k`'s count, adds `k` to the keys, and leaves every other count unchanged |
| `Histograms.HistogramOfCounts` | src/main.rs:49-57 | The histogram of a sequence counts each value by its multiplicity, and its keys are exactly the values that occur |
| `Histograms.WeightOfHistogram` | src/main.rs:49-57 | For values below `n`, the sum over `k < n` of `k * count(k)` equals the sum of the values |
| `WinStreaks.WinStreakHistogram` | src/main.rs:28-60 | The loop returns the histogram of the player's maximal win-run lengths. A loss and a draw both end a run, and a trailing run is flushed after the loop. It requires the player to take part in every game, because the source asserts it |
| `WinStreaks.NonWinKeepsStreaks` | src/main.rs:47-51 | A loss or a draw adds no streak and changes no streak length, and the running streak afterwards is 0 |
| `WinStreaks.WinExtendsStreak` | src/main.rs:44-46 | A win starts a new streak of 1 when none is running, and otherwise lengthens the running streak by one; earlier streaks are unchanged |
| `WinStreaks.StreaksBounded` | src/main.rs:47-57 | Every recorded streak length is between 1 and the number of games |
| `WinStreaks.StreaksCoverWins` | src/main.rs:41-57 | Every win is in exactly one streak: the streak lengths sum to the player's number of wins |
| `WinStreaks.ClosedCoverWins` | src/main.rs:41-51 | At every prefix of the scan, the wins so far equal the sum of the closed streaks plus the running streak |
| `WinStreaks.StreakHistogramAccountsForWins` | src/main.rs:41-57 | Histogram keys are between 1 and the number of games, and the sum of `k * count(k)` equals the number of wins |
| `WinStreaks.NoWinsNoStreaks` | src/main.rs:41-51 | A player without wins, which includes an empty game list, gets an empty histogram |
| `WinStreaks.AllWinsOneStreak` | src/main.rs:44-57 | `n > 0` wins and nothing else give exactly the histogram `{n: 1}`, via the end-of-list flush |
| `WinStreaks.StreaksExample` | src/main.rs:44-57 | Win, win, loss, win, draw, win, win, win gives the streaks 2, 1 and 3 in that order |
| `WinStreaks.StreaksExampleHistogram` | src/main.rs:49-57 | The streaks 2, 1, 3 give the histogram `{1: 1, 2: 1, 3: 1}` |
| `Trials.MergeInto` | src/main.rs:113-118 | Adding `h` into the accumulator, key by key in any order, gives the union of the keys, with each count the sum of the two counts |
| `Trials.MergeHistograms` | src/main.rs:111-119 | The reduce is the left fold of the key-by-key sum. Each merged count is the sum of the input counts, absent keys counting 0. It requires at least one histogram, because `unwrap` panics otherwise |
| `Trials.MergedCount` | src/main.rs:111-119 | The merged count of `k` is the sum over the inputs of their count of `k` |
| `Trials.MergedKeys` | src/main.rs:111-119 | `k` is a merged key iff it is a key of some input histogram |
| `Trials.CountSumPermutation` | src/main.rs:111-119 | Summing the per-trial counts does not depend on the order of the trials |
| `Trials.MergedPermutation` | src/main.rs:111-119 | Any reordering of the histograms merges to the same histogram |
| `Trials.MergeExample` | src/main.rs:113-118 | `{1: 2, 3: 1}` and `{1: 1, 2: 5}` merge, in either order, to `{1: 3, 2: 5, 3: 1}` |
| `Trials.SimulationKeepsPlayer` | src/main.rs:104-106 | If the player is in every real game, the player is in every simulated game, so the extractor's assertion holds |
| `Trials.TrialHistogramKeys` | src/main.rs:104-106 | Every key of one trial's histogram is between 1 and the number of games |
| `Trials.RunTrials` | src/main.rs:98-119 | For each trial, simulate with that trial's draws and extract the histogram; then merge. Each merged count is the sum of the per-trial counts, and every merged key is between 1 and the number of games |

## Left out

- The Elo probability maths (`calculate_expected_outcome` and its helpers, src/elo.rs:30-73): it is f64 arithmetic with `powf` and an approximate sum-to-one assertion. It enters the model as the function parameter `expected`, from a rating pair to three reals. Nothing is assumed of it, so the sum-to-one check is not modelled.
- The PGN regex and `captures_iter` (src/chess.rs:33-59, 65): these come from a foreign library. `ParseGames` takes the sequence of captured groups instead.
- `thread_rng().gen::<f64>()` (src/stochastic.rs:14-15): this is external randomness. Each game's draw is supplied, one per game and in order; its range `[0, 1)` is not required, because selection does not need it.
- `load_games` (src/main.rs:17-25): this is file I/O.
- `print_histogram` (src/main.rs:63-84): this is console output with f64 division.
- rayon `into_par_iter` and `Arc` (src/main.rs:89, 102-108): this is concurrency plumbing. The trials are independent, so they run one after another. The merge is proved independent of their order.
- The constants of `main`, 10_000 trials and the player "Hikaru": these are the parameters `draws` (one draw sequence per trial) and `playerName` of `RunTrials`.
- The `continue` after the `assert!` in `generate_win_streak_histogram` (src/main.rs:37-39): it cannot be reached once the assertion holds. The assertion is the method's precondition, checked as an `assert`.
- `usize` and `f64` widths: streak lengths and counts are unbounded naturals, because they cannot exceed the number of games times the number of trials. Draws and probabilities are reals, so f64 rounding is not modelled.
- Elo.ParseRating: its contract states only the first-character cases. The digit loop is specified by the function `Accumulate` itself, and `ParseRatingDecimal` is its round trip.
