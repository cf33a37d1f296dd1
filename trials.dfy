/**
 The simulation part of `main` in src/main.rs: one win-streak histogram per
 trial (the rayon `map`, here run trial after trial), then the `reduce` that
 adds them key by key. The trial count (10_000) and the player ("Hikaru")
 are parameters; each trial's random draws are supplied.
 */
module Trials {
  import opened Chess
  import opened Histograms
  import opened WinStreaks
  import opened Stochastic

  /** Key-by-key sum of two histograms. */
  function Plus(a: Histogram, b: Histogram): Histogram
  {
    map k | k in a.Keys + b.Keys :: Count(a, k) + Count(b, k)
  }

  /**
   One step of the `reduce`: `for (k, v) in h { *acc.entry(k).or_insert(0) += v }`.
   The keys of `h` are visited in an unspecified order.
   */
  method MergeInto(acc: Histogram, h: Histogram) returns (merged: Histogram)
    ensures merged.Keys == acc.Keys + h.Keys
    ensures forall k :: Count(merged, k) == Count(acc, k) + Count(h, k)
    ensures merged == Plus(acc, h)
  {
    merged := acc;
    var pending := h.Keys;
    while pending != {}
      invariant pending <= h.Keys
      invariant merged.Keys == acc.Keys + (h.Keys - pending)
      invariant forall k :: Count(merged, k) == Count(acc, k) + if k in h.Keys - pending then h[k] else 0
      decreases pending
    {
      var k :| k in pending;
      merged := merged[k := Count(merged, k) + h[k]];
      pending := pending - {k};
    }
  }

  /** The `reduce` as a left fold: the first histogram is the initial accumulator. */
  function Merged(hs: seq<Histogram>): Histogram
    requires |hs| > 0
  {
    if |hs| == 1 then hs[0] else Plus(Merged(hs[..|hs| - 1]), hs[|hs| - 1])
  }

  /** Sum over the histograms of their counts of `k`. */
  function CountSum(hs: seq<Histogram>, k: nat): nat
  {
    if hs == [] then 0 else CountSum(hs[..|hs| - 1], k) + Count(hs[|hs| - 1], k)
  }

  /**
   `histograms.into_iter().reduce(..).unwrap()`: the `unwrap` panics on an
   empty list, so at least one histogram is required.
   */
  method MergeHistograms(histograms: seq<Histogram>) returns (merged: Histogram)
    requires |histograms| > 0
    ensures merged == Merged(histograms)
    ensures forall k :: Count(merged, k) == CountSum(histograms, k)
  {
    merged := histograms[0];
    for i := 1 to |histograms|
      invariant merged == Merged(histograms[..i])
    {
      assert histograms[..i + 1][..i] == histograms[..i];
      merged := MergeInto(merged, histograms[i]);
    }
    assert histograms[..|histograms|] == histograms;
    forall k {
      MergedCount(histograms, k);
    }
  }

  /** The merged count of every length is the sum of the per-trial counts, an absent key counting zero. */
  lemma {:induction false} MergedCount(hs: seq<Histogram>, k: nat)
    requires |hs| > 0
    ensures Count(Merged(hs), k) == CountSum(hs, k)
  {
    if |hs| == 1 {
      assert hs[..0] == [];
    } else {
      MergedCount(hs[..|hs| - 1], k);
    }
  }

  /** A length is a key of the merged histogram exactly when it is a key of some input histogram. */
  lemma {:induction false} MergedKeys(hs: seq<Histogram>, k: nat)
    requires |hs| > 0
    ensures k in Merged(hs) <==> exists i :: 0 <= i < |hs| && k in hs[i]
  {
    if |hs| > 1 {
      var init := hs[..|hs| - 1];
      MergedKeys(init, k);
      if exists i :: 0 <= i < |init| && k in init[i] {
        var i :| 0 <= i < |init| && k in init[i];
        assert hs[i] == init[i];
      }
      if exists i :: 0 <= i < |hs| && k in hs[i] {
        var i :| 0 <= i < |hs| && k in hs[i];
        if i < |init| {
          assert init[i] == hs[i];
        }
      }
    }
  }

  lemma {:induction false} CountSumAppend(a: seq<Histogram>, b: seq<Histogram>, k: nat)
    ensures CountSum(a + b, k) == CountSum(a, k) + CountSum(b, k)
    decreases |b|
  {
    if b == [] {
      assert a + b == a;
    } else {
      assert (a + b)[..|a + b| - 1] == a + b[..|b| - 1];
      CountSumAppend(a, b[..|b| - 1], k);
    }
  }

  /** Summing the counts does not depend on the order of the histograms. */
  lemma {:induction false} CountSumPermutation(xs: seq<Histogram>, ys: seq<Histogram>, k: nat)
    requires multiset(xs) == multiset(ys)
    ensures CountSum(xs, k) == CountSum(ys, k)
    decreases |xs|
  {
    if xs != [] {
      var x := xs[|xs| - 1];
      var xs' := xs[..|xs| - 1];
      assert xs == xs' + [x];
      assert x in multiset(ys);
      var j :| 0 <= j < |ys| && ys[j] == x;
      var ys' := ys[..j] + ys[j + 1..];
      assert ys == ys[..j] + [x] + ys[j + 1..];
      assert multiset(ys') == multiset(ys) - multiset{x};
      CountSumPermutation(xs', ys', k);
      CountSumAppend(ys[..j], ys[j + 1..], k);
      CountSumAppend(ys[..j] + [x], ys[j + 1..], k);
      CountSumAppend(ys[..j], [x], k);
    } else {
      assert |ys| == |multiset(ys)| == 0;
    }
  }

  /** Merging is independent of the order of the histograms: any permutation merges to the same histogram. */
  lemma MergedPermutation(xs: seq<Histogram>, ys: seq<Histogram>)
    requires |xs| > 0
    requires multiset(xs) == multiset(ys)
    ensures |ys| > 0
    ensures Merged(xs) == Merged(ys)
  {
    assert |ys| == |multiset(ys)| == |multiset(xs)| == |xs|;
    forall k: nat
      ensures k in Merged(xs) <==> k in Merged(ys)
      ensures Count(Merged(xs), k) == Count(Merged(ys), k)
    {
      MergedKeys(xs, k);
      MergedKeys(ys, k);
      if exists i :: 0 <= i < |xs| && k in xs[i] {
        var i :| 0 <= i < |xs| && k in xs[i];
        assert xs[i] in multiset(ys);
        var j :| 0 <= j < |ys| && ys[j] == xs[i];
      }
      if exists j :: 0 <= j < |ys| && k in ys[j] {
        var j :| 0 <= j < |ys| && k in ys[j];
        assert ys[j] in multiset(xs);
        var i :| 0 <= i < |xs| && xs[i] == ys[j];
      }
      MergedCount(xs, k);
      MergedCount(ys, k);
      CountSumPermutation(xs, ys, k);
    }
  }

  /** Merging {1: 2, 3: 1} and {1: 1, 2: 5}, in either order, gives {1: 3, 2: 5, 3: 1}. */
  lemma MergeExample()
    ensures Merged([map[1 := 2, 3 := 1], map[1 := 1, 2 := 5]]) == map[1 := 3, 2 := 5, 3 := 1]
    ensures Merged([map[1 := 1, 2 := 5], map[1 := 2, 3 := 1]]) == map[1 := 3, 2 := 5, 3 := 1]
  {
  }

  /** The histogram one trial produces: win streaks of the series simulated with that trial's draws. */
  function TrialHistogram(expected: Model, games: seq<Game>, playerName: string, draws: seq<real>): Histogram
    requires |draws| == |games|
  {
    HistogramOf(Streaks(playerName, SimulateGames(expected, games, draws)))
  }

  /** The per-trial histograms, trial by trial. */
  function TrialHistograms(expected: Model, games: seq<Game>, playerName: string, draws: seq<seq<real>>): seq<Histogram>
    requires forall t :: 0 <= t < |draws| ==> |draws[t]| == |games|
  {
    seq(|draws|, t requires 0 <= t < |draws| => TrialHistogram(expected, games, playerName, draws[t]))
  }

  /** Simulation keeps the players, so the player takes part in every simulated game too. */
  lemma SimulationKeepsPlayer(expected: Model, games: seq<Game>, playerName: string, draws: seq<real>)
    requires |draws| == |games|
    requires forall i :: 0 <= i < |games| ==> Involves(games[i], playerName)
    ensures forall i :: 0 <= i < |games| ==> Involves(SimulateGames(expected, games, draws)[i], playerName)
  {
  }

  /** Every key of a trial's histogram is a streak length between 1 and the number of games. */
  lemma TrialHistogramKeys(expected: Model, games: seq<Game>, playerName: string, draws: seq<real>)
    requires |draws| == |games|
    ensures forall k :: k in TrialHistogram(expected, games, playerName, draws) ==> 1 <= k <= |games|
  {
    StreakHistogramAccountsForWins(playerName, SimulateGames(expected, games, draws));
  }

  /**
   The simulation phase of `main`: each trial simulates the real games with
   its own draws and extracts the player's win-streak histogram, then the
   histograms are merged. The player takes part in every real game (the
   extractor asserts it), and simulation keeps the players, so the
   extractor's assertion holds on every simulated series too.
   */
  method RunTrials(expected: Model, games: seq<Game>, playerName: string, draws: seq<seq<real>>)
    returns (merged: Histogram)
    requires |draws| > 0
    requires forall t :: 0 <= t < |draws| ==> |draws[t]| == |games|
    requires forall i :: 0 <= i < |games| ==> Involves(games[i], playerName)
    ensures forall k :: Count(merged, k) == CountSum(TrialHistograms(expected, games, playerName, draws), k)
    ensures forall k :: k in merged ==> 1 <= k <= |games|
  {
    var histograms: seq<Histogram> := [];
    for t := 0 to |draws|
      invariant |histograms| == t
      invariant forall s :: 0 <= s < t ==> histograms[s] == TrialHistogram(expected, games, playerName, draws[s])
    {
      var simulated := SimulateGames(expected, games, draws[t]);
      SimulationKeepsPlayer(expected, games, playerName, draws[t]);
      var h := WinStreakHistogram(playerName, simulated);
      histograms := histograms + [h];
    }
    assert histograms == TrialHistograms(expected, games, playerName, draws);
    merged := MergeHistograms(histograms);
    forall k | k in merged
      ensures 1 <= k <= |games|
    {
      MergedKeys(histograms, k);
      var s :| 0 <= s < |histograms| && k in histograms[s];
      TrialHistogramKeys(expected, games, playerName, draws[s]);
    }
  }
}
