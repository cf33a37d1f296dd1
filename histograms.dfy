/**
 The `HashMap<usize, usize>` histograms of src/main.rs: streak length to the
 number of times it occurred, an absent key meaning zero.
 */
module Histograms {

  type Histogram = map<nat, nat>

  /** The count of `k`, zero when `k` is absent. */
  function Count(h: Histogram, k: nat): nat
  {
    if k in h then h[k] else 0
  }

  /** `*h.entry(k).or_insert(0) += 1`. */
  function Record(h: Histogram, k: nat): (r: Histogram)
    ensures r.Keys == h.Keys + {k}
    ensures Count(r, k) == Count(h, k) + 1
    ensures forall j :: j != k ==> Count(r, j) == Count(h, j)
  {
    h[k := Count(h, k) + 1]
  }

  /** The histogram of a sequence of values, recorded one by one in order. */
  function HistogramOf(s: seq<nat>): Histogram
  {
    if s == [] then map[] else Record(HistogramOf(s[..|s| - 1]), s[|s| - 1])
  }

  /** Recording one more value updates the histogram of the values before it. */
  lemma HistogramOfSnoc(s: seq<nat>, k: nat)
    ensures HistogramOf(s + [k]) == Record(HistogramOf(s), k)
  {
  }

  /** The histogram counts each value as often as it occurs, and holds exactly the values that occur. */
  lemma {:induction false} HistogramOfCounts(s: seq<nat>)
    ensures forall k :: k in HistogramOf(s) <==> k in s
    ensures forall k :: Count(HistogramOf(s), k) == multiset(s)[k]
  {
    if s != [] {
      var init := s[..|s| - 1];
      HistogramOfCounts(init);
      assert s == init + [s[|s| - 1]];
    }
  }

  /** Sum of `k * Count(h, k)` over the keys `k < n`. */
  function Weight(h: Histogram, n: nat): nat
  {
    if n == 0 then 0 else Weight(h, n - 1) + (n - 1) * Count(h, n - 1)
  }

  function Sum(s: seq<nat>): nat
  {
    if s == [] then 0 else Sum(s[..|s| - 1]) + s[|s| - 1]
  }

  /** Recording `k` below the bound adds `k` to the weight. */
  lemma {:induction false} WeightRecord(h: Histogram, k: nat, n: nat)
    requires k < n
    ensures Weight(Record(h, k), n) == Weight(h, n) + k
  {
    var r := Record(h, k);
    if n - 1 != k {
      WeightRecord(h, k, n - 1);
      assert Count(r, n - 1) == Count(h, n - 1);
    } else {
      WeightUnchanged(h, r, k);
      calc {
        (n - 1) * Count(r, n - 1);
        k * (Count(h, k) + 1);
        k * Count(h, k) + k;
      }
    }
  }

  lemma {:induction false} WeightEmpty(n: nat)
    ensures Weight(map[], n) == 0
  {
    if n > 0 {
      WeightEmpty(n - 1);
    }
  }

  /** Two histograms that agree below `n` have the same weight below `n`. */
  lemma {:induction false} WeightUnchanged(h: Histogram, g: Histogram, n: nat)
    requires forall j: nat :: j < n ==> Count(h, j) == Count(g, j)
    ensures Weight(h, n) == Weight(g, n)
  {
    if n > 0 {
      WeightUnchanged(h, g, n - 1);
      assert Count(h, n - 1) == Count(g, n - 1);
    }
  }

  /**
   The histogram of values below `n` accounts for all of them: the sum over
   lengths `k` of `k * count(k)` is the sum of the values.
   */
  lemma {:induction false} WeightOfHistogram(s: seq<nat>, n: nat)
    requires forall i :: 0 <= i < |s| ==> s[i] < n
    ensures Weight(HistogramOf(s), n) == Sum(s)
  {
    if s == [] {
      WeightEmpty(n);
    } else {
      var init := s[..|s| - 1];
      assert forall i :: 0 <= i < |init| ==> init[i] == s[i];
      WeightOfHistogram(init, n);
      WeightRecord(HistogramOf(init), s[|s| - 1], n);
      assert HistogramOf(s) == Record(HistogramOf(init), s[|s| - 1]);
      assert Sum(s) == Sum(init) + s[|s| - 1];
    }
  }
}
