/**
 * The Markov statistics of a profile, over its counts as a value and exact
 * rationals: frequency (kmer.js:370-374), transitionProbability
 * (kmer.js:395-407) and the chain product of probabilityOfSequence
 * (kmer.js:425-440).
 */
module Markov {
  import opened Codec
  import opened Counts
  import opened Enumerator

  /** The profile entry at the index of a k-mer (kmer.js:373); no entry for anything else. */
  function Count(a: string, k: nat, c: seq<nat>, w: string): nat
  {
    if |w| == k && Encode(a, w) < |c| then c[Encode(a, w)] else 0
  }

  /** The counts of p + l summed over the letters l. */
  function MassOver(a: string, k: nat, c: seq<nat>, p: string, letters: string): nat
  {
    if letters == [] then 0 else Count(a, k, c, p + [letters[0]]) + MassOver(a, k, c, p, letters[1..])
  }

  /** The counts of every k-mer that starts with the (k-1)-letter context p. */
  function Mass(a: string, k: nat, c: seq<nat>, p: string): nat
  {
    MassOver(a, k, c, p, a)
  }

  /** frequency(w): the k-mer's count over the cached total (kmer.js:373). */
  function Frequency(a: string, k: nat, c: seq<nat>, total: nat, w: string): real
    requires total > 0
  {
    Count(a, k, c, w) as real / total as real
  }

  /** The frequencies of p + l summed over the letters l: the denominator at kmer.js:405. */
  function FrequencyOver(a: string, k: nat, c: seq<nat>, total: nat, p: string, letters: string): real
    requires total > 0
  {
    if letters == [] then 0.0
    else Frequency(a, k, c, total, p + [letters[0]]) + FrequencyOver(a, k, c, total, p, letters[1..])
  }

  /**
   * The order-(k-1) transition probability from w1 to w2: zero unless w1's last
   * k-1 letters are w2's first k-1, else w2's count over the counts of all
   * k-mers sharing that context.
   */
  function Transition(a: string, k: nat, c: seq<nat>, w1: string, w2: string): real
    requires 1 <= k && |w1| == k && |w2| == k
    requires w1[1..] == w2[..k - 1] ==> Mass(a, k, c, w2[..k - 1]) > 0
  {
    if w1[1..] != w2[..k - 1] then 0.0
    else Count(a, k, c, w2) as real / Mass(a, k, c, w2[..k - 1]) as real
  }

  predicate AllKmers(k: nat, ws: seq<string>)
  {
    forall i :: 0 <= i < |ws| ==> |ws[i]| == k
  }

  /** Every k-mer after the first has a context whose k-mers were seen at least once. */
  predicate ContextsPositive(a: string, k: nat, c: seq<nat>, ws: seq<string>)
    requires 1 <= k && AllKmers(k, ws)
  {
    forall i :: 0 < i < |ws| ==> Mass(a, k, c, ws[i][..k - 1]) > 0
  }

  /** The product of the first n transitions along ws, accumulated from p = 1 (kmer.js:431-436). */
  function Chain(a: string, k: nat, c: seq<nat>, ws: seq<string>, n: nat): real
    requires 1 <= k && AllKmers(k, ws) && ContextsPositive(a, k, c, ws)
    requires n < |ws|
  {
    if n == 0 then 1.0 else Transition(a, k, c, ws[n - 1], ws[n]) * Chain(a, k, c, ws, n - 1)
  }

  /**
   * Multiplying the chain so far by the next transition extends it by one k-mer
   * (kmer.js:434). This is one unfolding of Chain, stated as its own lemma so that
   * the loop of ProductOfTransitions can cite it rather than unfold Chain inside
   * the method.
   */
  lemma ChainStep(a: string, k: nat, c: seq<nat>, ws: seq<string>, n: nat, t: real, p: real)
    requires 1 <= k && AllKmers(k, ws) && ContextsPositive(a, k, c, ws)
    requires 0 < n < |ws|
    requires t == Transition(a, k, c, ws[n - 1], ws[n]) && p == Chain(a, k, c, ws, n - 1)
    ensures t * p == Chain(a, k, c, ws, n)
  {
  }

  lemma NonnegativeProduct(t: real, p: real)
    requires 0.0 <= t && 0.0 <= p
    ensures 0.0 <= t * p
  {
  }

  lemma UnitProduct(t: real, p: real)
    requires 0.0 <= t <= 1.0 && 0.0 <= p <= 1.0
    ensures 0.0 <= t * p <= 1.0
  {
    NonnegativeProduct(t, p);
    NonnegativeProduct(1.0 - t, p);
    assert (1.0 - t) * p == p - t * p;
  }

  lemma AddOver(x: real, y: real, t: real)
    requires t > 0.0
    ensures x / t + y / t == (x + y) / t
  {
  }

  lemma RatioAtMostOne(x: real, m: real)
    requires 0.0 <= x <= m && m > 0.0
    ensures 0.0 <= x / m <= 1.0
  {
  }

  lemma RatioCancels(x: real, m: real, t: real)
    requires t > 0.0 && m > 0.0
    ensures m / t > 0.0
    ensures (x / t) / (m / t) == x / m
  {
  }

  lemma RatioTimes(x: real, t: real)
    requires t > 0.0
    ensures (x / t) * t == x
  {
  }

  /**
   * A frequency times the total it was divided by is the count. This is a plain
   * step of real arithmetic for FrequencyFacts, kept apart so that FrequencyFacts
   * need not reason about division directly.
   */
  lemma FrequencyTimesTotal(a: string, k: nat, c: seq<nat>, total: nat, w: string)
    requires total > 0
    ensures Frequency(a, k, c, total, w) * total as real == Count(a, k, c, w) as real
  {
    RatioTimes(Count(a, k, c, w) as real, total as real);
  }

  /** Dividing every count by the same total divides their sum by it. */
  lemma {:induction false} FrequencyOverCancels(a: string, k: nat, c: seq<nat>, total: nat, p: string, letters: string)
    requires total > 0
    ensures FrequencyOver(a, k, c, total, p, letters) == MassOver(a, k, c, p, letters) as real / total as real
  {
    if letters != [] {
      FrequencyOverCancels(a, k, c, total, p, letters[1..]);
      AddOver(Count(a, k, c, p + [letters[0]]) as real, MassOver(a, k, c, p, letters[1..]) as real, total as real);
    }
  }

  /**
   * The total cancels: the ratio of frequencies computed at kmer.js:405 is the
   * ratio of counts, whatever positive total they were divided by.
   */
  lemma TransitionCancels(a: string, k: nat, c: seq<nat>, total: nat, w2: string)
    requires 1 <= k && |w2| == k && total > 0
    requires Mass(a, k, c, w2[..k - 1]) > 0
    ensures FrequencyOver(a, k, c, total, w2[..k - 1], a) > 0.0
    ensures Frequency(a, k, c, total, w2) / FrequencyOver(a, k, c, total, w2[..k - 1], a)
         == Count(a, k, c, w2) as real / Mass(a, k, c, w2[..k - 1]) as real
  {
    var p := w2[..k - 1];
    var x, m, t := Count(a, k, c, w2) as real, Mass(a, k, c, p) as real, total as real;
    FrequencyOverCancels(a, k, c, total, p, a);
    assert FrequencyOver(a, k, c, total, p, a) == m / t;
    assert Frequency(a, k, c, total, w2) == x / t;
    RatioCancels(x, m, t);
  }

  /** A count is one of the terms of the mass of its context. */
  lemma {:induction false} CountAtMostMass(a: string, k: nat, c: seq<nat>, p: string, l: char, letters: string)
    requires l in letters
    ensures Count(a, k, c, p + [l]) <= MassOver(a, k, c, p, letters)
  {
    if letters[0] != l {
      CountAtMostMass(a, k, c, p, l, letters[1..]);
    }
  }

  /** A context that was seen means the profile is not empty. */
  lemma {:induction false} MassPositiveTotal(a: string, k: nat, c: seq<nat>, p: string, letters: string)
    requires MassOver(a, k, c, p, letters) > 0
    ensures Sum(c) > 0
  {
    var w := p + [letters[0]];
    if Count(a, k, c, w) > 0 {
      CountAtMostSum(c, Encode(a, w));
    } else {
      MassPositiveTotal(a, k, c, p, letters[1..]);
    }
  }

  /**
   * A frequency times the total it was divided by is the count, and with the
   * total freshly summed it is a probability.
   */
  lemma FrequencyFacts(a: string, k: nat, c: seq<nat>, total: nat, w: string)
    requires total > 0
    ensures Frequency(a, k, c, total, w) * total as real == Count(a, k, c, w) as real
    ensures total == Sum(c) ==> 0.0 <= Frequency(a, k, c, total, w) <= 1.0
  {
    FrequencyTimesTotal(a, k, c, total, w);
    if total == Sum(c) {
      FrequencyAtMostOne(a, k, c, w);
    }
  }

  /** With the total freshly summed, a frequency is at most one. */
  lemma FrequencyAtMostOne(a: string, k: nat, c: seq<nat>, w: string)
    requires Sum(c) > 0
    ensures 0.0 <= Frequency(a, k, c, Sum(c), w) <= 1.0
  {
    if Count(a, k, c, w) > 0 {
      CountAtMostSum(c, Encode(a, w));
    }
    RatioAtMostOne(Count(a, k, c, w) as real, Sum(c) as real);
  }

  /** A transition into a k-mer over the alphabet is a probability. */
  lemma TransitionInUnitInterval(a: string, k: nat, c: seq<nat>, w1: string, w2: string)
    requires 1 <= k && |w1| == k && |w2| == k && InAlphabet(a, w2)
    requires w1[1..] == w2[..k - 1] ==> Mass(a, k, c, w2[..k - 1]) > 0
    ensures 0.0 <= Transition(a, k, c, w1, w2) <= 1.0
  {
    if w1[1..] == w2[..k - 1] {
      assert w2 == w2[..k - 1] + [w2[k - 1]];
      CountAtMostMass(a, k, c, w2[..k - 1], w2[k - 1], a);
      RatioAtMostOne(Count(a, k, c, w2) as real, Mass(a, k, c, w2[..k - 1]) as real);
    }
  }

  /** Consecutive windows always overlap, so each factor of their chain is the ratio of counts. */
  lemma TransitionOfWindows(a: string, k: nat, c: seq<nat>, s: string, j: nat)
    requires 1 <= k && j + 1 < |Windows(s, k)|
    requires Mass(a, k, c, Windows(s, k)[j + 1][..k - 1]) > 0
    ensures |Windows(s, k)[j]| == k && |Windows(s, k)[j + 1]| == k
    ensures Transition(a, k, c, Windows(s, k)[j], Windows(s, k)[j + 1])
         == Count(a, k, c, Windows(s, k)[j + 1]) as real / Mass(a, k, c, Windows(s, k)[j + 1][..k - 1]) as real
  {
    WindowsOverlap(s, k, j);
  }

  /** The probability of a chain of k-mers over the alphabet lies in [0, 1]. */
  lemma {:induction false} ChainInUnitInterval(a: string, k: nat, c: seq<nat>, ws: seq<string>, n: nat)
    requires 1 <= k && AllKmers(k, ws) && ContextsPositive(a, k, c, ws)
    requires forall i :: 0 <= i < |ws| ==> InAlphabet(a, ws[i])
    requires n < |ws|
    ensures 0.0 <= Chain(a, k, c, ws, n) <= 1.0
  {
    if n > 0 {
      ChainInUnitInterval(a, k, c, ws, n - 1);
      TransitionInUnitInterval(a, k, c, ws[n - 1], ws[n]);
      UnitProduct(Transition(a, k, c, ws[n - 1], ws[n]), Chain(a, k, c, ws, n - 1));
    }
  }
}
