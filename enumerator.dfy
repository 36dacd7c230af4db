/**
 * kmerArray (kmer.js:151-166): every length-k substring of a string, left to right.
 *
 * The source maps every position i of s to s.substring(i, i + k), keeps the
 * substrings that came out k letters long, and drops the rest.
 */
module Enumerator {
  import opened Results
  import opened Codec

  /** JavaScript's s.substring(i, j) for i <= j: the end is clamped to the length of s. */
  function Substring(s: string, i: nat, j: nat): string
    requires i <= |s| && i <= j
  {
    s[i..if j <= |s| then j else |s|]
  }

  /** The filter at kmer.js:159-164: keep the substrings of length k, in order. */
  function KeepLength(xs: seq<string>, k: nat): (r: seq<string>)
    ensures |r| <= |xs|
    ensures forall j :: 0 <= j < |r| ==> |r[j]| == k
  {
    if xs == [] then []
    else (if |xs[0]| == k then [xs[0]] else []) + KeepLength(xs[1..], k)
  }

  /** kmerArray(s, k): fails when s is shorter than k (kmer.js:155). */
  function KmerArray(s: string, k: nat): (r: Result<seq<string>>)
    ensures r.Err? <==> |s| < k
    ensures r.Err? ==> r.error == SequenceTooShort
    ensures r.Ok? ==> forall j :: 0 <= j < |r.value| ==> |r.value[j]| == k
  {
    if |s| < k then Err(SequenceTooShort)
    else Ok(KeepLength(seq(|s|, i requires 0 <= i < |s| => Substring(s, i, i + k)), k))
  }

  /** The reference enumeration: the windows s[i..i+k] for i = 0 .. |s| - k, in increasing i. */
  function Windows(s: string, k: nat): (r: seq<string>)
    ensures forall j :: 0 <= j < |r| ==> |r[j]| == k
  {
    if |s| < k then [] else seq(|s| - k + 1, i requires 0 <= i <= |s| - k => s[i..i + k])
  }

  lemma {:induction false} KeepNone(xs: seq<string>, k: nat)
    requires forall j :: 0 <= j < |xs| ==> |xs[j]| != k
    ensures KeepLength(xs, k) == []
  {
    if xs != [] {
      KeepNone(xs[1..], k);
    }
  }

  /** A run of length-k strings followed by strings of other lengths filters to the run. */
  lemma {:induction false} KeepPrefix(xs: seq<string>, ys: seq<string>, k: nat)
    requires forall j :: 0 <= j < |xs| ==> |xs[j]| == k
    requires forall j :: 0 <= j < |ys| ==> |ys[j]| != k
    ensures KeepLength(xs + ys, k) == xs
  {
    if xs == [] {
      assert xs + ys == ys;
      KeepNone(ys, k);
    } else {
      assert (xs + ys)[1..] == xs[1..] + ys;
      KeepPrefix(xs[1..], ys, k);
    }
  }

  /**
   * For 1 <= k <= |s|, kmerArray returns exactly |s| - k + 1 substrings, the
   * i-th being s[i..i+k] (kmer.js:155-164).
   */
  lemma KmerArrayIsWindows(s: string, k: nat)
    requires 1 <= k <= |s|
    ensures KmerArray(s, k) == Ok(Windows(s, k))
    ensures |Windows(s, k)| == |s| - k + 1
  {
    var xs := seq(|s|, i requires 0 <= i < |s| => Substring(s, i, i + k));
    var m := |s| - k + 1;
    assert xs == xs[..m] + xs[m..];
    forall j | 0 <= j < m
      ensures xs[..m][j] == Windows(s, k)[j]
    {
      assert xs[j] == Substring(s, j, j + k) == s[j..j + k];
    }
    assert xs[..m] == Windows(s, k);
    forall j | 0 <= j < |xs[m..]|
      ensures |xs[m..][j]| != k
    {
      assert xs[m..][j] == xs[m + j] == Substring(s, m + j, m + j + k);
      assert |Substring(s, m + j, m + j + k)| == |s| - (m + j);
    }
    KeepPrefix(xs[..m], xs[m..], k);
  }

  /**
   * How many substrings kmerArray returns: |s| - k + 1 for k >= 1, and, because
   * the map runs over every position of s, one empty string per letter for k = 0.
   */
  lemma KmerArrayCount(s: string, k: nat)
    requires k <= |s|
    ensures |KmerArray(s, k).value| == if k == 0 then |s| else |s| - k + 1
  {
    if k == 0 {
      var xs := seq(|s|, i requires 0 <= i < |s| => Substring(s, i, i + k));
      forall j | 0 <= j < |xs|
        ensures |xs[j]| == 0
      {
        assert xs[j] == Substring(s, j, j) == [];
      }
      assert xs + [] == xs;
      KeepPrefix(xs, [], 0);
    } else {
      KmerArrayIsWindows(s, k);
    }
  }

  /** Every window of a string over an alphabet is over that alphabet too. */
  lemma WindowsInAlphabet(a: string, s: string, k: nat)
    requires InAlphabet(a, s)
    ensures forall j :: 0 <= j < |Windows(s, k)| ==> |Windows(s, k)[j]| == k && InAlphabet(a, Windows(s, k)[j])
  {
    forall j | 0 <= j < |Windows(s, k)|
      ensures |Windows(s, k)[j]| == k && InAlphabet(a, Windows(s, k)[j])
    {
      forall i | 0 <= i < k
        ensures Windows(s, k)[j][i] in a
      {
        assert Windows(s, k)[j][i] == s[j + i];
      }
    }
  }

  /** Consecutive windows overlap in k - 1 letters: one's suffix is the next one's prefix. */
  lemma WindowsOverlap(s: string, k: nat, j: nat)
    requires 1 <= k && j + 1 < |Windows(s, k)|
    ensures |Windows(s, k)[j]| == k && |Windows(s, k)[j + 1]| == k
    ensures Windows(s, k)[j][1..] == Windows(s, k)[j + 1][..k - 1]
  {
    assert Windows(s, k)[j][1..] == s[j + 1..j + k];
    assert Windows(s, k)[j + 1][..k - 1] == s[j + 1..j + k];
  }
}
