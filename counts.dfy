/**
 * The count store as a value: the profile's counts, what one Update adds to
 * them (kmer.js:221-224), and what an in-order run of Updates over a stream of
 * records leaves behind (kmer.js:261-275).
 */
module Counts {
  import opened Codec
  import opened Enumerator

  /** The sum of all counts, the value TotalProfileCounts caches (kmer.js:350-353). */
  function Sum(c: seq<nat>): nat
  {
    if c == [] then 0 else c[0] + Sum(c[1..])
  }

  /** A freshly allocated Uint32Array: n zeroes (kmer.js:129, kmer.js:195). */
  function Zeros(n: nat): seq<nat>
  {
    seq(n, _ => 0)
  }

  /** How many of the windows ws encode to index i. */
  function Tally(a: string, ws: seq<string>, i: nat): nat
  {
    if ws == [] then 0 else (if Encode(a, ws[0]) == i then 1 else 0) + Tally(a, ws[1..], i)
  }

  /** The counts c after one increment per window of ws, at that window's index. */
  function Tallied(a: string, c: seq<nat>, ws: seq<string>): seq<nat>
  {
    seq(|c|, i requires 0 <= i < |c| => c[i] + Tally(a, ws, i))
  }

  /** What Update accepts (kmer.js:218-219): at least k letters, all from the alphabet. */
  predicate ValidRecord(a: string, k: nat, s: string)
  {
    |s| >= k && InAlphabet(a, s)
  }

  /** The number of records the stream accepts before the first one Update rejects. */
  function Accepted(a: string, k: nat, records: seq<string>): (n: nat)
    ensures n <= |records|
    ensures forall j :: 0 <= j < n ==> ValidRecord(a, k, records[j])
    ensures n < |records| ==> !ValidRecord(a, k, records[n])
  {
    if records == [] || !ValidRecord(a, k, records[0]) then 0
    else 1 + Accepted(a, k, records[1..])
  }

  /** The counts c after counting the windows of every record, in arrival order. */
  function TallyRecords(a: string, k: nat, c: seq<nat>, records: seq<string>): seq<nat>
  {
    if records == [] then c
    else Tallied(a, TallyRecords(a, k, c, records[..|records| - 1]), Windows(records[|records| - 1], k))
  }

  lemma {:induction false} SumZeros(n: nat)
    ensures Sum(Zeros(n)) == 0
  {
    if n > 0 {
      assert Zeros(n)[1..] == Zeros(n - 1);
      SumZeros(n - 1);
    }
  }

  /** No single count exceeds the total. */
  lemma {:induction false} CountAtMostSum(c: seq<nat>, i: nat)
    requires i < |c|
    ensures c[i] <= Sum(c)
  {
    if i > 0 {
      CountAtMostSum(c[1..], i - 1);
    }
  }

  /** One increment raises the total by one. */
  lemma {:induction false} SumIncrement(c: seq<nat>, j: nat)
    requires j < |c|
    ensures Sum(c[j := c[j] + 1]) == Sum(c) + 1
  {
    var d := c[j := c[j] + 1];
    if j == 0 {
      assert d[1..] == c[1..];
    } else {
      assert d[1..] == c[1..][j - 1 := c[j] + 1];
      SumIncrement(c[1..], j - 1);
    }
  }

  /** An index no window encodes to receives nothing. */
  lemma {:induction false} TallyAbsent(a: string, ws: seq<string>, i: nat)
    requires forall j :: 0 <= j < |ws| ==> Encode(a, ws[j]) != i
    ensures Tally(a, ws, i) == 0
  {
    if ws != [] {
      TallyAbsent(a, ws[1..], i);
    }
  }

  /**
   * Counting a list of windows whose indices are in range raises the total by
   * the number of windows: every window lands in exactly one entry.
   */
  lemma {:induction false} TalliedSum(a: string, c: seq<nat>, ws: seq<string>)
    requires forall j :: 0 <= j < |ws| ==> Encode(a, ws[j]) < |c|
    ensures |Tallied(a, c, ws)| == |c|
    ensures Sum(Tallied(a, c, ws)) == Sum(c) + |ws|
    decreases ws
  {
    if ws == [] {
      assert Tallied(a, c, ws) == c;
    } else {
      var e := Encode(a, ws[0]);
      var bumped := c[e := c[e] + 1];
      assert Tallied(a, c, ws) == Tallied(a, bumped, ws[1..]);
      TalliedSum(a, bumped, ws[1..]);
      SumIncrement(c, e);
    }
  }

  /** Counting a stream of records only ever raises the counts. */
  lemma {:induction false} TallyRecordsGrows(a: string, k: nat, c: seq<nat>, records: seq<string>)
    ensures |TallyRecords(a, k, c, records)| == |c|
    ensures forall i :: 0 <= i < |c| ==> c[i] <= TallyRecords(a, k, c, records)[i]
  {
    if records != [] {
      TallyRecordsGrows(a, k, c, records[..|records| - 1]);
    }
  }
}
