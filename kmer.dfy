/**
 * The Kmer class (kmer.js:22-531): a profile of k-mer counts, updated in place,
 * with the codec and the Markov statistics computed from it.
 */
module KmerProfile {
  import opened Results
  import opened Codec
  import opened Enumerator
  import opened Counts
  import opened Markov

  class Kmer {
    /** The k-mer length (kmer.js:53). */
    const k: nat
    /** The alphabet, "ACGT" when none is given (kmer.js:39, kmer.js:61). */
    const alphabet: string
    /** Letter to two-bit code (kmer.js:75-78). */
    const letterToBinary: map<char, nat>
    /** Two-bit code to letter (kmer.js:85). */
    const binaryToLetter: seq<char>
    /** One count per k-mer, indexed by its code (kmer.js:92). */
    const profile: array<nat>
    /** The sum of the counts as last computed by TotalProfileCounts (kmer.js:101). */
    var totalProfileCounts: nat

    /** The counts in the profile, as a sequence indexed by k-mer. */
    ghost function Counts(): seq<nat>
      reads profile
    {
      profile[..]
    }

    ghost predicate Valid()
    {
      && 1 <= k <= MaxK
      && ValidAlphabet(alphabet)
      && letterToBinary == LetterTable(alphabet)
      && binaryToLetter == alphabet
      && profile.Length == Pow(4, k)
    }

    /**
     * new Kmer(k, letters) (kmer.js:37-106): an all-zero profile of 4^k counts
     * whose total is computed once, and so is zero.
     */
    constructor (k: nat, letters: string)
      requires 1 <= k <= MaxK
      requires ValidAlphabet(DefaultAlphabet(letters))
      ensures Valid()
      ensures this.k == k && alphabet == DefaultAlphabet(letters)
      ensures fresh(profile) && profile[..] == Zeros(Pow(4, k))
      ensures totalProfileCounts == 0
    {
      var a := DefaultAlphabet(letters);
      this.k := k;
      alphabet := a;
      letterToBinary := LetterTable(a);
      binaryToLetter := a;
      var counts := ProfileAsArray(k, letters);
      profile := counts.value;
      new;
      var total := TotalProfileCounts();
      SumZeros(Pow(4, k));
    }

    /**
     * profileAsArray(k, letters) (kmer.js:121-131): a fresh zero-filled array of
     * |alphabet|^k counts; an alphabet of at most one letter is rejected.
     */
    static method ProfileAsArray(k: nat, letters: string) returns (r: Result<array<nat>>)
      ensures r.Err? <==> |DefaultAlphabet(letters)| <= 1
      ensures r.Err? ==> r.error == AlphabetTooShort
      ensures r.Ok? ==> fresh(r.value) && r.value[..] == Zeros(Pow(|DefaultAlphabet(letters)|, k))
    {
      var a := DefaultAlphabet(letters);
      if |a| <= 1 {
        return Err(AlphabetTooShort);
      }
      var counts := new nat[Pow(|a|, k)](_ => 0);
      assert counts[..] == Zeros(Pow(|a|, k));
      return Ok(counts);
    }

    /**
     * TotalProfileCounts() (kmer.js:350-353): sums the profile, caches the sum
     * and returns it.
     */
    method TotalProfileCounts() returns (total: nat)
      modifies this`totalProfileCounts
      ensures total == totalProfileCounts == Sum(profile[..])
    {
      totalProfileCounts := Sum(profile[..]);
      total := totalProfileCounts;
    }

    /**
     * The packing loop of sequenceToBinary (kmer.js:297-302), on unbounded
     * integers: each step is x * 4 + code. Codec.ShiftOrStep shows, apart from
     * this loop, that the 32-bit (x << 2) | code computes the same.
     */
    method Pack(s: string) returns (x: nat)
      requires Valid()
      requires |s| == k && InAlphabet(alphabet, s)
      ensures x == Encode(alphabet, s)
      ensures x < profile.Length
    {
      LetterTableIsPosition(alphabet);
      x := 0;
      for i := 0 to |s|
        invariant x == Encode(alphabet, s[..i])
      {
        assert s[..i + 1][..i] == s[..i];
        x := x * 4 + letterToBinary[s[i]];
      }
      assert s[..|s|] == s;
      EncodeBound(alphabet, s);
    }

    /**
     * sequenceToBinary(s) (kmer.js:292-304): the profile index of a k-mer;
     * rejects a string whose length is not k or that has a letter outside the
     * alphabet.
     */
    method SequenceToBinary(s: string) returns (r: Result<nat>)
      requires Valid()
      ensures r.Err? <==> |s| != k || !InAlphabet(alphabet, s)
      ensures r.Err? ==> r.error == (if |s| != k then NotAKmer else NotInAlphabet)
      ensures r.Ok? ==> r.value == Encode(alphabet, s) && r.value < profile.Length
    {
      if |s| != k {
        return Err(NotAKmer);
      }
      if !InAlphabet(alphabet, s) {
        return Err(NotInAlphabet);
      }
      var x := Pack(s);
      return Ok(x);
    }

    /**
     * binaryToSequence(x) (kmer.js:320-332): always k letters, the k lowest
     * base-4 digits of x; for an index of the profile, the k-mer it encodes.
     * The mask and shift are taken as % 4 and / 4 on unbounded integers;
     * Codec.MaskShiftStep and Codec.NegativeWordDigits show, apart from this
     * loop, that the 32-bit & 0x03 and >> 2 compute the same.
     */
    method BinaryToSequence(x: int) returns (s: string)
      requires Valid()
      ensures s == Decode(alphabet, k, x)
      ensures |s| == k && InAlphabet(alphabet, s)
      ensures 0 <= x < profile.Length ==> Encode(alphabet, s) == x
    {
      var digits: string := [];
      var y := x;
      for i := 0 to k
        invariant digits + LowDigits(alphabet, k - i, y) == LowDigits(alphabet, k, x)
      {
        assert LowDigits(alphabet, k - i, y) == [alphabet[y % 4]] + LowDigits(alphabet, k - i - 1, y / 4);
        assert digits + [binaryToLetter[y % 4]] + LowDigits(alphabet, k - i - 1, y / 4)
            == digits + LowDigits(alphabet, k - i, y);
        digits := digits + [binaryToLetter[y % 4]];  // x & 0x03
        y := y / 4;                                   // x >> 2
      }
      assert digits == LowDigits(alphabet, k, x);
      s := Reverse(digits);
      ReverseLowDigits(alphabet, k, x);
      if 0 <= x < profile.Length {
        EncodeDecode(alphabet, k, x);
      }
    }

    /**
     * Update(seq) (kmer.js:213-226): counts every window of seq in place. A
     * string shorter than k or with a letter outside the alphabet is rejected
     * before anything changes; the cached total is not refreshed.
     */
    method Update(s: string) returns (r: Outcome)
      requires Valid()
      modifies profile
      ensures r.Fail? <==> !ValidRecord(alphabet, k, s)
      ensures r.Fail? ==> r.error == (if |s| < k then SequenceTooShort else NotInAlphabet)
      ensures r.Fail? ==> profile[..] == old(profile[..])
      ensures r.Pass? ==> profile[..] == Tallied(alphabet, old(profile[..]), Windows(s, k))
      ensures r.Pass? ==> Sum(profile[..]) == Sum(old(profile[..])) + |s| - k + 1
      ensures totalProfileCounts == old(totalProfileCounts)
    {
      if |s| < k {
        return Fail(SequenceTooShort);
      }
      if !InAlphabet(alphabet, s) {
        return Fail(NotInAlphabet);
      }
      var substrings := KmerArray(s, k).value;
      KmerArrayIsWindows(s, k);
      WindowsInAlphabet(alphabet, s, k);
      CountInPlace(substrings);
      forall j | 0 <= j < |substrings|
        ensures Encode(alphabet, substrings[j]) < profile.Length
      {
        EncodeBound(alphabet, substrings[j]);
      }
      TalliedSum(alphabet, old(profile[..]), substrings);
      return Pass;
    }

    /**
     * The counting loop of Update (kmer.js:221-224): pops the k-mers off the end
     * and increments the profile entry of each.
     */
    method CountInPlace(ws: seq<string>)
      requires Valid()
      requires forall j :: 0 <= j < |ws| ==> |ws[j]| == k && InAlphabet(alphabet, ws[j])
      modifies profile
      ensures profile[..] == Tallied(alphabet, old(profile[..]), ws)
    {
      var n := |ws|;
      while n > 0
        invariant 0 <= n <= |ws|
        invariant forall i :: 0 <= i < profile.Length ==> profile[i] == old(profile[i]) + Tally(alphabet, ws[n..], i)
      {
        var index := SequenceToBinary(ws[n - 1]);  // ws.pop()
        assert ws[n - 1..][1..] == ws[n..];
        profile[index.value] := profile[index.value] + 1;
        n := n - 1;
      }
      assert ws[0..] == ws;
    }

    /**
     * kmerFrequencies(s, k') (kmer.js:187-201): the counts of the k'-windows of s
     * in a fresh array of |alphabet|^k' entries, leaving the profile alone. The
     * windows are packed by sequenceToBinary, which only accepts the instance's
     * k, so a k' other than k fails unless s is empty and k' = 0.
     */
    method KmerFrequencies(s: string, kk: nat) returns (r: Result<array<nat>>)
      requires Valid()
      ensures r.Err? <==> |s| < kk || !InAlphabet(alphabet, s) || (kk != k && s != [])
      ensures r.Err? ==> r.error == (if |s| < kk then SequenceTooShort
                                     else if !InAlphabet(alphabet, s) then NotInAlphabet
                                     else NotAKmer)
      ensures r.Ok? ==> fresh(r.value)
      ensures r.Ok? ==> r.value[..] == Tallied(alphabet, Zeros(Pow(4, kk)), KmerArray(s, kk).value)
      ensures r.Ok? && kk == k ==> r.value[..] == Tallied(alphabet, Zeros(profile.Length), Windows(s, k))
    {
      if |s| < kk {
        return Err(SequenceTooShort);
      }
      if !InAlphabet(alphabet, s) {
        return Err(NotInAlphabet);
      }
      var substrings := KmerArray(s, kk).value;
      KmerArrayCount(s, kk);
      if kk == k {
        KmerArrayIsWindows(s, k);
        WindowsInAlphabet(alphabet, s, k);
      }
      r := CountWindows(substrings, kk);
    }

    /**
     * The counting loop of kmerFrequencies (kmer.js:194-199): pops the windows
     * off the end and counts each at its sequenceToBinary index, in a fresh array
     * of |alphabet|^k' entries. The first window not of length k is rejected.
     */
    method CountWindows(ws: seq<string>, kk: nat) returns (r: Result<array<nat>>)
      requires Valid()
      requires forall j :: 0 <= j < |ws| ==> |ws[j]| == kk
      requires kk == k ==> forall j :: 0 <= j < |ws| ==> InAlphabet(alphabet, ws[j])
      ensures r.Err? <==> kk != k && ws != []
      ensures r.Err? ==> r.error == NotAKmer
      ensures r.Ok? ==> fresh(r.value) && r.value[..] == Tallied(alphabet, Zeros(Pow(4, kk)), ws)
    {
      var freqs := new nat[Pow(|alphabet|, kk)](_ => 0);
      var n := |ws|;
      while n > 0
        invariant 0 <= n <= |ws|
        invariant kk != k ==> n == |ws|
        invariant forall i :: 0 <= i < freqs.Length ==> freqs[i] == Tally(alphabet, ws[n..], i)
      {
        var index := SequenceToBinary(ws[n - 1]);  // ws.pop()
        if index.Err? {
          return Err(index.error);
        }
        assert ws[n - 1..][1..] == ws[n..];
        freqs[index.value] := freqs[index.value] + 1;
        n := n - 1;
      }
      assert ws[0..] == ws;
      assert freqs[..] == Tallied(alphabet, Zeros(Pow(4, kk)), ws);
      return Ok(freqs);
    }

    /**
     * frequency(seq) (kmer.js:370-374): the k-mer's count over the cached
     * total, which may be stale; a string of another length or with a letter
     * outside the alphabet is rejected.
     */
    function Frequency(s: string): (r: Result<real>)
      reads this, profile
      requires Valid()
      requires |s| == k && InAlphabet(alphabet, s) ==> totalProfileCounts > 0
      ensures r.Err? <==> |s| != k || !InAlphabet(alphabet, s)
      ensures r.Err? ==> r.error == (if |s| != k then NotAKmer else NotInAlphabet)
      ensures r.Ok? ==> r.value * totalProfileCounts as real == Count(alphabet, k, Counts(), s) as real
      ensures r.Ok? && totalProfileCounts == Sum(Counts()) ==> 0.0 <= r.value <= 1.0
    {
      if |s| != k then Err(NotAKmer)
      else if !InAlphabet(alphabet, s) then Err(NotInAlphabet)
      else
        FrequencyFacts(alphabet, k, Counts(), totalProfileCounts, s);
        Ok(Markov.Frequency(alphabet, k, profile[..], totalProfileCounts, s))
    }

    /**
     * transitionProbability(seq1, seq2) (kmer.js:395-407): refreshes the total,
     * then gives 0 for k-mers that do not overlap in k - 1 letters, and
     * otherwise count(seq2) over the counts of all k-mers sharing seq2's
     * context. Only seq2's letters are checked against the alphabet.
     */
    method TransitionProbability(seq1: string, seq2: string) returns (r: Result<real>)
      requires Valid()
      requires |seq1| == k && |seq2| == k && seq1[1..] == seq2[..k - 1] && InAlphabet(alphabet, seq2)
               ==> Mass(alphabet, k, Counts(), seq2[..k - 1]) > 0
      modifies this`totalProfileCounts
      ensures totalProfileCounts == Sum(Counts())
      ensures r.Err? <==> |seq1| != k || |seq2| != k || (seq1[1..] == seq2[..k - 1] && !InAlphabet(alphabet, seq2))
      ensures r.Err? ==> r.error == (if |seq1| != k || |seq2| != k then NotAKmer else NotInAlphabet)
      ensures r.Ok? ==> r.value == Transition(alphabet, k, old(Counts()), seq1, seq2)
      ensures r.Ok? && seq1[1..] != seq2[..k - 1] ==> r.value == 0.0
      ensures r.Ok? ==> 0.0 <= r.value <= 1.0
    {
      var total := TotalProfileCounts();
      if |seq1| != k {
        return Err(NotAKmer);
      }
      if |seq2| != k {
        return Err(NotAKmer);
      }
      var suffix1 := seq1[1..];
      var prefix2 := seq2[..|seq2| - 1];
      if suffix1 != prefix2 {
        return Ok(0.0);
      }
      if InAlphabet(alphabet, seq2) {
        MassPositiveTotal(alphabet, k, Counts(), prefix2, alphabet);
      }
      var numerator := Frequency(seq2);
      if numerator.Err? {
        return Err(numerator.error);
      }
      // Every suffix1 + c is a k-mer over the alphabet, so none of these frequencies is rejected.
      var denominator := FrequencyOver(alphabet, k, profile[..], totalProfileCounts, suffix1, alphabet);
      TransitionCancels(alphabet, k, Counts(), totalProfileCounts, seq2);
      TransitionInUnitInterval(alphabet, k, Counts(), seq1, seq2);
      return Ok(numerator.value / denominator);
    }

    /**
     * probabilityOfSequence(seq) (kmer.js:425-440): the product, starting from
     * p = 1, of the transition probabilities between consecutive windows; seq
     * must be longer than k and over the alphabet.
     */
    method ProbabilityOfSequence(s: string) returns (r: Result<real>)
      requires Valid()
      requires |s| > k && InAlphabet(alphabet, s) ==> ContextsPositive(alphabet, k, Counts(), Windows(s, k))
      modifies this`totalProfileCounts
      ensures r.Err? <==> |s| <= k || !InAlphabet(alphabet, s)
      ensures r.Err? ==> r.error == (if |s| <= k then SequenceTooShort else NotInAlphabet)
      ensures r.Err? ==> totalProfileCounts == old(totalProfileCounts)
      ensures r.Ok? ==> totalProfileCounts == Sum(Counts())
      ensures r.Ok? ==> r.value == Chain(alphabet, k, Counts(), Windows(s, k), |s| - k)
      ensures r.Ok? ==> 0.0 <= r.value <= 1.0
    {
      if |s| <= k {
        return Err(SequenceTooShort);
      }
      if !InAlphabet(alphabet, s) {
        return Err(NotInAlphabet);
      }
      var substrings := KmerArray(s, k).value;
      KmerArrayIsWindows(s, k);
      WindowsInAlphabet(alphabet, s, k);
      var p := ProductOfTransitions(substrings);
      ChainInUnitInterval(alphabet, k, Counts(), substrings, |substrings| - 1);
      return Ok(p);
    }

    /**
     * The loop of probabilityOfSequence (kmer.js:431-436): starting from p = 1,
     * multiplies p by the transition probability between each pair of
     * consecutive k-mers.
     */
    method ProductOfTransitions(ws: seq<string>) returns (p: real)
      requires Valid()
      requires |ws| > 1 && AllKmers(k, ws) && ContextsPositive(alphabet, k, Counts(), ws)
      requires forall j :: 0 <= j < |ws| ==> InAlphabet(alphabet, ws[j])
      modifies this`totalProfileCounts
      ensures p == Chain(alphabet, k, Counts(), ws, |ws| - 1)
      ensures totalProfileCounts == Sum(Counts())
    {
      ghost var c := Counts();
      p := 1.0;
      for i := 0 to |ws| - 1
        invariant Counts() == c
        invariant p == Chain(alphabet, k, c, ws, i)
        invariant i > 0 ==> totalProfileCounts == Sum(c)
      {
        p := ExtendChain(ws, i, p);
      }
    }

    /** One turn of that loop: p times the transition from ws[i] to ws[i + 1] (kmer.js:434). */
    method ExtendChain(ws: seq<string>, i: nat, p: real) returns (q: real)
      requires Valid()
      requires AllKmers(k, ws) && ContextsPositive(alphabet, k, Counts(), ws)
      requires i + 1 < |ws| && InAlphabet(alphabet, ws[i + 1])
      requires p == Chain(alphabet, k, Counts(), ws, i)
      modifies this`totalProfileCounts
      ensures q == Chain(alphabet, k, old(Counts()), ws, i + 1)
      ensures totalProfileCounts == Sum(Counts())
    {
      ChainStep(alphabet, k, Counts(), ws, i + 1, Transition(alphabet, k, Counts(), ws[i], ws[i + 1]), p);
      var t := TransitionProbability(ws[i], ws[i + 1]);
      q := t.value * p;
    }

    /**
     * streamingUpdate() (kmer.js:261-275) as the fold it performs: Update on
     * each record's sequence in arrival order, stopping at the first record
     * Update rejects; the counts of the records before it stay.
     */
    method StreamingUpdate(records: seq<string>) returns (r: Outcome)
      requires Valid()
      modifies profile
      ensures r.Pass? <==> Accepted(alphabet, k, records) == |records|
      ensures r.Fail? ==> r.error == (if |records[Accepted(alphabet, k, records)]| < k then SequenceTooShort
                                      else NotInAlphabet)
      ensures profile[..] == TallyRecords(alphabet, k, old(profile[..]), records[..Accepted(alphabet, k, records)])
      ensures totalProfileCounts == old(totalProfileCounts)
    {
      var i := 0;
      while i < |records|
        invariant 0 <= i <= |records|
        invariant i <= Accepted(alphabet, k, records)
        invariant profile[..] == TallyRecords(alphabet, k, old(profile[..]), records[..i])
      {
        ghost var before := profile[..];
        var outcome := Update(records[i]);
        if outcome.Fail? {
          assert Accepted(alphabet, k, records) == i;
          return outcome;
        }
        assert records[..i + 1][..i] == records[..i];
        assert TallyRecords(alphabet, k, old(profile[..]), records[..i + 1])
            == Tallied(alphabet, before, Windows(records[i], k));
        i := i + 1;
      }
      assert Accepted(alphabet, k, records) == |records|;
      assert records[..|records|] == records;
      return Pass;
    }
  }
}
