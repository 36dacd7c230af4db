/**
 * The concrete expectations of the Kmer test suite (test/kmer_spec.js), stated
 * over the model.
 */
module Examples {
  import opened Results
  import opened Codec
  import opened Enumerator
  import opened Counts
  import opened KmerProfile

  /** The codes of the default alphabet's letters (kmer.js:75-78). */
  lemma DefaultDigits()
    ensures ValidAlphabet("ACGT")
    ensures Digit("ACGT", 'A') == 0 && Digit("ACGT", 'C') == 1
    ensures Digit("ACGT", 'G') == 2 && Digit("ACGT", 'T') == 3
  {
    var a := "ACGT";
    assert a[0] == 'A' && a[1] == 'C' && a[2] == 'G' && a[3] == 'T';
    PositionInverts(a);
  }

  lemma EncodeSnoc(a: string, s: string, c: char)
    ensures Encode(a, s + [c]) == 4 * Encode(a, s) + Digit(a, c)
  {
    assert (s + [c])[..|s|] == s;
  }

  /** The 3-mers of the test suite and their indices (test/kmer_spec.js:421-424). */
  lemma EncodeExamples()
    ensures Encode("ACGT", "AAA") == 0
    ensures Encode("ACGT", "AAT") == 3
    ensures Encode("ACGT", "ATA") == 12
    ensures Encode("ACGT", "TAA") == 48
  {
    var a := "ACGT";
    DefaultDigits();
    assert [] + ['A'] == "A" && [] + ['T'] == "T";
    EncodeSnoc(a, [], 'A');
    EncodeSnoc(a, [], 'T');
    assert "A" + ['A'] == "AA" && "A" + ['T'] == "AT" && "T" + ['A'] == "TA";
    EncodeSnoc(a, "A", 'A');
    EncodeSnoc(a, "A", 'T');
    EncodeSnoc(a, "T", 'A');
    assert "AA" + ['A'] == "AAA" && "AA" + ['T'] == "AAT" && "AT" + ['A'] == "ATA" && "TA" + ['A'] == "TAA";
    EncodeSnoc(a, "AA", 'A');
    EncodeSnoc(a, "AA", 'T');
    EncodeSnoc(a, "AT", 'A');
    EncodeSnoc(a, "TA", 'A');
  }

  /** Those indices decode back to the same 3-mers (test/kmer_spec.js:469-472). */
  lemma DecodeExamples()
    ensures Decode("ACGT", 3, 0) == "AAA"
    ensures Decode("ACGT", 3, 3) == "AAT"
    ensures Decode("ACGT", 3, 12) == "ATA"
    ensures Decode("ACGT", 3, 48) == "TAA"
  {
    var a := "ACGT";
    DefaultDigits();
    EncodeExamples();
    forall w | w in ["AAA", "AAT", "ATA", "TAA"]
      ensures Decode(a, 3, Encode(a, w)) == w
    {
      assert |w| == 3 && InAlphabet(a, w);
      DecodeEncode(a, w);
    }
  }

  /** The 3-mers of "helloworld", in order (test/kmer_spec.js:235-236). */
  lemma KmerArrayExample()
    ensures KmerArray("helloworld", 3) == Ok(["hel", "ell", "llo", "low", "owo", "wor", "orl", "rld"])
  {
    var s := "helloworld";
    var expected := ["hel", "ell", "llo", "low", "owo", "wor", "orl", "rld"];
    KmerArrayIsWindows(s, 3);
    forall j | 0 <= j < 8
      ensures Windows(s, 3)[j] == expected[j]
    {
      assert Windows(s, 3)[j] == s[j..j + 3] == [s[j], s[j + 1], s[j + 2]];
    }
    assert Windows(s, 3) == expected;
  }

  /**
   * The sequenceToBinary test as written: its profile has k = 2
   * (test/kmer_spec.js:383), so the 3-letter "AAA" it encodes
   * (test/kmer_spec.js:421) is rejected before any packing (kmer.js:294).
   * "hello world", which the test expects to fail on its letters
   * (test/kmer_spec.js:412-416), fails on its length first.
   */
  method SequenceToBinaryAsTested() returns (r: Result<nat>, hello: Result<nat>)
    ensures r == Err(NotAKmer)
    ensures hello == Err(NotAKmer) && hello != Err(NotInAlphabet)
  {
    var kmer := new Kmer(2, "");
    r := kmer.SequenceToBinary("AAA");
    hello := kmer.SequenceToBinary("hello world");
  }

  /**
   * The sequenceToBinary test as intended: with k = 3, the four 3-mers encode to
   * 0, 3, 12 and 48 (test/kmer_spec.js:421-424), and a string of length k with
   * letters outside the alphabet gets the alphabet error the test at
   * test/kmer_spec.js:412-416 is after.
   */
  method SequenceToBinaryExamples() returns (r0: Result<nat>, r3: Result<nat>, r12: Result<nat>, r48: Result<nat>, bad: Result<nat>)
    ensures r0 == Ok(0) && r3 == Ok(3) && r12 == Ok(12) && r48 == Ok(48)
    ensures bad == Err(NotInAlphabet)
  {
    var kmer := new Kmer(3, "");
    EncodeExamples();
    var a := "ACGT";
    assert a[0] == 'A' && a[3] == 'T';
    forall w | w in ["AAA", "AAT", "ATA", "TAA"]
      ensures InAlphabet(a, w)
    {
      assert forall i :: 0 <= i < 3 ==> w[i] == 'A' || w[i] == 'T';
    }
    r0 := kmer.SequenceToBinary("AAA");
    r3 := kmer.SequenceToBinary("AAT");
    r12 := kmer.SequenceToBinary("ATA");
    r48 := kmer.SequenceToBinary("TAA");
    assert "hel"[0] == 'h' && 'h' !in a;
    bad := kmer.SequenceToBinary("hel");
  }

  /** For 0 < k < 10, "helloworld" has 10 - k + 1 k-mers (test/kmer_spec.js:245-250). */
  lemma KmerArrayLengths(k: nat)
    requires 0 < k < |"helloworld"|
    ensures |KmerArray("helloworld", k).value| == |"helloworld"| - k + 1
  {
    KmerArrayCount("helloworld", k);
  }

  /** Two windows with the same index put 2 there and 0 elsewhere. */
  lemma TallyTwice(a: string, w: string, i: nat)
    ensures Tally(a, [w, w], i) == if Encode(a, w) == i then 2 else 0
  {
    assert [w, w][1..] == [w] && [w][1..] == [];
    assert Tally(a, [w], i) == (if Encode(a, w) == i then 1 else 0) + Tally(a, [], i);
  }

  /** The windows of "AAA" are "AA" twice, at index 0 (test/kmer_spec.js:375). */
  lemma UpdateTally()
    ensures Windows("AAA", 2) == ["AA", "AA"]
    ensures Tallied("ACGT", Zeros(16), ["AA", "AA"]) == [2] + Zeros(15)
  {
    var ws := Windows("AAA", 2);
    assert ws[0] == "AAA"[0..2] == "AA";
    assert ws[1] == "AAA"[1..3] == "AA";
    DefaultDigits();
    assert [] + ['A'] == "A" && "A" + ['A'] == "AA";
    EncodeSnoc("ACGT", [], 'A');
    EncodeSnoc("ACGT", "A", 'A');
    forall i | 0 <= i < 16
      ensures Tallied("ACGT", Zeros(16), ["AA", "AA"])[i] == ([2] + Zeros(15))[i]
    {
      TallyTwice("ACGT", "AA", i);
    }
  }

  /** A fresh 2-mer profile after update("AAA"): two counts of "AA", nothing else (test/kmer_spec.js:358-376). */
  method UpdateExample() returns (counts: seq<nat>)
    ensures counts == [2] + Zeros(15)
  {
    var kmer := new Kmer(2, "");
    assert Pow(4, 2) == 16;
    assert InAlphabet("ACGT", "AAA") by {
      assert forall i :: 0 <= i < 3 ==> "AAA"[i] == 'A';
    }
    var r := kmer.Update("AAA");
    UpdateTally();
    counts := kmer.profile[..];
  }

  /** profileAsArray over "ACGT" has 4^k entries (test/kmer_spec.js:569-571). */
  method ProfileLengthExample() returns (n2: nat, n3: nat)
    ensures n2 == 16 && n3 == 64
  {
    var p2 := Kmer.ProfileAsArray(2, "ACGT");
    var p3 := Kmer.ProfileAsArray(3, "ACGT");
    assert Pow(4, 1) == 4 && Pow(4, 2) == 16 && Pow(4, 3) == 64;
    n2, n3 := p2.value.Length, p3.value.Length;
  }
}
