# kmer.js in Dafny

A model of the `Kmer` class of kmer.js, a k-mer profiling engine for
biological sequences, with proofs of what it computes.

The class keeps a profile: one count per k-mer, in an array of 4^k entries
indexed by the k-mer's two-bit packed code. `Update` counts every window of a
sequence into the profile in place, and `streamingUpdate` does the same for a
stream of records. `TotalProfileCounts` caches the sum of the counts. The
Markov statistics are computed from the profile:

- `frequency` is a count over the cached total;
- `transitionProbability` is the order-(k-1) transition between two k-mers;
- `probabilityOfSequence` is the product of the transitions along a sequence's windows.

The project has seven modules:

- `Results` (`results.dfy`): the thrown `TypeError`s as an `Error` datatype, with `Result` and `Outcome`.
- `Codec` (`codec.dfy`):
  - the letter tables;
  - the base-4 reading of the packing (`Encode`, `Decode`, `Positional`);
  - the round trips and the bit-level steps of the loops.
- `Enumerator` (`enumerator.dfy`): `kmerArray` as the source writes it (a map over every position, then a filter), and its reference, the windows `Windows(s, k)`.
- `Counts` (`counts.dfy`): the counts as a value. It defines the sum, what counting a list of windows adds (`Tally`, `Tallied`) and the fold over a stream of records.
- `Markov` (`markov.dfy`):
  - `Count`, the mass of a context, `Frequency`, `Transition` and `Chain`, all over exact reals;
  - the proofs that the total cancels and that every result is a probability.
- `KmerProfile` (`kmer.dfy`): the class `Kmer` itself, with the profile as an `array<nat>` updated in place. Every loop of the source is a `while` or `for` loop proved against the functions above.
- `Examples` (`examples.dfy`): the concrete expectations of test/kmer_spec.js, proved over the model.

Preconditions stand for what the code assumes but does not check:

- The alphabet has exactly four distinct letters. The packing shifts two bits per letter, and a repeated letter breaks the inverse tables.
- 1 <= k <= 15. JavaScript shifts work on 32-bit signed values; the model's integers are unbounded.
- Wherever a ratio is taken, its denominator is positive. The code would produce NaN or Infinity there.

An absent or empty alphabet defaults to "ACGT", as in the code.

Some behaviour of kmer.js that the model keeps:

- kmer.js counts only the sequence it is given, on one strand. The profile has no completion flag.
- `transitionProbability` divides whenever the two k-mers overlap; a k-mer never seen gets 0 because its count is 0, provided its context was seen (otherwise kmer.js:405 divides 0 by 0 and gives NaN).
- `probabilityOfSequence` starts from `p = 1` and multiplies only the transitions between consecutive windows.
- `transitionProbability` looks at letters only when the k-mers overlap, and then only at seq2's, through `frequency(seq2)`. Non-overlapping k-mers give 0 whatever their letters, and the first letter of seq1 is never checked.
- `kmerArray(s, 0)` returns one empty string per letter of `s`, because the map runs over every position.
- `kmerFrequencies(s, k')` packs its windows with `sequenceToBinary`, which only accepts the instance's k. So it fails for any k' other than k, unless `s` is empty and k' = 0.

## Model

| member | source | states |
|---|---|---|
| Codec.Pow | kmer.js:128 | Math.pow on naturals, the profile length L^k (also kmer.js:195); positive for a positive base |
| Codec.InAlphabet | kmer.js:68 | no letter outside the alphabet: what the notInAlphabet test rejects at kmer.js:192, 219, 295 and 428, negated |
| Codec.DefaultAlphabet | kmer.js:39 | an absent or empty alphabet stands for "ACGT"; any other is kept |
| Codec.LetterTable | kmer.js:75-78 | the letterToBinary table: each letter in turn entered with its position |
| Codec.Position | kmer.js:75-78 | the last position of a letter in the alphabet, which is within the alphabet |
| Codec.Digit | kmer.js:300 | the two-bit code of a letter, the entry letterToBinary holds for it |
| Codec.Encode | kmer.js:297-301 | the packed index: shift the code so far left by one letter and add the next letter's code |
| Codec.Positional | kmer.js:297-302 | the reference reading of an index: the base-4 numeral of the k-mer, most significant letter first |
| Codec.LowDigits | kmer.js:326-329 | the letters the unpacking loop appends, least significant first |
| Codec.Reverse | kmer.js:330 | the string read backwards |
| Codec.LetterTableIsPosition | kmer.js:75-78 | letterToBinary has exactly the alphabet's letters as keys, each mapped to its last position |
| Codec.PositionOf | kmer.js:75-78 | a letter of the alphabet sits at the position the table gives it, and at no later position |
| Codec.PositionInverts | kmer.js:75-85 | with distinct letters, letterToBinary of binaryToLetter[i] is i |
| Codec.Decode | kmer.js:326-330 | decoding always yields exactly k letters, all from the alphabet |
| Codec.EncodeBound | kmer.js:297-302 | a k-mer's index is below 4^k, the profile length |
| Codec.EncodeCons | kmer.js:297-301 | a leading letter contributes its code times 4 raised to the number of letters after it |
| Codec.EncodeIsPositional | kmer.js:297-302 | the shift-and-or index is the base-4 numeral of the k-mer, most significant letter first |
| Codec.ReverseLowDigits | kmer.js:326-330 | masking off k letters and reversing them gives the decoded k-mer |
| Codec.EncodeDecode | kmer.js:292-332 | for 0 <= x < 4^k, encoding the decoding of x gives x back |
| Codec.DecodeEncode | kmer.js:292-332 | for a k-mer over a valid alphabet, decoding its index gives the k-mer back |
| Codec.EncodeInjective | kmer.js:297-302 | two same-length strings over the alphabet with the same index are equal |
| Codec.DecodeShift | kmer.js:326-329 | adding a multiple of 4^j, for any j >= k, to x leaves its k decoded letters unchanged |
| Codec.DecodeWraps | kmer.js:327-328 | for k <= 16, adding or dropping multiples of 2^32, as ToInt32 does, leaves the k decoded letters unchanged |
| Codec.DecodeMasks | kmer.js:326-329 | only x mod 4^k matters to the decoding: the higher bits are ignored |
| Codec.ShiftOrStep | kmer.js:298-300 | for 32-bit x < 2^28 and a code below 4, (x << 2) OR code is x * 4 + code and stays below 2^30 |
| Codec.SignedShiftRight2 | kmer.js:328 | JavaScript's x >> 2 on a 32-bit word: the bits move down two places and the sign bit fills the top two |
| Codec.MaskShiftStep | kmer.js:327-328 | on every 32-bit word, & 3 is the word mod 4; the sign-extending shift is the word div 4, plus 0xC000_0000 when the sign bit is set |
| Codec.NegativeWordDigits | kmer.js:327-328 | for -2^31 <= x < 0, whose word is x + 2^32: that word mod 4 is x % 4, and its div 4 plus 0xC000_0000, read back as signed, is x / 4 |
| Enumerator.Substring | kmer.js:158 | JavaScript's s.substring(i, j) for i <= j: the end is clamped to the length of s |
| Enumerator.KeepLength | kmer.js:159-164 | the filter keeps only strings of length k and never lengthens the list |
| Enumerator.KmerArray | kmer.js:151-166 | fails exactly when the string is shorter than k; otherwise every substring returned has length k |
| Enumerator.Windows | kmer.js:157-164 | every window of the reference enumeration has length k |
| Enumerator.KeepNone | kmer.js:159-164 | a list with no string of length k filters to nothing |
| Enumerator.KeepPrefix | kmer.js:157-164 | length-k strings followed by strings of other lengths filter to the former, in order |
| Enumerator.KmerArrayIsWindows | kmer.js:155-164 | for 1 <= k <= n, n the length of s, kmerArray returns exactly the n - k + 1 windows s[i..i+k], in increasing i |
| Enumerator.KmerArrayCount | kmer.js:155-164 | for s of length n, kmerArray returns n - k + 1 substrings when k >= 1, and n empty ones when k = 0 |
| Enumerator.WindowsInAlphabet | kmer.js:219-221 | the windows of a string over the alphabet are k-mers over the alphabet |
| Enumerator.WindowsOverlap | kmer.js:402-404 | consecutive windows overlap in k - 1 letters |
| Counts.Zeros | kmer.js:129 | a freshly allocated Uint32Array of n zeroes (also kmer.js:195) |
| Counts.Sum | kmer.js:351 | the sum of all counts |
| Counts.Tally | kmer.js:221-224 | how many of a list of windows encode to a given index |
| Counts.Tallied | kmer.js:221-224 | the counts after one increment per window, at that window's index |
| Counts.TallyRecords | kmer.js:264-273 | the counts after counting the windows of every record, in arrival order |
| Counts.ValidRecord | kmer.js:218-219 | what Update accepts: at least k letters, all from the alphabet |
| Counts.Accepted | kmer.js:264-273 | the stream accepts a prefix of valid records, and the record after it, if any, is invalid |
| Counts.SumZeros | kmer.js:101 | an all-zero profile sums to zero |
| Counts.CountAtMostSum | kmer.js:351 | no single count exceeds the total |
| Counts.SumIncrement | kmer.js:223 | one increment raises the total by one |
| Counts.TallyAbsent | kmer.js:221-224 | an entry no window encodes to is left unchanged by Update |
| Counts.TalliedSum | kmer.js:221-224 | counting n windows with in-range indices raises the total by n and keeps the length |
| Counts.TallyRecordsGrows | kmer.js:264-273 | folding records into the profile keeps its length and never lowers a count |
| Markov.Count | kmer.js:373 | the profile entry at a k-mer's index; 0 for a string of another length |
| Markov.MassOver | kmer.js:405 | the counts of the context followed by each of some letters, summed |
| Markov.Mass | kmer.js:405 | the counts of every k-mer starting with a (k-1)-letter context, over the whole alphabet |
| Markov.Frequency | kmer.js:373 | a k-mer's count over a positive total |
| Markov.FrequencyOver | kmer.js:405 | the frequencies of the context followed by each of some letters, summed: the denominator of the transition |
| Markov.Transition | kmer.js:402-405 | 0 when the k-mers do not overlap in k - 1 letters, otherwise the second one's count over the mass of its context |
| Markov.Chain | kmer.js:431-436 | the product of the first n transitions along a list of k-mers, starting from 1 |
| Markov.FrequencyTimesTotal | kmer.js:373 | a frequency times its total is the count |
| Markov.FrequencyFacts | kmer.js:370-374 | a frequency times its total is the count, and with a freshly summed total it lies in [0, 1] |
| Markov.FrequencyAtMostOne | kmer.js:373 | with a freshly summed total, a frequency lies in [0, 1] |
| Markov.FrequencyOverCancels | kmer.js:405 | the sum of the context's frequencies is the context's mass over the total |
| Markov.TransitionCancels | kmer.js:396-405 | the ratio of frequencies is the ratio of counts, for any positive total, and its denominator is positive |
| Markov.CountAtMostMass | kmer.js:405 | an extension's count is at most the mass of its context |
| Markov.MassPositiveTotal | kmer.js:396-405 | a context with positive mass means the profile total is positive, so the frequencies are defined |
| Markov.TransitionInUnitInterval | kmer.js:402-405 | a transition into a k-mer over the alphabet lies in [0, 1] |
| Markov.TransitionOfWindows | kmer.js:430-436 | between consecutive windows the transition is always the ratio of counts, never the zero case |
| Markov.ChainStep | kmer.js:435 | multiplying the product so far by the next transition gives the product one window further |
| Markov.ChainInUnitInterval | kmer.js:431-437 | the product of the transitions along windows over the alphabet lies in [0, 1] |
| KmerProfile.Kmer.constructor | kmer.js:37-106 | valid tables, an all-zero profile of 4^k counts, and a cached total of 0 |
| KmerProfile.Kmer.ProfileAsArray | kmer.js:121-131 | fails exactly for an alphabet of at most one letter; otherwise a fresh all-zero array of L^k entries, L the alphabet length, "ACGT" when the alphabet is empty |
| KmerProfile.Kmer.TotalProfileCounts | kmer.js:350-353 | sets the cached total to the sum of the profile and returns it, changing nothing else |
| KmerProfile.Kmer.Pack | kmer.js:297-302 | the packing loop computes the base-4 index of the k-mer, which is below the profile length |
| KmerProfile.Kmer.SequenceToBinary | kmer.js:292-304 | fails exactly on a wrong length or a letter outside the alphabet; otherwise the k-mer's index, within the profile |
| KmerProfile.Kmer.BinaryToSequence | kmer.js:320-332 | always k letters over the alphabet, the decoding of x; for a profile index, the k-mer whose index it is |
| KmerProfile.Kmer.Update | kmer.js:213-226 | rejects a string shorter than k or with a foreign letter and leaves the profile alone; otherwise adds to each entry the number of windows encoding to it, so the sum grows by n - k + 1 for s of length n; the cached total is not refreshed |
| KmerProfile.Kmer.CountInPlace | kmer.js:221-224 | the pop-and-increment loop leaves each entry raised by the number of windows encoding to it |
| KmerProfile.Kmer.KmerFrequencies | kmer.js:187-201 | fails when s is shorter than k', has a foreign letter, or has windows of a length other than k; otherwise a fresh array with the window counts, the same counts Update would add, leaving the profile alone |
| KmerProfile.Kmer.CountWindows | kmer.js:194-199 | the loop counts each window into a fresh zeroed array, failing on the first window sequenceToBinary rejects |
| KmerProfile.Kmer.Frequency | kmer.js:370-374 | fails exactly on a wrong length or a foreign letter; otherwise a value that times the cached total is the count, and lies in [0, 1] when the total is fresh |
| KmerProfile.Kmer.TransitionProbability | kmer.js:395-407 | refreshes the total; fails on a wrong length, or on overlapping k-mers with seq2 outside the alphabet; 0 when they do not overlap, otherwise count(seq2) over the mass of its context; always in [0, 1] |
| KmerProfile.Kmer.ProbabilityOfSequence | kmer.js:425-440 | fails exactly when s is not longer than k or has a foreign letter; otherwise the product of the window transitions from 1, in [0, 1], with the total refreshed |
| KmerProfile.Kmer.ProductOfTransitions | kmer.js:431-436 | the accumulating loop computes the chain product over all consecutive window pairs |
| KmerProfile.Kmer.ExtendChain | kmer.js:435 | one turn of the loop extends the chain product by one transition |
| KmerProfile.Kmer.StreamingUpdate | kmer.js:261-275 | stops at the first rejected record with its error; the profile holds the counts of every record before it, in order |
| Examples.DefaultDigits | kmer.js:75-78 | in "ACGT", A, C, G and T have codes 0, 1, 2 and 3 |
| Examples.SequenceToBinaryAsTested | test/kmer_spec.js:383-421 | as the test is written, a k = 2 profile rejects the 3-letter "AAA" with NotAKmer, and rejects "hello world" with NotAKmer rather than the alphabet error that test expects |
| Examples.SequenceToBinaryExamples | test/kmer_spec.js:412-424 | with k = 3, sequenceToBinary returns 0, 3, 12 and 48 for "AAA", "AAT", "ATA" and "TAA", and the alphabet error for the 3-letter "hel" |
| Examples.EncodeExamples | test/kmer_spec.js:421-424 | "AAA", "AAT", "ATA" and "TAA" have indices 0, 3, 12 and 48 |
| Examples.DecodeExamples | test/kmer_spec.js:469-472 | with k = 3, indices 0, 3, 12 and 48 decode to "AAA", "AAT", "ATA" and "TAA" |
| Examples.KmerArrayExample | test/kmer_spec.js:235-236 | the 3-mers of "helloworld" are the eight listed substrings, in order |
| Examples.KmerArrayLengths | test/kmer_spec.js:245-250 | for 0 < k < 10, "helloworld" has 10 - k + 1 k-mers |
| Examples.UpdateTally | test/kmer_spec.js:358-376 | the windows of "AAA" for k = 2 are "AA" twice, and counting them into 16 zeroes gives 2 then fifteen zeroes |
| Examples.UpdateExample | test/kmer_spec.js:355-376 | a fresh k = 2 profile after update("AAA") is [2, 0, ..., 0] |
| Examples.ProfileLengthExample | test/kmer_spec.js:568-571 | profileAsArray over "ACGT" has 16 entries for k = 2 and 64 for k = 3 |

## Left out

- `euclidean` and `correlation` (kmer.js:460-529): floating-point square roots, division and `toFixed` rounding, which the model's exact reals do not capture.
- The through2 stream object of `streamingUpdate` (kmer.js:264-274). These are stream plumbing. `KmerProfile.Kmer.StreamingUpdate` is the in-order fold of `Update` over the records' sequences, stopping at the first thrown error.
- The check for a record without a `seq` attribute (kmer.js:265-269). Records are modelled as their sequences.
- BigNumber arithmetic (kmer.js:351, kmer.js:373, kmer.js:405, kmer.js:435): exact reals and naturals stand in for it. The library's decimal rounding is not modelled.
- The NaN and Infinity results of a zero denominator. These are excluded by preconditions: `Frequency` needs a positive total, `TransitionProbability` a context of positive mass, `ProbabilityOfSequence` every window context of positive mass.
- The dynamic type checks (`Type.is`, and the float test through `toString().indexOf('.')`): Dafny's static types cover them.
- Strings: a JavaScript string is modelled as its sequence of characters, each character read as one UTF-16 code unit, which is what `length`, `substring` and `split('')` count. Characters outside the Basic Multilingual Plane, which JavaScript counts as two units, are not given that reading.
- The `notInAlphabet` regular expression (kmer.js:68). It is modelled as plain membership in the alphabet, without the special meaning some characters take inside a character class.
- Uint32 count overflow at 2^32 in the profile: counts are unbounded naturals.
- KmerProfile.Kmer.constructor: requires an alphabet of four distinct letters and 1 <= k <= 15. The code checks only that the alphabet has more than one letter (kmer.js:43), accepts k = 0 (for k < 0 construction throws a TypeError from `reduce` with no initial value on the empty profile, kmer.js:101 and kmer.js:351), and gives wrong indices for other alphabet sizes or repeated letters. The model does not cover those cases.
- KmerProfile.Kmer.BinaryToSequence: the loop runs on unbounded integers with `% 4` and `/ 4`, while JavaScript first reduces x to a signed 32-bit word (ToInt32). The letters agree for every integer x. ToInt32 drops a multiple of 2^32, and `Codec.DecodeWraps` shows that this leaves the k <= 16 letters unchanged; `Codec.DecodeMasks` states the same from the other side: only x mod 4^k matters. Two lemmas stand apart from the loop. `Codec.MaskShiftStep` proves, on bv32 words, that `& 3` and the sign-extending `>> 2` are the word's mod 4 and div 4, adjusted when the sign bit is set. `Codec.NegativeWordDigits` proves, on integers, that those words read back as signed values are `x % 4` and `x / 4`. The conversion between a bv32 word and its signed integer value is not proved.
- KmerProfile.Kmer.Pack: the loop runs on unbounded integers. `Codec.ShiftOrStep` stands apart from it: it proves, on bv32 words, that one `(x << 2) | code` step is `x * 4 + code` and stays below 2^30, which is what makes the two agree for k <= 15. The loop is not carried out over a bv32 shadow.
- Enumerator.KmerArray, KmerProfile.Kmer.ProfileAsArray, KmerProfile.Kmer.KmerFrequencies: k is a natural number. The JavaScript methods also accept a negative k: `kmerArray(s, -1)` returns no substrings, and `profileAsArray(-1)` returns an empty array, because `Math.pow(4, -1)` truncates to length 0. The model does not cover negative k.
- The `update` binding made in the constructor (kmer.js:104): it only fixes `this` for the stream callback.
- app/readProfile.js and app/loadLogger.js (file, S3 and gzip access, logging), test/kmer_perf.js (benchmarks) and docs/api.js (generated documentation): I/O and tooling around the class, not part of this model.

## Findings

| source | as written | input that shows it | evidently intended | confidence | as-written member | corrected member |
|---|---|---|---|---|---|---|
| test/kmer_spec.js:383-424 | the sequenceToBinary tests build `new Kmer(2)` and expect 3-letter strings to encode to 0, 3, 12 and 48; they also expect `sequenceToBinary("hello world")` to throw the alphabet message (test/kmer_spec.js:412-416), but the length check at kmer.js:294 runs before the alphabet check at kmer.js:295, so the length message is thrown | `sequenceToBinary("AAA")` and `sequenceToBinary("hello world")` on the k = 2 instance are both rejected at kmer.js:294 with the length error, since neither length is k | a k = 3 instance, as the binaryToSequence tests build (test/kmer_spec.js:431), on which the four strings encode to 0, 3, 12 and 48, and a length-k string with letters outside the alphabet, which gets the alphabet error | not executed | Examples.SequenceToBinaryAsTested | Examples.SequenceToBinaryExamples |
