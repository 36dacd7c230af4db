/** Outcomes of the Kmer operations: a value, or the TypeError the class throws. */
module Results {

  /** The validation failures of kmer.js, one constructor per kind of TypeError. */
  datatype Error =
    | AlphabetTooShort   // an alphabet of at most one letter (kmer.js:43, kmer.js:126)
    | SequenceTooShort   // fewer than k letters (kmer.js:155, kmer.js:191, kmer.js:218), or not more than k (kmer.js:427)
    | NotAKmer           // a length other than k (kmer.js:294, kmer.js:372, kmer.js:399-400)
    | NotInAlphabet      // a letter outside the alphabet (kmer.js:192, kmer.js:219, kmer.js:295, kmer.js:428)

  /** A value, or the error that was thrown instead. */
  datatype Result<T> = Ok(value: T) | Err(error: Error)

  /** The outcome of an operation that works by side effect only. */
  datatype Outcome = Pass | Fail(error: Error)
}
