/**
 * The letter tables and the k-mer encoding of the Kmer class.
 *
 * A k-mer is packed two bits per letter, first letter in the highest bits
 * (kmer.js:297-301), and unpacked by masking the two lowest bits k times and
 * reversing the letters obtained (kmer.js:326-330). Over four letters that is
 * the base-4 numeral of the k-mer, which is how it is specified here.
 */
module Codec {

  /**
   * The largest k whose packed indices stay below 2^30, where JavaScript's
   * 32-bit signed shift and mask agree with the unbounded arithmetic used here.
   */
  const MaxK: nat := 15

  function Pow(b: nat, e: nat): (r: nat)
    ensures b > 0 ==> r > 0
  {
    if e == 0 then 1 else b * Pow(b, e - 1)
  }

  /** An absent or empty alphabet stands for "ACGT" (kmer.js:39, kmer.js:122). */
  function DefaultAlphabet(letters: string): string
  {
    if letters == [] then "ACGT" else letters
  }

  predicate Distinct(a: string)
  {
    forall i, j :: 0 <= i < j < |a| ==> a[i] != a[j]
  }

  /**
   * The alphabets the packing is correct for: it shifts by two bits per
   * letter, so it needs exactly four letters, and they must be distinct.
   */
  predicate ValidAlphabet(a: string)
  {
    |a| == 4 && Distinct(a)
  }

  /** No letter of s is outside the alphabet (what the notInAlphabet test rejects). */
  predicate InAlphabet(a: string, s: string)
  {
    forall i :: 0 <= i < |s| ==> s[i] in a
  }

  /**
   * The letterToBinary table built by the reduce at kmer.js:75-78: each letter
   * of the alphabet in turn is entered with its position, so a repeated letter
   * ends up with its last one.
   */
  function LetterTable(a: string): map<char, nat>
  {
    if a == [] then map[] else LetterTable(a[..|a| - 1])[a[|a| - 1] := |a| - 1]
  }

  /** The last position of c in a (0 when c is absent). */
  function Position(a: string, c: char): (r: nat)
    ensures a != [] ==> r < |a|
  {
    if a == [] then 0
    else if a[|a| - 1] == c then |a| - 1
    else Position(a[..|a| - 1], c)
  }

  /**
   * The two-bit code of a letter: the entry letterToBinary holds for it, which
   * is its last position (Codec.LetterTableIsPosition). Encode goes through this
   * non-recursive name so that unfolding Encode does not unfold Position too.
   */
  function Digit(a: string, c: char): nat
  {
    Position(a, c)
  }

  /** The index of a k-mer: shift the code left by one letter and add the next one. */
  function Encode(a: string, s: string): nat
  {
    if s == [] then 0 else 4 * Encode(a, s[..|s| - 1]) + Digit(a, s[|s| - 1])
  }

  /** The base-4 value of s written out position by position, most significant letter first. */
  function Positional(a: string, s: string): nat
  {
    if s == [] then 0 else Digit(a, s[0]) * Pow(4, |s| - 1) + Positional(a, s[1..])
  }

  /** The k letters whose code is the k lowest base-4 digits of x, most significant first. */
  function Decode(a: string, k: nat, x: int): (r: string)
    requires |a| == 4
    ensures |r| == k
    ensures InAlphabet(a, r)
  {
    if k == 0 then [] else Decode(a, k - 1, x / 4) + [a[x % 4]]
  }

  /** The letters unpacked by the loop at kmer.js:326-329, least significant first. */
  function LowDigits(a: string, k: nat, x: int): string
    requires |a| == 4
  {
    if k == 0 then [] else [a[x % 4]] + LowDigits(a, k - 1, x / 4)
  }

  function Reverse(s: string): string
  {
    if s == [] then [] else Reverse(s[1..]) + [s[0]]
  }

  /** A letter of the alphabet sits at its position, and nowhere after it. */
  lemma {:induction false} PositionOf(a: string, c: char)
    requires c in a
    ensures Position(a, c) < |a| && a[Position(a, c)] == c
    ensures forall i :: Position(a, c) < i < |a| ==> a[i] != c
  {
    if a[|a| - 1] != c {
      var front := a[..|a| - 1];
      assert c in front by {
        var j :| 0 <= j < |a| && a[j] == c;
        assert front[j] == c;
      }
      PositionOf(front, c);
    }
  }

  /**
   * The table has exactly the letters of the alphabet as keys, and maps each to
   * its last position (kmer.js:75-78).
   */
  lemma {:induction false} LetterTableIsPosition(a: string)
    ensures forall c :: c in LetterTable(a) <==> c in a
    ensures forall c :: c in LetterTable(a) ==> LetterTable(a)[c] == Position(a, c)
  {
    if a != [] {
      var front := a[..|a| - 1];
      LetterTableIsPosition(front);
      assert a == front + [a[|a| - 1]];
      forall c
        ensures c in a <==> c in front || c == a[|a| - 1]
      {
        if c in a {
          var j :| 0 <= j < |a| && a[j] == c;
          if j < |a| - 1 {
            assert front[j] == c;
          }
        }
      }
    }
  }

  /** With distinct letters, the code of the i-th letter is i: letterToBinary inverts binaryToLetter (kmer.js:75-85). */
  lemma PositionInverts(a: string)
    requires Distinct(a)
    ensures forall i :: 0 <= i < |a| ==> Position(a, a[i]) == i
  {
    forall i | 0 <= i < |a|
      ensures Position(a, a[i]) == i
    {
      PositionOf(a, a[i]);
    }
  }

  /** A k-mer's index is below 4^k, the length of the profile. */
  lemma {:induction false} EncodeBound(a: string, s: string)
    requires |a| == 4
    ensures Encode(a, s) < Pow(4, |s|)
  {
    if s != [] {
      EncodeBound(a, s[..|s| - 1]);
    }
  }

  /** Putting a letter in front adds its code times 4^(number of letters after it). */
  lemma {:induction false} EncodeCons(a: string, c: char, t: string)
    ensures Encode(a, [c] + t) == Digit(a, c) * Pow(4, |t|) + Encode(a, t)
  {
    var u := [c] + t;
    if t == [] {
      assert u[..0] == [];
    } else {
      var front := t[..|t| - 1];
      var last := t[|t| - 1];
      assert u[..|u| - 1] == [c] + front;
      assert u[|u| - 1] == last;
      EncodeCons(a, c, front);
      ScaleStep(Digit(a, c), Pow(4, |front|));
    }
  }

  /** Scaling by 4 commutes with scaling by a letter's code: the step EncodeCons needs. */
  lemma ScaleStep(d: nat, p: nat)
    ensures 4 * (d * p) == d * (4 * p)
  {
  }

  /** The shift-and-add index is the base-4 numeral of the k-mer, most significant letter first. */
  lemma {:induction false} EncodeIsPositional(a: string, s: string)
    ensures Encode(a, s) == Positional(a, s)
  {
    if s != [] {
      assert s == [s[0]] + s[1..];
      EncodeCons(a, s[0], s[1..]);
      EncodeIsPositional(a, s[1..]);
    }
  }

  /** Unpacking then reversing the letters gives the decoded k-mer (kmer.js:330). */
  lemma {:induction false} ReverseLowDigits(a: string, k: nat, x: int)
    requires |a| == 4
    ensures Reverse(LowDigits(a, k, x)) == Decode(a, k, x)
  {
    if k > 0 {
      var low := LowDigits(a, k, x);
      assert low[1..] == LowDigits(a, k - 1, x / 4);
      ReverseLowDigits(a, k - 1, x / 4);
    }
  }

  /** Decoding an index below 4^k and encoding the result gives the index back. */
  lemma {:induction false} EncodeDecode(a: string, k: nat, x: int)
    requires ValidAlphabet(a)
    requires 0 <= x < Pow(4, k)
    ensures Encode(a, Decode(a, k, x)) == x
  {
    if k > 0 {
      var d := Decode(a, k, x);
      EncodeDecode(a, k - 1, x / 4);
      assert d[..|d| - 1] == Decode(a, k - 1, x / 4);
      PositionInverts(a);
      assert Digit(a, d[|d| - 1]) == x % 4;
    }
  }

  /** Encoding a k-mer over the alphabet and decoding its index gives the k-mer back. */
  lemma {:induction false} DecodeEncode(a: string, s: string)
    requires ValidAlphabet(a)
    requires InAlphabet(a, s)
    ensures Decode(a, |s|, Encode(a, s)) == s
  {
    if s != [] {
      var front := s[..|s| - 1];
      var last := s[|s| - 1];
      DecodeEncode(a, front);
      var e := Encode(a, s);
      PositionOf(a, last);
      assert e == 4 * Encode(a, front) + Digit(a, last);
      assert Digit(a, last) < 4;
      assert e / 4 == Encode(a, front);
      assert e % 4 == Digit(a, last);
      assert a[Digit(a, last)] == last;
      assert s == front + [last];
    }
  }

  /** Two k-mers over the alphabet with the same index are the same k-mer. */
  lemma EncodeInjective(a: string, s: string, t: string)
    requires ValidAlphabet(a)
    requires InAlphabet(a, s) && InAlphabet(a, t) && |s| == |t|
    requires Encode(a, s) == Encode(a, t)
    ensures s == t
  {
    DecodeEncode(a, s);
    DecodeEncode(a, t);
  }

  /** Adding a multiple of 4^j, for j >= k, to x does not change its k lowest base-4 digits. */
  lemma {:induction false} DecodeShift(a: string, k: nat, j: nat, x: int, m: int)
    requires |a| == 4 && k <= j
    ensures Decode(a, k, x + Pow(4, j) * m) == Decode(a, k, x)
  {
    if k > 0 {
      var z := Pow(4, j - 1) * m;
      assert Pow(4, j) * m == 4 * z;
      assert (x + 4 * z) / 4 == x / 4 + z;
      assert (x + 4 * z) % 4 == x % 4;
      DecodeShift(a, k - 1, j - 1, x / 4, m);
    }
  }

  /**
   * Only the k lowest base-4 digits of x matter: the mask at kmer.js:327
   * ignores everything above them.
   */
  lemma DecodeMasks(a: string, k: nat, x: int)
    requires |a| == 4
    ensures Decode(a, k, x) == Decode(a, k, x % Pow(4, k))
  {
    var p := Pow(4, k);
    var q, y := x / p, x % p;
    assert x == y + p * q;
    DecodeShift(a, k, k, y, q);
  }

  /**
   * Adding or dropping multiples of 2^32, as JavaScript's ToInt32 does before
   * the mask and the shift (kmer.js:327-328), leaves the k <= 16 decoded
   * letters unchanged.
   */
  lemma DecodeWraps(a: string, k: nat, x: int, m: int)
    requires |a| == 4 && k <= 16
    ensures Decode(a, k, x + 0x1_0000_0000 * m) == Decode(a, k, x)
  {
    assert Pow(4, 0) == 1;
    assert Pow(4, 1) == 4 && Pow(4, 2) == 16 && Pow(4, 3) == 64 && Pow(4, 4) == 256;
    assert Pow(4, 5) == 1024 && Pow(4, 6) == 4096 && Pow(4, 7) == 16384 && Pow(4, 8) == 65536;
    assert Pow(4, 9) == 262144 && Pow(4, 10) == 1048576 && Pow(4, 11) == 4194304 && Pow(4, 12) == 16777216;
    assert Pow(4, 13) == 67108864 && Pow(4, 14) == 268435456 && Pow(4, 15) == 1073741824;
    assert Pow(4, 16) == 0x1_0000_0000;
    DecodeShift(a, k, 16, x, m);
  }

  /**
   * On 32-bit values below 2^28, the shift-or step of the packing loop
   * (kmer.js:298-300) is the multiply-add Encode uses, and stays below 2^30:
   * with k <= MaxK the value shifted is at most 4^14, so no bit is lost and the
   * sign bit is never set.
   */
  lemma ShiftOrStep(x: bv32, d: bv32)
    requires x < 0x1000_0000 && d < 4
    ensures (x << 2) | d == x * 4 + d
    ensures x * 4 + d < 0x4000_0000
  {
  }

  /**
   * JavaScript's x >> 2 on the 32-bit word of x: the bits move down two places
   * and the sign bit is copied into the two vacated top bits.
   */
  function SignedShiftRight2(w: bv32): bv32
  {
    if w < 0x8000_0000 then w >> 2 else (w >> 2) | 0xC000_0000
  }

  /**
   * The mask and the shift of the unpacking loop (kmer.js:327-328) on words: the
   * mask is the word mod 4, and the shift is the word div 4, plus 0xC000_0000
   * when the sign bit is set.
   */
  lemma MaskShiftStep(w: bv32)
    ensures w & 3 == w % 4
    ensures w < 0x8000_0000 ==> SignedShiftRight2(w) == w / 4
    ensures w >= 0x8000_0000 ==> SignedShiftRight2(w) == w / 4 + 0xC000_0000
  {
  }

  /**
   * Read back as signed integers, those words are Euclidean % 4 and / 4: a
   * negative x has the word x + 2^32, whose mod 4 is x % 4 and whose div 4 plus
   * 0xC000_0000, less 2^32, is x / 4. So Decode's % and / are what the loop
   * computes on negative codes too.
   */
  lemma NegativeWordDigits(x: int)
    requires -0x8000_0000 <= x < 0
    ensures (x + 0x1_0000_0000) % 4 == x % 4
    ensures (x + 0x1_0000_0000) / 4 + 0xC000_0000 - 0x1_0000_0000 == x / 4
  {
  }
}
