/** The Internet checksum as the three code bases compute it: Kotlin folds twice in straight-line
    code, Swift and Go fold in a loop. The reference is the one's-complement sum of section 3.1
    of RFC 791 and section 3.1 of RFC 9293. */
module Checksum {
  import opened Bytes

  /** Sum of the 16-bit big-endian words; a last odd octet is padded with zero on the right. */
  function WordSum(s: Bytes): (n: nat)
  {
    if |s| == 0 then 0
    else if |s| == 1 then FromBe16(s[0], 0)
    else FromBe16(s[0], s[1]) + WordSum(s[2..])
  }

  /** End-around carry to a fixpoint. */
  function Fold(n: nat): (f: nat)
    ensures f <= 0xFFFF
  {
    if n <= 0xFFFF then n else Fold(n / TWO_16 + n % TWO_16)
  }

  /** Complement of the folded sum: the value stored in a header. */
  function Complement(n: nat): (c: nat)
    ensures c <= 0xFFFF
  {
    0xFFFF - Fold(n)
  }

  /** A receiver accepts octets whose one's-complement sum is all ones. */
  predicate Verifies(s: Bytes) {
    Fold(WordSum(s)) == 0xFFFF
  }

  // Arithmetic of the sum

  lemma {:induction false} WordSumAppend(a: Bytes, b: Bytes)
    requires |a| % 2 == 0
    ensures WordSum(a + b) == WordSum(a) + WordSum(b)
  {
    if a == [] {
      assert a + b == b;
    } else {
      WordSumAppend(a[2..], b);
      assert (a + b)[2..] == a[2..] + b;
    }
  }

  /** An odd number of octets is summed as if a zero octet followed, as the standards say. */
  lemma {:induction false} OddIsPadded(s: Bytes)
    requires |s| % 2 == 1
    ensures WordSum(s) == WordSum(s + [0])
  {
    if |s| == 1 {
      assert (s + [0])[2..] == [];
    } else {
      OddIsPadded(s[2..]);
      assert (s + [0])[2..] == s[2..] + [0];
    }
  }

  lemma {:induction false} WordSumBound(s: Bytes)
    ensures WordSum(s) <= 0xFFFF * ((|s| + 1) / 2)
  {
    if |s| >= 2 {
      WordSumBound(s[2..]);
    }
  }

  lemma WordSumNext(s: Bytes, i: nat)
    requires i % 2 == 0 && i + 1 < |s|
    ensures WordSum(s[..i + 2]) == WordSum(s[..i]) + FromBe16(s[i], s[i + 1])
  {
    assert s[..i + 2] == s[..i] + [s[i], s[i + 1]];
    WordSumAppend(s[..i], [s[i], s[i + 1]]);
    assert WordSum([s[i], s[i + 1]]) == FromBe16(s[i], s[i + 1]) + WordSum([s[i], s[i + 1]][2..]);
  }

  lemma WordSumLast(s: Bytes, i: nat)
    requires i % 2 == 0 && i + 1 == |s|
    ensures WordSum(s) == WordSum(s[..i]) + FromBe16(s[i], 0)
  {
    assert s == s[..i] + [s[i]];
    WordSumAppend(s[..i], [s[i]]);
  }

  lemma WordSumBe16(n: int)
    ensures WordSum(Be16(n)) == n % TWO_16
  {
    Be16RoundTrip(n);
    var s := Be16(n);
    assert s[2..] == [];
    assert WordSum(s) == FromBe16(s[0], s[1]) + WordSum(s[2..]);
  }

  lemma WordSumBe32(n: int)
    ensures WordSum(Be32(n)) == U32(n) / TWO_16 + U32(n) % TWO_16
  {
    hide WordSum, Be16;
    WordSumAppend(Be16(n / TWO_16), Be16(n));
    WordSumBe16(n / TWO_16);
    WordSumBe16(n);
    HighAndLowWords(n);
  }

  lemma WordSumAround(pre: Bytes, word: Bytes, post: Bytes)
    requires |pre| % 2 == 0 && |word| % 2 == 0
    ensures WordSum(pre + word + post) == WordSum(pre) + WordSum(word) + WordSum(post)
  {
    WordSumAppend(pre, word);
    WordSumAppend(pre + word, post);
  }

  /** Writing a word into a zero field at an even place adds exactly that word. */
  lemma WordSumField(pre: Bytes, c: nat, post: Bytes)
    requires |pre| % 2 == 0 && c <= 0xFFFF
    ensures WordSum(pre + Be16(c) + post) == WordSum(pre + [0, 0] + post) + c
  {
    hide Be16, FromBe16;
    WordSumAround(pre, Be16(c), post);
    WordSumAround(pre, [0, 0], post);
    WordSumBe16(c);
    WordSumZero();
  }

  lemma WordSumNothing(s: Bytes)
    requires s == []
    ensures WordSum(s) == 0
  {
  }

  lemma WordSumZero()
    ensures WordSum([0, 0]) == 0
  {
    assert WordSum([0, 0]) == FromBe16(0, 0) + WordSum([0, 0][2..]);
  }

  // Folding

  lemma FoldOnce(n: nat)
    requires n > 0xFFFF
    ensures Fold(n) == Fold(n / TWO_16 + n % TWO_16)
  {
  }

  lemma FoldDone(n: nat)
    requires n <= 0xFFFF
    ensures Fold(n) == n
  {
  }

  /** Folding is reduction modulo 2^16 - 1 with representatives 1..2^16 - 1, except at zero. */
  lemma {:induction false} FoldIsResidue(n: nat)
    ensures n == 0 ==> Fold(n) == 0
    ensures n > 0 ==> Fold(n) == (n - 1) % 0xFFFF + 1
  {
    if n > 0xFFFF {
      var q, r := n / TWO_16, n % TWO_16;
      FoldIsResidue(q + r);
      assert n - 1 == q * 0xFFFF + (q + r - 1);
      ResidueShift(q + r - 1, q);
    }
  }

  lemma ResidueShift(x: int, q: int)
    ensures (q * 0xFFFF + x) % 0xFFFF == x % 0xFFFF
  {
    var d, m := x / 0xFFFF, x % 0xFFFF;
    assert q * 0xFFFF + x == (q + d) * 0xFFFF + m;
  }

  /** Adding the complement of a sum makes it verify. */
  lemma ComplementVerifies(n: nat)
    ensures Fold(n + Complement(n)) == 0xFFFF
  {
    FoldIsResidue(n);
    FoldIsResidue(n + Complement(n));
    if n > 0 {
      var d, m := (n - 1) / 0xFFFF, (n - 1) % 0xFFFF;
      assert n + Complement(n) == (d + 1) * 0xFFFF;
      ResidueShift(-1, d + 1);
    }
  }

  /** Octets with the complement of their own zero-field sum in that field are accepted. */
  lemma StoredComplementVerifies(pre: Bytes, post: Bytes)
    requires |pre| % 2 == 0
    ensures Verifies(pre + Be16(Complement(WordSum(pre + [0, 0] + post))) + post)
  {
    var n := WordSum(pre + [0, 0] + post);
    WordSumField(pre, Complement(n), post);
    ComplementVerifies(n);
  }

  /** No other 16-bit value in the field is accepted, save that 0 and 0xFFFF are the same number
      in one's complement. */
  lemma StoredComplementUnique(pre: Bytes, c: nat, post: Bytes)
    requires |pre| % 2 == 0 && c <= 0xFFFF
    ensures var n := WordSum(pre + [0, 0] + post);
            Verifies(pre + Be16(c) + post) <==>
            c == Complement(n) || (n > 0 && Complement(n) == 0 && c == 0xFFFF)
  {
    WordSumField(pre, c, post);
    CompletesUniquely(WordSum(pre + [0, 0] + post), c);
  }

  lemma CompletesUniquely(n: nat, c: nat)
    requires c <= 0xFFFF
    ensures Fold(n + c) == 0xFFFF <==> c == Complement(n) || (n > 0 && Complement(n) == 0 && c == 0xFFFF)
  {
    FoldIsResidue(n);
    FoldIsResidue(n + c);
    hide Fold;
    if n > 0 {
      var d, m := (n - 1) / 0xFFFF, (n - 1) % 0xFFFF;
      assert n + c - 1 == d * 0xFFFF + (m + c);
      ResidueShift(m + c, d);
      assert Fold(n) == m + 1 && Fold(n + c) == (m + c) % 0xFFFF + 1;
      assert m + c < 2 * 0xFFFF;
    }
  }

  /** Kotlin: two additions, then the low sixteen bits of the inverse; shifts are arithmetic. */
  function TwoStepComplement(n: int): (c: nat)
    ensures c <= 0xFFFF
  {
    var once := n / TWO_16 + n % TWO_16;
    var twice := once + once / TWO_16;
    0xFFFF - twice % TWO_16
  }

  /** Two steps are enough for every accumulator of up to 32 bits. */
  lemma TwoStepsSuffice(n: nat)
    requires n < TWO_32
    ensures TwoStepComplement(n) == Complement(n)
  {
    var once := n / TWO_16 + n % TWO_16;
    var twice := once + once / TWO_16;
    assert once <= 0x1_FFFE;
    if n <= 0xFFFF {
      assert once == n && twice == n;
    } else if once <= 0xFFFF {
      assert twice == once && Fold(n) == Fold(once) == once;
    } else {
      assert once / TWO_16 == 1 && twice % TWO_16 == 1 + once % TWO_16;
      assert Fold(n) == Fold(once) == Fold(1 + once % TWO_16);
    }
  }

  /** The accumulators are signed 32-bit integers, and then it is half as much: two steps are right exactly
      while the sum has not reached the sign bit. Beyond it the arithmetic shift brings in ones, and the
      result is one off. */
  lemma SignedAccumulatorIff(n: nat)
    requires n < TWO_32
    ensures TwoStepComplement(Wrap32(n)) == Complement(n) <==> n < 0x8000_0000
  {
    TwoStepsSuffice(n);
    hide Complement;
    if n >= 0x8000_0000 {
      SignedShift(n);
      hide TwoStepComplement;
      OffByOne(n / TWO_16 + n % TWO_16 - TWO_16);
      OffByOne(n / TWO_16 + n % TWO_16 - 1);
    } else {
      Wrap32Fixes(n);
    }
  }

  /** What the two steps make of a sum with the sign bit set, and of the same sum without a sign. */
  lemma SignedShift(n: nat)
    requires 0x8000_0000 <= n < TWO_32
    ensures var once := n / TWO_16 + n % TWO_16;
            if once >= TWO_16
            then TwoStepComplement(Wrap32(n)) == 0xFFFF - (once - TWO_16) % TWO_16
                 && TwoStepComplement(n) == 0xFFFF - (once - TWO_16 + 1) % TWO_16
            else TwoStepComplement(Wrap32(n)) == 0xFFFF - (once - 1) % TWO_16
                 && TwoStepComplement(n) == 0xFFFF - once % TWO_16
  {
    var hi, lo, acc := n / TWO_16, n % TWO_16, Wrap32(n);
    var once := hi + lo;
    assert acc == n - TWO_32;
    assert acc / TWO_16 == hi - TWO_16 && acc % TWO_16 == lo;
    if once >= TWO_16 {
      assert (once - TWO_16) / TWO_16 == 0 && once / TWO_16 == 1;
      assert (once + 1) % TWO_16 == once - TWO_16 + 1;
    } else {
      assert (once - TWO_16) / TWO_16 == -1 && once / TWO_16 == 0;
      assert (once - TWO_16 - 1) % TWO_16 == (once - 1) % TWO_16;
    }
  }

  /** Neighbouring sums have different low words. */
  lemma OffByOne(n: int)
    ensures n % TWO_16 != (n + 1) % TWO_16
  {
  }
}
