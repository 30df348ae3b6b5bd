/** Octets, big-endian integers, 32-bit wrap-around and joined chunks: the vocabulary shared by
    the packet, parser and stream modules. */
module Bytes {

  /** One octet. */
  newtype Byte = b: int | 0 <= b < 0x100

  type Bytes = seq<Byte>

  const TWO_16 := 0x1_0000
  const TWO_32 := 0x1_0000_0000

  /** A signed 32-bit integer, as Kotlin's Int. */
  type Int32 = i: int | -0x8000_0000 <= i < 0x8000_0000

  datatype Option<+T> = None | Some(value: T)

  datatype Result<+T, +E> = Ok(value: T) | Err(error: E)

  function Min(a: nat, b: nat): nat {
    if a < b then a else b
  }

  // Subsequences

  /** `a` is `b` with some elements left out, in the same order. */
  predicate Subsequence<T(==)>(a: seq<T>, b: seq<T>)
    decreases |b|
  {
    if a == [] then true
    else if b == [] then false
    else if a[0] == b[0] then Subsequence(a[1..], b[1..])
    else Subsequence(a, b[1..])
  }

  lemma {:induction false} SubsequenceMore<T>(a: seq<T>, b: seq<T>, x: T)
    requires Subsequence(a, b)
    ensures Subsequence(a, b + [x]) && Subsequence(a + [x], b + [x])
    decreases |b|
  {
    if b != [] {
      assert (b + [x])[1..] == b[1..] + [x];
      if a == [] {
        SubsequenceMore(a, b[1..], x);
        assert (a + [x])[1..] == [];
      } else if a[0] == b[0] {
        SubsequenceMore(a[1..], b[1..], x);
        assert (a + [x])[1..] == a[1..] + [x];
      } else {
        SubsequenceMore(a, b[1..], x);
      }
    } else {
      assert (b + [x])[1..] == [] && (a + [x])[1..] == [];
    }
  }

  lemma {:induction false} SubsequenceLength<T>(a: seq<T>, b: seq<T>)
    requires Subsequence(a, b)
    ensures |a| <= |b| && (|a| == |b| ==> a == b)
    decreases |b|
  {
    if a != [] {
      if a[0] == b[0] {
        SubsequenceLength(a[1..], b[1..]);
        assert a == [a[0]] + a[1..] && b == [b[0]] + b[1..];
      } else {
        SubsequenceLength(a, b[1..]);
      }
    }
  }

  // Big-endian integers

  function Be16(n: int): (s: Bytes)
    ensures |s| == 2
  {
    [(n / 0x100 % 0x100) as Byte, (n % 0x100) as Byte]
  }

  function FromBe16(hi: Byte, lo: Byte): (n: nat)
    ensures n < TWO_16
  {
    hi as nat * 0x100 + lo as nat
  }

  /** The low sixteen bits survive a trip through two octets, whatever the sign of `n`. */
  lemma Be16RoundTrip(n: int)
    ensures FromBe16(Be16(n)[0], Be16(n)[1]) == n % TWO_16
  {
    var q, r := n / TWO_16, n % TWO_16;
    var hi, lo := r / 0x100, r % 0x100;
    assert n == (q * 0x100 + hi) * 0x100 + lo;
    assert n / 0x100 == q * 0x100 + hi && n % 0x100 == lo;
    assert (q * 0x100 + hi) % 0x100 == hi;
  }

  lemma FromBe16RoundTrip(hi: Byte, lo: Byte)
    ensures Be16(FromBe16(hi, lo)) == [hi, lo]
  {
    var h, l := hi as int, lo as int;
    assert (h * 0x100 + l) / 0x100 == h && (h * 0x100 + l) % 0x100 == l;
  }

  lemma Be16Low(n: int)
    ensures Be16(n % TWO_16) == Be16(n)
  {
    var q, r := n / TWO_16, n % TWO_16;
    assert n == q * TWO_16 + r;
    assert n / 0x100 == q * 0x100 + r / 0x100;
    assert (q * 0x100 + r / 0x100) % 0x100 == r / 0x100 % 0x100;
    assert n % 0x100 == r % 0x100;
  }

  function Be32(n: int): (s: Bytes)
    ensures |s| == 4
  {
    Be16(n / TWO_16) + Be16(n)
  }

  function FromBe32(a: Byte, b: Byte, c: Byte, d: Byte): (n: nat)
    ensures n < TWO_32
  {
    FromBe16(a, b) * TWO_16 + FromBe16(c, d)
  }

  // Two's complement

  /** The unsigned reading of the low 32 bits. */
  function U32(n: int): (u: nat)
    ensures u < TWO_32
  {
    n % TWO_32
  }

  /** The signed reading of the low 32 bits: what Kotlin's Int addition and ByteBuffer.getInt leave. */
  function Wrap32(n: int): (i: Int32)
    ensures (i - n) % TWO_32 == 0
  {
    (n + 0x8000_0000) % TWO_32 - 0x8000_0000
  }

  lemma Wrap32Fixes(i: Int32)
    ensures Wrap32(i) == i
  {
  }

  lemma WrapTwice(a: int, b: int)
    ensures Wrap32(Wrap32(a) + b) == Wrap32(a + b)
  {
    var k := (Wrap32(a) - a) / TWO_32;
    var q, r := (a + b + 0x8000_0000) / TWO_32, (a + b + 0x8000_0000) % TWO_32;
    assert Wrap32(a) + b + 0x8000_0000 == (q + k) * TWO_32 + r;
  }

  lemma Be32RoundTrip(n: int)
    ensures var s := Be32(n); FromBe32(s[0], s[1], s[2], s[3]) == U32(n)
    ensures var s := Be32(n); Wrap32(FromBe32(s[0], s[1], s[2], s[3])) == Wrap32(n)
  {
    Be16RoundTrip(n / TWO_16);
    Be16RoundTrip(n);
    HighAndLowWords(n);
    SameLowBits(n);
  }

  lemma HighAndLowWords(n: int)
    ensures n / TWO_16 % TWO_16 * TWO_16 + n % TWO_16 == n % TWO_32
  {
    var q, lo := n / TWO_16, n % TWO_16;
    var top, hi := q / TWO_16, q % TWO_16;
    assert n == top * TWO_32 + (hi * TWO_16 + lo);
  }

  lemma SameLowBits(n: int)
    ensures Wrap32(n % TWO_32) == Wrap32(n)
  {
    var q, r := n / TWO_32, n % TWO_32;
    var k, m := (r + 0x8000_0000) / TWO_32, (r + 0x8000_0000) % TWO_32;
    assert n + 0x8000_0000 == (q + k) * TWO_32 + m;
  }

  lemma FromBe32RoundTrip(a: Byte, b: Byte, c: Byte, d: Byte)
    ensures Be32(Wrap32(FromBe32(a, b, c, d))) == [a, b, c, d]
  {
    var hi, lo := FromBe16(a, b), FromBe16(c, d);
    FromBe16RoundTrip(a, b);
    FromBe16RoundTrip(c, d);
    hide FromBe16, Be16;
    var n := Wrap32(FromBe32(a, b, c, d));
    assert n == hi * TWO_16 + lo || n == hi * TWO_16 + lo - TWO_32;
    assert n / TWO_16 % TWO_16 == hi && n % TWO_16 == lo;
    Be16Low(n / TWO_16);
    Be16Low(n);
  }

  // Chunks

  /** The octets of all chunks, in order. */
  function Join(chunks: seq<Bytes>): (s: Bytes)
  {
    if chunks == [] then [] else chunks[0] + Join(chunks[1..])
  }

  lemma {:induction false} JoinAppend(a: seq<Bytes>, b: seq<Bytes>)
    ensures Join(a + b) == Join(a) + Join(b)
  {
    if a == [] {
      assert a + b == b;
    } else {
      JoinAppend(a[1..], b);
      assert (a + b)[0] == a[0] && (a + b)[1..] == a[1..] + b;
      var rest := Join(a[1..]);
      assert a[0] + (rest + Join(b)) == a[0] + rest + Join(b);
    }
  }

  lemma JoinSnoc(a: seq<Bytes>, x: Bytes)
    ensures Join(a + [x]) == Join(a) + x
  {
    JoinAppend(a, [x]);
    assert Join([x]) == x + Join([]);
  }

  /** The octets before chunk `k`. */
  lemma JoinAt(chunks: seq<Bytes>, k: nat)
    requires k < |chunks|
    ensures |Join(chunks[..k])| + |chunks[k]| <= |Join(chunks)|
    ensures Join(chunks)[|Join(chunks[..k])|..][..|chunks[k]|] == chunks[k]
  {
    assert chunks == chunks[..k] + chunks[k..];
    JoinAppend(chunks[..k], chunks[k..]);
  }
}
