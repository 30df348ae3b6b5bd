/** The nonce counter (hotpath/hotpath.go): a big-endian number of any width, counted up in place. */
module Nonce {
  import opened Bytes

  function Value(b: Bytes): nat {
    if b == [] then 0 else Value(b[..|b| - 1]) * 0x100 + b[|b| - 1] as nat
  }

  /** How many nonces of `n` octets there are. */
  function Pow256(n: nat): (p: nat)
    ensures p >= 1
  {
    if n == 0 then 1 else 0x100 * Pow256(n - 1)
  }

  function Incremented(b: Bytes): (r: Bytes)
    ensures |r| == |b|
  {
    if b == [] then []
    else
      var n := |b| - 1;
      if b[n] == 0xFF then Incremented(b[..n]) + [0] else b[..n] + [b[n] + 1]
  }

  /** One turn of the loop: the last octet wraps and the rest goes on, or it does not and that is all. */
  lemma LastOctetWraps(b: Bytes)
    requires b != []
    ensures var n := |b| - 1;
            if b[n] == 0xFF then Incremented(b) == Incremented(b[..n]) + [0] else Incremented(b) == b[..n] + [b[n] + 1]
  {
  }

  /** Increments octet by octet from the end until one does not wrap. */
  method IncrementNonce(nonce: array<Byte>)
    modifies nonce
    ensures nonce[..] == Incremented(old(nonce[..]))
  {
    hide Incremented;
    ghost var was, tail := nonce[..], [];
    assert was == was[..nonce.Length] && Incremented(was) + [] == Incremented(was);
    var i := nonce.Length - 1;
    while i >= 0
      invariant -1 <= i < nonce.Length
      invariant nonce[..] == was[..i + 1] + tail
      invariant Incremented(was) == Incremented(was[..i + 1]) + tail
    {
      ghost var now, todo := nonce[..], was[..i + 1];
      assert nonce[i] == now[i] == todo[i] && todo[..i] == was[..i];
      LastOctetWraps(todo);
      nonce[i] := if nonce[i] == 0xFF then 0 else nonce[i] + 1;
      assert nonce[..] == now[i := nonce[i]] == was[..i] + ([nonce[i]] + tail);
      if nonce[i] != 0 {
        assert Incremented(todo) + tail == was[..i] + ([nonce[i]] + tail);
        return;
      }
      assert Incremented(was[..i]) + [0] + tail == Incremented(was[..i]) + ([0] + tail);
      tail := [0] + tail;
      i := i - 1;
    }
    NothingToIncrement(was[..0], tail);
  }

  lemma NothingToIncrement(b: Bytes, tail: Bytes)
    requires b == []
    ensures Incremented(b) + tail == b + tail
  {
  }

  lemma {:induction false} ValueInRange(b: Bytes)
    ensures Value(b) < Pow256(|b|)
  {
    if b != [] {
      ValueInRange(b[..|b| - 1]);
    }
  }

  /** Equal numbers of equal width have equal octets. */
  lemma {:induction false} ValueIsInjective(a: Bytes, b: Bytes)
    requires |a| == |b| && Value(a) == Value(b)
    ensures a == b
  {
    if a != [] {
      var n := |a| - 1;
      LastOctet(Value(a[..n]), a[n] as nat, Value(b[..n]), b[n] as nat);
      ValueIsInjective(a[..n], b[..n]);
      assert a == a[..n] + [a[n]] && b == b[..n] + [b[n]];
    }
  }

  lemma LastOctet(p: nat, x: nat, q: nat, y: nat)
    requires x < 0x100 && y < 0x100 && p * 0x100 + x == q * 0x100 + y
    ensures p == q && x == y
  {
  }

  /** One call adds one, modulo 256 to the power of the width. */
  lemma {:induction false} IncrementAddsOne(b: Bytes)
    ensures Value(Incremented(b)) == if Value(b) + 1 == Pow256(|b|) then 0 else Value(b) + 1
  {
    ValueInRange(b);
    if b != [] {
      var n := |b| - 1;
      var r := Incremented(b);
      ValueInRange(b[..n]);
      if b[n] == 0xFF {
        IncrementAddsOne(b[..n]);
        assert r[..n] == Incremented(b[..n]) && r[n] == 0;
      } else {
        assert r[..n] == b[..n] && r[n] == b[n] + 1;
      }
    }
  }

  // Whole runs

  function Steps(b: Bytes, k: nat): (r: Bytes)
    ensures |r| == |b|
  {
    if k == 0 then b else Incremented(Steps(b, k - 1))
  }

  lemma Wrap(x: nat, n: nat)
    requires n > 0
    ensures (x + 1) % n == if x % n + 1 == n then 0 else x % n + 1
  {
    var q, r := x / n, x % n;
    assert x == q * n + r;
    if r + 1 == n {
      assert x + 1 == (q + 1) * n + 0;
      Residue(x + 1, q + 1, 0, n);
    } else {
      Residue(x + 1, q, r + 1, n);
    }
  }

  lemma Multiples(d: int, n: nat)
    ensures d >= 1 ==> d * n >= n
    ensures d <= -1 ==> d * n <= -(n as int)
  {
    if d >= 1 {
      assert d * n == n + (d - 1) * n;
    } else if d <= -1 {
      assert d * n == (d + 1) * n - n;
    }
  }

  lemma Residue(x: nat, q: int, r: nat, n: nat)
    requires r < n && x == q * n + r
    ensures x % n == r
  {
    var d := x / n - q;
    assert x == x / n * n + x % n;
    assert d * n == x / n * n - q * n;
    Multiples(d, n);
  }

  lemma {:induction false} StepsValue(b: Bytes, k: nat)
    ensures Value(Steps(b, k)) == (Value(b) + k) % Pow256(|b|)
  {
    var n := Pow256(|b|);
    if k == 0 {
      ValueInRange(b);
      Residue(Value(b), 0, Value(b), n);
    } else {
      StepsValue(b, k - 1);
      IncrementAddsOne(Steps(b, k - 1));
      Wrap(Value(b) + k - 1, n);
    }
  }

  /** Nonces repeat exactly with period 256 to the power of the width: two calls of a run leave the same
      octets if and only if their distance is a multiple of it. */
  lemma RepeatsIff(b: Bytes, i: nat, j: nat)
    requires i <= j
    ensures Steps(b, i) == Steps(b, j) <==> (j - i) % Pow256(|b|) == 0
  {
    hide Value, Steps, Pow256;
    var n, x, y := Pow256(|b|), Value(b) + i, Value(b) + j;
    SameResidue(x, y, n);
    StepsValue(b, i);
    StepsValue(b, j);
    if Value(Steps(b, i)) == Value(Steps(b, j)) {
      ValueIsInjective(Steps(b, i), Steps(b, j));
    }
  }

  lemma SameResidue(x: nat, y: nat, n: nat)
    requires x <= y && n > 0
    ensures x % n == y % n <==> (y - x) % n == 0
  {
    var a, b, d := x / n, y / n, (y - x) / n;
    assert x == a * n + x % n && y == b * n + y % n && y - x == d * n + (y - x) % n;
    if x % n == y % n {
      assert (b - a) * n == b * n - a * n;
      Residue(y - x, b - a, 0, n);
    } else if (y - x) % n == 0 {
      assert (a + d) * n == a * n + d * n;
      Residue(y, a + d, x % n, n);
    }
  }

  /** So 256^n successive nonces are pairwise distinct and the next one is the first again. */
  lemma CycleIsFull(b: Bytes, i: nat, j: nat)
    requires i < j
    ensures j - i < Pow256(|b|) ==> Steps(b, i) != Steps(b, j)
    ensures j - i == Pow256(|b|) ==> Steps(b, i) == Steps(b, j)
  {
    RepeatsIff(b, i, j);
    if j - i < Pow256(|b|) {
      Residue(j - i, 0, j - i, Pow256(|b|));
    } else if j - i == Pow256(|b|) {
      Residue(j - i, 1, 0, Pow256(|b|));
    }
  }

  /** And every nonce of that width is met within one cycle. */
  lemma EveryNonceIsMet(b: Bytes, c: Bytes) returns (k: nat)
    requires |c| == |b|
    ensures k < Pow256(|b|) && Steps(b, k) == c
  {
    var n := Pow256(|b|);
    ValueInRange(b);
    ValueInRange(c);
    k := if Value(c) >= Value(b) then Value(c) - Value(b) else Value(c) + n - Value(b);
    StepsValue(b, k);
    Residue(Value(b) + k, if Value(c) >= Value(b) then 0 else 1, Value(c), n);
    ValueIsInjective(Steps(b, k), c);
  }
}
