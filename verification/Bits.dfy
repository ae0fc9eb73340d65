/** Basis-state indices as bit strings, and sums over all of them.

    The state-vector code addresses amplitudes by an index whose bits are the
    qubit values.  Bits are numbered from the least significant one, so a mask
    `1 << p` selects bit `p`, `index & mask` is `Bit(index, p)`, and the
    `index | mask` of an index whose bit `p` is clear is `Flip(index, p)`. */
module Bits {

  function Pow2(n: nat): (r: nat)
    ensures r >= 1
  {
    if n == 0 then 1 else 2 * Pow2(n - 1)
  }

  predicate Bit(i: nat, p: nat) {
    if p == 0 then i % 2 == 1 else Bit(i / 2, p - 1)
  }

  /** `i ^ (1 << p)` */
  function Flip(i: nat, p: nat): nat {
    if p == 0 then (if i % 2 == 0 then i + 1 else i - 1)
    else 2 * Flip(i / 2, p - 1) + i % 2
  }

  /** Bit `p` moves the index by exactly the mask, up or down. */
  lemma {:induction false} FlipIsMask(i: nat, p: nat)
    ensures !Bit(i, p) ==> Flip(i, p) == i + Pow2(p)
    ensures Bit(i, p) ==> i == Flip(i, p) + Pow2(p)
  {
    if p > 0 {
      FlipIsMask(i / 2, p - 1);
    }
  }

  /** What a flip does to the low bit and to the rest. */
  lemma FlipParts(i: nat, p: nat)
    ensures Flip(i, p) / 2 == if p == 0 then i / 2 else Flip(i / 2, p - 1)
    ensures Flip(i, p) % 2 == if p == 0 then 1 - i % 2 else i % 2
  {
    if p > 0 {
      var rest := Flip(i / 2, p - 1);
      assert (2 * rest + i % 2) / 2 == rest;
    }
  }

  lemma {:induction false} FlipInvolutive(i: nat, p: nat)
    ensures Flip(Flip(i, p), p) == i
    ensures Bit(Flip(i, p), p) == !Bit(i, p)
  {
    var j := Flip(i, p);
    FlipParts(i, p);
    FlipParts(j, p);
    if p > 0 {
      FlipInvolutive(i / 2, p - 1);
    }
    assert Flip(j, p) / 2 == i / 2 && Flip(j, p) % 2 == i % 2;
  }

  lemma {:induction false} FlipOtherBit(i: nat, p: nat, q: nat)
    requires p != q
    ensures Bit(Flip(i, p), q) == Bit(i, q)
  {
    FlipParts(i, p);
    if p > 0 && q > 0 {
      FlipOtherBit(i / 2, p - 1, q - 1);
    }
  }

  lemma {:induction false} FlipsCommute(i: nat, p: nat, q: nat)
    ensures Flip(Flip(i, p), q) == Flip(Flip(i, q), p)
  {
    var a, b := Flip(i, p), Flip(i, q);
    FlipParts(i, p);
    FlipParts(i, q);
    FlipParts(a, q);
    FlipParts(b, p);
    if p > 0 && q > 0 {
      FlipsCommute(i / 2, p - 1, q - 1);
    }
    assert Flip(a, q) / 2 == Flip(b, p) / 2;
  }

  lemma {:induction false} FlipInRange(i: nat, p: nat, n: nat)
    requires i < Pow2(n) && p < n
    ensures Flip(i, p) < Pow2(n)
  {
    FlipParts(i, p);
    var half := Pow2(n - 1);
    assert i / 2 < half;
    if p > 0 {
      FlipInRange(i / 2, p - 1, n - 1);
    }
    assert Flip(i, p) / 2 < half;
  }

  /** An index below `2^n` is determined by its first `n` bits. */
  lemma {:induction false} BitsDetermineIndex(i: nat, j: nat, n: nat)
    requires i < Pow2(n) && j < Pow2(n)
    requires forall p | 0 <= p < n :: Bit(i, p) == Bit(j, p)
    ensures i == j
  {
    if n > 0 {
      assert Bit(i, 0) == Bit(j, 0);
      forall p | 0 <= p < n - 1
        ensures Bit(i / 2, p) == Bit(j / 2, p)
      {
        assert Bit(i, p + 1) == Bit(j, p + 1);
      }
      BitsDetermineIndex(i / 2, j / 2, n - 1);
    }
  }

  lemma {:induction false} ZeroHasNoBits(p: nat)
    ensures !Bit(0, p)
  {
    if p > 0 {
      ZeroHasNoBits(p - 1);
    }
  }

  lemma {:induction false} Pow2Monotone(a: nat, b: nat)
    requires a <= b
    ensures Pow2(a) <= Pow2(b)
  {
    if a < b {
      Pow2Monotone(a, b - 1);
    }
  }

  /** The index with the top `m` of `n` bits set. */
  function TopBits(n: nat, m: nat): (r: nat)
    requires m <= n
  {
    Pow2Monotone(n - m, n);
    Pow2(n) - Pow2(n - m)
  }

  /** Which bits of `TopBits` are set. */
  lemma {:induction false} TopBitsBit(n: nat, m: nat, p: nat)
    requires m <= n && p < n
    ensures TopBits(n, m) < Pow2(n)
    ensures Bit(TopBits(n, m), p) == (n - m <= p)
  {
    Pow2Monotone(n - m, n);
    if m == n {
      if p > 0 {
        TopBitsBit(n - 1, m - 1, p - 1);
      }
    } else if m == 0 {
      ZeroHasNoBits(p);
    } else if p > 0 {
      assert TopBits(n, m) == 2 * TopBits(n - 1, m);
      TopBitsBit(n - 1, m, p - 1);
    } else {
      assert TopBits(n, m) == 2 * TopBits(n - 1, m);
    }
  }

  // ----- indices as qubit values -----

  /** The values of the qubits in basis state `i`; qubit 0 is the most significant. */
  function Ket(i: nat, n: nat): (ket: seq<bool>)
    ensures |ket| == n
    ensures forall q | 0 <= q < n :: ket[q] == Bit(i, n - 1 - q)
  {
    seq(n, q requires 0 <= q < n => Bit(i, n - 1 - q))
  }

  /** The number that a row of digits stands for. */
  function Value(digits: seq<bool>): nat {
    if digits == [] then 0
    else 2 * Value(digits[..|digits| - 1]) + if digits[|digits| - 1] then 1 else 0
  }

  /** Read as a number, the qubit values are the index. */
  lemma {:induction false} KetValue(i: nat, n: nat)
    requires i < Pow2(n)
    ensures Value(Ket(i, n)) == i
  {
    if n > 0 {
      KetValue(i / 2, n - 1);
      assert Ket(i, n)[..n - 1] == Ket(i / 2, n - 1);
    }
  }

  /** The basis state that differs from `i` in qubit `q` alone. */
  predicate Partner(i: nat, j: nat, q: nat, n: nat)
    requires q < n
  {
    i < Pow2(n) && j < Pow2(n) && Ket(j, n) == Ket(i, n)[q := !Ket(i, n)[q]]
  }

  lemma FlippedKet(i: nat, q: nat, n: nat, r: nat)
    requires q < n && r < n
    ensures Ket(Flip(i, n - 1 - q), n)[r] == if r == q then !Ket(i, n)[r] else Ket(i, n)[r]
  {
    hide Bit, Flip;
    FlipInvolutive(i, n - 1 - q);
    if r != q {
      FlipOtherBit(i, n - 1 - q, n - 1 - r);
    }
  }

  lemma PartnerIsFlip(i: nat, j: nat, q: nat, n: nat)
    requires q < n && i < Pow2(n)
    ensures Partner(i, j, q, n) <==> j == Flip(i, n - 1 - q)
  {
    hide Bit, Flip, Ket, Pow2, Value;
    var f := Flip(i, n - 1 - q);
    FlipInRange(i, n - 1 - q, n);
    var wanted := Ket(i, n)[q := !Ket(i, n)[q]];
    forall r | 0 <= r < n
      ensures Ket(f, n)[r] == wanted[r]
    {
      FlippedKet(i, q, n, r);
    }
    assert Ket(f, n) == wanted;
    if Partner(i, j, q, n) {
      KetValue(j, n);
      KetValue(f, n);
    }
  }

  // ----- sums over an index range -----

  function Sum(f: nat -> real, n: nat): real {
    if n == 0 then 0.0 else Sum(f, n - 1) + f(n - 1)
  }

  lemma {:induction false} SumCongruent(f: nat -> real, g: nat -> real, n: nat)
    requires forall i: nat | i < n :: f(i) == g(i)
    ensures Sum(f, n) == Sum(g, n)
  {
    if n > 0 {
      SumCongruent(f, g, n - 1);
    }
  }

  lemma {:induction false} SumAdds(f: nat -> real, g: nat -> real, h: nat -> real, n: nat)
    requires forall i: nat | i < n :: h(i) == f(i) + g(i)
    ensures Sum(h, n) == Sum(f, n) + Sum(g, n)
  {
    if n > 0 {
      SumAdds(f, g, h, n - 1);
    }
  }

  function Paired(f: nat -> real): nat -> real {
    (j: nat) => f(2 * j) + f(2 * j + 1)
  }

  /** Summing neighbours `2j` and `2j + 1` together. */
  lemma {:induction false} SumByPairs(f: nat -> real, n: nat)
    ensures Sum(f, 2 * n) == Sum(Paired(f), n)
  {
    if n > 0 {
      SumByPairs(f, n - 1);
      assert Sum(f, 2 * n) == Sum(f, 2 * n - 1) + f(2 * n - 1);
    }
  }

  lemma FlipNeighbours(j: nat, p: nat)
    ensures Flip(2 * j, p) == if p == 0 then 2 * j + 1 else 2 * Flip(j, p - 1)
    ensures Flip(2 * j + 1, p) == if p == 0 then 2 * j else 2 * Flip(j, p - 1) + 1
  {
    assert (2 * j) / 2 == j && (2 * j + 1) / 2 == j;
  }

  lemma PairedFlip(f: nat -> real, g: nat -> real, n: nat, p: nat, j: nat)
    requires p < n && j < Pow2(n - 1)
    requires forall i: nat | i < Pow2(n) :: g(i) == f(Flip(i, p))
    ensures Paired(g)(j) == if p == 0 then Paired(f)(j) else Paired(f)(Flip(j, p - 1))
  {
    FlipNeighbours(j, p);
    assert g(2 * j) == f(Flip(2 * j, p));
    assert g(2 * j + 1) == f(Flip(2 * j + 1, p));
  }

  /** Flipping one bit permutes the indices below `2^n`. */
  lemma {:induction false} SumFlipped(f: nat -> real, g: nat -> real, n: nat, p: nat)
    requires p < n
    requires forall i: nat | i < Pow2(n) :: g(i) == f(Flip(i, p))
    ensures Sum(g, Pow2(n)) == Sum(f, Pow2(n))
  {
    var half := Pow2(n - 1);
    assert Sum(Paired(g), half) == Sum(Paired(f), half) by {
      if p == 0 {
        forall j: nat | j < half ensures Paired(g)(j) == Paired(f)(j) {
          PairedFlip(f, g, n, p, j);
        }
        SumCongruent(Paired(g), Paired(f), half);
      } else {
        forall j: nat | j < half ensures Paired(g)(j) == Paired(f)(Flip(j, p - 1)) {
          PairedFlip(f, g, n, p, j);
        }
        SumFlipped(Paired(f), Paired(g), n - 1, p - 1);
      }
    }
    SumByPairs(f, half);
    SumByPairs(g, half);
  }

  /** Two summands that agree on every pair `{i, Flip(i, p)}` have the same total. */
  lemma {:induction false} SumPairwiseEqual(f: nat -> real, g: nat -> real, n: nat, p: nat)
    requires p < n
    requires forall i: nat | i < Pow2(n) :: f(i) + f(Flip(i, p)) == g(i) + g(Flip(i, p))
    ensures Sum(f, Pow2(n)) == Sum(g, Pow2(n))
  {
    var size := Pow2(n);
    var ff := (i: nat) => f(Flip(i, p));
    var gg := (i: nat) => g(Flip(i, p));
    var both := (i: nat) => f(i) + f(Flip(i, p));
    SumFlipped(f, ff, n, p);
    SumFlipped(g, gg, n, p);
    SumAdds(f, ff, both, size);
    SumAdds(g, gg, both, size);
  }
}
