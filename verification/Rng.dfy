/** The xorshift64* generator of the kernel.

    A 64-bit word is a natural number below `2^64`; shifts and exclusive-or are
    written out on its binary digits. */
module Rng {
  import opened Bits

  const WORD_BITS: nat := 64
  const WORD_SIZE: nat := 0x1_0000_0000_0000_0000

  type Word = w: nat | w < 0x1_0000_0000_0000_0000

  const DEFAULT_SEED: Word := 0x9e3779b97f4a7c15
  const MULTIPLIER: Word := 2685821657736338717

  function Xor(a: nat, b: nat): nat {
    if a == 0 && b == 0 then 0
    else 2 * Xor(a / 2, b / 2) + (a + b) % 2
  }

  function Shr(a: nat, k: nat): nat {
    if k == 0 then a else Shr(a / 2, k - 1)
  }

  /** The low `n` binary digits. */
  function Low(a: nat, n: nat): nat {
    if n == 0 then 0 else 2 * Low(a / 2, n - 1) + a % 2
  }

  function Shl(a: nat, k: nat): nat {
    if k == 0 then a else 2 * Shl(a, k - 1)
  }

  // ----- what these do to each digit -----

  lemma Halves(rest: nat, low: nat)
    requires low < 2
    ensures (2 * rest + low) / 2 == rest && (2 * rest + low) % 2 == low
  {
  }

  lemma XorUnfolds(a: nat, b: nat)
    ensures Xor(a, b) == 2 * Xor(a / 2, b / 2) + (a + b) % 2
  {
  }

  lemma XorParts(a: nat, b: nat)
    ensures Xor(a, b) / 2 == Xor(a / 2, b / 2)
    ensures Xor(a, b) % 2 == (a + b) % 2
  {
    hide Xor;
    XorUnfolds(a, b);
    Halves(Xor(a / 2, b / 2), (a + b) % 2);
  }

  lemma {:induction false} XorBit(a: nat, b: nat, i: nat)
    ensures Bit(Xor(a, b), i) == (Bit(a, i) != Bit(b, i))
    decreases i
  {
    hide Xor;
    XorParts(a, b);
    if i > 0 {
      XorBit(a / 2, b / 2, i - 1);
    }
  }

  lemma {:induction false} XorInRange(a: nat, b: nat, n: nat)
    requires a < Pow2(n) && b < Pow2(n)
    ensures Xor(a, b) < Pow2(n)
  {
    if n > 0 && (a > 0 || b > 0) {
      assert a / 2 < Pow2(n - 1) && b / 2 < Pow2(n - 1);
      XorInRange(a / 2, b / 2, n - 1);
    }
  }

  lemma {:induction false} ShrBit(a: nat, k: nat, i: nat)
    ensures Bit(Shr(a, k), i) == Bit(a, i + k)
  {
    if k > 0 {
      ShrBit(a / 2, k - 1, i);
    }
  }

  lemma {:induction false} ShrShrinks(a: nat, k: nat)
    ensures Shr(a, k) <= a
  {
    if k > 0 {
      ShrShrinks(a / 2, k - 1);
    }
  }

  lemma {:induction false} LowBit(a: nat, n: nat, i: nat)
    ensures Low(a, n) < Pow2(n)
    ensures Bit(Low(a, n), i) == (i < n && Bit(a, i))
  {
    if n == 0 {
      ZeroHasNoBits(i);
    } else {
      var rest := Low(a / 2, n - 1);
      assert Low(a, n) / 2 == rest && Low(a, n) % 2 == a % 2;
      LowBit(a / 2, n - 1, if i > 0 then i - 1 else 0);
    }
  }

  lemma {:induction false} ShlBit(a: nat, k: nat, i: nat)
    ensures Bit(Shl(a, k), i) == (k <= i && Bit(a, i - k))
  {
    if k > 0 {
      var rest := Shl(a, k - 1);
      assert (2 * rest) / 2 == rest && (2 * rest) % 2 == 0;
      if i > 0 {
        ShlBit(a, k - 1, i - 1);
      }
    }
  }

  lemma {:induction false} HighBitsClear(a: nat, n: nat, i: nat)
    requires a < Pow2(n) && n <= i
    ensures !Bit(a, i)
  {
    if n == 0 {
      ZeroHasNoBits(i);
    } else {
      HighBitsClear(a / 2, n - 1, i - 1);
    }
  }

  lemma WordRange()
    ensures Pow2(WORD_BITS) == WORD_SIZE
  {
    assert Pow2(8) == 256;
    assert Pow2(16) == 65536;
    assert Pow2(24) == 0x100_0000;
    assert Pow2(32) == 0x1_0000_0000;
    assert Pow2(40) == 0x100_0000_0000;
    assert Pow2(48) == 0x1_0000_0000_0000;
    assert Pow2(56) == 0x100_0000_0000_0000;
  }

  // ----- the three mixing steps -----

  function MixRight(w: Word, k: nat): (r: Word) {
    ShrShrinks(w, k);
    WordRange();
    XorInRange(w, Shr(w, k), WORD_BITS);
    Xor(w, Shr(w, k))
  }

  function MixLeft(w: Word, k: nat): (r: Word) {
    WordRange();
    LowBit(Shl(w, k), WORD_BITS, 0);
    XorInRange(w, Low(Shl(w, k), WORD_BITS), WORD_BITS);
    Xor(w, Low(Shl(w, k), WORD_BITS))
  }

  lemma MixRightBit(w: Word, k: nat, i: nat)
    ensures Bit(MixRight(w, k), i) == (Bit(w, i) != Bit(w, i + k))
  {
    XorBit(w, Shr(w, k), i);
    ShrBit(w, k, i);
  }

  lemma MixLeftBit(w: Word, k: nat, i: nat)
    requires i < WORD_BITS
    ensures Bit(MixLeft(w, k), i) == (Bit(w, i) != (k <= i && Bit(w, i - k)))
  {
    XorBit(w, Low(Shl(w, k), WORD_BITS), i);
    LowBit(Shl(w, k), WORD_BITS, i);
    ShlBit(w, k, i);
  }

  /** Equal images agree on every digit, from the top one down. */
  lemma {:induction false} MixRightBitsAgree(x: Word, y: Word, k: nat, i: nat)
    requires k > 0 && MixRight(x, k) == MixRight(y, k)
    ensures Bit(x, i) == Bit(y, i)
    decreases WORD_BITS - i
  {
    WordRange();
    if i >= WORD_BITS {
      HighBitsClear(x, WORD_BITS, i);
      HighBitsClear(y, WORD_BITS, i);
    } else {
      MixRightBitsAgree(x, y, k, i + k);
      MixRightBit(x, k, i);
      MixRightBit(y, k, i);
    }
  }

  /** Equal images agree on every digit, from the bottom one up. */
  lemma {:induction false} MixLeftBitsAgree(x: Word, y: Word, k: nat, i: nat)
    requires k > 0 && i < WORD_BITS && MixLeft(x, k) == MixLeft(y, k)
    ensures Bit(x, i) == Bit(y, i)
  {
    if k <= i {
      MixLeftBitsAgree(x, y, k, i - k);
    }
    MixLeftBit(x, k, i);
    MixLeftBit(y, k, i);
  }

  lemma MixRightInjective(x: Word, y: Word, k: nat)
    requires k > 0 && MixRight(x, k) == MixRight(y, k)
    ensures x == y
  {
    WordRange();
    forall i: nat | i < WORD_BITS ensures Bit(x, i) == Bit(y, i) {
      MixRightBitsAgree(x, y, k, i);
    }
    BitsDetermineIndex(x, y, WORD_BITS);
  }

  lemma MixLeftInjective(x: Word, y: Word, k: nat)
    requires k > 0 && MixLeft(x, k) == MixLeft(y, k)
    ensures x == y
  {
    WordRange();
    forall i: nat | i < WORD_BITS ensures Bit(x, i) == Bit(y, i) {
      MixLeftBitsAgree(x, y, k, i);
    }
    BitsDetermineIndex(x, y, WORD_BITS);
  }

  // ----- the generator -----

  function Xorshift(w: Word): Word {
    MixRight(MixLeft(MixRight(w, 12), 25), 27)
  }

  /** The state stored by one draw, the zero fallback included. */
  function NextState(state: Word): Word {
    Xorshift(if state == 0 then DEFAULT_SEED else state)
  }

  /** The word returned by the draw that stored `state`. */
  function Output(state: Word): Word {
    (state * MULTIPLIER) % WORD_SIZE
  }

  /** The top 53 bits as a fraction. */
  function Unit(output: Word): (u: real)
    ensures 0.0 <= u < 1.0
  {
    (output / 2048) as real / 9007199254740992.0
  }

  function InitialState(seed: Word): Word {
    if seed == 0 then DEFAULT_SEED else seed
  }

  function StateAfter(seed: Word, draws: nat): Word {
    if draws == 0 then InitialState(seed) else NextState(StateAfter(seed, draws - 1))
  }

  // ----- what a draw computes -----

  /** Digit `i` after `w ^= w >> 12`. */
  predicate FirstDigit(w: Word, i: nat) {
    Bit(w, i) != Bit(w, i + 12)
  }

  /** Digit `i` after the following `w ^= w << 25`. */
  predicate SecondDigit(w: Word, i: nat) {
    FirstDigit(w, i) != (i >= 25 && FirstDigit(w, i - 25))
  }

  /** Every binary digit of the next state, in terms of those of the state. */
  lemma DrawDigit(w: Word, i: nat)
    requires w != 0 && i < 64
    ensures Bit(NextState(w), i) == (SecondDigit(w, i) != (i + 27 < 64 && SecondDigit(w, i + 27)))
  {
    hide MixRight, MixLeft, Bit;
    var first := MixRight(w, 12);
    var second := MixLeft(first, 25);
    MixRightBit(second, 27, i);
    SecondDigits(w, i);
    if i + 27 < 64 {
      SecondDigits(w, i + 27);
    } else {
      WordRange();
      HighBitsClear(second, WORD_BITS, i + 27);
    }
  }

  lemma SecondDigits(w: Word, i: nat)
    requires i < 64
    ensures Bit(MixLeft(MixRight(w, 12), 25), i) == SecondDigit(w, i)
  {
    hide MixRight, MixLeft, Bit;
    MixLeftBit(MixRight(w, 12), 25, i);
    MixRightBit(w, 12, i);
    if i >= 25 {
      MixRightBit(w, 12, i - 25);
    }
  }

  /** The word drawn is the state times the multiplier, modulo 2^64. */
  lemma OutputResidue(state: Word)
    ensures (state * 2685821657736338717 - Output(state)) % 0x1_0000_0000_0000_0000 == 0
  {
  }

  /** A multiple of 2^-53. */
  predicate OnGrid(u: real) {
    (u * 9007199254740992.0).Floor as real == u * 9007199254740992.0
  }

  /** The unit draw is the word over 2^64, rounded down to a multiple of 2^-53. */
  lemma UnitIsTopDigits(output: Word)
    ensures Unit(output) <= output as real / 18446744073709551616.0 < Unit(output) + 1.0 / 9007199254740992.0
    ensures OnGrid(Unit(output))
  {
    var k := output / 2048;
    assert k * 2048 <= output < k * 2048 + 2048;
    hide OnGrid;
    Quotients(k as real, output as real);
    GridPoint(k);
  }

  lemma Quotients(k: real, o: real)
    requires k * 2048.0 <= o < k * 2048.0 + 2048.0
    ensures k / 9007199254740992.0 <= o / 18446744073709551616.0 < k / 9007199254740992.0 + 1.0 / 9007199254740992.0
  {
  }

  lemma GridPoint(k: int)
    ensures OnGrid(k as real / 9007199254740992.0)
  {
    assert k as real / 9007199254740992.0 * 9007199254740992.0 == k as real;
  }

  // ----- what every stream keeps -----

  lemma XorshiftInjective(x: Word, y: Word)
    requires Xorshift(x) == Xorshift(y)
    ensures x == y
  {
    hide MixRight, MixLeft;
    MixRightInjective(MixLeft(MixRight(x, 12), 25), MixLeft(MixRight(y, 12), 25), 27);
    MixLeftInjective(MixRight(x, 12), MixRight(y, 12), 25);
    MixRightInjective(x, y, 12);
  }

  lemma XorshiftOfZero()
    ensures Xorshift(0) == 0
  {
    ZeroMixes(12);
    ZeroMixes(25);
    ZeroMixes(27);
  }

  lemma ZeroMixes(k: nat)
    ensures MixRight(0, k) == 0 && MixLeft(0, k) == 0
  {
    ShrShrinks(0, k);
    ZeroShifts(k);
    ZeroLow(WORD_BITS);
  }

  lemma {:induction false} ZeroShifts(k: nat)
    ensures Shl(0, k) == 0
  {
    if k > 0 {
      ZeroShifts(k - 1);
    }
  }

  lemma {:induction false} ZeroLow(n: nat)
    ensures Low(0, n) == 0
  {
    if n > 0 {
      ZeroLow(n - 1);
    }
  }

  /** From any seed the state is never zero, so the fallback inside a draw is
      dead code once the kernel is initialised, and draws never merge. */
  lemma {:induction false} StateNeverZero(seed: Word, draws: nat)
    ensures StateAfter(seed, draws) != 0
    ensures StateAfter(seed, draws + 1) == Xorshift(StateAfter(seed, draws))
  {
    hide Xorshift;
    if draws > 0 {
      StateNeverZero(seed, draws - 1);
      var before := StateAfter(seed, draws - 1);
      XorshiftOfZero();
      if Xorshift(before) == 0 {
        XorshiftInjective(before, 0);
      }
    }
  }

  /** Two seeds that ever reach the same state after the same number of draws started equal. */
  lemma {:induction false} StreamsNeverMerge(a: Word, b: Word, draws: nat)
    requires StateAfter(a, draws) == StateAfter(b, draws)
    ensures InitialState(a) == InitialState(b)
    ensures a != 0 && b != 0 ==> a == b
    ensures a == 0 && b != 0 ==> b == 0x9e3779b97f4a7c15
  {
    hide Xorshift;
    if draws > 0 {
      StateNeverZero(a, draws - 1);
      StateNeverZero(b, draws - 1);
      XorshiftInjective(StateAfter(a, draws - 1), StateAfter(b, draws - 1));
      StreamsNeverMerge(a, b, draws - 1);
    }
  }
}
