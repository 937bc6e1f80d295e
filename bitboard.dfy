/** The 64-bit occupancy word of the demonstration board, represented by the
    set of its one-bits: bit k of the word is set exactly when square k is in
    the set. `Value` recovers the unsigned number, and the three operations the
    board needs are written on the set: toggling one bit
    (`occupancy ^= 1ULL << from`), counting the set bits (`Bitboard::count`)
    and rendering the number as `%llx` hexadecimal text. */
module Bitboard {

  function Pow2(n: nat): (r: nat)
    ensures r >= 1
  {
    if n == 0 then 1 else 2 * Pow2(n - 1)
  }

  /** A square index 0..63 (A1 = 0, B1 = 1, ..., H8 = 63), which is also the
      index of its bit in the occupancy word. */
  type Square = k: int | 0 <= k < 64

  /** A 64-bit word, given by its set bits. */
  type Word = set<Square>

  /** The unsigned value of the bits below position n: the sum of 2^k over the
      set bits k < n. */
  function ValueBelow(w: Word, n: nat): nat
  {
    if n == 0 then 0 else ValueBelow(w, n - 1) + (if n - 1 in w then Pow2(n - 1) else 0)
  }

  /** The word as an unsigned 64-bit number (`Bitboard::value()`). */
  function Value(w: Word): nat
  {
    ValueBelow(w, 64)
  }

  lemma {:induction false} ValueBelowBound(w: Word, n: nat)
    ensures ValueBelow(w, n) < Pow2(n)
  {
    if n > 0 {
      ValueBelowBound(w, n - 1);
    }
  }

  lemma {:induction false} ValueBelowEmpty(n: nat)
    ensures ValueBelow({}, n) == 0
  {
    if n > 0 {
      ValueBelowEmpty(n - 1);
    }
  }

  /** Every word's value fits in 64 bits. */
  lemma ValueBound(w: Word)
    ensures Value(w) < Pow2(64)
  {
    ValueBelowBound(w, 64);
  }

  lemma {:induction false} ValueBelowInjective(v: Word, w: Word, n: nat)
    requires ValueBelow(v, n) == ValueBelow(w, n)
    ensures forall k: Square :: k < n ==> (k in v <==> k in w)
  {
    if n > 0 {
      ValueBelowBound(v, n - 1);
      ValueBelowBound(w, n - 1);
      assert (n - 1 in v) == (n - 1 in w);
      ValueBelowInjective(v, w, n - 1);
    }
  }

  /** Two words with the same value have the same bits: a number has one
      binary representation. */
  lemma ValueInjective(v: Word, w: Word)
    requires Value(v) == Value(w)
    ensures v == w
  {
    ValueBelowInjective(v, w, 64);
    assert forall k :: k in v <==> k in w;
  }

  /** The word `w ^ (1ULL << k)`: bit k flipped, every other bit kept. */
  function Toggle(w: Word, k: Square): Word
  {
    if k in w then w - {k} else w + {k}
  }

  /** XOR with the same one-bit mask twice gives back the word. */
  lemma ToggleInvolution(w: Word, k: Square)
    ensures Toggle(Toggle(w, k), k) == w
  {
    assert forall i :: i in Toggle(Toggle(w, k), k) <==> i in w;
  }

  /** Toggling two different squares of one word gives two different words. */
  lemma ToggleDistinct(w: Word, k1: Square, k2: Square)
    requires k1 != k2
    ensures Toggle(w, k1) != Toggle(w, k2)
  {
    assert (k1 in Toggle(w, k1)) != (k1 in Toggle(w, k2));
  }

  /** The number of set bits below position n. */
  function CountBelow(w: Word, n: nat): (c: nat)
    ensures c <= n
  {
    if n == 0 then 0 else CountBelow(w, n - 1) + (if n - 1 in w then 1 else 0)
  }

  /** The number of set bits (`Bitboard::count()`); at most 64. */
  function PopCount(w: Word): (c: nat)
    ensures c <= 64
  {
    CountBelow(w, 64)
  }

  lemma {:induction false} CountBelowToggle(w: Word, k: Square, n: nat)
    requires k < n
    ensures CountBelow(Toggle(w, k), n) == if k in w then CountBelow(w, n) - 1 else CountBelow(w, n) + 1
  {
    if k < n - 1 {
      CountBelowToggle(w, k, n - 1);
    } else {
      CountBelowSame(Toggle(w, k), w, n - 1);
    }
  }

  lemma {:induction false} CountBelowSame(v: Word, w: Word, n: nat)
    requires forall i: Square :: i < n ==> (i in v <==> i in w)
    ensures CountBelow(v, n) == CountBelow(w, n)
  {
    if n > 0 {
      CountBelowSame(v, w, n - 1);
    }
  }

  /** Toggling a bit moves the popcount by exactly one. */
  lemma PopCountToggle(w: Word, k: Square)
    ensures PopCount(Toggle(w, k)) == if k in w then PopCount(w) - 1 else PopCount(w) + 1
  {
    CountBelowToggle(w, k, 64);
  }

  // ---------------------------------------------------------------------
  // Hexadecimal text, as printf's "%llx" writes it: lower-case digits, no
  // prefix, no leading zeros, "0" for zero.

  predicate IsHexDigit(c: char)
  {
    '0' <= c <= '9' || 'a' <= c <= 'f'
  }

  function HexDigit(d: nat): (c: char)
    requires d < 16
    ensures IsHexDigit(c)
  {
    if d < 10 then '0' + d as char else 'a' + (d - 10) as char
  }

  function DigitValue(c: char): (d: nat)
    requires IsHexDigit(c)
    ensures d < 16 && HexDigit(d) == c
  {
    if c <= '9' then (c - '0') as nat else (c - 'a') as nat + 10
  }

  function Hex(n: nat): (s: string)
    ensures |s| >= 1
  {
    if n < 16 then [HexDigit(n)] else Hex(n / 16) + [HexDigit(n % 16)]
  }

  /** Reads back a string of hexadecimal digits, most significant first. */
  function ParseHex(s: string): nat
    requires forall i :: 0 <= i < |s| ==> IsHexDigit(s[i])
  {
    if s == [] then 0 else ParseHex(s[..|s| - 1]) * 16 + DigitValue(s[|s| - 1])
  }

  /** Every character of the rendering is a lower-case hexadecimal digit, and
      only zero renders with a leading '0'. */
  lemma {:induction false} HexCanonical(n: nat)
    ensures forall i :: 0 <= i < |Hex(n)| ==> IsHexDigit(Hex(n)[i])
    ensures Hex(n)[0] == '0' <==> n == 0
  {
    if n >= 16 {
      HexCanonical(n / 16);
    }
  }

  lemma {:induction false} HexRoundTrip(n: nat)
    ensures forall i :: 0 <= i < |Hex(n)| ==> IsHexDigit(Hex(n)[i])
    ensures ParseHex(Hex(n)) == n
  {
    HexCanonical(n);
    if n >= 16 {
      HexRoundTrip(n / 16);
      var s := Hex(n);
      assert s[..|s| - 1] == Hex(n / 16);
    }
  }

  /** Different numbers never render to the same text. */
  lemma HexInjective(m: nat, n: nat)
    requires Hex(m) == Hex(n)
    ensures m == n
  {
    HexRoundTrip(m);
    HexRoundTrip(n);
  }

  lemma {:induction false} Pow2Add(a: nat, b: nat)
    ensures Pow2(a + b) == Pow2(a) * Pow2(b)
  {
    if a > 0 {
      Pow2Add(a - 1, b);
    }
  }

  /** A number below 2^(4m) needs at most m hexadecimal digits. */
  lemma {:induction false} HexLength(n: nat, m: nat)
    requires 1 <= m && n < Pow2(4 * m)
    ensures |Hex(n)| <= m
  {
    if n >= 16 {
      Pow2Add(4, 4 * (m - 1));
      assert Pow2(4) == 16;
      if m == 1 {
        assert false;
      }
      HexLength(n / 16, m - 1);
    }
  }

  /** The `%llx` text of a 64-bit word has at most 16 digits, so it always
      fits a 20-byte buffer together with its terminating NUL. */
  lemma WordHexLength(w: Word)
    ensures |Hex(Value(w))| <= 16
  {
    ValueBound(w);
    HexLength(Value(w), 16);
  }
}
