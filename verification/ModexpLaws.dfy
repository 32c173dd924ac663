/** The price and the input format of modular exponentiation, against their meaning (EIP-198). */
module ModexpLaws {
  import opened Primitives
  import opened Bits
  import opened Modexp

  // ----- the price

  /** Above each break the complexity goes on from the value at the break, more slowly in the square and
      faster in the length. */
  lemma ComplexityContinues(x: nat)
    ensures x <= 64 ==> MultComplexity(x) == x * x
    ensures 64 <= x <= 1024 ==> MultComplexity(x) == MultComplexity(64) + ((x * x) / 4 - 1024) + 96 * (x - 64)
    ensures 1024 <= x ==> MultComplexity(x) == MultComplexity(1024) + ((x * x) / 16 - 65536) + 480 * (x - 1024)
  {
    assert 64 * 64 == 4096 && 1024 * 1024 == 1048576;
  }

  /** The price is the quotient, rounded down, of the complexity times the exponent length and the divisor; it
      saturates when the product leaves 64 bits. An exponent length of zero counts as one. */
  lemma PriceIsQuotient(m: nat, adjusted: nat, divisor: nat)
    requires m <= MAX_LENGTH && divisor > 0
    ensures var work, gas := MultComplexity(m) * (if adjusted == 0 then 1 else adjusted), Gas(m, adjusted, divisor);
            if work < TWO_64 then divisor * gas <= work < divisor * (gas + 1) else gas == MAX_U256
  {
    hide MultComplexity;
  }

  lemma {:induction false} BitIndexBrackets(x: nat)
    requires x > 0
    ensures Pow2(BitIndex(x)) <= x < Pow2(BitIndex(x) + 1)
  {
    if x > 1 {
      BitIndexBrackets(x / 2);
      assert Pow2(BitIndex(x)) == 2 * Pow2(BitIndex(x / 2));
      assert Pow2(BitIndex(x) + 1) == 2 * Pow2(BitIndex(x / 2) + 1);
    } else {
      assert Pow2(1) == 2 * Pow2(0);
    }
  }

  lemma {:induction false} Pow2Monotone(m: nat, n: nat)
    requires m <= n
    ensures Pow2(m) <= Pow2(n)
    decreases n
  {
    if m < n {
      Pow2Monotone(m, n - 1);
    }
  }

  lemma BitIndexIs(x: nat, k: nat)
    requires Pow2(k) <= x < Pow2(k + 1)
    ensures BitIndex(x) == k
  {
    BitIndexBrackets(x);
    if BitIndex(x) < k {
      Pow2Monotone(BitIndex(x) + 1, k);
    } else if BitIndex(x) > k {
      Pow2Monotone(k + 1, BitIndex(x));
    }
  }

  lemma Shifted(high: nat, low: nat, p: nat, a: nat, b: nat)
    requires a <= high < b && low < p
    ensures a * p <= high * p + low < b * p
  {
    MulMonotone(p, a, high);
    MulMonotone(p, high + 1, b);
  }

  lemma BitIndexOfConcat(head: Bytes, tail: Bytes)
    requires Number(head, 256) > 0
    ensures BitIndex(Number(head + tail, 256)) == BitIndex(Number(head, 256)) + 8 * |tail|
  {
    hide *;
    var high, low, n := Number(head, 256), Number(tail, 256), |tail|;
    var k := BitIndex(high);
    NumberOfConcat(head, tail);
    NumberBelowPower(tail);
    Pow2Of8();
    Pow2Power(8, n);
    BitIndexBrackets(high);
    Shifted(high, low, Power(256, n), Pow2(k), Pow2(k + 1));
    Pow2Add(k, 8 * n);
    Pow2Add(k + 1, 8 * n);
    BitIndexIs(high * Power(256, n) + low, k + 8 * n);
  }

  /** The exponent length that is priced is the position of the highest bit of the whole exponent, as long as
      its first 32 bytes are not all zero. */
  lemma AdjustedIsHighestBit(input: Bytes, baseLen: nat, expLen: nat)
    requires Number(Exponent(input, baseLen, Min(expLen, 32)), 256) > 0
    ensures AdjustedExpLen(expLen, Number(Exponent(input, baseLen, Min(expLen, 32)), 256))
            == BitIndex(Number(Exponent(input, baseLen, expLen), 256))
  {
    hide Number, BitIndex;
    if expLen > 32 {
      var head, tail := Exponent(input, baseLen, 32), Slice(input, HEADER + baseLen + 32, expLen - 32);
      assert Exponent(input, baseLen, expLen) == head + tail;
      BitIndexOfConcat(head, tail);
    }
  }

  // ----- the input format

  /** Three lengths of 32 bytes, then base, exponent and modulus. */
  function Encoded(words: seq<Bytes>, base: Bytes, exp: Bytes, modulus: Bytes): Bytes
    requires |words| == 3
  {
    words[0] + words[1] + words[2] + base + exp + modulus
  }

  lemma SliceOfHeader(words: seq<Bytes>, base: Bytes, exp: Bytes, modulus: Bytes)
    requires |words| == 3 && |words[0]| == |words[1]| == |words[2]| == 32
    ensures var input := Encoded(words, base, exp, modulus);
            && Slice(input, 0, 32) == words[0] && Slice(input, 32, 32) == words[1] && Slice(input, 64, 32) == words[2]
  {
  }

  lemma SliceOfBase(words: seq<Bytes>, base: Bytes, exp: Bytes, modulus: Bytes)
    requires |words| == 3 && |words[0]| == |words[1]| == |words[2]| == 32
    ensures Slice(Encoded(words, base, exp, modulus), HEADER, |base|) == base
  {
  }

  lemma SliceOfExponent(words: seq<Bytes>, base: Bytes, exp: Bytes, modulus: Bytes)
    requires |words| == 3 && |words[0]| == |words[1]| == |words[2]| == 32
    ensures Exponent(Encoded(words, base, exp, modulus), |base|, |exp|) == exp
  {
  }

  lemma SliceOfModulus(words: seq<Bytes>, base: Bytes, exp: Bytes, modulus: Bytes)
    requires |words| == 3 && |words[0]| == |words[1]| == |words[2]| == 32
    ensures Slice(Encoded(words, base, exp, modulus), HEADER + |base| + |exp|, |modulus|) == modulus
  {
  }

  lemma LengthIs(input: Bytes, k: nat, word: Bytes)
    requires |word| == 32 && Slice(input, 32 * k, 32) == word && Number(word, 256) < TWO_64
    ensures Length(input, k) == ShortLength(input, k) == Number(word, 256)
  {
    hide Number;
    EightBytes();
    ShortLengthAgrees(input, k);
  }

  /** An input that is put together as the builtin expects it denotes the power of the base modulo the
      modulus. */
  lemma EncodedInputIsRead(words: seq<Bytes>, base: Bytes, exp: Bytes, modulus: Bytes)
    requires |words| == 3 && |words[0]| == |words[1]| == |words[2]| == 32
    requires Number(words[0], 256) == |base| < TWO_64 && Number(words[1], 256) == |exp| < TWO_64
    requires Number(words[2], 256) == |modulus| < TWO_64
    ensures var input, m := Encoded(words, base, exp, modulus), Number(modulus, 256);
            && ShortLength(input, 2) == |modulus|
            && Value(input) == if m <= 1 then 0 else Power(Number(base, 256), Number(exp, 256)) % m
  {
    var input := Encoded(words, base, exp, modulus);
    SliceOfHeader(words, base, exp, modulus);
    SliceOfBase(words, base, exp, modulus);
    SliceOfExponent(words, base, exp, modulus);
    SliceOfModulus(words, base, exp, modulus);
    hide Number, Power, Encoded, Slice, Length, ShortLength;
    LengthIs(input, 0, words[0]);
    LengthIs(input, 1, words[1]);
    LengthIs(input, 2, words[2]);
  }
}
