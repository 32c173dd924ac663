/** The modular exponentiation builtin: its arithmetic, its input format and its price. */
module Modexp {
  import opened Primitives
  import opened Bits

  // ----- zero-extended input

  function At(input: Bytes, i: nat): Byte {
    if i < |input| then input[i] else 0
  }

  /** `n` bytes from position `start` of the input followed by endless zeros. */
  function Slice(input: Bytes, start: nat, n: nat): (r: Bytes)
    ensures |r| == n
    ensures forall i | 0 <= i < n :: r[i] == At(input, start + i)
  {
    seq<Byte>(n, i requires 0 <= i < n => At(input, start + i))
  }

  class Reader {
    const input: Bytes
    var position: nat

    constructor (bytes: Bytes, start: nat)
      ensures input == bytes && position == start
    {
      input := bytes;
      position := start;
    }

    method ReadExact(n: nat) returns (bytes: Bytes)
      modifies this
      ensures bytes == Slice(input, old(position), n)
      ensures position == old(position) + n
    {
      bytes := [];
      for i := 0 to n
        invariant bytes == Slice(input, old(position), i)
        invariant position == old(position) + i
      {
        bytes := bytes + [if position < |input| then input[position] else 0];
        position := position + 1;
      }
    }
  }

  // ----- arithmetic modulo m

  lemma AddMultiple(m: nat, k: nat, x: nat)
    requires m > 0
    ensures (m * k + x) % m == x % m
  {
    assert m * k + x == m * (k + x / m) + x % m;
    RemainderIs(m * k + x, m, k + x / m, x % m);
  }

  lemma ProductOfSum(m: nat, q: nat, r: nat, y: nat)
    ensures (m * q + r) * y == m * (q * y) + r * y
  {
  }

  lemma MulMod(x: nat, y: nat, m: nat)
    requires m > 0
    ensures ((x % m) * y) % m == (x * y) % m
  {
    var q, r := x / m, x % m;
    assert x == m * q + r;
    ProductOfSum(m, q, r, y);
    AddMultiple(m, q * y, r * y);
  }

  lemma MulModBoth(x: nat, y: nat, m: nat)
    requires m > 0
    ensures ((x % m) * (y % m)) % m == (x * y) % m
  {
    MulMod(x, y % m, m);
    MulMod(y, x, m);
  }

  lemma ProductMod(x: nat, y: nat, z: nat, m: nat)
    requires m > 0 && y % m == z % m
    ensures ((x % m) * z) % m == (x * y) % m
  {
    MulMod(z, x % m, m);
    MulModBoth(y, x, m);
    assert (x % m) * z == z * (x % m) && x * y == y * x;
  }

  lemma {:induction false} PowerMod(base: nat, n: nat, m: nat)
    requires m > 0
    ensures Power(base % m, n) % m == Power(base, n) % m
  {
    if n > 0 {
      PowerMod(base, n - 1, m);
      ProductMod(base, Power(base, n - 1), Power(base % m, n - 1), m);
    }
  }

  lemma MulAssociates(x: nat, y: nat, z: nat)
    ensures x * (y * z) == (x * y) * z
  {
  }

  lemma {:induction false} PowerAdd(base: nat, m: nat, n: nat)
    ensures Power(base, m + n) == Power(base, m) * Power(base, n)
  {
    if m > 0 {
      PowerAdd(base, m - 1, n);
      MulAssociates(base, Power(base, m - 1), Power(base, n));
    }
  }

  lemma SquareStep(base: nat, n: nat, m: nat, result: nat)
    requires m > 0 && result == Power(base, n) % m
    ensures (result * result) % m == Power(base, 2 * n) % m
  {
    PowerAdd(base, n, n);
    MulModBoth(Power(base, n), Power(base, n), m);
  }

  lemma MultiplyStep(base: nat, n: nat, m: nat, result: nat)
    requires m > 0 && result == Power(base, n) % m
    ensures (result * base) % m == Power(base, n + 1) % m
  {
    MulMod(Power(base, n), base, m);
    assert Power(base, n) * base == base * Power(base, n);
  }

  // ----- exponents

  function StripZeros(exp: Bytes): Bytes {
    if exp != [] && exp[0] == 0 then StripZeros(exp[1..]) else exp
  }

  lemma {:induction false} NumberOfCons(d: nat, digits: seq<nat>, base: nat)
    ensures Number([d] + digits, base) == d * Power(base, |digits|) + Number(digits, base)
    decreases |digits|
  {
    var all := [d] + digits;
    if digits == [] {
      assert all[..0] == [];
    } else {
      var n := |digits| - 1;
      NumberOfCons(d, digits[..n], base);
      assert all[..n + 1] == [d] + digits[..n] && all[n + 1] == digits[n];
      Distribute(d, Power(base, n), Number(digits[..n], base), base);
    }
  }

  lemma Distribute(d: nat, p: nat, q: nat, base: nat)
    ensures (d * p + q) * base == d * (base * p) + q * base
  {
  }

  lemma {:induction false} StripKeepsNumber(exp: Bytes)
    ensures Number(StripZeros(exp), 256) == Number(exp, 256)
    ensures StripZeros(exp) != [] ==> StripZeros(exp)[0] != 0
    decreases |exp|
  {
    if exp != [] && exp[0] == 0 {
      StripKeepsNumber(exp[1..]);
      NumberOfCons(0, exp[1..], 256);
      assert exp == [exp[0]] + exp[1..];
    }
  }

  lemma LeadingDigit(exp: Bytes)
    requires exp != [] && exp[0] != 0
    ensures Number(exp, 256) >= Power(256, |exp| - 1) > 0
  {
    NumberOfCons(exp[0], exp[1..], 256);
    assert exp == [exp[0]] + exp[1..];
    PowerPositive(256, |exp| - 1);
    MulMonotone(Power(256, |exp| - 1), 1, exp[0]);
  }

  lemma {:induction false} PowerOfZero(n: nat)
    requires n > 0
    ensures Power(0, n) == 0
  {
  }

  // ----- bits of a digit

  lemma {:induction false} AndMask(x: nat, k: nat)
    ensures And(x, Pow2(k)) > 0 <==> Shr(x, k) % 2 == 1
    decreases k
  {
    if k == 0 {
      assert And(x, 1) == x % 2 + 2 * And(x / 2, 0) || x == 0;
    } else if x > 0 {
      AndMask(x / 2, k - 1);
      assert Pow2(k) / 2 == Pow2(k - 1) && Pow2(k) % 2 == 0;
      ShrShr(x, 1, k - 1);
      assert Shr(x, 1) == x / 2;
    } else {
      LowOfSmall(0, k);
    }
  }

  /** The exponent read so far: the earlier digits, then the top `j` bits of this one. */
  function ReadSoFar(e: nat, digit: nat, j: nat): nat
    requires j <= 8
  {
    Append(e, Shr(digit, 8 - j), j)
  }

  lemma ReadNextBit(e: nat, digit: nat, j: nat)
    requires j < 8
    ensures ReadSoFar(e, digit, j + 1) == 2 * ReadSoFar(e, digit, j) + Shr(digit, 7 - j) % 2
  {
    ShrShr(digit, 7 - j, 1);
    var y := Shr(digit, 7 - j);
    assert Shr(y, 1) == y / 2;
    assert Pow2(j + 1) == 2 * Pow2(j);
    hide Shr, Pow2;
    assert e * (2 * Pow2(j)) == 2 * (e * Pow2(j));
  }

  lemma ReadNothing(e: nat, digit: Byte)
    ensures ReadSoFar(e, digit, 0) == e
  {
    Pow2Of8();
    LowOfSmall(digit, 8);
  }

  lemma ReadAll(e: nat, digit: Byte)
    ensures ReadSoFar(e, digit, 8) == e * 256 + digit
  {
    Pow2Of8();
  }

  // ----- exponentiation

  /** What the builtin computes. */
  function ModPower(base: nat, exp: nat, modulus: nat): nat {
    if modulus <= 1 then 0 else Power(base, exp) % modulus
  }

  /** How many squarings that takes. */
  function Squarings(base: nat, exp: Bytes, modulus: nat): nat {
    if modulus <= 1 || base % modulus == 0 then 0 else 8 * |StripZeros(exp)|
  }

  method SkipZeros(exp: Bytes) returns (digits: Bytes)
    ensures digits == StripZeros(exp)
  {
    var start := 0;
    while start < |exp| && exp[start] == 0
      invariant start <= |exp| && StripZeros(exp[start..]) == StripZeros(exp)
    {
      assert exp[start..][1..] == exp[start + 1..];
      start := start + 1;
    }
    digits := exp[start..];
  }

  /** One digit of the exponent, most significant bit first. */
  method RaiseDigit(start: nat, base: nat, digit: Byte, modulus: nat, ghost e: nat) returns (result: nat)
    requires modulus > 1 && start == Power(base, e) % modulus
    ensures result == Power(base, e * 256 + digit) % modulus
  {
    hide Power, Pow2, Shr, And, ReadSoFar;
    assert Pow2(7) == 128 by { SevenBits(); }
    result := start;
    var mask := 128;
    ReadNothing(e, digit);
    for j := 0 to 8
      invariant mask == if j < 8 then Pow2(7 - j) else 0
      invariant result == Power(base, ReadSoFar(e, digit, j)) % modulus
    {
      ghost var n := ReadSoFar(e, digit, j);
      SquareStep(base, n, modulus, result);
      result := result * result % modulus;
      AndMask(digit, 7 - j);
      ReadNextBit(e, digit, j);
      if And(digit, mask) > 0 {
        MultiplyStep(base, 2 * n, modulus, result);
        result := result * base % modulus;
      }
      HalfMask(7 - j);
      mask := mask / 2;
    }
    ReadAll(e, digit);
  }

  lemma SevenBits()
    ensures Pow2(7) == 128
  {
  }

  lemma HalfMask(k: nat)
    ensures Pow2(k) / 2 == if k > 0 then Pow2(k - 1) else 0
  {
  }

  /** Left-to-right binary exponentiation, with its early exits. */
  method Modexp(base: nat, exp: Bytes, modulus: nat) returns (r: nat, ghost squarings: nat)
    ensures r == ModPower(base, Number(exp, 256), modulus)
    ensures squarings == Squarings(base, exp, modulus)
  {
    hide Power, Number;
    if modulus <= 1 {
      return 0, 0;
    }
    var digits := SkipZeros(exp);
    StripKeepsNumber(exp);
    if digits == [] {
      EmptyExponent(base, modulus);
      return 1, 0;
    }
    LeadingDigit(digits);
    VanishingBase(base, Number(exp, 256), modulus);
    if base == 0 {
      return 0, 0;
    }
    var b := base % modulus;
    if b == 0 {
      return 0, 0;
    }
    var result := 1;
    squarings := 0;
    EmptyExponent(b, modulus);
    for i := 0 to |digits|
      invariant result == Power(b, Number(digits[..i], 256)) % modulus
      invariant squarings == 8 * i
    {
      NumberStep(digits, i);
      result := RaiseDigit(result, b, digits[i], modulus, Number(digits[..i], 256));
      squarings := squarings + 8;
    }
    assert digits[..|digits|] == digits;
    PowerMod(base, Number(exp, 256), modulus);
    r := result;
  }

  lemma NumberStep(digits: Bytes, i: nat)
    requires i < |digits|
    ensures Number(digits[..i + 1], 256) == Number(digits[..i], 256) * 256 + digits[i]
  {
    assert digits[..i + 1][..i] == digits[..i];
  }

  lemma EmptyExponent(base: nat, modulus: nat)
    requires modulus > 1
    ensures Number([], 256) == 0 && Power(base, 0) % modulus == 1
  {
  }

  lemma VanishingBase(base: nat, n: nat, modulus: nat)
    requires n > 0 && modulus > 1
    ensures base % modulus == 0 ==> Power(base, n) % modulus == 0
  {
    PowerMod(base, n, modulus);
    PowerOfZero(n);
  }

  // ----- input format

  /** The lengths as the price sees them: three words of 32 bytes. */
  function Length(input: Bytes, k: nat): nat {
    Number(Slice(input, 32 * k, 32), 256)
  }

  /** The lengths as the execution sees them: the last 8 bytes of each word. */
  function ShortLength(input: Bytes, k: nat): nat {
    Number(Slice(input, 32 * k + 24, 8), 256)
  }

  const HEADER: nat := 96

  function Exponent(input: Bytes, baseLen: nat, expLen: nat): Bytes {
    Slice(input, HEADER + baseLen, expLen)
  }

  function Base(input: Bytes, baseLen: nat): nat {
    Number(Slice(input, HEADER, baseLen), 256)
  }

  function Modulus(input: Bytes, baseLen: nat, expLen: nat, modLen: nat): nat {
    Number(Slice(input, HEADER + baseLen + expLen, modLen), 256)
  }

  lemma {:induction false} NumberOfConcat(x: Bytes, y: Bytes)
    ensures Number(x + y, 256) == Number(x, 256) * Power(256, |y|) + Number(y, 256)
    decreases |y|
  {
    if y == [] {
      assert x + y == x;
    } else {
      var n := |y| - 1;
      NumberOfConcat(x, y[..n]);
      assert (x + y)[..|x| + n] == x + y[..n] && (x + y)[|x| + n] == y[n];
      Distribute(Number(x, 256), Power(256, n), Number(y[..n], 256), 256);
    }
  }

  lemma NumberBelowPower(x: Bytes)
    ensures Number(x, 256) < Power(256, |x|)
  {
    DigitsOfNumber(x, 256);
  }

  /** Both readings of a length agree when it is below 2^64. */
  lemma ShortLengthAgrees(input: Bytes, k: nat)
    requires Length(input, k) < Power(256, 8)
    ensures ShortLength(input, k) == Length(input, k)
  {
    var high, low := Slice(input, 32 * k, 24), Slice(input, 32 * k + 24, 8);
    assert Slice(input, 32 * k, 32) == high + low;
    NumberOfConcat(high, low);
    hide Number, Power, Slice;
    HighPartIsZero(Number(high, 256), Power(256, 8), Number(low, 256));
  }

  lemma HighPartIsZero(h: nat, p: nat, l: nat)
    requires h * p + l < p
    ensures h == 0
  {
  }

  /** The bytes of a number without leading zeros; a single zero byte for zero. */
  function MinimalBytes(n: nat): (r: Bytes) {
    if n < 256 then [n] else MinimalBytes(n / 256) + [n % 256]
  }

  lemma {:induction false} MinimalBytesNumber(n: nat)
    ensures Number(MinimalBytes(n), 256) == n
  {
    if n < 256 {
      assert MinimalBytes(n)[..0] == [];
    } else {
      MinimalBytesNumber(n / 256);
      var r := MinimalBytes(n);
      assert r[..|r| - 1] == MinimalBytes(n / 256);
    }
  }

  lemma {:induction false} MinimalBytesFit(n: nat, k: nat)
    requires k > 0 && n < Power(256, k)
    ensures |MinimalBytes(n)| <= k
    decreases k
  {
    if n >= 256 {
      assert Power(256, 1) == 256;
      DivBelow(n, 256, Power(256, k - 1));
      MinimalBytesFit(n / 256, k - 1);
    }
  }

  lemma {:induction false} PaddingKeepsNumber(n: nat, x: Bytes)
    ensures Number(seq<Byte>(n, _ => 0) + x, 256) == Number(x, 256)
  {
    NumberOfConcat(seq<Byte>(n, _ => 0), x);
    ZerosAreZero(seq<Byte>(n, _ => 0));
  }

  lemma {:induction false} ZerosAreZero(x: Bytes)
    requires forall i | 0 <= i < |x| :: x[i] == 0
    ensures Number(x, 256) == 0
    decreases |x|
  {
    if x != [] {
      ZerosAreZero(x[..|x| - 1]);
    }
  }

  /** The value that an input denotes. */
  function Value(input: Bytes): nat {
    var baseLen, expLen, modLen := ShortLength(input, 0), ShortLength(input, 1), ShortLength(input, 2);
    ModPower(Base(input, baseLen), Number(Exponent(input, baseLen, expLen), 256),
             Modulus(input, baseLen, expLen, modLen))
  }

  /** How many squarings the execution of an input takes. */
  function Work(input: Bytes): nat {
    var baseLen, expLen, modLen := ShortLength(input, 0), ShortLength(input, 1), ShortLength(input, 2);
    if baseLen == 0 && modLen == 0 then 0
    else Squarings(Base(input, baseLen), Exponent(input, baseLen, expLen), Modulus(input, baseLen, expLen, modLen))
  }

  lemma NoModulus(input: Bytes, baseLen: nat, expLen: nat)
    ensures Modulus(input, baseLen, expLen, 0) == 0
  {
  }

  /** The result is below the modulus, so it fits the bytes of the modulus. */
  lemma ValueFits(base: nat, exp: nat, input: Bytes, baseLen: nat, expLen: nat, modLen: nat)
    requires modLen > 0
    ensures var m := Modulus(input, baseLen, expLen, modLen);
            && ModPower(base, exp, m) < Max(m, 1)
            && |MinimalBytes(ModPower(base, exp, m))| <= modLen
  {
    hide Power, Number, MinimalBytes;
    var bytes := Slice(input, HEADER + baseLen + expLen, modLen);
    NumberBelowPower(bytes);
    MinimalBytesFit(ModPower(base, exp, Number(bytes, 256)), modLen);
  }

  /** Runs the builtin on an empty output buffer: the output has the width of the modulus and writes the
      value of the input. */
  method Execute(input: Bytes) returns (output: Bytes, ghost work: nat)
    ensures |output| == ShortLength(input, 2)
    ensures Number(output, 256) == Value(input)
    ensures work == Work(input)
  {
    hide Number, Power, MinimalBytes, ModPower, Squarings, Slice;
    var reader := new Reader(input, 0);
    var word := reader.ReadExact(32);
    var baseLen := LastEight(input, word, 0);
    word := reader.ReadExact(32);
    var expLen := LastEight(input, word, 1);
    word := reader.ReadExact(32);
    var modLen := LastEight(input, word, 2);
    var r;
    if baseLen == 0 && modLen == 0 {
      NoModulus(input, baseLen, expLen);
      SmallModulus(input, baseLen, expLen);
      r, work := 0, 0;
    } else {
      var bytes := reader.ReadExact(baseLen);
      var base := Number(bytes, 256);
      var exp := reader.ReadExact(expLen);
      bytes := reader.ReadExact(modLen);
      var modulus := Number(bytes, 256);
      r, work := Modexp(base, exp, modulus);
    }
    assert r == Value(input);
    var bytes := MinimalBytes(r);
    MinimalBytesNumber(r);
    if |bytes| <= modLen {
      PaddingKeepsNumber(modLen - |bytes|, bytes);
      output := seq<Byte>(modLen - |bytes|, _ => 0) + bytes;
    } else {
      if modLen > 0 {
        ValueFits(Base(input, baseLen), Number(Exponent(input, baseLen, expLen), 256), input, baseLen, expLen, modLen);
      } else {
        NoModulus(input, baseLen, expLen);
        SmallModulus(input, baseLen, expLen);
        EmptyExponent(0, 2);
      }
      output := [];
    }
  }

  lemma SmallModulus(input: Bytes, baseLen: nat, expLen: nat)
    requires baseLen == ShortLength(input, 0) && expLen == ShortLength(input, 1) && ShortLength(input, 2) == 0
    ensures Value(input) == 0
  {
    NoModulus(input, baseLen, expLen);
  }

  /** The last eight bytes of word `k` as a number. */
  method LastEight(input: Bytes, word: Bytes, k: nat) returns (r: nat)
    requires word == Slice(input, 32 * k, 32)
    ensures r == ShortLength(input, k)
  {
    assert word[24..] == Slice(input, 32 * k + 24, 8);
    r := Number(word[24..], 256);
  }

  // ----- price

  const MAX_LENGTH: nat := 0x7fff_ffff

  function MultComplexity(x: nat): nat {
    ComplexityOf(x, x * x)
  }

  function ComplexityOf(x: nat, square: nat): nat {
    if x <= 64 then square
    else if x <= 1024 then square / 4 + 96 * x - 3072
    else square / 16 + 480 * x - 199680
  }

  /** The same in 64-bit arithmetic that wraps around. */
  function WrappingMultComplexity(x: nat): nat {
    var square := Wrap(x * x);
    if x <= 64 then square
    else if x <= 1024 then Wrap(Wrap(square / 4 + Wrap(96 * x)) - 3072)
    else Wrap(Wrap(square / 16 + Wrap(480 * x)) - 199680)
  }

  function Wrap(x: int): nat {
    x % TWO_64
  }

  lemma WrapOfSmall(x: nat)
    requires x < TWO_64
    ensures Wrap(x) == x
  {
  }

  /** The complexity of an allowed length never wraps around. */
  lemma ComplexityFits(x: nat)
    requires x <= MAX_LENGTH
    ensures MultComplexity(x) < TWO_64
    ensures WrappingMultComplexity(x) == MultComplexity(x)
  {
    hide Wrap;
    MulMonotone(x, x, MAX_LENGTH);
    MulMonotone(MAX_LENGTH, x, MAX_LENGTH);
    var square := x * x;
    WrapOfSmall(square);
    WrapOfSmall(96 * x);
    WrapOfSmall(480 * x);
    WrapOfSmall(square / 4 + 96 * x);
    WrapOfSmall(square / 16 + 480 * x);
    WrapOfSmall(MultComplexity(x));
  }

  lemma ComplexityMonotone(x: nat, y: nat)
    requires x <= y
    ensures MultComplexity(x) <= MultComplexity(y)
  {
    MulMonotone(x, x, y);
    MulMonotone(y, x, y);
    assert x * x <= y * y;
    if x > 64 {
      MulMonotone(x, 64, x);
    }
    if y > 1024 {
      MulMonotone(y, 1025, y);
    }
    if y > 64 {
      MulMonotone(y, 65, y);
    }
  }

  /** The position of the highest set bit. */
  function BitIndex(x: nat): nat {
    if x <= 1 then 0 else 1 + BitIndex(x / 2)
  }

  lemma {:induction false} BitIndexLowerBound(x: nat, k: nat)
    requires x >= Pow2(k)
    ensures BitIndex(x) >= k
    decreases k
  {
    if k > 0 {
      BitIndexLowerBound(x / 2, k - 1);
    }
  }

  function AdjustedExpLen(len: nat, expLow: nat): nat {
    if len <= 32 then BitIndex(expLow) else 8 * (len - 32) + BitIndex(expLow)
  }

  /** The price of a maximal operand length and an adjusted exponent length. */
  function Gas(m: nat, adjusted: nat, divisor: nat): nat
    requires m <= MAX_LENGTH && divisor > 0
  {
    var gas := MultComplexity(m) * Max(adjusted, 1);
    QuotientBelow(gas, divisor);
    if gas >= TWO_64 then MAX_U256 else gas / divisor
  }

  function CostOf(input: Bytes, divisor: nat): nat
    requires divisor > 0
  {
    var baseLen, expLen, modLen := Length(input, 0), Length(input, 1), Length(input, 2);
    if modLen == 0 && baseLen == 0 then 0
    else if baseLen > MAX_LENGTH || modLen > MAX_LENGTH || expLen > MAX_LENGTH then MAX_U256
    else
      var expLow := Number(Exponent(input, baseLen, Min(expLen, 32)), 256);
      Gas(Max(modLen, baseLen), AdjustedExpLen(expLen, expLow), divisor)
  }

  /** The price; what lies behind the input counts as zero. */
  method Cost(input: Bytes, divisor: nat) returns (cost: nat)
    requires divisor > 0
    ensures cost == CostOf(input, divisor)
  {
    hide Number, Gas, AdjustedExpLen, Slice;
    var reader := new Reader(input, 0);
    var word := reader.ReadExact(32);
    var baseLen := Number(word, 256);
    word := reader.ReadExact(32);
    var expLen := Number(word, 256);
    word := reader.ReadExact(32);
    var modLen := Number(word, 256);
    if modLen == 0 && baseLen == 0 {
      return 0;
    }
    if baseLen > MAX_LENGTH || modLen > MAX_LENGTH || expLen > MAX_LENGTH {
      return MAX_U256;
    }
    var m := Max(modLen, baseLen);
    var len := Min(expLen, 32);
    var expLow;
    if baseLen + HEADER >= |input| {
      ExponentBehindInput(input, baseLen, len);
      expLow := 0;
    } else {
      var rest := input[HEADER + baseLen..];
      var expReader := new Reader(rest, 0);
      var bytes := expReader.ReadExact(len);
      RestOfInput(input, baseLen, len);
      PaddingKeepsNumber(32 - len, bytes);
      expLow := Number(seq<Byte>(32 - len, _ => 0) + bytes, 256);
    }
    cost := Gas(m, AdjustedExpLen(expLen, expLow), divisor);
  }

  lemma ExponentBehindInput(input: Bytes, baseLen: nat, len: nat)
    requires baseLen + HEADER >= |input|
    ensures Number(Exponent(input, baseLen, len), 256) == 0
  {
    ZerosAreZero(Exponent(input, baseLen, len));
  }

  lemma RestOfInput(input: Bytes, baseLen: nat, len: nat)
    requires baseLen + HEADER < |input|
    ensures Slice(input[HEADER + baseLen..], 0, len) == Exponent(input, baseLen, len)
  {
  }

  /** Larger operands and exponents never cost less. */
  lemma GasMonotone(m: nat, m': nat, adjusted: nat, adjusted': nat, divisor: nat)
    requires m <= m' <= MAX_LENGTH && adjusted <= adjusted' && divisor > 0
    ensures Gas(m, adjusted, divisor) <= Gas(m', adjusted', divisor)
  {
    ComplexityFits(m);
    ComplexityFits(m');
    ComplexityMonotone(m, m');
    hide MultComplexity;
    var c, c', a, a' := MultComplexity(m), MultComplexity(m'), Max(adjusted, 1), Max(adjusted', 1);
    MulMonotone(c, a, a');
    MulMonotone(a', c, c');
    assert c * a <= c' * a';
    QuotientMonotone(c * a, c' * a', divisor);
    assert c' * a' < TWO_64 ==> c' * a' / divisor < TWO_64;
    QuotientBelow(c * a, divisor);
  }

  lemma QuotientMonotone(x: nat, y: nat, d: nat)
    requires x <= y && d > 0
    ensures x / d <= y / d
  {
    if y / d < x / d {
      MulMonotone(d, y / d + 1, x / d);
    }
  }

  lemma QuotientBelow(x: nat, d: nat)
    requires d > 0
    ensures 0 <= x / d <= x
  {
    MulMonotone(x / d, 1, d);
  }

  // ----- the price covers the work

  lemma {:induction false} StripLength(exp: Bytes)
    ensures |StripZeros(exp)| <= |exp|
    ensures Number(exp, 256) == 0 <==> StripZeros(exp) == []
    ensures 8 * |StripZeros(exp)| <= BitIndex(Number(exp, 256)) + 8
  {
    StripIsSuffix(exp);
    StripKeepsNumber(exp);
    var s := StripZeros(exp);
    if s != [] {
      LeadingDigit(s);
      Pow2Of8();
      Pow2Power(8, |s| - 1);
      hide Number, Power, Pow2, BitIndex;
      BitIndexLowerBound(Number(s, 256), 8 * (|s| - 1));
    }
  }

  lemma {:induction false} StripIsSuffix(exp: Bytes)
    ensures |StripZeros(exp)| <= |exp|
    decreases |exp|
  {
    if exp != [] && exp[0] == 0 {
      StripIsSuffix(exp[1..]);
    }
  }

  lemma {:induction false} StripOfConcat(x: Bytes, y: Bytes)
    ensures StripZeros(x + y) == if StripZeros(x) == [] then StripZeros(y) else StripZeros(x) + y
    decreases |x|
  {
    if x == [] {
      assert x + y == y;
    } else if x[0] == 0 {
      assert (x + y)[1..] == x[1..] + y;
      StripOfConcat(x[1..], y);
    }
  }

  /** The digits of the exponent that are left take at most eight squarings more than the price assumes. */
  lemma DigitsArePriced(input: Bytes, baseLen: nat, expLen: nat)
    ensures var expLow := Number(Exponent(input, baseLen, Min(expLen, 32)), 256);
            8 * |StripZeros(Exponent(input, baseLen, expLen))| <= AdjustedExpLen(expLen, expLow) + 8
  {
    hide Number, BitIndex;
    var exp := Exponent(input, baseLen, expLen);
    if expLen <= 32 {
      StripLength(exp);
    } else {
      var head, tail := Exponent(input, baseLen, 32), Slice(input, HEADER + baseLen + 32, expLen - 32);
      assert exp == head + tail;
      StripOfConcat(head, tail);
      StripLength(head);
      StripLength(tail);
    }
  }

  /** Unless the price is the saturated maximum, the execution squares at most eight times more often than
      the adjusted exponent length says; the price, up to its divisor and rounding, is at least a ninth of
      the squarings times the complexity of one multiplication. */
  lemma PriceCoversWork(input: Bytes, divisor: nat)
    requires divisor > 0 && CostOf(input, divisor) != MAX_U256
    ensures var baseLen, expLen, modLen := Length(input, 0), Length(input, 1), Length(input, 2);
            var expLow := Number(Exponent(input, baseLen, Min(expLen, 32)), 256);
            && Work(input) <= AdjustedExpLen(expLen, expLow) + 8
            && (Work(input) > 0 ==> Max(modLen, baseLen) <= MAX_LENGTH)
            && MultComplexity(Max(modLen, baseLen)) * Work(input) <= 9 * (divisor * (CostOf(input, divisor) + 1))
  {
    hide Number, BitIndex, MultComplexity, Slice, StripZeros, Power;
    var baseLen, expLen, modLen := Length(input, 0), Length(input, 1), Length(input, 2);
    LengthsAreShort(input, divisor);
    if baseLen == 0 && modLen == 0 {
      assert Work(input) == 0;
    } else {
      DigitsArePriced(input, baseLen, expLen);
      var expLow := Number(Exponent(input, baseLen, Min(expLen, 32)), 256);
      var adjusted, m := AdjustedExpLen(expLen, expLow), Max(modLen, baseLen);
      ComplexityFits(m);
      CoversNine(MultComplexity(m), Work(input), Max(adjusted, 1), divisor);
    }
  }

  lemma LengthsAreShort(input: Bytes, divisor: nat)
    requires divisor > 0 && CostOf(input, divisor) != MAX_U256
    ensures var baseLen, expLen, modLen := Length(input, 0), Length(input, 1), Length(input, 2);
            if baseLen == 0 && modLen == 0 then ShortLength(input, 0) == 0 && ShortLength(input, 2) == 0
            else ShortLength(input, 0) == baseLen && ShortLength(input, 1) == expLen && ShortLength(input, 2) == modLen
                 && baseLen <= MAX_LENGTH && expLen <= MAX_LENGTH && modLen <= MAX_LENGTH
  {
    hide Number, Slice, Gas, AdjustedExpLen;
    assert Power(256, 8) == TWO_64 by { EightBytes(); }
    hide Power;
    forall k: nat | Length(input, k) <= MAX_LENGTH
      ensures ShortLength(input, k) == Length(input, k)
    {
      ShortLengthAgrees(input, k);
    }
  }

  lemma EightBytes()
    ensures Power(256, 8) == TWO_64
  {
    assert Power(256, 4) == 256 * 256 * 256 * 256;
    PowerAdd(256, 4, 4);
  }

  lemma CoversNine(c: nat, work: nat, a: nat, divisor: nat)
    requires divisor > 0 && a >= 1 && work <= a + 8
    ensures c * work <= 9 * (divisor * (c * a / divisor + 1))
  {
    MulMonotone(c, work, 9 * a);
    assert c * (9 * a) == 9 * (c * a);
    var q := c * a / divisor;
    assert c * a <= divisor * (q + 1);
  }
}
