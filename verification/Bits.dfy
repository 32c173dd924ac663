/** Bitwise operations on natural numbers, powers of two, and big-endian digit strings. */
module Bits {
  import opened Primitives

  function Xor(x: nat, y: nat): nat {
    if x == 0 && y == 0 then 0 else (x + y) % 2 + 2 * Xor(x / 2, y / 2)
  }

  function And(x: nat, y: nat): nat {
    if x == 0 || y == 0 then 0 else (x % 2) * (y % 2) + 2 * And(x / 2, y / 2)
  }

  function Pow2(n: nat): (r: nat)
    ensures r > 0
  {
    if n == 0 then 1 else 2 * Pow2(n - 1)
  }

  lemma {:induction false} XorZero(x: nat)
    ensures Xor(x, x) == 0 && Xor(x, 0) == x && Xor(0, x) == x
  {
    if x > 0 {
      XorZero(x / 2);
    }
  }

  lemma {:induction false} XorIsZero(x: nat, y: nat)
    requires Xor(x, y) == 0
    ensures x == y
  {
    if x > 0 || y > 0 {
      XorIsZero(x / 2, y / 2);
    }
  }

  lemma {:induction false} XorCommutes(x: nat, y: nat)
    ensures Xor(x, y) == Xor(y, x)
  {
    if x > 0 || y > 0 {
      XorCommutes(x / 2, y / 2);
    }
  }

  lemma {:induction false} XorAssociates(x: nat, y: nat, z: nat)
    ensures Xor(Xor(x, y), z) == Xor(x, Xor(y, z))
    decreases x + y + z
  {
    hide *;
    if x > 0 || y > 0 || z > 0 {
      XorHalves(x, y);
      XorHalves(y, z);
      XorHalves(Xor(x, y), z);
      XorHalves(x, Xor(y, z));
      XorAssociates(x / 2, y / 2, z / 2);
      ParityAssociates(x, y, z, Xor(x, y), Xor(y, z));
      SameHalves(Xor(Xor(x, y), z), Xor(x, Xor(y, z)));
    } else {
      XorZero(0);
    }
  }

  lemma ParityAssociates(x: nat, y: nat, z: nat, xy: nat, yz: nat)
    requires xy % 2 == (x + y) % 2 && yz % 2 == (y + z) % 2
    ensures (xy + z) % 2 == (x + yz) % 2
  {
  }

  lemma SameHalves(x: nat, y: nat)
    requires x / 2 == y / 2 && x % 2 == y % 2
    ensures x == y
  {
  }

  lemma XorHalves(x: nat, y: nat)
    ensures Xor(x, y) / 2 == Xor(x / 2, y / 2)
    ensures Xor(x, y) % 2 == (x + y) % 2
  {
  }

  lemma {:induction false} XorBound(x: nat, y: nat, n: nat)
    requires x < Pow2(n) && y < Pow2(n)
    ensures Xor(x, y) < Pow2(n)
  {
    if n > 0 && (x > 0 || y > 0) {
      XorBound(x / 2, y / 2, n - 1);
    }
  }

  function XorByte(x: Byte, y: Byte): Byte {
    assert Pow2(8) == 256;
    XorBound(x, y, 8);
    Xor(x, y)
  }

  /** Masking with the low `n` bits is taking the remainder. */
  lemma {:induction false} AndLowMask(x: nat, n: nat)
    ensures And(x, Pow2(n) - 1) == x % Pow2(n)
  {
    if n == 0 || x == 0 {
      ZeroRemainder(x, Pow2(n));
    } else {
      var p := Pow2(n - 1);
      AndLowMask(x / 2, n - 1);
      assert Pow2(n) == 2 * p;
      hide *;
      AndOdd(x, p - 1);
      RemainderHalves(x, p);
    }
  }

  lemma ZeroRemainder(x: nat, m: nat)
    requires m > 0
    ensures (m == 1 || x == 0) ==> x % m == 0
  {
  }

  lemma AndOdd(x: nat, y: nat)
    ensures And(x, 2 * y + 1) == x % 2 + 2 * And(x / 2, y)
  {
    var mask := 2 * y + 1;
    assert mask / 2 == y && mask % 2 == 1;
  }

  lemma RemainderHalves(x: nat, m: nat)
    requires m > 0
    ensures x % (2 * m) == x % 2 + 2 * ((x / 2) % m)
  {
    var q, r := (x / 2) / m, (x / 2) % m;
    assert x == 2 * (m * q + r) + x % 2 == (2 * m) * q + (2 * r + x % 2);
    RemainderIs(x, 2 * m, q, 2 * r + x % 2);
  }

  lemma {:induction false} Pow2Add(m: nat, n: nat)
    ensures Pow2(m + n) == Pow2(m) * Pow2(n)
  {
    if m > 0 {
      Pow2Add(m - 1, n);
    }
  }

  lemma MulMonotone(d: nat, x: nat, y: nat)
    requires x <= y
    ensures d * x <= d * y
  {
  }

  lemma RemainderIs(x: nat, d: nat, q: nat, r: nat)
    requires d > 0 && x == d * q + r && r < d
    ensures x / d == q && x % d == r
  {
    var q' := x / d;
    assert x == d * q' + x % d;
    assert d * (q + 1) == d * q + d && d * (q' + 1) == d * q' + d;
    if q < q' {
      MulMonotone(d, q + 1, q');
    } else if q' < q {
      MulMonotone(d, q' + 1, q);
    }
  }

  lemma DivDiv(x: nat, a: nat, b: nat)
    requires a > 0 && b > 0
    ensures a * b > 0 && (x / a) / b == x / (a * b)
  {
    var y := x / a;
    var q, r := y / b, y % b;
    MulMonotone(a, r + 1, b);
    assert a * (r + 1) == a * r + a;
    calc {
      x;
      a * y + x % a;
      a * (b * q + r) + x % a;
      a * (b * q) + a * r + x % a;
      (a * b) * q + (a * r + x % a);
    }
    MulMonotone(a, 1, b);
    RemainderIs(x, a * b, q, a * r + x % a);
  }

  lemma ModDiv(x: nat, a: nat, b: nat)
    requires a > 0 && b > 0
    ensures a * b > 0 && (x % (a * b)) / a == (x / a) % b
    ensures (x % (a * b)) % a == x % a
  {
    MulMonotone(a, 1, b);
    DivDiv(x, a, b);
    var y := x / a;
    var q := y / b;
    calc {
      x % (a * b);
      x - (a * b) * q;
      a * y + x % a - (a * b) * q;
      a * (b * q + y % b) + x % a - (a * b) * q;
      a * (b * q) + a * (y % b) + x % a - (a * b) * q;
      a * (y % b) + x % a;
    }
    RemainderIs(x % (a * b), a, y % b, x % a);
  }

  // ----- digit strings

  /** The number that the digits write, most significant first. */
  function Number(digits: seq<nat>, base: nat): nat {
    if digits == [] then 0 else Number(digits[..|digits| - 1], base) * base + digits[|digits| - 1]
  }

  function Power(base: nat, n: nat): nat {
    if n == 0 then 1 else base * Power(base, n - 1)
  }

  /** The last `n` digits of `x`. */
  function Digits(x: nat, base: nat, n: nat): (r: seq<nat>)
    requires base > 0
    ensures |r| == n
    decreases n
  {
    if n == 0 then [] else Digits(x / base, base, n - 1) + [x % base]
  }

  lemma {:induction false} DigitsOfNumber(digits: seq<nat>, base: nat)
    requires base > 0 && forall i | 0 <= i < |digits| :: digits[i] < base
    ensures Digits(Number(digits, base), base, |digits|) == digits
    ensures Number(digits, base) < Power(base, |digits|)
    decreases |digits|
  {
    if digits != [] {
      var n := |digits| - 1;
      DigitsOfNumber(digits[..n], base);
      var m, d, p := Number(digits[..n], base), digits[n], Power(base, n);
      assert Number(digits, base) == m * base + d && Power(base, n + 1) == base * p;
      AppendDigit(m, d, p, base);
    }
  }

  lemma AppendDigit(m: nat, d: nat, p: nat, base: nat)
    requires d < base && m < p
    ensures (m * base + d) / base == m && (m * base + d) % base == d && m * base + d < base * p
  {
    assert m * base == base * m;
    RemainderIs(m * base + d, base, m, d);
    MulMonotone(base, m + 1, p);
    assert base * (m + 1) == base * m + base;
  }

  lemma DivBelow(x: nat, d: nat, p: nat)
    requires d > 0 && x < d * p
    ensures x / d < p
  {
    if x / d >= p {
      MulMonotone(d, p, x / d);
    }
  }

  lemma {:induction false} NumberOfDigits(x: nat, base: nat, n: nat)
    requires base > 0 && x < Power(base, n)
    ensures Number(Digits(x, base, n), base) == x
    decreases n
  {
    if n > 0 {
      var p, d := Power(base, n - 1), Digits(x, base, n);
      assert x < base * p;
      DigitsUnfold(x, base, n);
      hide *;
      DivBelow(x, base, p);
      NumberOfDigits(x / base, base, n - 1);
      NumberUnfold(d, base);
      QuotientAndRemainder(x, base);
    }
  }

  lemma DigitsUnfold(x: nat, base: nat, n: nat)
    requires base > 0 && n > 0
    ensures x / base >= 0
    ensures var d := Digits(x, base, n); d[..n - 1] == Digits(x / base, base, n - 1) && d[n - 1] == x % base
  {
  }

  lemma NumberUnfold(digits: seq<nat>, base: nat)
    requires digits != []
    ensures Number(digits, base) == Number(digits[..|digits| - 1], base) * base + digits[|digits| - 1]
  {
  }

  lemma QuotientAndRemainder(x: nat, d: nat)
    requires d > 0
    ensures (x / d) * d + x % d == x
  {
  }

  lemma {:induction false} DigitsBelowBase(x: nat, base: nat, n: nat)
    requires base > 0
    ensures forall i | 0 <= i < n :: Digits(x, base, n)[i] < base
    decreases n
  {
    if n > 0 {
      DigitsBelowBase(x / base, base, n - 1);
    }
  }

  lemma {:induction false} DigitAt(x: nat, base: nat, n: nat, i: nat)
    requires base > 0 && i < n
    ensures Power(base, n - 1 - i) > 0
    ensures Digits(x, base, n)[i] == (x / Power(base, n - 1 - i)) % base
    decreases n
  {
    PowerPositive(base, n - 1 - i);
    if i < n - 1 {
      DigitAt(x / base, base, n - 1, i);
      PowerPositive(base, n - 2 - i);
      DivDiv(x, base, Power(base, n - 2 - i));
    }
  }

  lemma {:induction false} PowerPositive(base: nat, n: nat)
    requires base > 0
    ensures Power(base, n) > 0
  {
    if n > 0 {
      PowerPositive(base, n - 1);
      MulMonotone(base, 1, Power(base, n - 1));
    }
  }

  lemma {:induction false} Pow2Power(b: nat, m: nat)
    ensures Pow2(b * m) == Power(Pow2(b), m)
    decreases m
  {
    if m > 0 {
      Pow2Power(b, m - 1);
      assert b * m == b + b * (m - 1);
      Pow2Add(b, b * (m - 1));
    } else {
      assert b * m == 0;
    }
  }

  function Or(x: nat, y: nat): nat {
    if x == 0 && y == 0 then 0
    else (if x % 2 == 1 || y % 2 == 1 then 1 else 0) + 2 * Or(x / 2, y / 2)
  }

  /** Numbers without common bits are joined by addition. */
  lemma {:induction false} OrDisjoint(x: nat, y: nat, n: nat)
    requires Low(x, n) == 0 && y < Pow2(n)
    ensures Or(x, y) == x + y
    decreases n
  {
    if n == 0 {
      OrZero(x);
    } else if x > 0 || y > 0 {
      RemainderHalves(x, Pow2(n - 1));
      OrDisjoint(x / 2, y / 2, n - 1);
    }
  }

  lemma {:induction false} OrZero(x: nat)
    ensures Or(x, 0) == x
  {
    if x > 0 {
      OrZero(x / 2);
    }
  }

  // ----- shifts

  /** `x >> n`. */
  function Shr(x: nat, n: nat): nat {
    DivNatural(x, Pow2(n));
    x / Pow2(n)
  }

  lemma DivNatural(x: nat, d: nat)
    requires d > 0
    ensures 0 <= x / d
  {
  }

  /** The low `n` bits of `x`. */
  function Low(x: nat, n: nat): nat {
    x % Pow2(n)
  }

  lemma ShrShr(x: nat, m: nat, n: nat)
    ensures Shr(Shr(x, m), n) == Shr(x, m + n)
  {
    Pow2Add(m, n);
    DivDiv(x, Pow2(m), Pow2(n));
  }

  lemma ShrLow(x: nat, m: nat, n: nat)
    requires n <= m
    ensures Shr(Low(x, m), n) == Low(Shr(x, n), m - n)
  {
    Pow2Add(n, m - n);
    ModDiv(x, Pow2(n), Pow2(m - n));
  }

  lemma LowLow(x: nat, m: nat, n: nat)
    requires m <= n
    ensures Low(Low(x, n), m) == Low(x, m)
  {
    Pow2Add(m, n - m);
    ModDiv(x, Pow2(m), Pow2(n - m));
  }

  lemma LowOfSmall(x: nat, n: nat)
    requires x < Pow2(n)
    ensures Low(x, n) == x && Shr(x, n) == 0
  {
    RemainderIs(x, Pow2(n), 0, x);
  }

  lemma LowBound(x: nat, n: nat)
    ensures Low(x, n) < Pow2(n)
  {
  }

  /** `x` followed by the `n` bits of `y`. */
  function Append(x: nat, y: nat, n: nat): nat {
    x * Pow2(n) + y
  }

  /** A number is its high part followed by its low part. */
  lemma ShrOfAppend(x: nat, y: nat, n: nat)
    requires y < Pow2(n)
    ensures Shr(x * Pow2(n) + y, n) == x && Low(x * Pow2(n) + y, n) == y
  {
    assert x * Pow2(n) == Pow2(n) * x;
    RemainderIs(x * Pow2(n) + y, Pow2(n), x, y);
  }

  lemma AppendShr(x: nat, n: nat)
    ensures x == Shr(x, n) * Pow2(n) + Low(x, n)
  {
    assert Pow2(n) * Shr(x, n) == Shr(x, n) * Pow2(n);
  }

  lemma {:induction false} Pow2Monotone(m: nat, n: nat)
    requires m <= n
    ensures Pow2(m) <= Pow2(n)
  {
    if m < n {
      Pow2Monotone(m, n - 1);
    }
  }

  lemma MulPredecessor(p: nat, q: nat)
    requires q > 0
    ensures (q - 1) * p == p * q - p
  {
  }

  lemma ShrOnes(m: nat, n: nat)
    requires n <= m
    ensures Shr(Pow2(m) - 1, n) == Pow2(m - n) - 1
  {
    Pow2Add(n, m - n);
    hide Pow2, Shr;
    var p, q := Pow2(n), Pow2(m - n);
    MulPredecessor(p, q);
    ShrOfAppend(q - 1, p - 1, n);
  }

  lemma LowOnes(m: nat, n: nat)
    ensures Low(Pow2(m) - 1, n) == Pow2(Min(m, n)) - 1
  {
    hide Pow2, Shr, Low;
    if m <= n {
      Pow2Monotone(m, n);
      LowOfSmall(Pow2(m) - 1, n);
    } else {
      Pow2Add(n, m - n);
      var p, q := Pow2(n), Pow2(m - n);
      MulPredecessor(p, q);
      ShrOfAppend(q - 1, p - 1, n);
    }
  }

  lemma AndOnes(x: nat, n: nat)
    ensures And(x, Pow2(n) - 1) == Low(x, n)
  {
    AndLowMask(x, n);
  }

  lemma Pow2Of8()
    ensures Pow2(8) == 256
  {
  }

  /** Truncating an appended number truncates its high part. */
  lemma LowOfAppend(x: nat, y: nat, n: nat, w: nat)
    requires y < Pow2(n) && n <= w
    ensures Low(x * Pow2(n) + y, w) == Low(x, w - n) * Pow2(n) + y
  {
    ShrOfAppend(x, y, n);
    hide Shr, Low, Pow2;
    var z := x * Pow2(n) + y;
    ShrLow(z, w, n);
    LowLow(z, n, w);
    AppendShr(Low(z, w), n);
  }

  lemma MultipleOf(x: nat, n: nat)
    ensures Low(x * Pow2(n), n) == 0
  {
    ShrOfAppend(x, 0, n);
  }

  lemma AppendAppend(x: nat, y: nat, z: nat, m: nat, n: nat)
    ensures Append(Append(x, y, m), z, n) == Append(x, Append(y, z, n), m + n)
  {
    Pow2Add(m, n);
    hide Pow2;
    MulThree(x, y, z, Pow2(m), Pow2(n));
  }

  lemma MulThree(x: nat, y: nat, z: nat, p: nat, q: nat)
    ensures (x * p + y) * q + z == x * (p * q) + (y * q + z)
  {
  }

  lemma AppendBound(y: nat, z: nat, m: nat, n: nat)
    requires y < Pow2(m) && z < Pow2(n)
    ensures Append(y, z, n) < Pow2(m + n)
  {
    Pow2Add(m, n);
    hide Pow2;
    var p, q := Pow2(m), Pow2(n);
    MulMonotone(q, y + 1, p);
    assert q * (y + 1) == y * q + q;
  }
}
