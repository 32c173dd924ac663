/** Packing of solution indices into bytes: a bit accumulator regroups a string of fixed-width
    big-endian fields into fields of another width. */
module IndexPacking {
  import opened Primitives
  import opened Bits

  /** Field `k` of width `b` in the bit string that `xs` writes with `a` bits each. */
  function Field(xs: seq<nat>, a: nat, b: nat, k: nat): nat
    requires FieldFits(xs, a, b, k)
  {
    Low(Shr(Number(xs, Pow2(a)), a * |xs| - (k + 1) * b), b)
  }

  predicate FieldFits(xs: seq<nat>, a: nat, b: nat, k: nat) {
    (k + 1) * b <= a * |xs|
  }

  ghost predicate Fits(xs: seq<nat>, a: nat) {
    forall i | 0 <= i < |xs| :: xs[i] < Pow2(a)
  }

  /** `ys` lists the consecutive `b`-bit fields of `xs`, as many as there are. */
  ghost predicate Regrouped(xs: seq<nat>, a: nat, ys: seq<nat>, b: nat) {
    && b > 0 && |ys| * b <= a * |xs| < (|ys| + 1) * b
    && forall k | 0 <= k < |ys| :: FieldFits(xs, a, b, k) && ys[k] == Field(xs, a, b, k)
  }

  /** A field does not change when the string grows at its end. */
  lemma FieldOfPrefix(xs: seq<nat>, x: nat, a: nat, b: nat, k: nat)
    requires FieldFits(xs, a, b, k) && x < Pow2(a)
    ensures FieldFits(xs + [x], a, b, k) && Field(xs + [x], a, b, k) == Field(xs, a, b, k)
  {
    assert (xs + [x])[..|xs|] == xs;
    assert a * (|xs| + 1) == a * |xs| + a;
    ShrOfAppend(Number(xs, Pow2(a)), x, a);
    hide Shr;
    ShrShr(Number(xs + [x], Pow2(a)), a, a * |xs| - (k + 1) * b);
  }

  lemma FieldIsDigit(xs: seq<nat>, a: nat, b: nat, count: nat, k: nat)
    requires k < count && a * |xs| == b * count && FieldFits(xs, a, b, k)
    ensures Field(xs, a, b, k) == Digits(Number(xs, Pow2(a)), Pow2(b), count)[k]
  {
    var shift: nat := count - 1 - k;
    ShiftOf(b, count, k);
    Pow2Power(b, shift);
    hide Number, Digits, Power, Pow2;
    DigitAt(Number(xs, Pow2(a)), Pow2(b), count, k);
  }

  lemma ShiftOf(b: nat, count: nat, k: nat)
    requires k < count
    ensures b * count - (k + 1) * b == b * (count - 1 - k)
  {
  }

  /** With no bits left over, regrouping keeps the number that is written. */
  lemma RegroupedKeepsNumber(xs: seq<nat>, a: nat, ys: seq<nat>, b: nat)
    requires Fits(xs, a) && Regrouped(xs, a, ys, b) && a * |xs| == b * |ys|
    ensures Number(ys, Pow2(b)) == Number(xs, Pow2(a)) && Fits(ys, b)
  {
    var n := Number(xs, Pow2(a));
    DigitsOfNumber(xs, Pow2(a));
    Pow2Power(a, |xs|);
    Pow2Power(b, |ys|);
    var d := Digits(n, Pow2(b), |ys|);
    forall k | 0 <= k < |ys|
      ensures ys[k] == d[k]
    {
      assert FieldFits(xs, a, b, k);
      FieldIsDigit(xs, a, b, |ys|, k);
    }
    hide Digits, Number, Pow2, Power;
    assert ys == d;
    NumberOfDigits(n, Pow2(b), |ys|);
    DigitsBelowBase(n, Pow2(b), |ys|);
  }

  lemma LengthFromBits(a: nat, m: nat, n: nat)
    requires a > 0 && n * a <= a * m < (n + 1) * a
    ensures m == n
  {
    assert n * a == a * n && (n + 1) * a == n * a + a;
    RemainderIs(a * m, a, m, 0);
    RemainderIs(a * m, a, n, a * m - n * a);
  }

  /** Regrouping back and forth without left-over bits gives the same string again. */
  lemma RegroupingRoundTrip(xs: seq<nat>, a: nat, ys: seq<nat>, b: nat, zs: seq<nat>)
    requires a > 0 && Fits(xs, a) && a * |xs| == b * |ys|
    requires Regrouped(xs, a, ys, b) && Regrouped(ys, b, zs, a)
    ensures zs == xs
  {
    RegroupedKeepsNumber(xs, a, ys, b);
    LengthFromBits(a, |xs|, |zs|);
    RegroupedKeepsNumber(ys, b, zs, a);
    DigitsOfNumber(xs, Pow2(a));
    DigitsOfNumber(zs, Pow2(a));
  }

  // ----- one element

  /** Byte `y` of the element, counted from its end: the accumulator shifted and masked. */
  function ElementByte(acc: nat, bits: nat, blen: nat, y: nat): Byte {
    var x, mask := Low(Shr(acc, bits + 8 * y), 8), Low(Shr(Pow2(blen) - 1, 8 * y), 8);
    AndBound(x, mask);
    LowBound(Shr(acc, bits + 8 * y), 8);
    Pow2Of8();
    And(x, mask)
  }

  lemma {:induction false} AndBound(x: nat, y: nat)
    ensures And(x, y) <= x
  {
    if x > 0 && y > 0 {
      AndBound(x / 2, y / 2);
    }
  }

  /** The masked byte is the byte of the masked value. */
  lemma ElementByteIs(acc: nat, bits: nat, blen: nat, y: nat)
    requires 8 * y < blen
    ensures ElementByte(acc, bits, blen, y) == Low(Shr(Low(Shr(acc, bits), blen), 8 * y), 8)
  {
    hide And, Pow2, Shr, Low;
    var e := 8 * y;
    var t, r := Shr(acc, bits + e), blen - e;
    ShrShr(acc, bits, e);
    ShrLow(Shr(acc, bits), blen, e);
    ShrOnes(blen, e);
    LowOnes(r, 8);
    AndOnes(Low(t, 8), Min(r, 8));
    LowLow(t, Min(r, 8), 8);
    if r >= 8 {
      LowLow(t, 8, r);
    } else {
      LowBound(t, r);
      Pow2Monotone(r, 8);
      LowOfSmall(Low(t, r), 8);
    }
  }

  // ----- expansion

  /** All fields of width `b`. */
  function Fields(xs: seq<nat>, a: nat, b: nat): (ys: seq<nat>)
    requires b > 0
  {
    seq(a * |xs| / b, k requires 0 <= k < a * |xs| / b => FieldBelow(xs, a, b, k); Field(xs, a, b, k))
  }

  lemma FieldBelow(xs: seq<nat>, a: nat, b: nat, k: nat)
    requires b > 0 && k < a * |xs| / b
    ensures FieldFits(xs, a, b, k)
  {
    var n := a * |xs|;
    MulMonotone(b, k + 1, n / b);
    assert n == b * (n / b) + n % b && (k + 1) * b == b * (k + 1);
  }

  lemma FieldsRegrouped(xs: seq<nat>, a: nat, b: nat)
    requires b > 0
    ensures Regrouped(xs, a, Fields(xs, a, b), b)
  {
    var n := a * |xs|;
    var q := n / b;
    assert n == b * q + n % b && q * b == b * q && (q + 1) * b == q * b + b;
    forall k | 0 <= k < q
      ensures FieldFits(xs, a, b, k)
    {
      FieldBelow(xs, a, b, k);
    }
  }

  /** Byte `y` of `v`, counted from the end. */
  function ByteOf(v: nat, y: nat): Byte {
    LowBound(Shr(v, 8 * y), 8);
    Pow2Of8();
    Low(Shr(v, 8 * y), 8)
  }

  lemma ByteOfIs(v: nat, y: nat)
    ensures ByteOf(v, y) == Low(Shr(v, 8 * y), 8)
  {
  }

  /** Value `v` in `(blen + 7) / 8` big-endian bytes after `pad` zero bytes, in a buffer of four. */
  function ElementBuffer(v: nat, blen: nat, pad: nat): (r: Bytes)
    ensures |r| == 4
  {
    var width := (blen + 7) / 8 + pad;
    seq(4, x requires 0 <= x < 4 => if pad <= x < width then ByteOf(v, width - x - 1) else 0)
  }

  /** One more byte in a 32-bit accumulator. */
  function Accumulate(acc: nat, b: Byte): nat {
    Or(Low(acc * 256, 32), b)
  }

  lemma AccumulateIs(bytes: Bytes, acc: nat, b: Byte)
    requires acc == Low(Number(bytes, 256), 32)
    ensures Accumulate(acc, b) == Low(Number(bytes + [b], 256), 32)
  {
    assert (bytes + [b])[..|bytes|] == bytes;
    Pow2Of8();
    hide Low;
    var n := Number(bytes, 256);
    LowOfAppend(n, b, 8, 32);
    LowOfAppend(acc, 0, 8, 32);
    LowLow(n, 24, 32);
    MultipleOf(Low(n, 24), 8);
    OrDisjoint(Low(acc * 256, 32), b, 8);
  }

  /** The accumulator still holds every bit of the field at its end. */
  lemma FieldInAccumulator(n: nat, s: nat, b: nat)
    requires s + b <= 32
    ensures Low(Shr(Low(n, 32), s), b) == Low(Shr(n, s), b)
  {
    hide Low, Shr, Pow2;
    ShrLow(n, 32, s);
    LowLow(Shr(n, s), b, 32 - s);
  }

  /** Writes one element of the accumulator into the buffer, big-endian and masked across bytes. */
  method FillBuffer(start: Bytes, acc: nat, bits: nat, blen: nat, pad: nat) returns (buffer: Bytes)
    requires |start| == 4 && (blen + 7) / 8 + pad <= 4
    ensures |buffer| == 4
    ensures var width := (blen + 7) / 8 + pad;
            forall y | 0 <= y < 4 ::
              buffer[y] == if pad <= y < width then ElementByte(acc, bits, blen, width - y - 1) else start[y]
  {
    var outWidth := (blen + 7) / 8 + pad;
    buffer := start;
    for x := pad to outWidth
      invariant |buffer| == 4
      invariant forall y | 0 <= y < 4 ::
                buffer[y] == if pad <= y < x then ElementByte(acc, bits, blen, outWidth - y - 1) else start[y]
    {
      buffer := buffer[x := ElementByte(acc, bits, blen, outWidth - x - 1)];
    }
  }

  ghost predicate IsElement(bytes: Bytes, blen: nat, pad: nat, k: nat, buffer: Bytes) {
    FieldFits(bytes, 8, blen, k) && buffer == ElementBuffer(Field(bytes, 8, blen, k), blen, pad)
  }

  lemma ElementsStay(bytes: Bytes, b: Byte, blen: nat, pad: nat, out: seq<Bytes>)
    requires forall k | 0 <= k < |out| :: IsElement(bytes, blen, pad, k, out[k])
    ensures forall k | 0 <= k < |out| :: IsElement(bytes + [b], blen, pad, k, out[k])
  {
    Pow2Of8();
    forall k | 0 <= k < |out|
      ensures IsElement(bytes + [b], blen, pad, k, out[k])
    {
      assert IsElement(bytes, blen, pad, k, out[k]);
      FieldOfPrefix(bytes, b, 8, blen, k);
    }
  }

  lemma NewElement(bytes: Bytes, blen: nat, pad: nat, k: nat, bits: nat, acc: nat, buffer: Bytes)
    requires 8 <= blen <= 25 && bits < 8 && 8 * |bytes| == (k + 1) * blen + bits
    requires acc == Low(Number(bytes, 256), 32) && |buffer| == 4
    requires var width := (blen + 7) / 8 + pad;
             && width <= 4
             && (forall y | 0 <= y < 4 && !(pad <= y < width) :: buffer[y] == 0)
             && (forall y | pad <= y < width :: buffer[y] == ElementByte(acc, bits, blen, width - y - 1))
    ensures IsElement(bytes, blen, pad, k, buffer)
  {
    hide Low, Shr, And;
    var width := (blen + 7) / 8 + pad;
    Pow2Of8();
    FieldInAccumulator(Number(bytes, 256), bits, blen);
    var v := Field(bytes, 8, blen, k);
    assert v == Low(Shr(acc, bits), blen);
    var expected := ElementBuffer(v, blen, pad);
    forall y | 0 <= y < 4
      ensures buffer[y] == expected[y]
    {
      if pad <= y < width {
        ElementByteIs(acc, bits, blen, width - y - 1);
        ByteOfIs(v, width - y - 1);
      }
    }
  }

  /** The accumulator after the first bytes: `out` holds the complete fields, `bits` bits are left over. */
  ghost predicate Progress(bytes: Bytes, blen: nat, pad: nat, bits: nat, acc: nat, out: seq<Bytes>) {
    && bits < blen && 8 * |bytes| == |out| * blen + bits
    && acc == Low(Number(bytes, 256), 32)
    && forall k | 0 <= k < |out| :: IsElement(bytes, blen, pad, k, out[k])
  }

  lemma ProgressWaits(bytes: Bytes, b: Byte, blen: nat, pad: nat, bits: nat, acc: nat, out: seq<Bytes>)
    requires Progress(bytes, blen, pad, bits, acc, out) && bits + 8 < blen
    ensures Progress(bytes + [b], blen, pad, bits + 8, Accumulate(acc, b), out)
  {
    AccumulateIs(bytes, acc, b);
    ElementsStay(bytes, b, blen, pad, out);
  }

  lemma ProgressEmits(bytes: Bytes, b: Byte, blen: nat, pad: nat, bits: nat, acc: nat, out: seq<Bytes>, buffer: Bytes)
    requires Progress(bytes, blen, pad, bits, acc, out) && 8 <= blen <= 25 && blen <= bits + 8
    requires |buffer| == 4
    requires var width := (blen + 7) / 8 + pad;
             && width <= 4
             && (forall y | 0 <= y < 4 && !(pad <= y < width) :: buffer[y] == 0)
             && (forall y | pad <= y < width ::
                  buffer[y] == ElementByte(Accumulate(acc, b), bits + 8 - blen, blen, width - y - 1))
    ensures Progress(bytes + [b], blen, pad, bits + 8 - blen, Accumulate(acc, b), out + [buffer])
  {
    hide ElementByte, IsElement, Accumulate;
    AccumulateIs(bytes, acc, b);
    ElementsStay(bytes, b, blen, pad, out);
    assert (|out| + 1) * blen == |out| * blen + blen;
    NewElement(bytes + [b], blen, pad, |out|, bits + 8 - blen, Accumulate(acc, b), buffer);
  }

  lemma ProgressEnds(bytes: Bytes, blen: nat, pad: nat, bits: nat, acc: nat, out: seq<Bytes>)
    requires Progress(bytes, blen, pad, bits, acc, out)
    ensures |out| == |Fields(bytes, 8, blen)|
    ensures forall k | 0 <= k < |out| :: out[k] == ElementBuffer(Fields(bytes, 8, blen)[k], blen, pad)
  {
    CountElements(|bytes|, blen, |out|, bits);
    forall k | 0 <= k < |out|
      ensures out[k] == ElementBuffer(Fields(bytes, 8, blen)[k], blen, pad)
    {
      assert IsElement(bytes, blen, pad, k, out[k]);
    }
  }

  /** Splits a byte string into elements of `blen` bits, each in a four-byte buffer. */
  method ExpandArray(compressed: Bytes, blen: nat, pad: nat) returns (out: seq<Bytes>)
    requires 8 <= blen <= 25 && (blen + 7) / 8 + pad <= 4
    ensures |out| == |Fields(compressed, 8, blen)|
    ensures forall k | 0 <= k < |out| :: out[k] == ElementBuffer(Fields(compressed, 8, blen)[k], blen, pad)
  {
    var outWidth := (blen + 7) / 8 + pad;
    var buffer: Bytes := [0, 0, 0, 0];
    var bits: nat, acc: nat := 0, 0;
    out := [];
    assert Progress([], blen, pad, bits, acc, out);
    hide Progress, ElementByte, ElementBuffer, Accumulate, Fields;
    for i := 0 to |compressed|
      invariant bits < blen && Progress(compressed[..i], blen, pad, bits, acc, out)
      invariant |buffer| == 4 && forall x | 0 <= x < 4 && !(pad <= x < outWidth) :: buffer[x] == 0
    {
      ghost var before := acc;
      assert compressed[..i + 1] == compressed[..i] + [compressed[i]];
      acc := Accumulate(acc, compressed[i]);
      bits := bits + 8;
      if bits >= blen {
        bits := bits - blen;
        buffer := FillBuffer(buffer, acc, bits, blen, pad);
        ProgressEmits(compressed[..i], compressed[i], blen, pad, bits + blen - 8, before, out, buffer);
        out := out + [buffer];
      } else {
        ProgressWaits(compressed[..i], compressed[i], blen, pad, bits - 8, before, out);
      }
    }
    assert compressed[..|compressed|] == compressed;
    ProgressEnds(compressed, blen, pad, bits, acc, out);
  }

  lemma CountElements(n: nat, blen: nat, k: nat, bits: nat)
    requires blen > 0 && 8 * n == k * blen + bits && bits < blen
    ensures 8 * n / blen == k
  {
    assert k * blen == blen * k;
    RemainderIs(8 * n, blen, k, bits);
  }

  // ----- compression

  /** The masked `blen`-bit values of a string of elements of `width` bytes. */
  function Elements(data: Bytes, width: nat, pad: nat, blen: nat): seq<nat>
    requires pad <= width
    decreases |data|
  {
    if width == 0 || |data| < width then []
    else [Low(Number(data[pad..width], 256), blen)] + Elements(data[width..], width, pad, blen)
  }

  /** `e` without its low `n` bits. */
  function High(e: nat, n: nat): nat {
    Shr(e, n) * Pow2(n)
  }

  lemma HighStep(e: nat, n: nat)
    ensures High(e, n) == High(e, n + 8) + Low(Shr(e, n), 8) * Pow2(n)
  {
    Pow2Of8();
    Pow2Add(n, 8);
    ShrShr(e, n, 8);
    AppendShr(Shr(e, n), 8);
    hide Shr, Low, Pow2;
    var h, l, p := Shr(e, n + 8), Low(Shr(e, n), 8), Pow2(n);
    assert Shr(e, n) == h * 256 + l;
    assert (h * 256 + l) * p == h * (256 * p) + l * p;
  }

  lemma MultipleOfLess(x: nat, m: nat, n: nat)
    requires m <= n && Low(x, n) == 0
    ensures Low(x, m) == 0
  {
    LowLow(x, m, n);
    LowOfSmall(0, m);
  }

  lemma MultiplesAdd(x: nat, y: nat, n: nat)
    requires Low(x, n) == 0 && Low(y, n) == 0
    ensures Low(x + y, n) == 0
  {
    var p := Pow2(n);
    var a, b := x / p, y / p;
    assert p * (a + b) == p * a + p * b;
    RemainderIs(x + y, p, a + b, 0);
  }

  /** Joining the next byte of `e` to what has been joined already. */
  lemma JoinByte(shifted: nat, e: nat, blen: nat, y: nat)
    requires Low(shifted, blen) == 0 && e < Pow2(blen) && 8 * y < blen
    ensures Or(shifted + High(e, 8 * y + 8), Low(Shr(e, 8 * y), 8) * Pow2(8 * y)) == shifted + High(e, 8 * y)
  {
    hide Shr, Low, Or, Pow2;
    HighStep(e, 8 * y);
    var part := Low(Shr(e, 8 * y), 8) * Pow2(8 * y);
    var n := Min(blen, 8 * y + 8);
    assert Low(High(e, 8 * y + 8), n) == 0 by {
      if 8 * y + 8 <= blen {
        MultipleOf(Shr(e, 8 * y + 8), 8 * y + 8);
      } else {
        Pow2Monotone(blen, 8 * y + 8);
        LowOfSmall(e, 8 * y + 8);
        LowOfSmall(0, n);
      }
    }
    MultipleOfLess(shifted, n, blen);
    MultiplesAdd(shifted, High(e, 8 * y + 8), n);
    assert part < Pow2(n) by {
      PartBound(e, blen, y);
    }
    OrDisjoint(shifted + High(e, 8 * y + 8), part, n);
  }

  lemma PartBound(e: nat, blen: nat, y: nat)
    requires e < Pow2(blen)
    ensures Low(Shr(e, 8 * y), 8) * Pow2(8 * y) < Pow2(Min(blen, 8 * y + 8))
  {
    var n, b := 8 * y, Low(Shr(e, 8 * y), 8);
    Pow2Of8();
    LowBound(Shr(e, n), 8);
    Pow2Add(8, n);
    MulMonotone(Pow2(n), b + 1, 256);
    assert Pow2(n) * (b + 1) == b * Pow2(n) + Pow2(n);
    HighStep(e, n);
    AppendShr(e, n);
  }

  /** Byte `y` from the end of the big-endian number that `bytes` writes. */
  lemma {:induction false} ByteOfNumber(bytes: Bytes, y: nat)
    requires y < |bytes|
    ensures bytes[|bytes| - 1 - y] == Low(Shr(Number(bytes, 256), 8 * y), 8)
    decreases |bytes|
  {
    Pow2Of8();
    var n := |bytes| - 1;
    ShrOfAppend(Number(bytes[..n], 256), bytes[n], 8);
    if y == 0 {
      ShrZero(Number(bytes, 256));
    } else {
      hide Shr, Low;
      ByteOfNumber(bytes[..n], y - 1);
      ShrShr(Number(bytes, 256), 8, 8 * (y - 1));
    }
  }

  lemma ShrZero(x: nat)
    ensures Shr(x, 0) == x
  {
  }

  /** The mask byte that `compress_array` applies at byte `y`. */
  function MaskByte(blen: nat, y: nat): nat {
    Low(Shr(Pow2(blen) - 1, 8 * y), 8)
  }

  lemma MaskedByteOfElement(bytes: Bytes, blen: nat, y: nat)
    requires y < |bytes| && 8 * y < blen
    ensures And(bytes[|bytes| - 1 - y], MaskByte(blen, y)) == Low(Shr(Low(Number(bytes, 256), blen), 8 * y), 8)
  {
    ByteOfNumber(bytes, y);
    hide Shr, Low, And, Pow2;
    var d := Number(bytes, 256);
    ShrZero(d);
    assert ElementByte(d, 0, blen, y) == And(Low(Shr(d, 8 * y), 8), MaskByte(blen, y));
    ElementByteIs(d, 0, blen, y);
  }

  /** The accumulator shifted to make room for one element. */
  function Shifted(acc: nat, blen: nat): nat {
    Low(acc * Pow2(blen), 32)
  }

  lemma ShiftedIs(n: nat, e: nat, blen: nat)
    requires blen <= 32 && e < Pow2(blen)
    ensures Low(Shifted(Low(n, 32), blen), blen) == 0
    ensures Shifted(Low(n, 32), blen) + e == Low(Append(n, e, blen), 32)
  {
    hide Low, Pow2;
    LowOfAppend(n, e, blen, 32);
    LowOfAppend(Low(n, 32), 0, blen, 32);
    LowLow(n, 32 - blen, 32);
    MultipleOf(Low(n, 32 - blen), blen);
  }

  /** Shifts one element into the accumulator, byte by byte. */
  method ReadElement(acc: nat, bytes: Bytes, blen: nat) returns (r: nat)
    requires |bytes| == (blen + 7) / 8 && blen <= 32
    requires Low(Shifted(acc, blen), blen) == 0
    ensures r == Shifted(acc, blen) + Low(Number(bytes, 256), blen)
  {
    hide Shr, Low, And, Or, Pow2, Number;
    ghost var e := Low(Number(bytes, 256), blen);
    LowBound(Number(bytes, 256), blen);
    r := Shifted(acc, blen);
    HighAbove(e, blen, 8 * |bytes|);
    for x := 0 to |bytes|
      invariant r == Shifted(acc, blen) + High(e, 8 * (|bytes| - x))
    {
      var y := |bytes| - x - 1;
      MaskedByteOfElement(bytes, blen, y);
      JoinByte(Shifted(acc, blen), e, blen, y);
      r := Or(r, And(bytes[x], MaskByte(blen, y)) * Pow2(8 * y));
    }
    HighZero(e);
  }

  lemma HighAbove(e: nat, blen: nat, n: nat)
    requires e < Pow2(blen) && blen <= n
    ensures High(e, n) == 0
  {
    Pow2Monotone(blen, n);
    LowOfSmall(e, n);
  }

  lemma HighZero(e: nat)
    ensures High(e, 0) == e
  {
  }

  /** The accumulator after some elements: `out` holds the complete bytes, `bits` bits are left over. */
  ghost predicate Compressed(read: seq<nat>, blen: nat, bits: nat, acc: nat, out: Bytes) {
    && blen * |read| == |out| * 8 + bits
    && acc == Low(Number(read, Pow2(blen)), 32)
    && Fits(read, blen)
    && forall k | 0 <= k < |out| :: FieldFits(read, blen, 8, k) && out[k] == Field(read, blen, 8, k)
  }

  lemma CompressedReads(read: seq<nat>, e: nat, blen: nat, bits: nat, acc: nat, out: Bytes)
    requires Compressed(read, blen, bits, acc, out) && e < Pow2(blen) && blen <= 32
    ensures Compressed(read + [e], blen, bits + blen, Shifted(acc, blen) + e, out)
    ensures Low(Shifted(acc, blen), blen) == 0
  {
    assert (read + [e])[..|read|] == read;
    assert Number(read + [e], Pow2(blen)) == Append(Number(read, Pow2(blen)), e, blen);
    ShiftedIs(Number(read, Pow2(blen)), e, blen);
    hide Field, FieldFits, Pow2, Shifted, Low, Number, Append;
    assert blen * (|read| + 1) == blen * |read| + blen;
    forall k | 0 <= k < |out|
      ensures FieldFits(read + [e], blen, 8, k) && out[k] == Field(read + [e], blen, 8, k)
    {
      FieldOfPrefix(read, e, blen, 8, k);
    }
  }

  lemma CompressedWrites(read: seq<nat>, blen: nat, bits: nat, acc: nat, out: Bytes, b: Byte)
    requires Compressed(read, blen, bits, acc, out) && 8 <= bits <= 32 && b == Low(Shr(acc, bits - 8), 8)
    ensures Compressed(read, blen, bits - 8, acc, out + [b])
  {
    FieldInAccumulator(Number(read, Pow2(blen)), bits - 8, 8);
  }

  lemma {:induction false} FieldOfPrefixes(xs: seq<nat>, zs: seq<nat>, a: nat, b: nat, k: nat)
    requires FieldFits(xs, a, b, k) && Fits(zs, a)
    ensures FieldFits(xs + zs, a, b, k) && Field(xs + zs, a, b, k) == Field(xs, a, b, k)
    decreases |zs|
  {
    if zs == [] {
      assert xs + zs == xs;
    } else {
      var n := |zs| - 1;
      FieldOfPrefixes(xs, zs[..n], a, b, k);
      FieldOfPrefix(xs + zs[..n], zs[n], a, b, k);
      assert xs + zs == xs + zs[..n] + [zs[n]];
    }
  }

  lemma {:induction false} ElementsFit(data: Bytes, width: nat, pad: nat, blen: nat)
    requires pad <= width
    ensures Fits(Elements(data, width, pad, blen), blen)
    decreases |data|
  {
    if width > 0 && |data| >= width {
      LowBound(Number(data[pad..width], 256), blen);
      ElementsFit(data[width..], width, pad, blen);
    }
  }

  lemma CompressedEnds(read: seq<nat>, rest: seq<nat>, blen: nat, bits: nat, acc: nat, out: Bytes)
    requires Compressed(read, blen, bits, acc, out) && Fits(rest, blen)
    ensures |out| <= |Fields(read + rest, blen, 8)| && out == Fields(read + rest, blen, 8)[..|out|]
  {
    hide Field, Number, Pow2;
    var all := read + rest;
    assert blen * |all| == blen * |read| + blen * |rest|;
    forall k | 0 <= k < |out|
      ensures k < |Fields(all, blen, 8)| && out[k] == Fields(all, blen, 8)[k]
    {
      assert FieldFits(read, blen, 8, k);
      FieldOfPrefixes(read, rest, blen, 8, k);
    }
  }

  /** What has been read up to offset `j`, and what is still there. */
  ghost predicate Loaded(data: Bytes, width: nat, pad: nat, blen: nat, j: nat, read: seq<nat>)
    requires pad <= width
  {
    j <= |data| && Elements(data, width, pad, blen) == read + Elements(data[j..], width, pad, blen)
  }

  /** While bytes are missing there is another element to read. */
  lemma LoadsNext(data: Bytes, len: nat, width: nat, pad: nat, blen: nat, j: nat, read: seq<nat>, bits: nat, acc: nat,
                  out: Bytes)
    requires pad <= width && Loaded(data, width, pad, blen, j, read) && Compressed(read, blen, bits, acc, out)
    requires bits < 8 && |out| < len && len * 8 <= blen * |Elements(data, width, pad, blen)|
    ensures j + width <= |data|
    ensures Loaded(data, width, pad, blen, j + width, read + [Low(Number(data[j + pad..j + width], 256), blen)])
  {
    hide Low, Number, Field;
    var rest := Elements(data[j..], width, pad, blen);
    assert read + [] == read;
    assert data[j..][pad..width] == data[j + pad..j + width] && data[j..][width..] == data[j + width..];
    var e := Low(Number(data[j + pad..j + width], 256), blen);
    assert read + ([e] + Elements(data[j + width..], width, pad, blen))
      == (read + [e]) + Elements(data[j + width..], width, pad, blen);
  }

  lemma LoadedEnds(data: Bytes, width: nat, pad: nat, blen: nat, j: nat, read: seq<nat>, bits: nat, acc: nat,
                   out: Bytes)
    requires pad <= width && Loaded(data, width, pad, blen, j, read) && Compressed(read, blen, bits, acc, out)
    ensures var bytes := Fields(Elements(data, width, pad, blen), blen, 8); |out| <= |bytes| && out == bytes[..|out|]
  {
    hide Elements, Fields;
    ElementsFit(data[j..], width, pad, blen);
    CompressedEnds(read, Elements(data[j..], width, pad, blen), blen, bits, acc, out);
  }

  lemma LoadedStart(data: Bytes, width: nat, pad: nat, blen: nat)
    requires pad <= width
    ensures Loaded(data, width, pad, blen, 0, []) && Compressed([], blen, 0, 0, [])
  {
    assert data[0..] == data;
    LowOfSmall(0, 32);
  }

  /** Joins elements of `blen` bits into `len` bytes. */
  method CompressArray(data: Bytes, len: nat, blen: nat, pad: nat) returns (packed: Bytes)
    requires 8 <= blen <= 25
    requires len * 8 <= blen * |Elements(data, (blen + 7) / 8 + pad, pad, blen)|
    ensures |packed| == len <= |Fields(Elements(data, (blen + 7) / 8 + pad, pad, blen), blen, 8)|
    ensures packed == Fields(Elements(data, (blen + 7) / 8 + pad, pad, blen), blen, 8)[..len]
  {
    hide Compressed, Loaded, Shifted, Low, Shr, Fields, Elements, Number, Pow2;
    var inWidth := (blen + 7) / 8 + pad;
    var bits: nat, acc: nat, j: nat := 0, 0, 0;
    packed := [];
    ghost var read: seq<nat> := [];
    LoadedStart(data, inWidth, pad, blen);
    for i := 0 to len
      invariant |packed| == i && bits <= 32
      invariant Loaded(data, inWidth, pad, blen, j, read)
      invariant Compressed(read, blen, bits, acc, packed)
    {
      if bits < 8 {
        LoadsNext(data, len, inWidth, pad, blen, j, read, bits, acc, packed);
        var bytes := data[j + pad..j + inWidth];
        ghost var e := Low(Number(bytes, 256), blen);
        LowBound(Number(bytes, 256), blen);
        CompressedReads(read, e, blen, bits, acc, packed);
        acc := ReadElement(acc, bytes, blen);
        read := read + [e];
        j := j + inWidth;
        bits := bits + blen;
      }
      LowBound(Shr(acc, bits - 8), 8);
      Pow2Of8();
      var b: Byte := Low(Shr(acc, bits - 8), 8);
      CompressedWrites(read, blen, bits, acc, packed, b);
      bits := bits - 8;
      packed := packed + [b];
    }
    LoadedEnds(data, inWidth, pad, blen, j, read, bits, acc, packed);
  }

  // ----- packing of solution indices

  /** `BSTR_INDEX_BITS + 1`. */
  const INDEX_BITS: nat := 25

  /** `u32::to_be_bytes`. */
  function BigEndian4(v: nat): (r: Bytes)
    ensures |r| == 4
  {
    ElementBuffer(v, 32, 0)
  }

  /** A string of the bytes of `v` writes the low part of `v`. */
  lemma {:induction false} NumberOfBytes(bytes: Bytes, v: nat)
    requires forall i | 0 <= i < |bytes| :: bytes[i] == Low(Shr(v, 8 * (|bytes| - 1 - i)), 8)
    ensures Number(bytes, 256) == Low(v, 8 * |bytes|)
    decreases |bytes|
  {
    if bytes == [] {
      LowZero(v);
    } else {
      hide Shr, Low, Pow2;
      var n := |bytes| - 1;
      forall i | 0 <= i < n
        ensures bytes[..n][i] == Low(Shr(Shr(v, 8), 8 * (n - 1 - i)), 8)
      {
        ShrShr(v, 8, 8 * (n - 1 - i));
      }
      NumberOfBytes(bytes[..n], Shr(v, 8));
      Pow2Of8();
      ShrZero(v);
      ShrLow(v, 8 * |bytes|, 8);
      LowLow(v, 8, 8 * |bytes|);
      AppendShr(Low(v, 8 * |bytes|), 8);
    }
  }

  lemma LowZero(x: nat)
    ensures Low(x, 0) == 0
  {
  }

  /** The buffer of an element holds its value. */
  lemma BufferHoldsValue(v: nat, blen: nat, pad: nat)
    requires (blen + 7) / 8 + pad <= 4 && v < Pow2(blen)
    ensures Number(ElementBuffer(v, blen, pad)[pad..(blen + 7) / 8 + pad], 256) == v
  {
    hide Shr, Low, Pow2, Number;
    var len := (blen + 7) / 8;
    var bytes := ElementBuffer(v, blen, pad)[pad..len + pad];
    forall i | 0 <= i < len
      ensures bytes[i] == Low(Shr(v, 8 * (len - 1 - i)), 8)
    {
      ByteOfIs(v, len - 1 - i);
    }
    NumberOfBytes(bytes, v);
    Pow2Monotone(blen, 8 * len);
    LowOfSmall(v, 8 * len);
  }

  function Masked(indices: seq<nat>): seq<nat> {
    seq(|indices|, k requires 0 <= k < |indices| => Low(indices[k], INDEX_BITS))
  }

  function Concatenated(indices: seq<nat>): Bytes {
    if indices == [] then [] else Concatenated(indices[..|indices| - 1]) + BigEndian4(indices[|indices| - 1])
  }

  lemma FirstElement(index: nat, rest: Bytes)
    ensures Elements(BigEndian4(index) + rest, 4, 0, INDEX_BITS)
            == [Low(index, INDEX_BITS)] + Elements(rest, 4, 0, INDEX_BITS)
  {
    hide Number, Shr, Low, Pow2;
    var last := BigEndian4(index);
    assert (last + rest)[0..4] == last && (last + rest)[4..] == rest;
    forall i | 0 <= i < 4
      ensures last[i] == Low(Shr(index, 8 * (3 - i)), 8)
    {
      ByteOfIs(index, 3 - i);
    }
    NumberOfBytes(last, index);
    LowLow(index, INDEX_BITS, 32);
  }

  lemma {:induction false} ElementsOfConcatenated(indices: seq<nat>, rest: Bytes)
    ensures Elements(Concatenated(indices) + rest, 4, 0, INDEX_BITS)
            == Masked(indices) + Elements(rest, 4, 0, INDEX_BITS)
    decreases |indices|
  {
    if indices == [] {
      assert Concatenated(indices) + rest == rest;
      assert Masked(indices) == [];
    } else {
      var n := |indices| - 1;
      var last := BigEndian4(indices[n]);
      ElementsOfConcatenated(indices[..n], last + rest);
      assert Concatenated(indices) + rest == Concatenated(indices[..n]) + (last + rest);
      hide Concatenated;
      FirstElement(indices[n], rest);
      assert Masked(indices) == Masked(indices[..n]) + [Low(indices[n], INDEX_BITS)];
    }
  }

  /** The packed form of a list of indices, and the indices of a packed form. */
  function Pack(indices: seq<nat>): seq<nat> {
    Fields(Masked(indices), INDEX_BITS, 8)
  }

  function Unpack(bytes: seq<nat>): seq<nat> {
    Fields(bytes, 8, INDEX_BITS)
  }

  method CopyFromU32(indices: seq<nat>) returns (packed: Bytes)
    ensures packed == Pack(indices)
  {
    var bytes: Bytes := [];
    hide BigEndian4, Fields, Elements;
    for i := 0 to |indices|
      invariant bytes == Concatenated(indices[..i])
    {
      assert indices[..i + 1][..i] == indices[..i];
      bytes := bytes + BigEndian4(indices[i]);
    }
    assert indices[..|indices|] == indices;
    ConcatenatedElements(indices);
    var minLen := INDEX_BITS * (|indices| * 4) / 32;
    packed := CompressArray(bytes, minLen, INDEX_BITS, 0);
  }

  lemma ConcatenatedElements(indices: seq<nat>)
    ensures Elements(Concatenated(indices), 4, 0, INDEX_BITS) == Masked(indices)
    ensures |Pack(indices)| == INDEX_BITS * (|indices| * 4) / 32
  {
    ElementsOfConcatenated(indices, []);
    assert Concatenated(indices) + [] == Concatenated(indices) && Masked(indices) + [] == Masked(indices);
  }

  lemma MaskedIndices(indices: seq<nat>)
    requires Fits(indices, INDEX_BITS)
    ensures Masked(indices) == indices
  {
    forall k | 0 <= k < |indices|
      ensures Masked(indices)[k] == indices[k]
    {
      LowOfSmall(indices[k], INDEX_BITS);
    }
  }

  /** Unpacking undoes packing on every list of 25-bit indices whose length is a multiple of eight. */
  lemma UnpackPack(indices: seq<nat>)
    requires Fits(indices, INDEX_BITS) && |indices| % 8 == 0
    ensures Unpack(Pack(indices)) == indices
  {
    MaskedIndices(indices);
    FieldsRegrouped(indices, INDEX_BITS, 8);
    FieldsRegrouped(Pack(indices), 8, INDEX_BITS);
    RegroupingRoundTrip(indices, INDEX_BITS, Pack(indices), 8, Unpack(Pack(indices)));
  }

  /** Packing undoes unpacking on every byte string whose length is a multiple of 25. */
  lemma PackUnpack(bytes: Bytes)
    requires |bytes| % 25 == 0
    ensures Pack(Unpack(bytes)) == bytes
  {
    Pow2Of8();
    FieldsRegrouped(bytes, 8, INDEX_BITS);
    RegroupedKeepsNumber(bytes, 8, Unpack(bytes), INDEX_BITS);
    MaskedIndices(Unpack(bytes));
    FieldsRegrouped(Unpack(bytes), INDEX_BITS, 8);
    RegroupingRoundTrip(bytes, 8, Unpack(bytes), INDEX_BITS, Pack(Unpack(bytes)));
  }

  // ----- fields of whole bytes

  lemma {:induction false} NumberAppend(x: Bytes, y: Bytes)
    ensures Number(x + y, 256) == Append(Number(x, 256), Number(y, 256), 8 * |y|)
    ensures Number(y, 256) < Pow2(8 * |y|)
    decreases |y|
  {
    hide *;
    if y == [] {
      assert x + y == x;
      AppendNothing(Number(x, 256));
    } else {
      var n := |y| - 1;
      NumberAppend(x, y[..n]);
      assert (x + y)[..|x| + n] == x + y[..n];
      Pow2Of8();
      NumberOfLast(y);
      NumberOfLast(x + y);
      AppendAppend(Number(x, 256), Number(y[..n], 256), y[n], 8 * n, 8);
      AppendBound(Number(y[..n], 256), y[n], 8 * n, 8);
    }
  }

  lemma WholeBytes(len: nat, k: nat)
    ensures (k + 1) * (8 * len) == 8 * (len * k) + 8 * len
  {
    assert k * (8 * len) == 8 * (len * k);
  }

  lemma AppendNothing(x: nat)
    ensures Number([], 256) == 0 < Pow2(0) && Append(x, 0, 0) == x
  {
  }

  lemma NumberOfLast(bytes: Bytes)
    requires bytes != []
    ensures var n := |bytes| - 1; Number(bytes, 256) == Append(Number(bytes[..n], 256), bytes[n], 8)
  {
    Pow2Of8();
  }

  /** A field that covers whole bytes writes the number of those bytes. */
  lemma FieldOfBytes(x: Bytes, y: Bytes, z: Bytes, k: nat)
    requires |x| == |y| * k
    ensures FieldFits(x + y + z, 8, 8 * |y|, k) && Field(x + y + z, 8, 8 * |y|, k) == Number(y, 256)
  {
    WholeBytes(|y|, k);
    Pow2Of8();
    NumberAppend(x + y, z);
    NumberAppend(x, y);
    hide Pow2, Number, Shr, Low;
    ShrOfAppend(Number(x + y, 256), Number(z, 256), 8 * |z|);
    ShrOfAppend(Number(x, 256), Number(y, 256), 8 * |y|);
  }

  /** At a width of 24 bits expansion only cuts the string into three-byte pieces. */
  lemma ThreeByteElements(bytes: Bytes, k: nat)
    requires 3 * k + 3 <= |bytes|
    ensures k < |Fields(bytes, 8, 24)|
    ensures ElementBuffer(Fields(bytes, 8, 24)[k], 24, 0)[..3] == bytes[3 * k..3 * k + 3]
  {
    hide Number, Shr, Low, Pow2, Field;
    var x, y, z := bytes[..3 * k], bytes[3 * k..3 * k + 3], bytes[3 * k + 3..];
    assert bytes == x + y + z;
    FieldOfBytes(x, y, z, k);
    var v := Number(y, 256);
    forall i | 0 <= i < 3
      ensures ElementBuffer(v, 24, 0)[i] == y[i]
    {
      ByteOfNumber(y, 2 - i);
      ByteOfIs(v, 2 - i);
    }
  }
}
