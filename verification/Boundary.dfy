/** The conversion between a difficulty and the boundary that a proof-of-work value must not exceed. */
module Boundary {
  import opened Primitives
  import opened Bits

  /** 2^256 / x, saturated at the largest word. Zero is refused by an assertion. */
  function Boundary(x: nat): (r: U256)
    requires 0 < x <= MAX_U256
  {
    QuotientFits(x);
    if x == 1 then MAX_U256 else TWO_256 / x
  }

  lemma QuotientFits(x: nat)
    requires x > 0
    ensures x > 1 ==> 0 <= TWO_256 / x <= MAX_U256
    ensures x <= TWO_256 ==> TWO_256 / x >= 1
  {
    if x > 1 {
      MulMonotone(TWO_256 / x, 2, x);
    }
    if x <= TWO_256 {
      QuotientAtLeast(x, 1);
    }
  }

  /** `y` is at most the quotient exactly when `x` times `y` fits. */
  lemma QuotientAtLeast(x: nat, y: nat)
    requires x > 0
    ensures y <= TWO_256 / x <==> x * y <= TWO_256
  {
    var q := TWO_256 / x;
    assert x * q <= TWO_256 < x * (q + 1);
    if y <= q {
      MulMonotone(x, y, q);
    } else {
      MulMonotone(x, q + 1, y);
    }
  }

  /** The map is total: no positive word is sent to zero. */
  lemma BoundaryPositive(x: nat)
    requires 0 < x <= MAX_U256
    ensures Boundary(x) > 0
  {
    QuotientFits(x);
  }

  /** A value meets the boundary of a difficulty exactly when the difficulty of the value, read as a
      boundary, is at least that difficulty. */
  lemma MeetsBoundaryIff(value: nat, difficulty: nat)
    requires 0 < value <= MAX_U256 && 0 < difficulty <= MAX_U256
    ensures value <= Boundary(difficulty) <==> difficulty <= Boundary(value)
  {
    QuotientAtLeast(difficulty, value);
    QuotientAtLeast(value, difficulty);
    assert difficulty * value == value * difficulty;
    BoundaryPositive(value);
    BoundaryPositive(difficulty);
  }

  lemma BoundaryAntitone(x: nat, y: nat)
    requires 0 < x <= y <= MAX_U256
    ensures Boundary(y) <= Boundary(x)
  {
    hide Boundary;
    BoundaryPositive(y);
    BoundaryGrows(y);
    MeetsBoundaryIff(x, Boundary(y));
    MeetsBoundaryIff(Boundary(y), x);
  }

  lemma BoundaryGrows(x: nat)
    requires 0 < x <= MAX_U256
    ensures Boundary(x) > 0 && Boundary(Boundary(x)) >= x
  {
    hide Boundary;
    BoundaryPositive(x);
    MeetsBoundaryIff(x, Boundary(x));
  }

  /** Three conversions are one. */
  lemma BoundaryThrice(x: nat)
    requires 0 < x <= MAX_U256
    ensures var y := Boundary(x); y > 0 && Boundary(y) > 0 && Boundary(Boundary(y)) == y
  {
    hide Boundary;
    var y := Boundary(x);
    BoundaryGrows(x);
    BoundaryPositive(y);
    BoundaryGrows(y);
    BoundaryAntitone(x, Boundary(y));
  }

  /** Exactly the values that come out of the map survive the round trip. */
  lemma RoundTripIffInImage(x: nat)
    requires 0 < x <= MAX_U256
    ensures Boundary(x) > 0
    ensures Boundary(Boundary(x)) == x <==> exists y | 0 < y <= MAX_U256 :: Boundary(y) == x
  {
    hide Boundary;
    BoundaryPositive(x);
    forall y | 0 < y <= MAX_U256
      ensures Boundary(y) > 0 && Boundary(Boundary(y)) > 0 && Boundary(Boundary(Boundary(y))) == Boundary(y)
    {
      BoundaryThrice(y);
    }
  }

  /** The round trip is exact if and only if the remainder of the division is below the quotient, or at
      either end of the range. */
  lemma RoundTripIff(x: nat)
    requires 0 < x <= MAX_U256
    ensures Boundary(x) > 0
    ensures Boundary(Boundary(x)) == x <==> x == 1 || x == MAX_U256 || TWO_256 % x < TWO_256 / x
  {
    BoundaryPositive(x);
    var q, r := TWO_256 / x, TWO_256 % x;
    if x == 1 {
      RemainderIs(TWO_256, MAX_U256, 1, 1);
    } else {
      assert TWO_256 == q * x + r;
      if q == 1 {
        assert r == TWO_256 - x;
      } else if r < q {
        RemainderIs(TWO_256, q, x, r);
      } else {
        QuotientAtLeast(q, x + 1);
        assert q * (x + 1) == q * x + q;
      }
    }
  }

  /** Every value up to 2^128 survives the round trip. */
  lemma SmallRoundTrip(x: nat)
    requires 0 < x <= TWO_128
    ensures Boundary(x) > 0 && Boundary(Boundary(x)) == x
  {
    RoundTripIff(x);
    MulMonotone(x, x, TWO_128);
    MulMonotone(TWO_128, x, TWO_128);
    QuotientAtLeast(x, x);
  }

  /** Above that it may not: everything in the upper half comes back as the largest word. */
  lemma UpperHalfRoundTrip(x: nat)
    requires TWO_256 < 2 * x && x <= MAX_U256
    ensures Boundary(x) == 1 && Boundary(Boundary(x)) == MAX_U256
  {
    RemainderIs(TWO_256, x, 1, TWO_256 - x);
  }
}
