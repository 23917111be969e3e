/**
  The field GF(2^8) of FIPS 197 section 4.2, in which internal/crypto/shamir/shamir.go
  computes. Mul and Inv are specifications; the methods MultLoop and InverseChain are the
  source's shift-and-reduce loop and addition chain, proved equal to them.
 */
module Gf256 {

  // A field element is one byte: the coefficients of a polynomial over GF(2), bit i for x^i.
  type Elem = bv8

  // The source's add, which is its own inverse.
  function Add(a: Elem, b: Elem): Elem {
    a ^ b
  }

  // Multiplication by x modulo x^8 + x^4 + x^3 + x + 1 (FIPS 197 section 4.2.1).
  function Xtime(r: Elem): Elem {
    (-(r >> 7) & 0x1B) ^ (r << 1)
  }

  // bit * a, for a bit that is 0 or 1.
  function Times(bit: Elem, a: Elem): Elem {
    -bit & a
  }

  // The field product: a times the lowest term of b, plus x times the product with the rest of b.
  function Mul(a: Elem, b: Elem): Elem {
    if b == 0 then 0 else Add(Times(b & 1, a), Xtime(Mul(a, b >> 1)))
  }

  // ----- the source's loop -----

  /** shamir.go's mult, bits of b from the highest to the lowest. */
  method MultLoop(a: Elem, b: Elem) returns (out: Elem)
    ensures out == Mul(a, b)
  {
    var r: Elem := 0;
    var i: bv8 := 8;
    NoBitsLeft(b);
    while i > 0
      invariant i <= 8
      invariant r == Mul(a, b >> i)
    {
      i := i - 1;
      LoopStep(a, b, i, r);
      r := (-((b >> i) & 1) & a) ^ (-(r >> 7) & 0x1B) ^ (r + r);
    }
    out := r;
  }

  lemma NoBitsLeft(b: Elem)
    ensures b >> (8 as bv8) == 0
  {}

  lemma ShiftStep(b: Elem, i: bv8)
    requires i < 8
    ensures (b >> i) >> 1 == b >> (i + 1)
  {}

  lemma LoopStep(a: Elem, b: Elem, i: bv8, r: Elem)
    requires i < 8 && r == Mul(a, b >> (i + 1))
    ensures (-((b >> i) & 1) & a) ^ (-(r >> 7) & 0x1B) ^ (r + r) == Mul(a, b >> i)
  {
    ShiftStep(b, i);
    MulUnfold(a, b >> i);
    StepIsXtime(Times((b >> i) & 1, a), r);
  }

  lemma StepIsXtime(x: Elem, r: Elem)
    ensures x ^ (-(r >> 7) & 0x1B) ^ (r + r) == x ^ Xtime(r)
  {}

  lemma MulUnfold(a: Elem, b: Elem)
    ensures Mul(a, b) == Times(b & 1, a) ^ Xtime(Mul(a, b >> 1))
  {}

  // ----- Mul is the product of FIPS 197 section 4.2 -----

  const MODULUS: bv16 := 0x11B

  // The carry-less product of the polynomials a and b over GF(2).
  function PolyProduct(a: bv16, b: bv16): bv16 {
    if b == 0 then 0 else (-(b & 1) & a) ^ (PolyProduct(a, b >> 1) << 1)
  }

  // r is the remainder of the product of a and b by the modulus, q the quotient.
  ghost predicate Divides(a: Elem, b: Elem, q: bv16, r: Elem) {
    && PolyProduct(a as bv16, b as bv16) == PolyProduct(MODULUS, q) ^ (r as bv16)
    && (if b == 0 then q == 0 && r == 0 else q < b as bv16)
  }

  lemma {:induction false} MulIsRemainder(a: Elem, b: Elem) returns (q: bv16)
    ensures Divides(a, b, q, Mul(a, b))
    decreases b
  {
    if b == 0 {
      q := 0;
    } else {
      var rest := MulIsRemainder(a, b >> 1);
      q := NextQuotient(b, rest, Mul(a, b >> 1));
      RemainderStep(a, b, rest, Mul(a, b >> 1), q);
      MulUnfold(a, b);
    }
  }

  lemma NextQuotient(b: Elem, rest: bv16, r: Elem) returns (q: bv16)
    requires b != 0
    requires if b >> 1 == 0 then rest == 0 && r == 0 else rest < (b >> 1) as bv16
    ensures q >> 1 == rest && q & 1 == (r >> 7) as bv16 && q < b as bv16
  {
    q := (rest << 1) | ((r >> 7) as bv16);
    QuotientFits(b, rest, r >> 7);
  }

  lemma RemainderStep(a: Elem, b: Elem, rest: bv16, r: Elem, q: bv16)
    requires b != 0 && Divides(a, b >> 1, rest, r)
    requires q >> 1 == rest && q & 1 == (r >> 7) as bv16 && q < b as bv16
    ensures Divides(a, b, q, Add(Times(b & 1, a), Xtime(r)))
  {
    hide PolyProduct;
    var x := ProductUnfold(a, b);
    var m := QuotientUnfold(q);
    QuotientStep(m, x, r, Times(b & 1, a));
  }

  lemma ProductUnfold(a: Elem, b: Elem) returns (x: bv16)
    ensures x == PolyProduct(a as bv16, (b >> 1) as bv16)
    ensures PolyProduct(a as bv16, b as bv16) == (Times(b & 1, a) as bv16) ^ (x << 1)
  {
    hide PolyProduct, Times;
    x := PolyProduct(a as bv16, (b >> 1) as bv16);
    Halve(b);
    PolyUnfoldAt(a as bv16, b as bv16, (b & 1) as bv16, (b >> 1) as bv16);
    WidenTimes(b & 1, a);
  }

  lemma PolyUnfoldAt(a: bv16, b: bv16, low: bv16, rest: bv16)
    requires b & 1 == low && b >> 1 == rest
    ensures PolyProduct(a, b) == (-low & a) ^ (PolyProduct(a, rest) << 1)
  {
    PolyUnfold(a, b);
  }

  lemma QuotientUnfold(q: bv16) returns (m: bv16)
    ensures m == PolyProduct(MODULUS, q >> 1)
    ensures PolyProduct(MODULUS, q) == (-(q & 1) & MODULUS) ^ (m << 1)
  {
    m := PolyProduct(MODULUS, q >> 1);
    PolyUnfoldAt(MODULUS, q, q & 1, q >> 1);
  }

  lemma PolyUnfold(a: bv16, b: bv16)
    ensures PolyProduct(a, b) == (-(b & 1) & a) ^ (PolyProduct(a, b >> 1) << 1)
  {}

  lemma QuotientFits(b: Elem, rest: bv16, carry: Elem)
    requires b != 0 && carry <= 1
    requires if b >> 1 == 0 then rest == 0 && carry == 0 else rest < (b >> 1) as bv16
    ensures ((rest << 1) | (carry as bv16)) >> 1 == rest && ((rest << 1) | (carry as bv16)) & 1 == carry as bv16
    ensures (rest << 1) | (carry as bv16) < b as bv16
  {}

  lemma Halve(b: Elem)
    ensures (b as bv16) >> 1 == (b >> 1) as bv16
    ensures (b as bv16) & 1 == (b & 1) as bv16
    ensures b & 1 == 0 || b & 1 == 1
    ensures b as bv16 == 0 <==> b == 0
  {}

  lemma WidenTimes(bit: Elem, a: Elem)
    requires bit == 0 || bit == 1
    ensures -(bit as bv16) & (a as bv16) == Times(bit, a) as bv16
  {}

  lemma QuotientStep(m: bv16, x: bv16, r: Elem, low: Elem)
    requires x == m ^ (r as bv16)
    ensures (low as bv16) ^ (x << 1)
         == (-((r >> 7) as bv16) & MODULUS) ^ (m << 1) ^ (Add(low, Xtime(r)) as bv16)
  {}

  // ----- the field laws -----

  lemma XtimeLinear(a: Elem, b: Elem)
    ensures Xtime(Add(a, b)) == Add(Xtime(a), Xtime(b))
  {}

  lemma {:induction false} MulZeroOne(a: Elem)
    ensures Mul(a, 0) == 0 && Mul(0, a) == 0 && Mul(a, 1) == a && Mul(1, a) == a
    decreases a
  {
    MulUnfold(a, 1);
    TimesOne(a);
    if a != 0 {
      MulZeroOne(a >> 1);
      LowAndRest(a);
    }
  }

  lemma TimesOne(a: Elem)
    ensures Times(1, a) == a && Times(0, a) == 0 && Xtime(0) == 0 && (1 as bv8) >> 1 == 0
    ensures Times(a & 1, 0) == 0 && Times(a & 1, 1) == a & 1
  {}

  lemma LowAndRest(a: Elem)
    ensures Add(a & 1, Xtime(a >> 1)) == a
  {}

  lemma {:induction false} MulLinearLeft(a: Elem, b: Elem, c: Elem)
    ensures Mul(Add(a, b), c) == Add(Mul(a, c), Mul(b, c))
    decreases c
  {
    if c != 0 {
      MulLinearLeft(a, b, c >> 1);
      XtimeLinear(Mul(a, c >> 1), Mul(b, c >> 1));
      TimesLinear(c & 1, a, b);
      AddSwap(Times(c & 1, a), Times(c & 1, b), Xtime(Mul(a, c >> 1)), Xtime(Mul(b, c >> 1)));
    }
  }

  lemma AddSwap(a: Elem, b: Elem, c: Elem, d: Elem)
    ensures Add(Add(a, b), Add(c, d)) == Add(Add(a, c), Add(b, d))
  {
    assert (a ^ b) ^ (c ^ d) == (a ^ c) ^ (b ^ d);
  }

  lemma TimesLinear(bit: Elem, a: Elem, b: Elem)
    ensures Times(bit, Add(a, b)) == Add(Times(bit, a), Times(bit, b))
    {}

  lemma {:induction false} MulXtimeLeft(a: Elem, b: Elem)
    ensures Mul(Xtime(a), b) == Xtime(Mul(a, b))
    decreases b
  {
    if b != 0 {
      MulXtimeLeft(a, b >> 1);
      XtimeLinear(Times(b & 1, a), Xtime(Mul(a, b >> 1)));
      XtimeTimes(b & 1, a);
    } else {
      TimesOne(a);
    }
  }

  lemma XtimeTimes(b: Elem, a: Elem)
    requires b == 0 || b == 1
    ensures Xtime(Times(b, a)) == Times(b, Xtime(a))
  {}

  lemma {:induction false} MulCommutes(a: Elem, b: Elem)
    ensures Mul(a, b) == Mul(b, a)
    decreases b
  {
    if b == 0 {
      MulZeroOne(a);
    } else {
      MulCommutes(a, b >> 1);
      LowAndRest(b);
      MulLinearLeft(b & 1, Xtime(b >> 1), a);
      MulXtimeLeft(b >> 1, a);
      Halve(b);
      MulZeroOne(a);
      TimesOne(a);
    }
  }

  lemma MulLinearRight(a: Elem, b: Elem, c: Elem)
    ensures Mul(a, Add(b, c)) == Add(Mul(a, b), Mul(a, c))
  {
    MulCommutes(a, Add(b, c));
    MulCommutes(a, b);
    MulCommutes(a, c);
    MulLinearLeft(b, c, a);
  }

  lemma MulXtimeRight(a: Elem, b: Elem)
    ensures Mul(a, Xtime(b)) == Xtime(Mul(a, b))
  {
    MulCommutes(a, Xtime(b));
    MulCommutes(a, b);
    MulXtimeLeft(b, a);
  }

  lemma {:induction false} MulAssociates(a: Elem, b: Elem, c: Elem)
    ensures Mul(Mul(a, b), c) == Mul(a, Mul(b, c))
    decreases c
  {
    if c == 0 {
      MulZeroOne(a);
    } else {
      MulAssociates(a, b, c >> 1);
      MulLinearRight(a, Times(c & 1, b), Xtime(Mul(b, c >> 1)));
      MulXtimeRight(a, Mul(b, c >> 1));
      Halve(c);
      TimesOne(b);
      TimesOne(Mul(a, b));
      MulZeroOne(a);
    }
  }

  // ----- inverses -----

  function Pow(a: Elem, n: nat): Elem {
    if n == 0 then 1 else Mul(a, Pow(a, n - 1))
  }

  lemma {:induction false} PowAdd(a: Elem, m: nat, n: nat)
    ensures Pow(a, m + n) == Mul(Pow(a, m), Pow(a, n))
    decreases m
  {
    if m == 0 {
      MulZeroOne(Pow(a, n));
    } else {
      PowAdd(a, m - 1, n);
      MulAssociates(a, Pow(a, m - 1), Pow(a, n));
    }
  }

  // The inverse of every non-zero element, and 0 for 0.
  function Inv(a: Elem): Elem {
    Pow(a, 254)
  }

  /** shamir.go's inverse: the addition chain 2, 3, 6, 12, 15, 24, 48, 63, 126, 127, 254. */
  method InverseChain(a: Elem) returns (out: Elem)
    ensures out == Inv(a)
  {
    PowAdd(a, 1, 0);
    MulZeroOne(a);
    assert Pow(a, 1) == a;
    var b := MultLoop(a, a);
    PowAdd(a, 1, 1);
    var c := MultLoop(a, b);
    PowAdd(a, 1, 2);
    b := MultLoop(c, c);
    PowAdd(a, 3, 3);
    b := MultLoop(b, b);
    PowAdd(a, 6, 6);
    c := MultLoop(b, c);
    PowAdd(a, 12, 3);
    b := MultLoop(b, b);
    PowAdd(a, 12, 12);
    b := MultLoop(b, b);
    PowAdd(a, 24, 24);
    b := MultLoop(b, c);
    PowAdd(a, 48, 15);
    b := MultLoop(b, b);
    PowAdd(a, 63, 63);
    b := MultLoop(a, b);
    PowAdd(a, 1, 126);
    out := MultLoop(b, b);
    PowAdd(a, 127, 127);
  }

  // Squaring eight times: the map a -> a^256.
  function Square(a: Elem): Elem {
    Mul(a, a)
  }

  function Frobenius(a: Elem): Elem {
    Square(Square(Square(Square(Square(Square(Square(Square(a))))))))
  }

  lemma SquareLinear(a: Elem, b: Elem)
    ensures Square(Add(a, b)) == Add(Square(a), Square(b))
  {
    MulLinearLeft(a, b, Add(a, b));
    MulLinearRight(a, a, b);
    MulLinearRight(b, a, b);
    MulCommutes(a, b);
    CrossTermsCancel(Mul(a, a), Mul(a, b), Mul(b, b));
  }

  lemma CrossTermsCancel(p: Elem, q: Elem, r: Elem)
    ensures Add(Add(p, q), Add(q, r)) == Add(p, r)
  {}

  lemma SquareProduct(a: Elem, b: Elem)
    ensures Square(Mul(a, b)) == Mul(Square(a), Square(b))
  {
    MulAssociates(a, b, Mul(a, b));
    MulCommutes(a, b);
    MulAssociates(b, b, a);
    MulCommutes(Square(b), a);
    MulAssociates(a, a, Square(b));
  }

  lemma FrobeniusLinear(a: Elem, b: Elem)
    ensures Frobenius(Add(a, b)) == Add(Frobenius(a), Frobenius(b))
  {
    var a1, b1 := Square(a), Square(b);
    SquareLinear(a, b);
    var a2, b2 := Square(a1), Square(b1);
    SquareLinear(a1, b1);
    var a3, b3 := Square(a2), Square(b2);
    SquareLinear(a2, b2);
    var a4, b4 := Square(a3), Square(b3);
    SquareLinear(a3, b3);
    var a5, b5 := Square(a4), Square(b4);
    SquareLinear(a4, b4);
    var a6, b6 := Square(a5), Square(b5);
    SquareLinear(a5, b5);
    SquareLinear(a6, b6);
    SquareLinear(Square(a6), Square(b6));
  }

  lemma FrobeniusProduct(a: Elem, b: Elem)
    ensures Frobenius(Mul(a, b)) == Mul(Frobenius(a), Frobenius(b))
  {
    var a1, b1 := Square(a), Square(b);
    SquareProduct(a, b);
    var a2, b2 := Square(a1), Square(b1);
    SquareProduct(a1, b1);
    var a3, b3 := Square(a2), Square(b2);
    SquareProduct(a2, b2);
    var a4, b4 := Square(a3), Square(b3);
    SquareProduct(a3, b3);
    var a5, b5 := Square(a4), Square(b4);
    SquareProduct(a4, b4);
    var a6, b6 := Square(a5), Square(b5);
    SquareProduct(a5, b5);
    SquareProduct(a6, b6);
    SquareProduct(Square(a6), Square(b6));
  }

  // One step of Horner's rule over the bits of b, and the whole of it.
  function HornerStep(a: Elem, bit: Elem, r: Elem): Elem {
    Add(Times(bit, a), Xtime(r))
  }

  function Horner(a: Elem, b: Elem): Elem {
    var high := HornerStep(a, (b >> 4) & 1, HornerStep(a, (b >> 5) & 1, HornerStep(a, (b >> 6) & 1, HornerStep(a, b >> 7, 0))));
    HornerStep(a, b & 1, HornerStep(a, (b >> 1) & 1, HornerStep(a, (b >> 2) & 1, HornerStep(a, (b >> 3) & 1, high))))
  }

  lemma MulIsHorner(a: Elem, b: Elem)
    ensures Mul(a, b) == Horner(a, b)
  {
    ShiftsCompose(b);
    assert Mul(a, b >> 7) == HornerStep(a, b >> 7, 0) by {
      MulUnfold(a, b >> 7);
      assert (b >> 7) & 1 == b >> 7;
    }
    MulHornerStep(a, b >> 6);
    MulHornerStep(a, b >> 5);
    MulHornerStep(a, b >> 4);
    MulHornerStep(a, b >> 3);
    MulHornerStep(a, b >> 2);
    MulHornerStep(a, b >> 1);
    MulHornerStep(a, b);
  }

  lemma MulHornerStep(a: Elem, b: Elem)
    ensures Mul(a, b) == HornerStep(a, b & 1, Mul(a, b >> 1))
  {
    MulUnfold(a, b);
  }

  lemma ShiftsCompose(b: Elem)
    ensures (b >> 1) >> 1 == b >> 2 && (b >> 2) >> 1 == b >> 3 && (b >> 3) >> 1 == b >> 4
    ensures (b >> 4) >> 1 == b >> 5 && (b >> 5) >> 1 == b >> 6 && (b >> 6) >> 1 == b >> 7 && (b >> 7) >> 1 == 0
  {}

  // x^256 = x, computed.
  lemma FrobeniusOfX()
    ensures Frobenius(0x02) == 0x02
  {
    MulIsHorner(0x02, 0x02);
    MulIsHorner(0x04, 0x04);
    MulIsHorner(0x10, 0x10);
    MulIsHorner(0x1B, 0x1B);
    MulIsHorner(0x5E, 0x5E);
    MulIsHorner(0xE4, 0xE4);
    MulIsHorner(0x4D, 0x4D);
    MulIsHorner(0xFA, 0xFA);
    HornerSquares();
  }

  lemma HornerSquares()
    ensures Horner(0x02, 0x02) == 0x04 && Horner(0x04, 0x04) == 0x10
    ensures Horner(0x10, 0x10) == 0x1B && Horner(0x1B, 0x1B) == 0x5E
    ensures Horner(0x5E, 0x5E) == 0xE4 && Horner(0xE4, 0xE4) == 0x4D
    ensures Horner(0x4D, 0x4D) == 0xFA && Horner(0xFA, 0xFA) == 0x02
  {}

  // Fermat's theorem in this field: a^256 = a.
  lemma {:induction false} FrobeniusIsIdentity(a: Elem)
    ensures Frobenius(a) == a
    decreases a
  {
    if a == 0 {
      assert Square(0) == 0 by { MulZeroOne(0); }
    } else {
      LowAndRest(a);
      FrobeniusLinear(a & 1, Xtime(a >> 1));
      FrobeniusOfBit(a & 1);
      XtimeIsMul(a >> 1);
      FrobeniusProduct(0x02, a >> 1);
      FrobeniusOfX();
      FrobeniusIsIdentity(a >> 1);
    }
  }

  lemma FrobeniusOfBit(bit: Elem)
    requires bit == 0 || bit == 1
    ensures Frobenius(bit) == bit
  {
    MulZeroOne(bit);
  }

  lemma XtimeIsMul(a: Elem)
    ensures Xtime(a) == Mul(0x02, a)
  {
    MulXtimeLeft(1, a);
    MulZeroOne(a);
    assert Xtime(1) == 0x02;
  }

  // The only elements equal to their own square are 0 and 1.
  lemma IdempotentIsZeroOrOne(e: Elem)
    requires Square(e) == e
    ensures e == 0 || e == 1
  {
    MulIsHorner(e, e);
    HornerIdempotent(e);
  }

  lemma HornerIdempotent(e: Elem)
    requires Horner(e, e) == e
    ensures e == 0 || e == 1
  {}

  lemma PowDouble(a: Elem, n: nat)
    ensures Pow(a, 2 * n) == Square(Pow(a, n))
  {
    PowAdd(a, n, n);
  }

  lemma PowFrobenius(a: Elem)
    ensures Pow(a, 256) == a
  {
    PowAdd(a, 1, 0);
    MulZeroOne(a);
    PowDouble(a, 1);
    PowDouble(a, 2);
    PowDouble(a, 4);
    PowDouble(a, 8);
    PowDouble(a, 16);
    PowDouble(a, 32);
    PowDouble(a, 64);
    PowDouble(a, 128);
    FrobeniusIsIdentity(a);
  }

  /** Every non-zero element has the inverse that the addition chain computes. */
  lemma InverseLaw(a: Elem)
    requires a != 0
    ensures Mul(a, Inv(a)) == 1 && Inv(a) != 0
  {
    var e := Pow(a, 255);
    assert e == Mul(a, Inv(a)) by { PowAdd(a, 1, 254); PowAdd(a, 1, 0); MulZeroOne(a); }
    assert Square(e) == e by {
      PowAdd(a, 255, 255);
      PowAdd(a, 256, 254);
      PowFrobenius(a);
    }
    IdempotentIsZeroOrOne(e);
    assert Mul(a, e) == a by { PowAdd(a, 1, 255); PowAdd(a, 1, 0); MulZeroOne(a); PowFrobenius(a); }
    MulZeroOne(a);
  }

  lemma NoZeroDivisors(a: Elem, b: Elem)
    requires Mul(a, b) == 0
    ensures a == 0 || b == 0
  {
    if a != 0 {
      InverseLaw(a);
      MulCommutes(a, Inv(a));
      MulAssociates(Inv(a), a, b);
      MulZeroOne(b);
      MulZeroOne(Inv(a));
    }
  }
}
