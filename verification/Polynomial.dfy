/** Polynomials over GF(2^8) as coefficient sequences, lowest degree first. */
module Polynomial {
  import opened Gf256

  type Poly = seq<Elem>

  function Eval(c: Poly, x: Elem): Elem {
    if c == [] then 0 else Add(c[0], Mul(x, Eval(c[1..], x)))
  }

  ghost predicate IsZero(c: Poly) {
    forall i | 0 <= i < |c| :: c[i] == 0
  }

  ghost predicate Distinct(xs: seq<Elem>) {
    forall i, j | 0 <= i < j < |xs| :: xs[i] != xs[j]
  }

  // ----- a non-zero polynomial has fewer roots than coefficients -----

  // The quotient of c by (X + r), by synthetic division.
  function Quotient(c: Poly, r: Elem): (q: Poly)
    ensures |q| == if |c| == 0 then 0 else |c| - 1
  {
    if |c| <= 1 then [] else [Eval(c[1..], r)] + Quotient(c[1..], r)
  }

  lemma {:induction false} DivisionLaw(c: Poly, r: Elem, x: Elem)
    ensures Eval(c, x) == Add(Mul(Add(x, r), Eval(Quotient(c, r), x)), Eval(c, r))
  {
    if |c| <= 1 {
      MulZeroOne(Add(x, r));
      MulZeroOne(x);
      MulZeroOne(r);
    } else {
      var c', q' := c[1..], Quotient(c[1..], r);
      var v, e := Eval(c', r), Eval(q', x);
      DivisionLaw(c', r, x);
      assert Quotient(c, r)[1..] == q';
      DivisionStep(c[0], v, e, r, x);
    }
  }

  lemma DivisionStep(c0: Elem, v: Elem, e: Elem, r: Elem, x: Elem)
    ensures Add(c0, Mul(x, Add(Mul(Add(x, r), e), v)))
         == Add(Mul(Add(x, r), Add(v, Mul(x, e))), Add(c0, Mul(r, v)))
  {
    var d := Add(x, r);
    assert Mul(x, Add(Mul(d, e), v)) == Add(Mul(d, Mul(x, e)), Mul(x, v)) by {
      MulLinearRight(x, Mul(d, e), v);
      MulAssociates(x, d, e);
      MulCommutes(x, d);
      MulAssociates(d, x, e);
    }
    assert Mul(d, Add(v, Mul(x, e))) == Add(Add(Mul(x, v), Mul(r, v)), Mul(d, Mul(x, e))) by {
      MulLinearRight(d, v, Mul(x, e));
      MulLinearLeft(x, r, v);
    }
    Rearrange(c0, Mul(d, Mul(x, e)), Mul(x, v), Mul(r, v));
  }

  lemma Rearrange(c0: Elem, p: Elem, q: Elem, s: Elem)
    ensures Add(c0, Add(p, q)) == Add(Add(Add(q, s), p), Add(c0, s))
  {
    assert c0 ^ (p ^ q) == ((q ^ s) ^ p) ^ (c0 ^ s);
  }

  lemma {:induction false} ZeroQuotient(c: Poly, r: Elem)
    requires IsZero(Quotient(c, r)) && Eval(c, r) == 0
    ensures IsZero(c)
  {
    if |c| >= 1 {
      MulZeroOne(r);
      if |c| > 1 {
        assert Quotient(c, r)[0] == Eval(c[1..], r);
        assert forall i | 0 <= i < |Quotient(c[1..], r)| :: Quotient(c[1..], r)[i] == Quotient(c, r)[i + 1];
        ZeroQuotient(c[1..], r);
        assert forall i | 1 <= i < |c| :: c[i] == c[1..][i - 1];
      }
    }
  }

  /** As many distinct roots as coefficients: the zero polynomial. */
  lemma {:induction false} TooManyRoots(c: Poly, roots: seq<Elem>)
    requires Distinct(roots) && |c| <= |roots|
    requires forall i | 0 <= i < |roots| :: Eval(c, roots[i]) == 0
    ensures IsZero(c)
    decreases |c|
  {
    if c != [] {
      var r, rest := roots[0], roots[1..];
      forall i | 0 <= i < |rest|
        ensures Eval(Quotient(c, r), rest[i]) == 0
      {
        assert rest[i] == roots[i + 1];
        DivisionLaw(c, r, rest[i]);
        DifferenceIsNonZero(rest[i], r);
        NoZeroDivisors(Add(rest[i], r), Eval(Quotient(c, r), rest[i]));
      }
      TooManyRoots(Quotient(c, r), rest);
      ZeroQuotient(c, r);
    }
  }

  lemma DifferenceIsNonZero(a: Elem, b: Elem)
    ensures Add(a, b) == 0 <==> a == b
  {}

  // ----- sums, multiples and products with a linear factor -----

  function Sum(p: Poly, q: Poly): (s: Poly)
    requires |p| == |q|
    ensures |s| == |p|
  {
    seq(|p|, i requires 0 <= i < |p| => Add(p[i], q[i]))
  }

  function Scale(p: Poly, a: Elem): (s: Poly)
    ensures |s| == |p|
  {
    seq(|p|, i requires 0 <= i < |p| => Mul(a, p[i]))
  }

  // (X + a) * p
  function TimesLinear(p: Poly, a: Elem): (s: Poly)
    ensures |s| == |p| + 1
  {
    Sum([0] + p, Scale(p, a) + [0])
  }

  lemma {:induction false} EvalSum(p: Poly, q: Poly, x: Elem)
    requires |p| == |q|
    ensures Eval(Sum(p, q), x) == Add(Eval(p, x), Eval(q, x))
  {
    if p != [] {
      assert Sum(p, q)[1..] == Sum(p[1..], q[1..]);
      EvalSum(p[1..], q[1..], x);
      MulLinearRight(x, Eval(p[1..], x), Eval(q[1..], x));
      AddSwap(p[0], q[0], Mul(x, Eval(p[1..], x)), Mul(x, Eval(q[1..], x)));
    }
  }

  lemma {:induction false} EvalScale(p: Poly, a: Elem, x: Elem)
    ensures Eval(Scale(p, a), x) == Mul(a, Eval(p, x))
  {
    if p == [] {
      MulZeroOne(a);
    } else {
      var e := Eval(p[1..], x);
      assert Scale(p, a)[1..] == Scale(p[1..], a);
      EvalScale(p[1..], a, x);
      MulLinearRight(a, p[0], Mul(x, e));
      MulAssociates(a, x, e);
      MulCommutes(a, x);
      MulAssociates(x, a, e);
    }
  }

  lemma {:induction false} EvalPadded(p: Poly, x: Elem)
    ensures Eval(p + [0], x) == Eval(p, x)
  {
    MulZeroOne(x);
    if p != [] {
      assert (p + [0])[1..] == p[1..] + [0];
      EvalPadded(p[1..], x);
    }
  }

  lemma EvalTimesLinear(p: Poly, a: Elem, x: Elem)
    ensures Eval(TimesLinear(p, a), x) == Mul(Add(x, a), Eval(p, x))
  {
    EvalSum([0] + p, Scale(p, a) + [0], x);
    EvalPadded(Scale(p, a), x);
    EvalScale(p, a, x);
    assert ([0] + p)[1..] == p;
    MulLinearLeft(x, a, Eval(p, x));
    assert Add(0, Mul(x, Eval(p, x))) == Mul(x, Eval(p, x));
  }

  // c with zero coefficients appended up to n of them
  function Padded(c: Poly, n: nat): (p: Poly)
    requires |c| <= n
    ensures |p| == n && p[..|c|] == c
    decreases n - |c|
  {
    if |c| == n then c else Padded(c + [0], n)
  }

  lemma {:induction false} EvalPaddedTo(c: Poly, n: nat, x: Elem)
    requires |c| <= n
    ensures Eval(Padded(c, n), x) == Eval(c, x)
    decreases n - |c|
  {
    if |c| < n {
      EvalPaddedTo(c + [0], n, x);
      EvalPadded(c, x);
    }
  }

  /** Polynomials with at most n coefficients that agree at n points agree everywhere. */
  lemma AgreementIsEquality(p: Poly, q: Poly, points: seq<Elem>)
    requires |p| == |q| <= |points| && Distinct(points)
    requires forall i | 0 <= i < |points| :: Eval(p, points[i]) == Eval(q, points[i])
    ensures p == q
  {
    forall i | 0 <= i < |points|
      ensures Eval(Sum(p, q), points[i]) == 0
    {
      EvalSum(p, q, points[i]);
      DifferenceIsNonZero(Eval(p, points[i]), Eval(q, points[i]));
    }
    TooManyRoots(Sum(p, q), points);
    forall i | 0 <= i < |p|
      ensures p[i] == q[i]
    {
      assert Sum(p, q)[i] == 0;
      DifferenceIsNonZero(p[i], q[i]);
    }
  }

  // ----- Lagrange interpolation -----

  // One factor of the i-th basis polynomial: (x - xs[k]) / (xs[i] - xs[k]).
  function Factor(xs: seq<Elem>, i: nat, k: nat, x: Elem): Elem
    requires i < |xs| && k < |xs|
  {
    Mul(Add(x, xs[k]), Inv(Add(xs[i], xs[k])))
  }

  // The value at x of the product of the first j factors of basis i, the i-th one left out.
  function BasisAt(xs: seq<Elem>, i: nat, j: nat, x: Elem): Elem
    requires i < |xs| && j <= |xs|
  {
    if j == 0 then 1
    else if j - 1 == i then BasisAt(xs, i, j - 1, x)
    else Mul(BasisAt(xs, i, j - 1, x), Factor(xs, i, j - 1, x))
  }

  // The value at x of the first j terms of the interpolation through (xs, ys).
  function InterpolationAt(xs: seq<Elem>, ys: seq<Elem>, j: nat, x: Elem): Elem
    requires |xs| == |ys| && j <= |xs|
  {
    if j == 0 then 0
    else Add(InterpolationAt(xs, ys, j - 1, x), Mul(ys[j - 1], BasisAt(xs, j - 1, |xs|, x)))
  }

  // The same two things as polynomials.
  function BasisPoly(xs: seq<Elem>, i: nat, j: nat): (p: Poly)
    requires i < |xs| && j <= |xs|
    ensures |p| == if i < j then j else j + 1
  {
    if j == 0 then [1]
    else if j - 1 == i then BasisPoly(xs, i, j - 1)
    else Scale(TimesLinear(BasisPoly(xs, i, j - 1), xs[j - 1]), Inv(Add(xs[i], xs[j - 1])))
  }

  function InterpolationPoly(xs: seq<Elem>, ys: seq<Elem>, j: nat): (p: Poly)
    requires |xs| == |ys| && j <= |xs|
    ensures |p| == |xs|
  {
    if j == 0 then seq(|xs|, _ => 0)
    else Sum(InterpolationPoly(xs, ys, j - 1), Scale(BasisPoly(xs, j - 1, |xs|), ys[j - 1]))
  }

  lemma {:induction false} BasisPolyValue(xs: seq<Elem>, i: nat, j: nat, x: Elem)
    requires i < |xs| && j <= |xs|
    ensures Eval(BasisPoly(xs, i, j), x) == BasisAt(xs, i, j, x)
  {
    hide Add, Mul, Inv, Eval, Scale, TimesLinear;
    if j == 0 {
      EvalOne(x);
    } else {
      BasisPolyValue(xs, i, j - 1, x);
      if j - 1 != i {
        TimesFactor(BasisPoly(xs, i, j - 1), xs[j - 1], Inv(Add(xs[i], xs[j - 1])), x);
      }
    }
  }

  lemma EvalOne(x: Elem)
    ensures Eval([1], x) == 1
  {
    MulZeroOne(x);
    assert Add(1, 0) == 1;
    hide Add, Mul;
  }

  lemma TimesFactor(p: Poly, root: Elem, b: Elem, x: Elem)
    ensures Eval(Scale(TimesLinear(p, root), b), x) == Mul(Eval(p, x), Mul(Add(x, root), b))
  {
    hide *;
    var a := Add(x, root);
    EvalScale(TimesLinear(p, root), b, x);
    EvalTimesLinear(p, root, x);
    MulAssociates(b, a, Eval(p, x));
    MulCommutes(b, a);
    MulCommutes(Mul(a, b), Eval(p, x));
  }

  lemma {:induction false} EvalZeros(n: nat, x: Elem)
    ensures Eval(seq(n, _ => 0), x) == 0
  {
    if n > 0 {
      assert seq(n, _ => 0 as Elem)[1..] == seq(n - 1, _ => 0 as Elem);
      EvalZeros(n - 1, x);
      MulZeroOne(x);
    }
  }

  lemma {:induction false} InterpolationPolyValue(xs: seq<Elem>, ys: seq<Elem>, j: nat, x: Elem)
    requires |xs| == |ys| && j <= |xs|
    ensures Eval(InterpolationPoly(xs, ys, j), x) == InterpolationAt(xs, ys, j, x)
  {
    hide Eval, Scale, Sum, BasisPoly, BasisAt, Mul, Add;
    if j == 0 {
      EvalZeros(|xs|, x);
    } else {
      InterpolationPolyValue(xs, ys, j - 1, x);
      EvalSum(InterpolationPoly(xs, ys, j - 1), Scale(BasisPoly(xs, j - 1, |xs|), ys[j - 1]), x);
      EvalScale(BasisPoly(xs, j - 1, |xs|), ys[j - 1], x);
      BasisPolyValue(xs, j - 1, |xs|, x);
    }
  }

  // Basis i is 1 at xs[i] and 0 at every other sample.
  lemma {:induction false} BasisAtSample(xs: seq<Elem>, i: nat, j: nat, m: nat)
    requires Distinct(xs) && i < |xs| && j <= |xs| && m < |xs|
    ensures m == i ==> BasisAt(xs, i, j, xs[m]) == 1
    ensures m != i && m < j ==> BasisAt(xs, i, j, xs[m]) == 0
  {
    if j > 0 {
      BasisAtSample(xs, i, j - 1, m);
      var k := j - 1;
      if k != i {
        DifferenceIsNonZero(xs[i], xs[k]);
        DifferenceIsNonZero(xs[m], xs[k]);
        InverseLaw(Add(xs[i], xs[k]));
        MulZeroOne(Inv(Add(xs[i], xs[k])));
        MulZeroOne(BasisAt(xs, i, k, xs[m]));
        MulZeroOne(Factor(xs, i, k, xs[m]));
      }
    }
  }

  lemma {:induction false} InterpolationAtSample(xs: seq<Elem>, ys: seq<Elem>, j: nat, m: nat)
    requires |xs| == |ys| && Distinct(xs) && j <= |xs| && m < |xs|
    ensures InterpolationAt(xs, ys, j, xs[m]) == if m < j then ys[m] else 0
  {
    if j > 0 {
      InterpolationAtSample(xs, ys, j - 1, m);
      BasisAtSample(xs, j - 1, |xs|, m);
      MulZeroOne(ys[j - 1]);
      AddZero(ys[j - 1]);
      AddZero(ys[m]);
    }
  }

  lemma AddZero(a: Elem)
    ensures Add(a, 0) == a && Add(0, a) == a && Add(0, 0) == 0
  {}

  /** The interpolation polynomial goes through its samples, and has one coefficient per sample. */
  lemma InterpolationFits(xs: seq<Elem>, ys: seq<Elem>, m: nat)
    requires |xs| == |ys| && Distinct(xs) && m < |xs|
    ensures Eval(InterpolationPoly(xs, ys, |xs|), xs[m]) == ys[m]
  {
    InterpolationPolyValue(xs, ys, |xs|, xs[m]);
    InterpolationAtSample(xs, ys, |xs|, m);
  }

  /** Interpolating samples of a polynomial with at most as many coefficients gives that polynomial, everywhere. */
  lemma InterpolationRecovers(c: Poly, xs: seq<Elem>, ys: seq<Elem>, x: Elem)
    requires |c| <= |xs| == |ys| && Distinct(xs)
    requires forall i | 0 <= i < |xs| :: ys[i] == Eval(c, xs[i])
    ensures InterpolationAt(xs, ys, |xs|, x) == Eval(c, x)
  {
    var n := |xs|;
    var p, q := InterpolationPoly(xs, ys, n), Padded(c, n);
    forall i | 0 <= i < n
      ensures Eval(p, xs[i]) == Eval(q, xs[i])
    {
      InterpolationFits(xs, ys, i);
      EvalPaddedTo(c, n, xs[i]);
    }
    AgreementIsEquality(p, q, xs);
    InterpolationPolyValue(xs, ys, n, x);
    EvalPaddedTo(c, n, x);
  }
}
