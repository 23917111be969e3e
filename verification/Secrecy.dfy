/**
  What fewer shares than the threshold say of the secret: nothing. internal/crypto/shamir/shamir.go:28-60
  and 174-188.
 */
module Secrecy {
  import opened Gf256
  import opened Polynomial
  import opened Shamir

  /** For threshold - 1 samples away from 0, every secret byte fits, with exactly one draw. */
  lemma EveryByteFitsOnce(xs: seq<Elem>, ys: seq<Elem>, secretByte: Elem) returns (draw: seq<Elem>)
    requires |xs| == |ys| && Distinct(xs) && 0 !in xs
    ensures |draw| == |xs|
    ensures forall i | 0 <= i < |xs| :: Eval([secretByte] + draw, xs[i]) == ys[i]
    ensures forall other: seq<Elem> | |other| == |xs| &&
              (forall i | 0 <= i < |xs| :: Eval([secretByte] + other, xs[i]) == ys[i]) :: other == draw
  {
    var points, values := [0] + xs, [secretByte] + ys;
    assert Distinct(points) by {
      forall i, j | 0 <= i < j < |points| ensures points[i] != points[j] {
        assert points[j] == xs[j - 1];
      }
    }
    var p := InterpolationPoly(points, values, |points|);
    forall m | 0 <= m < |points|
      ensures Eval(p, points[m]) == values[m]
    {
      InterpolationFits(points, values, m);
    }
    draw := p[1..];
    InterceptIsFirst(p);
    assert points[0] == 0 && values[0] == secretByte;
    assert p == [secretByte] + draw;
    forall i | 0 <= i < |xs|
      ensures Eval([secretByte] + draw, xs[i]) == ys[i]
    {
      assert xs[i] == points[i + 1] && ys[i] == values[i + 1];
    }
    forall other: seq<Elem> | |other| == |xs| &&
             (forall i | 0 <= i < |xs| :: Eval([secretByte] + other, xs[i]) == ys[i])
      ensures other == draw
    {
      var q := [secretByte] + other;
      InterceptIsFirst(q);
      forall m | 0 <= m < |points|
        ensures Eval(p, points[m]) == Eval(q, points[m])
      {
        if m > 0 {
          assert points[m] == xs[m - 1] && values[m] == ys[m - 1];
        }
      }
      AgreementIsEquality(p, q, points);
      assert q[1..] == other;
    }
  }

  lemma InterceptIsFirst(p: Poly)
    requires p != []
    ensures Eval(p, 0) == p[0]
  {
    MulZeroOne(Eval(p[1..], 0));
    AddZero(p[0]);
  }

  /** One share short: threshold - 1 shares are those of every secret of that length, each under exactly one draw. */
  lemma OneShareShort(secret: seq<Elem>, draws: seq<seq<Elem>>, xs: seq<Elem>, other: seq<Elem>)
    returns (draws': seq<seq<Elem>>)
    requires AreDraws(draws, secret, |xs|) && Distinct(xs) && 0 !in xs && |other| == |secret|
    ensures AreDraws(draws', other, |xs|)
    ensures SharesAt(other, draws', xs) == SharesAt(secret, draws, xs)
    ensures forall d | AreDraws(d, other, |xs|) && SharesAt(other, d, xs) == SharesAt(secret, draws, xs) :: d == draws'
  {
    var shares := SharesAt(secret, draws, xs);
    draws' := [];
    while |draws'| < |secret|
      invariant |draws'| <= |secret| && FirstColumnsFit(other, draws', xs, shares)
      invariant OnlyExtensionsFit(other, draws', xs, shares)
    {
      draws' := NextDraw(other, draws', xs, shares);
    }
    FittingColumnsAreShares(other, draws', xs, shares);
  }

  lemma FittingColumnsAreShares(secret: seq<Elem>, draws: seq<seq<Elem>>, xs: seq<Elem>, shares: seq<Share>)
    requires |draws| == |secret| && |shares| == |xs|
    requires forall i | 0 <= i < |shares| :: |shares[i]| == |secret| + 1 && shares[i][|secret|] == xs[i]
    requires FirstColumnsFit(secret, draws, xs, shares)
    ensures SharesAt(secret, draws, xs) == shares
  {
    forall i | 0 <= i < |xs|
      ensures ShareAt(secret, draws, xs[i]) == shares[i]
    {
      assert forall k | 0 <= k < |secret| :: ShareAt(secret, draws, xs[i])[k] == shares[i][k];
    }
  }

  // Every draw that yields these shares starts with prefix.
  ghost predicate OnlyExtensionsFit(secret: seq<Elem>, prefix: seq<seq<Elem>>, xs: seq<Elem>, shares: seq<Share>) {
    forall d | AreDraws(d, secret, |xs|) && SharesAt(secret, d, xs) == shares :: prefix <= d
  }

  lemma NextDraw(secret: seq<Elem>, prefix: seq<seq<Elem>>, xs: seq<Elem>, shares: seq<Share>)
    returns (longer: seq<seq<Elem>>)
    requires |prefix| < |secret| && |shares| == |xs| && Distinct(xs) && 0 !in xs
    requires forall i | 0 <= i < |shares| :: |shares[i]| == |secret| + 1
    requires FirstColumnsFit(secret, prefix, xs, shares) && OnlyExtensionsFit(secret, prefix, xs, shares)
    ensures |longer| == |prefix| + 1
    ensures FirstColumnsFit(secret, longer, xs, shares) && OnlyExtensionsFit(secret, longer, xs, shares)
  {
    var draw := EveryByteFitsOnce(xs, Column(shares, |prefix|), secret[|prefix|]);
    longer := prefix + [draw];
    forall d | AreDraws(d, secret, |xs|) && SharesAt(secret, d, xs) == shares
      ensures longer <= d
    {
      NextDrawIs(secret, prefix, d, xs, shares, draw);
    }
  }

  ghost predicate FirstColumnsFit(secret: seq<Elem>, draws: seq<seq<Elem>>, xs: seq<Elem>, shares: seq<Share>)
    requires |draws| <= |secret| && |shares| == |xs|
    requires forall i | 0 <= i < |shares| :: |shares[i]| == |secret| + 1
  {
    forall k | 0 <= k < |draws| :: |draws[k]| == |xs| &&
      forall i | 0 <= i < |xs| :: Eval([secret[k]] + draws[k], xs[i]) == shares[i][k]
  }

  lemma NextDrawIs(secret: seq<Elem>, prefix: seq<seq<Elem>>, d: seq<seq<Elem>>, xs: seq<Elem>,
                   shares: seq<Share>, draw: seq<Elem>)
    requires |prefix| < |secret| && prefix <= d && AreDraws(d, secret, |xs|) && SharesAt(secret, d, xs) == shares
    requires forall other: seq<Elem> | |other| == |xs| &&
               (forall i | 0 <= i < |xs| :: Eval([secret[|prefix|]] + other, xs[i]) == Column(shares, |prefix|)[i]) ::
               other == draw
    ensures prefix + [draw] <= d
  {
    var k := |prefix|;
    forall i | 0 <= i < |xs|
      ensures Eval([secret[k]] + d[k], xs[i]) == Column(shares, k)[i]
    {
      assert shares[i] == ShareAt(secret, d, xs[i]);
    }
    assert d[k] == draw;
  }

  // ----- any number of shares below the threshold -----

  // Every sequence of n of the given elements.
  ghost function Tuples<T>(elems: set<T>, n: nat): set<seq<T>> {
    if n == 0 then {[]} else set x, s | x in elems && s in Tuples(elems, n - 1) :: [x] + s
  }

  lemma {:induction false} TuplesHold<T>(elems: set<T>, n: nat, s: seq<T>)
    ensures s in Tuples(elems, n) <==> |s| == n && forall i | 0 <= i < n :: s[i] in elems
  {
    if n > 0 {
      if |s| > 0 {
        TuplesHold(elems, n - 1, s[1..]);
        assert s == [s[0]] + s[1..];
      }
      if s in Tuples(elems, n) {
        var x, t :| x in elems && t in Tuples(elems, n - 1) && s == [x] + t;
        assert s[1..] == t;
        assert forall i | 0 < i < n :: s[i] == s[1..][i - 1];
      }
    }
  }

  function Nth(i: nat): Elem
    requires i < 256
  {
    i as Elem
  }

  ghost function AllElems(): set<Elem> {
    set i: nat | i < 256 :: Nth(i)
  }

  lemma AllElemsHold(x: Elem)
    ensures x in AllElems()
  {
    assert Nth(x as int) == x;
  }

  // Every draw of coefficients that Split could make for k secret bytes.
  ghost function AllDraws(k: nat, degree: nat): set<seq<seq<Elem>>> {
    Tuples(Tuples(AllElems(), degree), k)
  }

  lemma AllDrawsHold(d: seq<seq<Elem>>, secret: seq<Elem>, degree: nat)
    ensures d in AllDraws(|secret|, degree) <==> AreDraws(d, secret, degree)
  {
    TuplesHold(Tuples(AllElems(), degree), |secret|, d);
    forall k | 0 <= k < |d|
      ensures d[k] in Tuples(AllElems(), degree) <==> |d[k]| == degree
    {
      TuplesHold(AllElems(), degree, d[k]);
      forall i | 0 <= i < |d[k]|
        ensures d[k][i] in AllElems()
      {
        AllElemsHold(d[k][i]);
      }
    }
  }

  // The draws under which a secret has these shares.
  ghost function Explaining(secret: seq<Elem>, degree: nat, xs: seq<Elem>, shares: seq<Share>): set<seq<seq<Elem>>> {
    set d | d in AllDraws(|secret|, degree) && |d| == |secret| && SharesAt(secret, d, xs) == shares
  }

  ghost function Shifted(d: seq<seq<Elem>>, shift: seq<seq<Elem>>): (r: seq<seq<Elem>>)
    requires |d| == |shift| && forall k | 0 <= k < |d| :: |d[k]| == |shift[k]|
    ensures |r| == |d| && forall k | 0 <= k < |d| :: |r[k]| == |d[k]|
  {
    seq(|d|, k requires 0 <= k < |d| => Sum(d[k], shift[k]))
  }

  lemma ShiftedTwice(d: seq<seq<Elem>>, shift: seq<seq<Elem>>)
    requires |d| == |shift| && forall k | 0 <= k < |d| :: |d[k]| == |shift[k]|
    ensures Shifted(Shifted(d, shift), shift) == d
  {
    forall k | 0 <= k < |d|
      ensures Shifted(Shifted(d, shift), shift)[k] == d[k]
    {
      forall i | 0 <= i < |d[k]|
        ensures Sum(Sum(d[k], shift[k]), shift[k])[i] == d[k][i]
      {
        AddTwice(d[k][i], shift[k][i]);
      }
      assert Sum(Sum(d[k], shift[k]), shift[k]) == d[k];
    }
  }

  lemma AddTwice(a: Elem, b: Elem)
    ensures Add(Add(a, b), b) == a
  {
  }

  // A polynomial that is 0 at the samples and a chosen value at 0.
  lemma Bend(xs: seq<Elem>, value: Elem, degree: nat) returns (c: seq<Elem>)
    requires Distinct(xs) && 0 !in xs && |xs| <= degree
    ensures |c| == degree && forall i | 0 <= i < |xs| :: Eval([value] + c, xs[i]) == 0
  {
    var draw := EveryByteFitsOnce(xs, seq(|xs|, _ => 0), value);
    var p := Padded([value] + draw, degree + 1);
    assert p[0] == p[..|xs| + 1][0] == value;
    c := p[1..];
    assert [value] + c == p;
    forall i | 0 <= i < |xs|
      ensures Eval([value] + c, xs[i]) == 0
    {
      EvalPaddedTo([value] + draw, degree + 1, xs[i]);
    }
  }

  lemma Crossed(a: Elem, b: Elem)
    ensures Add(a, Add(a, b)) == b
  {
  }

  lemma SumSplits(a: Elem, d: seq<Elem>, b: Elem, c: seq<Elem>)
    requires |c| == |d|
    ensures Sum([a] + d, [b] + c) == [Add(a, b)] + Sum(d, c)
  {
    hide Add;
  }

  lemma Bent(a: Elem, b: Elem, d: seq<Elem>, c: seq<Elem>, x: Elem)
    requires |c| == |d| && Eval([Add(a, b)] + c, x) == 0
    ensures Eval([b] + Sum(d, c), x) == Eval([a] + d, x)
  {
    hide *;
    EvalSum([a] + d, [Add(a, b)] + c, x);
    SumSplits(a, d, Add(a, b), c);
    Crossed(a, b);
    AddZero(Eval([a] + d, x));
  }

  // One shift of the coefficients turns every draw for a secret into one for another, with the same shares.
  lemma SharesAllowShift(secret: seq<Elem>, other: seq<Elem>, degree: nat, xs: seq<Elem>) returns (shift: seq<seq<Elem>>)
    requires |other| == |secret| && Distinct(xs) && 0 !in xs && |xs| <= degree
    ensures AreDraws(shift, secret, degree)
    ensures forall d | AreDraws(d, secret, degree) :: SharesAt(other, Shifted(d, shift), xs) == SharesAt(secret, d, xs)
  {
    shift := [];
    while |shift| < |secret|
      invariant |shift| <= |secret|
      invariant forall k | 0 <= k < |shift| :: |shift[k]| == degree
      invariant forall k, i | 0 <= k < |shift| && 0 <= i < |xs| :: Eval([Add(secret[k], other[k])] + shift[k], xs[i]) == 0
    {
      var c := Bend(xs, Add(secret[|shift|], other[|shift|]), degree);
      shift := shift + [c];
    }
    forall d | AreDraws(d, secret, degree)
      ensures SharesAt(other, Shifted(d, shift), xs) == SharesAt(secret, d, xs)
    {
      forall i | 0 <= i < |xs|
        ensures ShareAt(other, Shifted(d, shift), xs[i]) == ShareAt(secret, d, xs[i])
      {
        forall k | 0 <= k < |secret|
          ensures Eval([other[k]] + Shifted(d, shift)[k], xs[i]) == Eval([secret[k]] + d[k], xs[i])
        {
          Bent(secret[k], other[k], d[k], shift[k], xs[i]);
        }
      }
    }
  }

  lemma {:induction false} NoMoreThan<T>(a: set<T>, b: set<T>, f: T -> T)
    requires forall x | x in a :: f(x) in b
    requires forall x, y | x in a && y in a && f(x) == f(y) :: x == y
    ensures |a| <= |b|
  {
    if a != {} {
      var x :| x in a;
      NoMoreThan(a - {x}, b - {f(x)}, f);
    }
  }

  lemma NoFewerExplain(secret: seq<Elem>, other: seq<Elem>, degree: nat, xs: seq<Elem>, shares: seq<Share>)
    requires |other| == |secret| && Distinct(xs) && 0 !in xs && |xs| <= degree
    ensures |Explaining(secret, degree, xs, shares)| <= |Explaining(other, degree, xs, shares)|
  {
    var shift := SharesAllowShift(secret, other, degree, xs);
    var a, b := Explaining(secret, degree, xs, shares), Explaining(other, degree, xs, shares);
    var f := (d: seq<seq<Elem>>) => if AreDraws(d, secret, degree) then Shifted(d, shift) else d;
    hide AllDraws, SharesAt, Shifted;
    forall d | d in a
      ensures AreDraws(d, secret, degree) && f(d) in b
    {
      AllDrawsHold(d, secret, degree);
      AllDrawsHold(f(d), other, degree);
    }
    forall d, e | d in a && e in a && f(d) == f(e)
      ensures d == e
    {
      ShiftedTwice(d, shift);
      ShiftedTwice(e, shift);
    }
    NoMoreThan(a, b, f);
  }

  /**
    Any number of shares below the threshold: every secret of that length has them, and under as many
    draws of coefficients as the real one, so the shares make no secret likelier than another.
   */
  lemma FewerSharesFixNothing(secret: seq<Elem>, draws: seq<seq<Elem>>, degree: nat, xs: seq<Elem>, other: seq<Elem>)
    requires AreDraws(draws, secret, degree) && |xs| <= degree && Distinct(xs) && 0 !in xs && |other| == |secret|
    ensures var shares := SharesAt(secret, draws, xs);
            |Explaining(other, degree, xs, shares)| == |Explaining(secret, degree, xs, shares)| > 0
  {
    var shares := SharesAt(secret, draws, xs);
    NoFewerExplain(secret, other, degree, xs, shares);
    NoFewerExplain(other, secret, degree, xs, shares);
    AllDrawsHold(draws, secret, degree);
    hide AllDraws, SharesAt;
    assert draws in Explaining(secret, degree, xs, shares);
  }
}
