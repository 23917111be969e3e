/**
  Secret sharing: internal/crypto/shamir/shamir.go, Split, Combine and what they call.

  What the source draws at random (x coordinates, polynomial coefficients, the split id) is an
  argument here, so every result holds for every draw.
 */
module Shamir {
  import opened Common
  import opened Gf256
  import opened Polynomial

  // A share is the value of each byte's polynomial, then the x coordinate.
  type Share = seq<Elem>

  datatype SplitError =
    | PartsBelowThreshold
    | TooManyParts
    | ThresholdTooSmall
    | ThresholdTooLarge
    | EmptySecret

  datatype CombineError =
    | TooFewParts
    | PartTooShort
    | LengthsDiffer
    | DuplicatePart

  // ----- specifications -----

  // What mathrand.Perm(255) returns: 255 distinct numbers below 255.
  ghost predicate IsPermutation(perm: seq<Elem>) {
    |perm| == 255 && Distinct(perm) && forall i | 0 <= i < 255 :: perm[i] != 255
  }

  // One coefficient vector for each secret byte, the intercept excluded.
  ghost predicate AreDraws(draws: seq<seq<Elem>>, secret: seq<Elem>, degree: int) {
    |draws| == |secret| && forall k | 0 <= k < |draws| :: |draws[k]| == degree
  }

  function ShareAt(secret: seq<Elem>, draws: seq<seq<Elem>>, x: Elem): (s: Share)
    requires |draws| == |secret|
    ensures |s| == |secret| + 1
  {
    seq(|secret|, k requires 0 <= k < |secret| => Eval([secret[k]] + draws[k], x)) + [x]
  }

  function SplitRefusal(secret: seq<Elem>, parts: int, threshold: int): Option<SplitError> {
    if parts < threshold then Some(PartsBelowThreshold)
    else if parts > 255 then Some(TooManyParts)
    else if threshold < 2 then Some(ThresholdTooSmall)
    else if threshold > 255 then Some(ThresholdTooLarge)
    else if secret == [] then Some(EmptySecret)
    else None
  }

  // The x coordinate of part i.
  function Coordinate(perm: seq<Elem>, i: nat): Elem
    requires i < |perm|
  {
    perm[i] + 1
  }

  ghost function CoordinatesOf(parts: seq<Share>): (xs: seq<Elem>)
    requires forall i | 0 <= i < |parts| :: |parts[i]| > 0
    ensures |xs| == |parts|
  {
    seq(|parts|, i requires 0 <= i < |parts| => parts[i][|parts[i]| - 1])
  }

  ghost function Column(parts: seq<Share>, k: nat): (ys: seq<Elem>)
    requires forall i | 0 <= i < |parts| :: k < |parts[i]|
    ensures |ys| == |parts|
  {
    seq(|parts|, i requires 0 <= i < |parts| => parts[i][k])
  }

  // What Combine returns: the value at 0 of the interpolation through each column of the parts.
  ghost function Combined(parts: seq<Share>): Result<seq<Elem>, CombineError> {
    if |parts| < 2 then Err(TooFewParts)
    else if |parts[0]| < 2 then Err(PartTooShort)
    else if exists i | 1 <= i < |parts| :: |parts[i]| != |parts[0]| then Err(LengthsDiffer)
    else if !Distinct(CoordinatesOf(parts)) then Err(DuplicatePart)
    else
      Ok(seq(|parts[0]| - 1, k requires 0 <= k < |parts[0]| - 1 =>
        InterpolationAt(CoordinatesOf(parts), Column(parts, k), |parts|, 0)))
  }

  // ----- the source's functions -----

  /** shamir.go's div: it panics on 0, so callers must exclude it. */
  method Div(a: Elem, b: Elem) returns (out: Elem)
    requires b != 0
    ensures out == Mul(a, Inv(b))
  {
    var inverse := InverseChain(b);
    var ret := MultLoop(a, inverse);
    out := if a == 0 then 0 else ret;
    MulZeroOne(inverse);
  }

  method MakePolynomial(intercept: Elem, degree: nat, draw: seq<Elem>) returns (p: Poly)
    requires |draw| == degree
    ensures p == [intercept] + draw
  {
    p := seq(degree + 1, _ => 0);
    p := p[0 := intercept];
    p := p[..1] + draw;
  }

  /** shamir.go's evaluate: Horner's rule, with the origin as a special case. */
  method Evaluate(p: Poly, x: Elem) returns (out: Elem)
    requires p != []
    ensures out == Eval(p, x)
  {
    if x == 0 {
      MulZeroOne(Eval(p[1..], 0));
      AddZero(p[0]);
      return p[0];
    }
    var degree := |p| - 1;
    out := p[degree];
    MulZeroOne(x);
    AddZero(p[degree]);
    var i := degree - 1;
    while i >= 0
      invariant -1 <= i < degree
      invariant out == Eval(p[i + 1..], x)
    {
      var coeff := p[i];
      MulCommutes(out, x);
      AddCommutes(Mul(out, x), coeff);
      assert p[i..][1..] == p[i + 1..];
      var product := MultLoop(out, x);
      out := Add(product, coeff);
      i := i - 1;
    }
  }

  lemma AddCommutes(a: Elem, b: Elem)
    ensures Add(a, b) == Add(b, a)
  {}

  /** shamir.go's interpolatePolynomial. The x samples must differ, or Div would be called with 0. */
  method Interpolate(xs: seq<Elem>, ys: seq<Elem>, x: Elem) returns (result: Elem)
    requires |xs| == |ys| && Distinct(xs)
    ensures result == InterpolationAt(xs, ys, |xs|, x)
  {
    var limit := |xs|;
    result := 0;
    for i := 0 to limit
      invariant result == InterpolationAt(xs, ys, i, x)
    {
      var basis: Elem := 1;
      for j := 0 to limit
        invariant basis == BasisAt(xs, i, j, x)
      {
        if i != j {
          var num := Add(x, xs[j]);
          var denom := Add(xs[i], xs[j]);
          DifferenceIsNonZero(xs[i], xs[j]);
          var term := Div(num, denom);
          basis := MultLoop(basis, term);
        }
      }
      var group := MultLoop(ys[i], basis);
      result := Add(result, group);
    }
  }

  /** shamir.go's Split. perm and draws stand for the random source. */
  method Split(secret: seq<Elem>, parts: int, threshold: int, perm: seq<Elem>, draws: seq<seq<Elem>>)
    returns (r: Result<seq<Share>, SplitError>)
    requires IsPermutation(perm)
    requires 2 <= threshold ==> AreDraws(draws, secret, threshold - 1)
    ensures match SplitRefusal(secret, parts, threshold)
            case Some(e) => r == Err(e)
            case None =>
              && r.Ok? && |r.value| == parts && |draws| == |secret|
              && forall i | 0 <= i < parts :: r.value[i] == ShareAt(secret, draws, Coordinate(perm, i))
  {
    if parts < threshold {
      return Err(PartsBelowThreshold);
    }
    if parts > 255 {
      return Err(TooManyParts);
    }
    if threshold < 2 {
      return Err(ThresholdTooSmall);
    }
    if threshold > 255 {
      return Err(ThresholdTooLarge);
    }
    if secret == [] {
      return Err(EmptySecret);
    }

    var out: seq<Share> := seq(parts, _ => seq(|secret| + 1, _ => 0));
    for i := 0 to parts
      invariant |out| == parts
      invariant forall m | 0 <= m < parts :: |out[m]| == |secret| + 1
      invariant forall m | 0 <= m < i :: out[m][|secret|] == Coordinate(perm, m)
    {
      out := out[i := out[i][|secret| := perm[i] + 1]];
    }
    for k := 0 to |secret|
      invariant |out| == parts
      invariant forall m | 0 <= m < parts :: Filled(out[m], secret, draws, Coordinate(perm, m), k)
    {
      var p := MakePolynomial(secret[k], threshold - 1, draws[k]);
      out := WriteColumn(secret, draws, perm, p, k, out);
    }
    forall m | 0 <= m < parts
      ensures out[m] == ShareAt(secret, draws, Coordinate(perm, m))
    {
      FilledIsShare(out[m], secret, draws, Coordinate(perm, m));
    }
    r := Ok(out);
  }

  // The first k values and the x coordinate of the share at x are in place.
  ghost predicate Filled(part: Share, secret: seq<Elem>, draws: seq<seq<Elem>>, x: Elem, k: nat)
    requires |draws| == |secret| && k <= |secret|
  {
    && |part| == |secret| + 1 && part[|secret|] == x
    && forall h | 0 <= h < k :: part[h] == Eval([secret[h]] + draws[h], x)
  }

  lemma FilledIsShare(part: Share, secret: seq<Elem>, draws: seq<seq<Elem>>, x: Elem)
    requires |draws| == |secret| && Filled(part, secret, draws, x, |secret|)
    ensures part == ShareAt(secret, draws, x)
  {}

  // Nothing but byte k differs.
  ghost predicate OnlyColumn(before: Share, after: Share, k: nat) {
    |after| == |before| && forall h | 0 <= h < |after| && h != k :: after[h] == before[h]
  }

  // Split's inner loop: the value of one byte's polynomial for every part.
  method WriteColumn(ghost secret: seq<Elem>, ghost draws: seq<seq<Elem>>, perm: seq<Elem>, p: Poly, k: nat,
                     before: seq<Share>)
    returns (out: seq<Share>)
    requires |draws| == |secret| && k < |secret| && |before| <= |perm|
    requires p == [secret[k]] + draws[k]
    requires forall m | 0 <= m < |before| :: Filled(before[m], secret, draws, Coordinate(perm, m), k)
    ensures |out| == |before|
    ensures forall m | 0 <= m < |out| :: Filled(out[m], secret, draws, Coordinate(perm, m), k + 1)
    ensures forall m | 0 <= m < |out| :: OnlyColumn(before[m], out[m], k)
  {
    out := before;
    for i := 0 to |out|
      invariant |out| == |before|
      invariant forall m | 0 <= m < i :: Filled(out[m], secret, draws, Coordinate(perm, m), k + 1)
      invariant forall m | 0 <= m < i :: OnlyColumn(before[m], out[m], k)
      invariant forall m | i <= m < |out| :: out[m] == before[m]
    {
      var y := Evaluate(p, perm[i] + 1);
      out := out[i := out[i][k := y]];
    }
  }

  /** shamir.go's Combine. */
  method Combine(parts: seq<Share>) returns (r: Result<seq<Elem>, CombineError>)
    ensures r == Combined(parts)
  {
    if |parts| < 2 {
      return Err(TooFewParts);
    }
    var firstPartLen := |parts[0]|;
    if firstPartLen < 2 {
      return Err(PartTooShort);
    }
    for i := 1 to |parts|
      invariant forall m | 1 <= m < i :: |parts[m]| == firstPartLen
    {
      if |parts[i]| != firstPartLen {
        return Err(LengthsDiffer);
      }
    }

    var secret: seq<Elem> := seq(firstPartLen - 1, _ => 0);
    var xSamples: seq<Elem> := seq(|parts|, _ => 0);
    var ySamples: seq<Elem> := seq(|parts|, _ => 0);
    var checkMap: set<Elem> := {};
    for i := 0 to |parts|
      invariant |xSamples| == |parts|
      invariant forall m | 0 <= m < i :: xSamples[m] == CoordinatesOf(parts)[m]
      invariant Distinct(CoordinatesOf(parts)[..i])
      invariant forall samp :: samp in checkMap <==> samp in CoordinatesOf(parts)[..i]
    {
      var samp := parts[i][firstPartLen - 1];
      if samp in checkMap {
        ghost var m :| 0 <= m < i && CoordinatesOf(parts)[..i][m] == samp;
        assert CoordinatesOf(parts)[m] == CoordinatesOf(parts)[i];
        return Err(DuplicatePart);
      }
      assert CoordinatesOf(parts)[..i + 1] == CoordinatesOf(parts)[..i] + [samp];
      checkMap := checkMap + {samp};
      xSamples := xSamples[i := samp];
    }
    assert CoordinatesOf(parts)[..|parts|] == CoordinatesOf(parts);
    assert xSamples == CoordinatesOf(parts);

    for k := 0 to firstPartLen - 1
      invariant |secret| == firstPartLen - 1 && |ySamples| == |parts|
      invariant forall h | 0 <= h < k ::
          secret[h] == InterpolationAt(xSamples, Column(parts, h), |parts|, 0)
    {
      for i := 0 to |parts|
        invariant |ySamples| == |parts|
        invariant forall m | 0 <= m < i :: ySamples[m] == parts[m][k]
      {
        ySamples := ySamples[i := parts[i][k]];
      }
      assert ySamples == Column(parts, k);
      var val := Interpolate(xSamples, ySamples, 0);
      secret := secret[k := val];
    }
    assert Combined(parts).Ok? && secret == Combined(parts).value;
    r := Ok(secret);
  }

  // ----- recovery -----

  // The shares at the given coordinates.
  ghost function SharesAt(secret: seq<Elem>, draws: seq<seq<Elem>>, xs: seq<Elem>): (s: seq<Share>)
    requires |draws| == |secret|
    ensures |s| == |xs|
  {
    seq(|xs|, i requires 0 <= i < |xs| => ShareAt(secret, draws, xs[i]))
  }

  lemma SharesAtShape(secret: seq<Elem>, draws: seq<seq<Elem>>, xs: seq<Elem>)
    requires |draws| == |secret|
    ensures CoordinatesOf(SharesAt(secret, draws, xs)) == xs
    ensures forall k | 0 <= k < |secret| ::
        Column(SharesAt(secret, draws, xs), k) == seq(|xs|, i requires 0 <= i < |xs| => Eval([secret[k]] + draws[k], xs[i]))
  {}

  /** At least threshold shares at different points give the secret back, in any order. */
  lemma Recovery(secret: seq<Elem>, draws: seq<seq<Elem>>, xs: seq<Elem>)
    requires secret != [] && |draws| == |secret| && |xs| >= 2 && Distinct(xs)
    requires forall k | 0 <= k < |draws| :: |draws[k]| < |xs|
    ensures Combined(SharesAt(secret, draws, xs)) == Ok(secret)
  {
    var parts := SharesAt(secret, draws, xs);
    SharesAtShape(secret, draws, xs);
    forall k | 0 <= k < |secret|
      ensures InterpolationAt(xs, Column(parts, k), |xs|, 0) == secret[k]
    {
      var p := [secret[k]] + draws[k];
      InterpolationRecovers(p, xs, Column(parts, k), 0);
      MulZeroOne(Eval(p[1..], 0));
      AddZero(secret[k]);
    }
    var got := Combined(parts);
    assert got.Ok?;
    assert got.value == secret;
  }

  // Indices of parts, each at most once.
  ghost predicate IsSelection(chosen: seq<nat>, parts: int) {
    && (forall i | 0 <= i < |chosen| :: chosen[i] < parts)
    && (forall i, j | 0 <= i < j < |chosen| :: chosen[i] != chosen[j])
  }

  ghost function Select(shares: seq<Share>, chosen: seq<nat>): (s: seq<Share>)
    requires forall i | 0 <= i < |chosen| :: chosen[i] < |shares|
    ensures |s| == |chosen|
  {
    seq(|chosen|, i requires 0 <= i < |chosen| => shares[chosen[i]])
  }

  ghost function Coordinates(perm: seq<Elem>, chosen: seq<nat>): (xs: seq<Elem>)
    requires forall i | 0 <= i < |chosen| :: chosen[i] < |perm|
    ensures |xs| == |chosen|
  {
    seq(|chosen|, i requires 0 <= i < |chosen| => Coordinate(perm, chosen[i]))
  }

  lemma CoordinatesDiffer(perm: seq<Elem>, i: nat, j: nat)
    requires IsPermutation(perm) && i < 255 && j < 255
    ensures Coordinate(perm, i) == Coordinate(perm, j) <==> i == j
    ensures Coordinate(perm, i) != 0
  {
    IncrementInjective(perm[i], perm[j]);
    if i < j {
      assert perm[i] != perm[j];
    } else if j < i {
      assert perm[j] != perm[i];
    }
  }

  lemma IncrementInjective(a: Elem, b: Elem)
    ensures a + 1 == b + 1 <==> a == b
    ensures a != 255 ==> a + 1 != 0
  {}

  /** Combine undoes Split, for every selection of at least threshold shares in any order. */
  lemma CombineInvertsSplit(secret: seq<Elem>, parts: int, threshold: int, perm: seq<Elem>,
                            draws: seq<seq<Elem>>, shares: seq<Share>, chosen: seq<nat>)
    requires IsPermutation(perm) && AreDraws(draws, secret, threshold - 1)
    requires SplitRefusal(secret, parts, threshold) == None
    requires |shares| == parts
    requires forall i | 0 <= i < parts :: shares[i] == ShareAt(secret, draws, Coordinate(perm, i))
    requires IsSelection(chosen, parts) && |chosen| >= threshold
    ensures Combined(Select(shares, chosen)) == Ok(secret)
  {
    var xs := Coordinates(perm, chosen);
    forall i, j | 0 <= i < j < |xs|
      ensures xs[i] != xs[j]
    {
      CoordinatesDiffer(perm, chosen[i], chosen[j]);
    }
    assert Select(shares, chosen) == SharesAt(secret, draws, xs);
    Recovery(secret, draws, xs);
  }
}
