/**
  The recovery key's shares (internal/crypto/shares.go): bounds, threshold and split id around
  Shamir.Split and Shamir.Combine. The base32 text and the checksum are outside the model: a share
  whose text decodeShare refuses is None.
 */
module KeyShares {
  import opened Common
  import opened Gf256
  import opened Polynomial
  import opened Shamir

  const KEY_LEN := 32
  const MAX_SHARES := 16

  type SplitId = (Elem, Elem)

  datatype KeyShare = KeyShare(threshold: nat, splitId: SplitId, body: Share)

  datatype KeyError =
    | BadBounds
    | NeedTwoShares
    | BadShare(position: nat)
    | OtherSplit(position: nat)
    | BelowThreshold(threshold: nat, given: nat)
    | CombiningFailed(combineError: CombineError)
    | NotAKey

  // decodeShare lets through only bodies of 33 bytes.
  ghost predicate Decoded(shares: seq<Option<KeyShare>>) {
    forall i | 0 <= i < |shares| && shares[i].Some? :: |shares[i].value.body| == KEY_LEN + 1
  }

  /** RootKey.Split. */
  method SplitKey(key: seq<Elem>, n: int, t: int, perm: seq<Elem>, draws: seq<seq<Elem>>, splitId: SplitId)
    returns (r: Result<seq<KeyShare>, KeyError>)
    requires |key| == KEY_LEN && IsPermutation(perm)
    requires 2 <= t ==> AreDraws(draws, key, t - 1)
    ensures r.Ok? <==> 2 <= t <= n <= MAX_SHARES
    ensures r.Ok? ==> |r.value| == n && |draws| == |key| && forall i | 0 <= i < n ::
                r.value[i] == KeyShare(t, splitId, ShareAt(key, draws, Coordinate(perm, i)))
    ensures r.Err? ==> r.error == BadBounds
  {
    if t < 2 || n < t || n > MAX_SHARES {
      return Err(BadBounds);
    }
    var raw := Split(key, n, t, perm, draws);
    if raw.Err? {
      assert false; // the bounds above are stricter than Split's own
    }
    var out := [];
    for i := 0 to n
      invariant |out| == i
      invariant forall m | 0 <= m < i :: out[m] == KeyShare(t, splitId, raw.value[m])
    {
      out := out + [KeyShare(t, splitId, raw.value[i])];
    }
    r := Ok(out);
  }

  // The first share that is unreadable or from another split than share 0, from position i on.
  ghost function FirstMisfit(shares: seq<Option<KeyShare>>, i: nat): Option<KeyError>
    requires i <= |shares|
    decreases |shares| - i
  {
    if i == |shares| then None
    else if shares[i].None? then Some(BadShare(i + 1))
    else if i > 0 && shares[0].Some? && !SameSplit(shares[0].value, shares[i].value) then Some(OtherSplit(i + 1))
    else FirstMisfit(shares, i + 1)
  }

  ghost predicate SameSplit(a: KeyShare, b: KeyShare) {
    a.threshold == b.threshold && a.splitId == b.splitId
  }

  ghost function Bodies(shares: seq<Option<KeyShare>>): (parts: seq<Share>)
    requires forall i | 0 <= i < |shares| :: shares[i].Some?
    ensures |parts| == |shares|
  {
    seq(|shares|, i requires 0 <= i < |shares| => shares[i].value.body)
  }

  lemma {:induction false} NoMisfit(shares: seq<Option<KeyShare>>, i: nat)
    requires i <= |shares|
    ensures FirstMisfit(shares, i) == None ==>
              forall m | i <= m < |shares| :: shares[m].Some? && (m > 0 && shares[0].Some? ==> SameSplit(shares[0].value, shares[m].value))
    ensures (forall m | i <= m < |shares| :: shares[m].Some? && (m > 0 && shares[0].Some? ==> SameSplit(shares[0].value, shares[m].value)))
              ==> FirstMisfit(shares, i) == None
    decreases |shares| - i
  {
    if i < |shares| {
      NoMisfit(shares, i + 1);
    }
  }

  ghost function CombinedKey(shares: seq<Option<KeyShare>>): Result<seq<Elem>, KeyError> {
    if |shares| < 2 then Err(NeedTwoShares)
    else if FirstMisfit(shares, 0).Some? then Err(FirstMisfit(shares, 0).value)
    else
      NoMisfit(shares, 0);
      var threshold := shares[0].value.threshold;
      if |shares| < threshold then Err(BelowThreshold(threshold, |shares|))
      else
        match Combined(Bodies(shares))
        case Err(e) => Err(CombiningFailed(e))
        case Ok(secret) => if |secret| != KEY_LEN then Err(NotAKey) else Ok(secret)
  }

  /** shares.go's Combine, after each share's text is decoded. */
  method CombineKey(shares: seq<Option<KeyShare>>) returns (r: Result<seq<Elem>, KeyError>)
    requires Decoded(shares)
    ensures r == CombinedKey(shares)
  {
    if |shares| < 2 {
      return Err(NeedTwoShares);
    }
    var raw: seq<Share> := [];
    var threshold: nat := 0;
    var splitId: SplitId := (0, 0);
    for i := 0 to |shares|
      invariant |raw| == i
      invariant forall m | 0 <= m < i :: shares[m].Some? && raw[m] == shares[m].value.body
      invariant i > 0 ==> threshold == shares[0].value.threshold && splitId == shares[0].value.splitId
      invariant FirstMisfit(shares, 0) == FirstMisfit(shares, i)
    {
      if shares[i].None? {
        return Err(BadShare(i + 1));
      }
      var share := shares[i].value;
      if i == 0 {
        threshold, splitId := share.threshold, share.splitId;
      } else if share.threshold != threshold || share.splitId != splitId {
        return Err(OtherSplit(i + 1));
      }
      raw := raw + [share.body];
    }
    if |shares| < threshold {
      return Err(BelowThreshold(threshold, |shares|));
    }
    assert raw == Bodies(shares);
    var secret := Combine(raw);
    if secret.Err? {
      return Err(CombiningFailed(secret.error));
    }
    if |secret.value| != KEY_LEN {
      return Err(NotAKey);
    }
    r := Ok(secret.value);
  }

  // The chosen shares of one split, repeats allowed.
  ghost function Pick(shares: seq<KeyShare>, chosen: seq<nat>): (s: seq<Option<KeyShare>>)
    requires forall i | 0 <= i < |chosen| :: chosen[i] < |shares|
    ensures |s| == |chosen|
  {
    seq(|chosen|, i requires 0 <= i < |chosen| => Some(shares[chosen[i]]))
  }

  /** What combining any pick of one split's shares gives: the key exactly for t or more different shares. */
  lemma KeyRecoveredExactly(key: seq<Elem>, n: nat, t: nat, perm: seq<Elem>, draws: seq<seq<Elem>>, splitId: SplitId,
                            shares: seq<KeyShare>, chosen: seq<nat>)
    requires |key| == KEY_LEN && IsPermutation(perm) && 2 <= t <= n <= MAX_SHARES && AreDraws(draws, key, t - 1)
    requires |shares| == n
    requires forall i | 0 <= i < n :: shares[i] == KeyShare(t, splitId, ShareAt(key, draws, Coordinate(perm, i)))
    requires forall i | 0 <= i < |chosen| :: chosen[i] < n
    ensures CombinedKey(Pick(shares, chosen)) ==
            if |chosen| < 2 then Err(NeedTwoShares)
            else if |chosen| < t then Err(BelowThreshold(t, |chosen|))
            else if !IsSelection(chosen, n) then Err(CombiningFailed(DuplicatePart))
            else Ok(key)
  {
    var picked := Pick(shares, chosen);
    if |chosen| >= 2 {
      NoMisfit(picked, 0);
      var parts := Bodies(picked);
      var xs := Coordinates(perm, chosen);
      assert parts == SharesAt(key, draws, xs);
      SharesAtShape(key, draws, xs);
      if |chosen| >= t {
        if IsSelection(chosen, n) {
          var bodies := seq(n, i requires 0 <= i < n => shares[i].body);
          assert parts == Select(bodies, chosen);
          CombineInvertsSplit(key, n, t, perm, draws, bodies, chosen);
        } else {
          var i, j :| 0 <= i < j < |chosen| && chosen[i] == chosen[j];
          assert xs[i] == xs[j];
          assert Combined(parts) == Err(DuplicatePart);
        }
      }
    }
  }

  /**
    What is accepted: readable shares that agree on threshold and split id, enough of them, at different
    coordinates. Nothing else tells two splits apart, so splits that drew one id combine to a wrong key.
   */
  lemma AcceptedExactly(shares: seq<Option<KeyShare>>)
    requires Decoded(shares)
    ensures CombinedKey(shares).Ok? <==>
            && |shares| >= 2
            && (forall i | 0 <= i < |shares| :: shares[i].Some?)
            && (forall i | 0 <= i < |shares| :: SameSplit(shares[0].value, shares[i].value))
            && |shares| >= shares[0].value.threshold
            && forall i, j | 0 <= i < j < |shares| :: shares[i].value.body[KEY_LEN] != shares[j].value.body[KEY_LEN]
  {
    if |shares| >= 2 {
      NoMisfit(shares, 0);
      if FirstMisfit(shares, 0) == None {
        var parts := Bodies(shares);
        assert forall i | 0 <= i < |parts| :: CoordinatesOf(parts)[i] == shares[i].value.body[KEY_LEN];
      }
    }
  }

  /** Shares whose threshold or split id differs never combine to a key. */
  lemma MixedSplitsRefused(shares: seq<Option<KeyShare>>, i: nat, j: nat)
    requires i < j < |shares| && shares[i].Some? && shares[j].Some?
    requires !SameSplit(shares[i].value, shares[j].value)
    ensures CombinedKey(shares).Err?
    ensures CombinedKey(shares).error.BadShare? || CombinedKey(shares).error.OtherSplit?
  {
    NoMisfit(shares, 0);
    MisfitKind(shares, 0);
  }

  lemma {:induction false} MisfitKind(shares: seq<Option<KeyShare>>, i: nat)
    requires i <= |shares|
    ensures match FirstMisfit(shares, i) case None => true case Some(e) => e.BadShare? || e.OtherSplit?
    decreases |shares| - i
  {
    if i < |shares| {
      MisfitKind(shares, i + 1);
    }
  }

  // The share at position m cannot be read, or is of another split than the first.
  ghost predicate Misfits(shares: seq<Option<KeyShare>>, m: nat)
    requires m < |shares|
  {
    shares[m].None? || (shares[0].Some? && !SameSplit(shares[0].value, shares[m].value))
  }

  /** The error names the first share that does not fit, counted from 1, and says why. */
  lemma {:induction false} FirstMisfitIsNamed(shares: seq<Option<KeyShare>>, i: nat, m: nat)
    requires i <= m < |shares| && Misfits(shares, m) && forall k | i <= k < m :: !Misfits(shares, k)
    ensures FirstMisfit(shares, i) == Some(if shares[m].None? then BadShare(m + 1) else OtherSplit(m + 1))
    decreases m - i
  {
    if i < m {
      assert !Misfits(shares, i);
      FirstMisfitIsNamed(shares, i + 1, m);
    }
  }
}
