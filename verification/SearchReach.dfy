/** How far discovery's epoch search reaches: internal/discover/discover.go:175-229. */
module SearchReach {
  import opened Common
  import opened Discovery

  // The set opens at no epoch of a range.
  ghost predicate Closed(c: Crypto, k: SetKey, ps: PartSet, low: int, high: int)
    requires ps.total > 0
  {
    forall e: nat | low <= e <= high :: OpensAt(c, e, k, ps) == None
  }

  // A candidate that some set gives at some epoch.
  ghost predicate Authentic(c: Crypto, sets: map<SetKey, PartSet>, cand: Candidate) {
    exists k, e :: k in sets && sets[k].total > 0 && OpensAt(c, e, k, sets[k]) == Some(cand)
  }

  lemma {:induction false} OpenTriesAll(c: Crypto, k: SetKey, ps: PartSet, epochs: seq<nat>)
    requires ps.total > 0
    ensures match Open(c, k, ps, epochs)
            case None => forall e | e in epochs :: OpensAt(c, e, k, ps) == None
            case Some(cand) => exists e :: e in epochs && OpensAt(c, e, k, ps) == Some(cand)
  {
    hide OpensAt;
    if epochs != [] {
      OpenTriesAll(c, k, ps, epochs[1..]);
      if OpensAt(c, epochs[0], k, ps).Some? {
        assert epochs[0] in epochs;
      } else if Open(c, k, ps, epochs).Some? {
        var e :| e in epochs[1..] && OpensAt(c, e, k, ps) == Open(c, k, ps, epochs);
        assert e in epochs;
      } else {
        forall e | e in epochs
          ensures OpensAt(c, e, k, ps) == None
        {
          assert e == epochs[0] || e in epochs[1..];
        }
      }
    }
  }

  // What one pass does with each set.
  lemma {:induction false} PassSplits(c: Crypto, sets: map<SetKey, PartSet>, keys: seq<SetKey>, epochs: seq<nat>, k: SetKey)
    requires Known(sets, keys) && k in keys
    ensures var (cands, still) := Pass(c, sets, keys, epochs);
            match Open(c, k, sets[k], epochs)
            case None => k in still
            case Some(cand) => cand in cands
  {
    hide Open;
    var last := |keys| - 1;
    if k in keys[..last] {
      PassSplits(c, sets, keys[..last], epochs, k);
    } else {
      assert k == keys[last];
    }
  }

  lemma {:induction false} PassKeeps(c: Crypto, sets: map<SetKey, PartSet>, keys: seq<SetKey>, epochs: seq<nat>)
    requires Known(sets, keys)
    ensures var (cands, still) := Pass(c, sets, keys, epochs);
            && (forall k | k in still :: k in keys && Open(c, k, sets[k], epochs) == None)
            && (forall cand | cand in cands :: exists k :: k in keys && Open(c, k, sets[k], epochs) == Some(cand))
  {
    hide Open;
    if keys != [] {
      var last := |keys| - 1;
      PassKeeps(c, sets, keys[..last], epochs);
      var (cands, still) := Pass(c, sets, keys, epochs);
      var (cands', still') := Pass(c, sets, keys[..last], epochs);
      forall cand | cand in cands
        ensures exists k :: k in keys && Open(c, k, sets[k], epochs) == Some(cand)
      {
        if cand in cands' {
          var k :| k in keys[..last] && Open(c, k, sets[k], epochs) == Some(cand);
          assert k in keys;
        } else {
          assert keys[last] in keys;
        }
      }
    }
  }

  lemma PassCloses(c: Crypto, sets: map<SetKey, PartSet>, keys: seq<SetKey>, epochs: seq<nat>, k: SetKey)
    requires Known(sets, keys) && k in Pass(c, sets, keys, epochs).1
    ensures k in keys && k in sets && sets[k].total > 0 && forall e | e in epochs :: OpensAt(c, e, k, sets[k]) == None
  {
    hide OpensAt, Pass, Open;
    PassKeeps(c, sets, keys, epochs);
    OpenTriesAll(c, k, sets[k], epochs);
  }

  /** At its end, the upward search has tried every epoch that it could have followed. */
  lemma {:induction false} ClimbReaches(c: Crypto, sets: map<SetKey, PartSet>, hint: nat, cands: seq<Candidate>, pending: seq<SetKey>,
                                        upper: nat, low: nat)
    requires Known(sets, pending)
    requires forall k | k in pending :: Closed(c, k, sets[k], low, Min(upper, MAX_EPOCH))
    ensures var (all, left) := Climb(c, sets, hint, cands, pending, upper);
            && Known(sets, left)
            && (forall k | k in left :: k in pending && Closed(c, k, sets[k], low, Reach(hint, all)))
    decreases MAX_EPOCH - upper
  {
    hide OpensAt, Open, Pass;
    var next := Reach(hint, cands);
    if pending != [] && next > upper {
      var epochs := Up(upper + 1, next);
      PassKnown(c, sets, pending, epochs);
      var (found, still) := Pass(c, sets, pending, epochs);
      forall k | k in still
        ensures k in pending && Closed(c, k, sets[k], low, next)
      {
        PassCloses(c, sets, pending, epochs, k);
        forall e: nat | low <= e <= next
          ensures OpensAt(c, e, k, sets[k]) == None
        {
          UpHolds(upper + 1, next, e);
        }
      }
      ClimbReaches(c, sets, hint, cands + found, still, next, low);
    }
  }

  /**
    Every complete manifest that stays closed opens at no epoch from floor - 63 up to 64 above the
    newest of the hint and the epochs found, within 0 and 2^32 - 1.
   */
  lemma SearchReaches(c: Crypto, g: Groups, hint: nat, floor: nat, k: SetKey, e: nat)
    requires WellGrouped(g) && Known(g.sets, g.order) && floor <= hint <= MAX_EPOCH
    requires k in Search(c, g, hint, floor).1
    requires Max(0, floor - 63) <= e <= Min(Top(hint, Search(c, g, hint, floor).0) + 64, MAX_EPOCH)
    ensures k in g.sets && g.sets[k].total > 0 && OpensAt(c, e, k, g.sets[k]) == None
  {
    hide OpensAt, Open, Pass, Climb;
    var keys := CompleteKeys(g.sets, g.order);
    var epochs := ProbeOrder(hint, floor);
    var (cands, pending) := Pass(c, g.sets, keys, epochs);
    PassKnown(c, g.sets, keys, epochs);
    forall k | k in pending
      ensures Closed(c, k, g.sets[k], Lowest(hint, floor), Min(hint + MAX_PROBE, MAX_EPOCH))
    {
      PassCloses(c, g.sets, keys, epochs, k);
      forall e: nat | Lowest(hint, floor) <= e <= Min(hint + MAX_PROBE, MAX_EPOCH)
        ensures OpensAt(c, e, k, g.sets[k]) == None
      {
        ProbesCover(hint, floor, e);
      }
    }
    ClimbReaches(c, g.sets, hint, cands, pending, hint + MAX_PROBE, Lowest(hint, floor));
  }

  // The set gave one of the candidates.
  ghost predicate Found(c: Crypto, k: SetKey, ps: PartSet, cands: seq<Candidate>)
    requires ps.total > 0
  {
    exists e, cand :: cand in cands && OpensAt(c, e, k, ps) == Some(cand)
  }

  lemma FoundStays(c: Crypto, k: SetKey, ps: PartSet, cands: seq<Candidate>, more: seq<Candidate>)
    requires ps.total > 0 && Found(c, k, ps, cands)
    ensures Found(c, k, ps, cands + more)
  {
    hide OpensAt;
    var e, cand :| cand in cands && OpensAt(c, e, k, ps) == Some(cand);
    assert cand in cands + more;
  }

  lemma PassFinds(c: Crypto, sets: map<SetKey, PartSet>, keys: seq<SetKey>, epochs: seq<nat>, k: SetKey)
    requires Known(sets, keys) && k in keys
    ensures k in Pass(c, sets, keys, epochs).1 || Found(c, k, sets[k], Pass(c, sets, keys, epochs).0)
  {
    hide OpensAt, Pass, Open;
    PassSplits(c, sets, keys, epochs, k);
    OpenTriesAll(c, k, sets[k], epochs);
  }

  lemma {:induction false} ClimbFinds(c: Crypto, sets: map<SetKey, PartSet>, hint: nat, cands: seq<Candidate>, pending: seq<SetKey>,
                                      upper: nat, k: SetKey)
    requires Known(sets, pending) && k in sets && sets[k].total > 0
    requires k in pending || Found(c, k, sets[k], cands)
    ensures var (all, left) := Climb(c, sets, hint, cands, pending, upper);
            k in left || Found(c, k, sets[k], all)
    decreases MAX_EPOCH - upper
  {
    hide OpensAt, Open, Pass, Found;
    var next := Reach(hint, cands);
    if pending != [] && next > upper {
      var epochs := Up(upper + 1, next);
      PassKnown(c, sets, pending, epochs);
      var (found, still) := Pass(c, sets, pending, epochs);
      if k in pending {
        PassFinds(c, sets, pending, epochs, k);
        if k !in still {
          FoundStays(c, k, sets[k], found, []);
          FoundAfter(c, k, sets[k], cands, found);
        }
      } else {
        FoundStays(c, k, sets[k], cands, found);
      }
      ClimbFinds(c, sets, hint, cands + found, still, next, k);
    }
  }

  lemma FoundAfter(c: Crypto, k: SetKey, ps: PartSet, before: seq<Candidate>, cands: seq<Candidate>)
    requires ps.total > 0 && Found(c, k, ps, cands)
    ensures Found(c, k, ps, before + cands)
  {
    hide OpensAt;
    var e, cand :| cand in cands && OpensAt(c, e, k, ps) == Some(cand);
    assert cand in before + cands;
  }

  lemma {:induction false} CompleteKeysHold(sets: map<SetKey, PartSet>, order: seq<SetKey>, k: SetKey)
    requires Known(sets, order)
    ensures k in CompleteKeys(sets, order) <==> k in order && CompleteSet(sets[k])
  {
    if order != [] {
      CompleteKeysHold(sets, order[..|order| - 1], k);
      assert order == order[..|order| - 1] + [order[|order| - 1]];
    }
  }

  /** No complete set is lost: it gave a candidate, or it is reported as closed. */
  lemma SearchFinds(c: Crypto, g: Groups, hint: nat, floor: nat, k: SetKey)
    requires Known(g.sets, g.order) && k in g.order && CompleteSet(g.sets[k])
    ensures k in Search(c, g, hint, floor).1 || Found(c, k, g.sets[k], Search(c, g, hint, floor).0)
  {
    var keys := CompleteKeys(g.sets, g.order);
    var epochs := ProbeOrder(hint, floor);
    CompleteKeysHold(g.sets, g.order, k);
    hide *;
    PassKnown(c, g.sets, keys, epochs);
    PassFinds(c, g.sets, keys, epochs, k);
    SearchIsClimb(c, g, hint, floor);
    ClimbFinds(c, g.sets, hint, Pass(c, g.sets, keys, epochs).0, Pass(c, g.sets, keys, epochs).1, hint + MAX_PROBE, k);
  }

  lemma SearchIsClimb(c: Crypto, g: Groups, hint: nat, floor: nat)
    requires Known(g.sets, g.order)
    ensures var keys := CompleteKeys(g.sets, g.order);
            var first := Pass(c, g.sets, keys, ProbeOrder(hint, floor));
            Known(g.sets, first.1) && Search(c, g, hint, floor) == Climb(c, g.sets, hint, first.0, first.1, hint + MAX_PROBE)
  {
    PassKnown(c, g.sets, CompleteKeys(g.sets, g.order), ProbeOrder(hint, floor));
  }

  // Every candidate comes from a set whose parts all opened under one epoch's key.
  lemma {:induction false} ClimbIsAuthentic(c: Crypto, sets: map<SetKey, PartSet>, hint: nat, cands: seq<Candidate>,
                                            pending: seq<SetKey>, upper: nat)
    requires Known(sets, pending)
    requires forall cand | cand in cands :: Authentic(c, sets, cand)
    ensures forall cand | cand in Climb(c, sets, hint, cands, pending, upper).0 :: Authentic(c, sets, cand)
    decreases MAX_EPOCH - upper
  {
    hide OpensAt, Open, Pass, Authentic;
    var next := Reach(hint, cands);
    if pending != [] && next > upper {
      var epochs := Up(upper + 1, next);
      PassKnown(c, sets, pending, epochs);
      var (found, still) := Pass(c, sets, pending, epochs);
      PassIsAuthentic(c, sets, pending, epochs);
      ClimbIsAuthentic(c, sets, hint, cands + found, still, next);
    }
  }

  lemma PassIsAuthentic(c: Crypto, sets: map<SetKey, PartSet>, keys: seq<SetKey>, epochs: seq<nat>)
    requires Known(sets, keys)
    ensures forall cand | cand in Pass(c, sets, keys, epochs).0 :: Authentic(c, sets, cand)
  {
    hide OpensAt, Open, Pass;
    PassKeeps(c, sets, keys, epochs);
    forall cand | cand in Pass(c, sets, keys, epochs).0
      ensures Authentic(c, sets, cand)
    {
      var k :| k in keys && Open(c, k, sets[k], epochs) == Some(cand);
      OpenTriesAll(c, k, sets[k], epochs);
    }
  }

  /** Nothing is a candidate unless it authenticates. */
  lemma SearchIsAuthentic(c: Crypto, g: Groups, hint: nat, floor: nat)
    requires Known(g.sets, g.order)
    ensures forall cand | cand in Search(c, g, hint, floor).0 :: Authentic(c, g.sets, cand)
  {
    var keys := CompleteKeys(g.sets, g.order);
    var epochs := ProbeOrder(hint, floor);
    hide *;
    SearchIsClimb(c, g, hint, floor);
    PassIsAuthentic(c, g.sets, keys, epochs);
    PassKnown(c, g.sets, keys, epochs);
    ClimbIsAuthentic(c, g.sets, hint, Pass(c, g.sets, keys, epochs).0, Pass(c, g.sets, keys, epochs).1, hint + MAX_PROBE);
  }

  // ----- rotation chains -----

  lemma {:induction false} TopIsAbove(hint: nat, cands: seq<Candidate>, cand: Candidate)
    requires cand in cands
    ensures Top(hint, cands) >= cand.manifest.epoch
  {
    var last := |cands| - 1;
    if cand != cands[last] {
      TopIsAbove(hint, cands[..last], cand);
    }
  }

  // A complete set that opens at this epoch and at no other.
  ghost predicate BelongsTo(c: Crypto, g: Groups, k: SetKey, epoch: nat) {
    && k in g.order && k in g.sets && g.sets[k].total > 0 && CompleteSet(g.sets[k])
    && OpensAt(c, epoch, k, g.sets[k]).Some?
    && forall e | e != epoch :: OpensAt(c, e, k, g.sets[k]) == None
  }

  lemma FoundAtItsEpoch(c: Crypto, g: Groups, k: SetKey, epoch: nat, cands: seq<Candidate>)
    requires BelongsTo(c, g, k, epoch) && Found(c, k, g.sets[k], cands)
    ensures exists cand :: cand in cands && OpensAt(c, epoch, k, g.sets[k]) == Some(cand) && cand.manifest.epoch == epoch
  {
    hide PlainUpTo, FirstOpen;
    var e, cand :| cand in cands && OpensAt(c, e, k, g.sets[k]) == Some(cand);
    assert e == epoch;
  }

  /**
    A chain of rotations with gaps of at most 64 epochs is followed to any height: every backup of
    the chain is found.
   */
  lemma {:induction false} RotationsAreFollowed(c: Crypto, g: Groups, hint: nat, floor: nat, keys: seq<SetKey>, epochs: seq<nat>, i: nat)
    requires WellGrouped(g) && Known(g.sets, g.order) && floor <= hint <= MAX_EPOCH
    requires |keys| == |epochs| && i < |keys|
    requires forall j | 0 <= j < |keys| :: BelongsTo(c, g, keys[j], epochs[j]) && floor - 63 <= epochs[j] <= MAX_EPOCH
    requires epochs[0] <= hint + 64
    requires forall j | 0 < j < |keys| :: epochs[j] <= epochs[j - 1] + 64
    ensures BelongsTo(c, g, keys[i], epochs[i])
    ensures exists cand :: cand in Search(c, g, hint, floor).0 && OpensAt(c, epochs[i], keys[i], g.sets[keys[i]]) == Some(cand)
  {
    hide OpensAt, Search, Reach, WellGrouped, Found;
    var (cands, left) := Search(c, g, hint, floor);
    var k, e := keys[i], epochs[i];
    assert BelongsTo(c, g, k, e);
    if i > 0 {
      RotationsAreFollowed(c, g, hint, floor, keys, epochs, i - 1);
      var before :| before in cands && OpensAt(c, epochs[i - 1], keys[i - 1], g.sets[keys[i - 1]]) == Some(before);
      EpochOfCandidate(c, epochs[i - 1], keys[i - 1], g.sets[keys[i - 1]]);
      TopIsAbove(hint, cands, before);
    }
    SearchFinds(c, g, hint, floor, k);
    if k in left {
      SearchReaches(c, g, hint, floor, k, e);
      assert false;
    }
    FoundAtItsEpoch(c, g, k, e, cands);
  }

  lemma EpochOfCandidate(c: Crypto, e: nat, k: SetKey, ps: PartSet)
    requires ps.total > 0 && OpensAt(c, e, k, ps).Some?
    ensures OpensAt(c, e, k, ps).value.manifest.epoch == e && OpensAt(c, e, k, ps).value.id == k.id
    ensures OpensAt(c, e, k, ps).value.manifest.id == k.id
  {
  }
}
