/**
  The manifests that discovery found and could not open, as it reports them:
  internal/discover/discover.go:155-177, 230-241, 314-323 and 341-353.
 */
module Rejections {
  import opened Common
  import opened Discovery
  import opened SearchReach

  // after: landed behind the backup that was selected, or nobody can tell.
  datatype Report = Report(rejected: nat, after: nat)

  // ledger is the newest ledger that a part of the set landed in, 0 when the source gives none.
  ghost predicate IsLastLedger(ps: PartSet, ledger: nat) {
    && (forall i, j | i in ps.parts && 0 <= j < |ps.parts[i]| :: ps.parts[i][j].ledger <= ledger)
    && (ledger > 0 ==> exists i, j :: i in ps.parts && 0 <= j < |ps.parts[i]| && ps.parts[i][j].ledger == ledger)
  }

  method LastLedger(ps: PartSet) returns (ledger: nat)
    ensures IsLastLedger(ps, ledger)
  {
    ledger := 0;
    var todo := ps.parts.Keys;
    while todo != {}
      invariant todo <= ps.parts.Keys
      invariant forall i, j | i in ps.parts.Keys - todo && 0 <= j < |ps.parts[i]| :: ps.parts[i][j].ledger <= ledger
      invariant ledger > 0 ==> exists i, j :: i in ps.parts && 0 <= j < |ps.parts[i]| && ps.parts[i][j].ledger == ledger
    {
      var i :| i in todo;
      todo := todo - {i};
      for j := 0 to |ps.parts[i]|
        invariant forall k, m | k in ps.parts.Keys - todo - {i} && 0 <= m < |ps.parts[k]| :: ps.parts[k][m].ledger <= ledger
        invariant forall m | 0 <= m < j :: ps.parts[i][m].ledger <= ledger
        invariant ledger > 0 ==> exists k, m :: k in ps.parts && 0 <= m < |ps.parts[k]| && ps.parts[k][m].ledger == ledger
      {
        if ps.parts[i][j].ledger > ledger {
          ledger := ps.parts[i][j].ledger;
        }
      }
    }
  }

  lemma OneLastLedger(ps: PartSet, a: nat, b: nat)
    requires IsLastLedger(ps, a) && IsLastLedger(ps, b)
    ensures a == b
  {
  }

  // Some part of the set landed behind the given ledger, or one of the two ledgers is not known.
  ghost predicate MayBeAfter(ps: PartSet, ledger: nat) {
    exists last: nat :: IsLastLedger(ps, last) && (last == 0 || ledger == 0 || last > ledger)
  }

  ghost function CountAfter(sets: map<SetKey, PartSet>, keys: seq<SetKey>, ledger: nat): nat
    requires Known(sets, keys)
  {
    if keys == [] then 0
    else CountAfter(sets, keys[..|keys| - 1], ledger) + if MayBeAfter(sets[keys[|keys| - 1]], ledger) then 1 else 0
  }

  ghost function ReportOf(g: Groups, closed: seq<SetKey>, latest: Option<Candidate>): Report
    requires Known(g.sets, closed)
  {
    Report(|g.oversized| + |closed|, if latest.None? then 0 else CountAfter(g.sets, closed, latest.value.ledger))
  }

  /** The counts of Run. */
  method CountRejected(g: Groups, closed: seq<SetKey>, latest: Option<Candidate>) returns (r: Report)
    requires Known(g.sets, closed)
    ensures r == ReportOf(g, closed, latest)
  {
    var after := 0;
    if latest.Some? {
      for i := 0 to |closed|
        invariant after == CountAfter(g.sets, closed[..i], latest.value.ledger)
      {
        assert closed[..i + 1][..i] == closed[..i];
        var last := LastLedger(g.sets[closed[i]]);
        if last == 0 || latest.value.ledger == 0 || last > latest.value.ledger {
          after := after + 1;
        } else {
          NotAfter(g.sets[closed[i]], last, latest.value.ledger);
        }
      }
      assert closed[..|closed|] == closed;
    }
    r := Report(|g.oversized| + |closed|, after);
  }

  lemma NotAfter(ps: PartSet, last: nat, ledger: nat)
    requires IsLastLedger(ps, last) && 0 < last <= ledger
    ensures !MayBeAfter(ps, ledger)
  {
    forall l: nat | IsLastLedger(ps, l)
      ensures l == last
    {
      OneLastLedger(ps, l, last);
    }
  }

  lemma {:induction false} CountedAfter(sets: map<SetKey, PartSet>, keys: seq<SetKey>, ledger: nat)
    requires Known(sets, keys)
    ensures CountAfter(sets, keys, ledger) == 0 <==> forall k | k in keys :: !MayBeAfter(sets[k], ledger)
  {
    hide MayBeAfter;
    if keys != [] {
      CountedAfter(sets, keys[..|keys| - 1], ledger);
      assert keys == keys[..|keys| - 1] + [keys[|keys| - 1]];
    }
  }

  /**
    Nothing is dropped in silence: when nothing was rejected every complete set gave a candidate, and no
    set was oversized; when nothing rejected came after the newest backup, every set still closed had
    landed whole by then.
   */
  lemma NothingInSilence(c: Crypto, g: Groups, hint: nat, floor: nat, latest: Option<Candidate>)
    requires Known(g.sets, g.order)
    ensures var (cands, closed) := Search(c, g, hint, floor);
            && Known(g.sets, closed)
            && var r := ReportOf(g, closed, latest);
               && (r.rejected == 0 ==> g.oversized == {})
               && (r.rejected == 0 ==> forall k | k in g.order && CompleteSet(g.sets[k]) :: Found(c, k, g.sets[k], cands))
               && (latest.Some? ==> (r.after == 0 <==> forall k | k in closed :: !MayBeAfter(g.sets[k], latest.value.ledger)))
  {
    ClosedIsKnown(c, g, hint, floor);
    hide Search, Found, CountAfter, MayBeAfter;
    var (cands, closed) := Search(c, g, hint, floor);
    if latest.Some? {
      CountedAfter(g.sets, closed, latest.value.ledger);
    }
    forall k | k in g.order && CompleteSet(g.sets[k])
      ensures k in closed || Found(c, k, g.sets[k], cands)
    {
      SearchFinds(c, g, hint, floor, k);
    }
  }

  lemma ClosedIsKnown(c: Crypto, g: Groups, hint: nat, floor: nat)
    requires Known(g.sets, g.order)
    ensures Known(g.sets, Search(c, g, hint, floor).1)
  {
    var keys, epochs := CompleteKeys(g.sets, g.order), ProbeOrder(hint, floor);
    SearchIsClimb(c, g, hint, floor);
    hide Search, Climb, Pass, ProbeOrder, CompleteKeys;
    ClimbKnown(c, g.sets, hint, Pass(c, g.sets, keys, epochs).0, Pass(c, g.sets, keys, epochs).1, hint + MAX_PROBE);
  }

  lemma {:induction false} ClimbKnown(c: Crypto, sets: map<SetKey, PartSet>, hint: nat, cands: seq<Candidate>, pending: seq<SetKey>, upper: nat)
    requires Known(sets, pending)
    ensures Known(sets, Climb(c, sets, hint, cands, pending, upper).1)
    decreases MAX_EPOCH - upper
  {
    hide Pass, Up;
    var next := Reach(hint, cands);
    if pending != [] && next > upper {
      PassKnown(c, sets, pending, Up(upper + 1, next));
      var (found, still) := Pass(c, sets, pending, Up(upper + 1, next));
      ClimbKnown(c, sets, hint, cands + found, still, next);
    }
  }

  lemma {:induction false} CountIsSize(sets: map<SetKey, PartSet>, keys: seq<SetKey>, ledger: nat)
    requires Known(sets, keys) && forall i, j | 0 <= i < j < |keys| :: keys[i] != keys[j]
    ensures CountAfter(sets, keys, ledger) == |set k | k in keys && MayBeAfter(sets[k], ledger)|
  {
    hide MayBeAfter;
    var after := set k | k in keys && MayBeAfter(sets[k], ledger);
    if keys == [] {
      assert after == {};
    } else {
      var front, last := keys[..|keys| - 1], keys[|keys| - 1];
      var before := set k | k in front && MayBeAfter(sets[k], ledger);
      CountIsSize(sets, front, ledger);
      assert forall k :: k in keys <==> k in front || k == last;
      assert last !in front;
      if MayBeAfter(sets[last], ledger) {
        assert after == before + {last};
      } else {
        assert after == before;
      }
    }
  }

  // ----- each closed set is counted once -----

  ghost predicate Once(keys: seq<SetKey>) {
    forall i, j | 0 <= i < j < |keys| :: keys[i] != keys[j]
  }

  lemma AmongOthers(keys: seq<SetKey>, some: seq<SetKey>)
    requires keys != [] && Once(keys) && Once(some) && forall k | k in some :: k in keys[..|keys| - 1]
    ensures Once(some + [keys[|keys| - 1]]) && forall k | k in some + [keys[|keys| - 1]] :: k in keys
  {
    forall i | 0 <= i < |some|
      ensures some[i] != keys[|keys| - 1]
    {
      assert some[i] in some;
    }
  }

  lemma {:induction false} CompleteOnce(sets: map<SetKey, PartSet>, order: seq<SetKey>)
    requires Known(sets, order) && Once(order)
    ensures Once(CompleteKeys(sets, order)) && forall k | k in CompleteKeys(sets, order) :: k in order
  {
    hide CompleteSet;
    if order != [] {
      var last := |order| - 1;
      CompleteOnce(sets, order[..last]);
      AmongOthers(order, CompleteKeys(sets, order[..last]));
    }
  }

  lemma {:induction false} PassOnce(c: Crypto, sets: map<SetKey, PartSet>, keys: seq<SetKey>, epochs: seq<nat>)
    requires Known(sets, keys) && Once(keys)
    ensures Once(Pass(c, sets, keys, epochs).1) && forall k | k in Pass(c, sets, keys, epochs).1 :: k in keys
  {
    hide Open;
    if keys != [] {
      var last := |keys| - 1;
      PassOnce(c, sets, keys[..last], epochs);
      AmongOthers(keys, Pass(c, sets, keys[..last], epochs).1);
    }
  }

  lemma {:induction false} ClimbOnce(c: Crypto, sets: map<SetKey, PartSet>, hint: nat, cands: seq<Candidate>, pending: seq<SetKey>, upper: nat)
    requires Known(sets, pending) && Once(pending)
    ensures Once(Climb(c, sets, hint, cands, pending, upper).1)
    decreases MAX_EPOCH - upper
  {
    hide Pass, Up;
    var next := Reach(hint, cands);
    if pending != [] && next > upper {
      var epochs := Up(upper + 1, next);
      PassKnown(c, sets, pending, epochs);
      PassOnce(c, sets, pending, epochs);
      var (found, still) := Pass(c, sets, pending, epochs);
      ClimbOnce(c, sets, hint, cands + found, still, next);
    }
  }

  /**
    The report counts every manifest that was too large or stayed closed, and of the closed ones those of which a part
    landed behind the selected backup or nobody can tell, each once.
   */
  lemma ReportCounts(c: Crypto, g: Groups, hint: nat, floor: nat, latest: Option<Candidate>)
    requires WellGrouped(g) && Known(g.sets, g.order)
    ensures var closed := Search(c, g, hint, floor).1;
            && Known(g.sets, closed)
            && ReportOf(g, closed, latest).rejected == |g.oversized| + |set k | k in closed|
            && (latest.Some? ==>
                  ReportOf(g, closed, latest).after == |set k | k in closed && MayBeAfter(g.sets[k], latest.value.ledger)|)
  {
    var closed := Search(c, g, hint, floor).1;
    ClosedIsKnown(c, g, hint, floor);
    ClosedOnce(c, g, hint, floor);
    OnceIsSize(closed);
    hide Search, MayBeAfter, CountAfter;
    if latest.Some? {
      CountIsSize(g.sets, closed, latest.value.ledger);
    }
  }

  lemma ClosedOnce(c: Crypto, g: Groups, hint: nat, floor: nat)
    requires WellGrouped(g) && Known(g.sets, g.order)
    ensures Once(Search(c, g, hint, floor).1)
  {
    var keys, epochs := CompleteKeys(g.sets, g.order), ProbeOrder(hint, floor);
    CompleteOnce(g.sets, g.order);
    SearchIsClimb(c, g, hint, floor);
    hide Search, Climb, Pass, ProbeOrder, CompleteKeys;
    PassOnce(c, g.sets, keys, epochs);
    ClimbOnce(c, g.sets, hint, Pass(c, g.sets, keys, epochs).0, Pass(c, g.sets, keys, epochs).1, hint + MAX_PROBE);
  }

  lemma {:induction false} OnceIsSize(keys: seq<SetKey>)
    requires Once(keys)
    ensures |set k | k in keys| == |keys|
  {
    var all := set k | k in keys;
    if keys == [] {
      assert all == {};
    } else {
      var front, last := keys[..|keys| - 1], keys[|keys| - 1];
      OnceIsSize(front);
      assert forall k :: k in keys <==> k in front || k == last;
      assert last !in front;
      assert all == (set k | k in front) + {last};
    }
  }
}
