/**
  Junk that lands anywhere in the history, ahead of the genuine parts too: internal/discover/discover.go:152-229.
  It shadows a set exactly when it is the first memo of the set's id and nonce and gives another total.
 */
module JunkAnywhere {
  import opened Common
  import opened Discovery
  import opened Judgement
  import opened JunkHistory
  import opened SearchReach

  // mixed is history with memos that no key opens put in anywhere.
  ghost predicate Mixed(c: Crypto, history: seq<Seen>, mixed: seq<Seen>) {
    if mixed == [] then history == []
    else
      var last := mixed[|mixed| - 1];
      || (history != [] && history[|history| - 1] == last && Mixed(c, history[..|history| - 1], mixed[..|mixed| - 1]))
      || (Junk(c, last) && Mixed(c, history, mixed[..|mixed| - 1]))
  }

  predicate Counts(s: Seen, k: SetKey) {
    s.key == k && s.total <= MAX_PARTS
  }

  // The total that the first memo of a key gives: the one its set is held to.
  function FirstTotal(history: seq<Seen>, k: SetKey): Option<nat> {
    if history == [] then None
    else
      var before, last := FirstTotal(history[..|history| - 1], k), history[|history| - 1];
      if before.Some? then before else if Counts(last, k) then Some(last.total) else None
  }

  // The ciphertexts of a key, a total and an index, oldest first.
  function PartsOf(history: seq<Seen>, k: SetKey, total: nat, i: nat): seq<MemoPart> {
    if history == [] then []
    else
      var last := history[|history| - 1];
      PartsOf(history[..|history| - 1], k, total, i) +
      if last.key == k && last.total == total && last.index == i then [MemoPart(last.ct, last.tx, last.ledger)] else []
  }

  // One sealing run draws one nonce and gives all its parts one total.
  ghost predicate OneTotal(history: seq<Seen>) {
    forall i, j | 0 <= i < |history| && 0 <= j < |history| && history[i].key == history[j].key
                  && history[i].total <= MAX_PARTS && history[j].total <= MAX_PARTS :: history[i].total == history[j].total
  }

  ghost predicate AllDecodable(history: seq<Seen>) {
    forall i | 0 <= i < |history| :: Decodable(history[i])
  }

  // ----- what a set holds -----

  // The set of a key is held to its first total and holds every part of that total.
  ghost predicate HoldsParts(g: Groups, history: seq<Seen>, k: SetKey) {
    && (k in g.sets <==> FirstTotal(history, k).Some?)
    && (k in g.sets ==> g.sets[k].total == FirstTotal(history, k).value <= MAX_PARTS)
    && (k in g.sets ==> forall i: nat :: Cts(g.sets[k], i) == PartsOf(history, k, g.sets[k].total, i))
    && (k in g.sets ==> forall i: nat | i in g.sets[k].parts :: PartsOf(history, k, g.sets[k].total, i) != [])
    && (k !in g.sets ==> forall total: nat, i: nat | total <= MAX_PARTS :: PartsOf(history, k, total, i) == [])
  }

  lemma {:induction false} GroupedHolds(history: seq<Seen>, k: SetKey)
    ensures HoldsParts(Grouped(history), history, k)
  {
    if history != [] {
      var front, last := history[..|history| - 1], history[|history| - 1];
      GroupedHolds(front, k);
      hide Grouped;
      AddHolds(Grouped(front), front, last, k);
      assert history == front + [last];
      assert Grouped(history) == Add(Grouped(front), last) by {
        GroupedNext(history);
      }
    }
  }

  lemma GroupedNext(history: seq<Seen>)
    requires history != []
    ensures Grouped(history) == Add(Grouped(history[..|history| - 1]), history[|history| - 1])
  {
  }

  lemma AddHolds(g: Groups, history: seq<Seen>, s: Seen, k: SetKey)
    requires HoldsParts(g, history, k)
    ensures HoldsParts(Add(g, s), history + [s], k)
  {
    assert (history + [s])[..|history|] == history;
    var g' := Add(g, s);
    forall total: nat, i: nat
      ensures PartsOf(history + [s], k, total, i) ==
              PartsOf(history, k, total, i) + if s.key == k && s.total == total && s.index == i then [MemoPart(s.ct, s.tx, s.ledger)] else []
    {
    }
    if k in g'.sets {
      forall i: nat
        ensures Cts(g'.sets[k], i) == PartsOf(history + [s], k, g'.sets[k].total, i)
        ensures i in g'.sets[k].parts ==> PartsOf(history + [s], k, g'.sets[k].total, i) != []
      {
        var more: seq<MemoPart> := PartsOf(history, k, g'.sets[k].total, i);
        assert more + [] == more;
      }
    }
  }

  // ----- what a key opens -----

  lemma {:induction false} FirstOpenEnds(c: Crypto, e: nat, k: SetKey, i: nat, total: nat, cts: seq<MemoPart>, p: MemoPart)
    ensures FirstOpen(c, e, k, i, total, cts + [p]) ==
            if FirstOpen(c, e, k, i, total, cts).Some? then FirstOpen(c, e, k, i, total, cts) else FirstOpen(c, e, k, i, total, [p])
  {
    if cts == [] {
      assert cts + [p] == [p];
    } else {
      assert (cts + [p])[1..] == cts[1..] + [p];
      FirstOpenEnds(c, e, k, i, total, cts[1..], p);
    }
  }

  lemma OneOpens(c: Crypto, e: nat, k: SetKey, i: nat, total: nat, p: MemoPart)
    ensures FirstOpen(c, e, k, i, total, [p]) == match c.open(e, k, i, total, p.ct) case Some(plain) => Some((p, plain)) case None => None
  {
    assert [p][1..] == [];
  }

  // Junk between the parts changes no first opening.
  lemma {:induction false} MixedOpens(c: Crypto, e: nat, history: seq<Seen>, mixed: seq<Seen>, k: SetKey, total: nat, i: nat)
    requires Mixed(c, history, mixed) && c.knows(e)
    ensures FirstOpen(c, e, k, i, total, PartsOf(mixed, k, total, i)) == FirstOpen(c, e, k, i, total, PartsOf(history, k, total, i))
    decreases |mixed|
  {
    if mixed != [] {
      var last, front := mixed[|mixed| - 1], mixed[..|mixed| - 1];
      var p := MemoPart(last.ct, last.tx, last.ledger);
      var had := PartsOf(front, k, total, i);
      assert had + [] == had;
      if history != [] && history[|history| - 1] == last && Mixed(c, history[..|history| - 1], front) {
        var before := PartsOf(history[..|history| - 1], k, total, i);
        assert before + [] == before;
        MixedOpens(c, e, history[..|history| - 1], front, k, total, i);
        hide FirstOpen;
        FirstOpenEnds(c, e, k, i, total, had, p);
        FirstOpenEnds(c, e, k, i, total, before, p);
      } else {
        MixedOpens(c, e, history, front, k, total, i);
        hide FirstOpen;
        FirstOpenEnds(c, e, k, i, total, had, p);
        OneOpens(c, e, k, i, total, p);
      }
    }
  }

  lemma {:induction false} OtherTotal(history: seq<Seen>, k: SetKey, total: nat, i: nat)
    requires OneTotal(history) && FirstTotal(history, k).Some? && total <= MAX_PARTS && total != FirstTotal(history, k).value
    ensures PartsOf(history, k, total, i) == []
  {
    FirstTotalAt(history, k);
    NoneOfTotal(history, k, total, i);
  }

  lemma {:induction false} FirstTotalAt(history: seq<Seen>, k: SetKey)
    ensures FirstTotal(history, k).Some? ==>
              exists j :: 0 <= j < |history| && Counts(history[j], k) && history[j].total == FirstTotal(history, k).value
  {
    if history != [] {
      var front, last := history[..|history| - 1], |history| - 1;
      FirstTotalAt(front, k);
      if FirstTotal(front, k).Some? {
        var j :| 0 <= j < last && Counts(front[j], k) && front[j].total == FirstTotal(front, k).value;
        assert history[j] == front[j];
      } else if Counts(history[last], k) {
        assert Counts(history[last], k);
      }
    }
  }

  lemma {:induction false} NoneOfTotal(history: seq<Seen>, k: SetKey, total: nat, i: nat)
    requires forall j | 0 <= j < |history| && Counts(history[j], k) :: history[j].total != total
    requires total <= MAX_PARTS
    ensures PartsOf(history, k, total, i) == []
  {
    if history != [] {
      var front, last := history[..|history| - 1], |history| - 1;
      assert forall j | 0 <= j < last :: front[j] == history[j];
      NoneOfTotal(front, k, total, i);
      assert Counts(history[last], k) ==> history[last].total != total;
    }
  }

  /**
    What a key opens of the mixed history: what it opened before, if its first memo still gives the same
    total, and otherwise nothing, under any epoch.
   */
  lemma AtAnywhere(c: Crypto, e: nat, history: seq<Seen>, mixed: seq<Seen>, k: SetKey)
    requires Mixed(c, history, mixed) && OneTotal(history) && AllDecodable(history) && AllDecodable(mixed)
    ensures At(c, e, Grouped(mixed).sets, k) ==
            if FirstTotal(mixed, k) == FirstTotal(history, k) then At(c, e, Grouped(history).sets, k) else None
  {
    var g, g' := Grouped(history), Grouped(mixed);
    GroupedHolds(history, k);
    GroupedHolds(mixed, k);
    GroupedIsWell(history);
    GroupedIsWell(mixed);
    hide Grouped, PlainUpTo, FirstOpen, PartsOf, FirstTotal, Mixed, OneTotal, Cts;
    if c.knows(e) && k in g'.sets {
      var total := g'.sets[k].total;
      forall i: nat
        ensures FirstOpen(c, e, k, i, total, Cts(g'.sets[k], i)) == FirstOpen(c, e, k, i, total, PartsOf(history, k, total, i))
      {
        MixedOpens(c, e, history, mixed, k, total, i);
      }
      if FirstTotal(mixed, k) == FirstTotal(history, k) {
        SameCandidate(c, e, k, g.sets[k], g'.sets[k]);
      } else {
        if k in g.sets {
          OtherTotal(history, k, total, 0);
        }
        NoneOpens(c, e, k, total);
        AbsentNeverOpens(c, e, k, g'.sets[k], 0, total);
        hide OpensAt;
        ClosedIsNone(c, e, k, g'.sets[k]);
      }
    }
  }

  lemma NoneOpens(c: Crypto, e: nat, k: SetKey, total: nat)
    ensures FirstOpen(c, e, k, 0, total, []) == None
  {
  }

  lemma ClosedIsNone(c: Crypto, e: nat, k: SetKey, ps: PartSet)
    requires ps.total > 0 && PlainUpTo(c, e, k, ps, ps.total) == None
    ensures OpensAt(c, e, k, ps) == None
  {
  }

  // ----- what the search finds -----

  ghost predicate SameSet<T(!new)>(a: seq<T>, b: seq<T>) {
    forall x :: x in a <==> x in b
  }

  // A key whose set is held to another total by a memo that came first.
  ghost predicate Shadowed(history: seq<Seen>, mixed: seq<Seen>, k: SetKey) {
    FirstTotal(history, k).Some? && FirstTotal(mixed, k) != FirstTotal(history, k)
  }

  // What the search of sets' shows of every key: what sets shows, or nothing.
  ghost predicate Shows(c: Crypto, sets: map<SetKey, PartSet>, sets': map<SetKey, PartSet>, lost: iset<SetKey>) {
    forall k, e :: At(c, e, sets', k) == if k in lost then None else At(c, e, sets, k)
  }

  // keys' holds the keys that are not lost, and beside them only keys that never open.
  ghost predicate Covers(c: Crypto, sets': map<SetKey, PartSet>, lost: iset<SetKey>, keys: seq<SetKey>, keys': seq<SetKey>) {
    && (forall k | k in keys && k !in lost :: k in keys')
    && (forall k | k in keys' :: k in keys || Never(c, sets', k))
  }

  // A lost key opens at none of these epochs.
  ghost predicate LostStaysClosed(c: Crypto, sets: map<SetKey, PartSet>, lost: iset<SetKey>, keys: seq<SetKey>, epochs: seq<nat>)
    requires Known(sets, keys)
  {
    forall k | k in keys && k in lost :: Open(c, k, sets[k], epochs) == None
  }

  lemma {:induction false} SameOrNoOpen(c: Crypto, sets: map<SetKey, PartSet>, sets': map<SetKey, PartSet>, lost: iset<SetKey>, k: SetKey,
                                        epochs: seq<nat>)
    requires k in sets && k in sets' && sets[k].total > 0 && sets'[k].total > 0 && Shows(c, sets, sets', lost)
    ensures Open(c, k, sets'[k], epochs) == if k in lost then None else Open(c, k, sets[k], epochs)
  {
    hide OpensAt;
    if epochs != [] {
      assert At(c, epochs[0], sets', k) == if k in lost then None else At(c, epochs[0], sets, k);
      SameOrNoOpen(c, sets, sets', lost, k, epochs[1..]);
    }
  }

  lemma CoveredPass(c: Crypto, sets: map<SetKey, PartSet>, sets': map<SetKey, PartSet>, lost: iset<SetKey>, keys: seq<SetKey>,
                    keys': seq<SetKey>, epochs: seq<nat>)
    requires Known(sets, keys) && Known(sets', keys') && Shows(c, sets, sets', lost) && Covers(c, sets', lost, keys, keys')
    requires LostStaysClosed(c, sets, lost, keys, epochs)
    ensures SameSet(Pass(c, sets, keys, epochs).0, Pass(c, sets', keys', epochs).0)
    ensures Covers(c, sets', lost, Pass(c, sets, keys, epochs).1, Pass(c, sets', keys', epochs).1)
  {
    var (cands, still) := Pass(c, sets, keys, epochs);
    var (cands', still') := Pass(c, sets', keys', epochs);
    PassKeeps(c, sets, keys, epochs);
    PassKeeps(c, sets', keys', epochs);
    hide Open, Pass, Never, Shows;
    forall cand | cand in cands
      ensures cand in cands'
    {
      var k :| k in keys && Open(c, k, sets[k], epochs) == Some(cand);
      SameOrNoOpen(c, sets, sets', lost, k, epochs);
      PassSplits(c, sets', keys', epochs, k);
    }
    forall cand | cand in cands'
      ensures cand in cands
    {
      var k :| k in keys' && Open(c, k, sets'[k], epochs) == Some(cand);
      OpenInBoth(c, sets, sets', lost, keys, keys', epochs, k);
      PassSplits(c, sets, keys, epochs, k);
    }
    forall k | k in still && k !in lost
      ensures k in still'
    {
      SameOrNoOpen(c, sets, sets', lost, k, epochs);
      PassSplits(c, sets', keys', epochs, k);
    }
    forall k | k in still'
      ensures k in still || Never(c, sets', k)
    {
      if k in keys {
        SameOrNoOpen(c, sets, sets', lost, k, epochs);
        PassSplits(c, sets, keys, epochs, k);
      }
    }
  }

  lemma OpenInBoth(c: Crypto, sets: map<SetKey, PartSet>, sets': map<SetKey, PartSet>, lost: iset<SetKey>, keys: seq<SetKey>,
                   keys': seq<SetKey>, epochs: seq<nat>, k: SetKey)
    requires Known(sets, keys) && Known(sets', keys') && Shows(c, sets, sets', lost) && Covers(c, sets', lost, keys, keys')
    requires k in keys' && Open(c, k, sets'[k], epochs).Some?
    ensures k in keys && Open(c, k, sets[k], epochs) == Open(c, k, sets'[k], epochs)
  {
    if k !in keys {
      NeverOpens(c, sets', k, epochs);
    } else {
      SameOrNoOpen(c, sets, sets', lost, k, epochs);
    }
  }

  lemma {:induction false} TopOfSet(hint: nat, cands: seq<Candidate>)
    ensures Top(hint, cands) == hint || exists cand :: cand in cands && cand.manifest.epoch == Top(hint, cands)
    ensures forall cand | cand in cands :: cand.manifest.epoch <= Top(hint, cands)
  {
    if cands != [] {
      var last := |cands| - 1;
      TopOfSet(hint, cands[..last]);
      assert cands == cands[..last] + [cands[last]];
    }
  }

  lemma SameTop(hint: nat, a: seq<Candidate>, b: seq<Candidate>)
    requires SameSet(a, b)
    ensures Reach(hint, a) == Reach(hint, b)
  {
    TopOfSet(hint, a);
    TopOfSet(hint, b);
  }

  lemma {:induction false} ClimbKeeps(c: Crypto, sets: map<SetKey, PartSet>, hint: nat, cands: seq<Candidate>, pending: seq<SetKey>, upper: nat)
    requires Known(sets, pending)
    ensures cands <= Climb(c, sets, hint, cands, pending, upper).0
    decreases MAX_EPOCH - upper
  {
    hide Pass, Up;
    var next := Reach(hint, cands);
    if pending != [] && next > upper {
      PassKnown(c, sets, pending, Up(upper + 1, next));
      var (found, still) := Pass(c, sets, pending, Up(upper + 1, next));
      ClimbKeeps(c, sets, hint, cands + found, still, next);
    }
  }

  // No lost key is among those that gave one of the candidates.
  ghost predicate NoneLost(c: Crypto, sets: map<SetKey, PartSet>, lost: iset<SetKey>, cands: seq<Candidate>) {
    forall k | k in lost && k in sets && sets[k].total > 0 :: !Found(c, k, sets[k], cands)
  }

  // A pass whose candidates are among those found opens no lost key.
  lemma LostIsClosed(c: Crypto, sets: map<SetKey, PartSet>, lost: iset<SetKey>, keys: seq<SetKey>, epochs: seq<nat>, all: seq<Candidate>)
    requires Known(sets, keys) && NoneLost(c, sets, lost, all) && forall cand | cand in Pass(c, sets, keys, epochs).0 :: cand in all
    ensures LostStaysClosed(c, sets, lost, keys, epochs)
  {
    hide Open, Pass, OpensAt;
    forall k | k in keys && k in lost
      ensures Open(c, k, sets[k], epochs) == None
    {
      PassSplits(c, sets, keys, epochs, k);
      OpenTriesAll(c, k, sets[k], epochs);
    }
  }

  lemma {:induction false} CoveredClimb(c: Crypto, sets: map<SetKey, PartSet>, sets': map<SetKey, PartSet>, lost: iset<SetKey>, hint: nat,
                                        cands: seq<Candidate>, cands': seq<Candidate>, pending: seq<SetKey>, pending': seq<SetKey>,
                                        upper: nat)
    requires Known(sets, pending) && Known(sets', pending') && Shows(c, sets, sets', lost) && Covers(c, sets', lost, pending, pending')
    requires SameSet(cands, cands') && NoneLost(c, sets, lost, Climb(c, sets, hint, cands, pending, upper).0)
    ensures SameSet(Climb(c, sets, hint, cands, pending, upper).0, Climb(c, sets', hint, cands', pending', upper).0)
    decreases MAX_EPOCH - upper
  {
    var next := Reach(hint, cands);
    SameTop(hint, cands, cands');
    if next > upper {
      hide Open, Pass, Covers, Known, Reach, Shows, NoneLost, Up, Found;
      var epochs := Up(upper + 1, next);
      PassKnown(c, sets, pending, epochs);
      PassKnown(c, sets', pending', epochs);
      var (found, still) := Pass(c, sets, pending, epochs);
      var (found', still') := Pass(c, sets', pending', epochs);
      ClimbStep(c, sets, hint, cands, pending, upper);
      ClimbStep(c, sets', hint, cands', pending', upper);
      ClimbKeeps(c, sets, hint, cands + found, still, next);
      hide Climb;
      var all := Climb(c, sets, hint, cands, pending, upper).0;
      forall cand | cand in found
        ensures cand in all
      {
        assert cand in cands + found;
      }
      LostIsClosed(c, sets, lost, pending, epochs, all);
      CoveredPass(c, sets, sets', lost, pending, pending', epochs);
      assert SameSet(cands + found, cands' + found');
      CoveredClimb(c, sets, sets', lost, hint, cands + found, cands' + found', still, still', next);
    }
  }

  // One round of the upward search; a round with nothing pending changes nothing.
  lemma ClimbStep(c: Crypto, sets: map<SetKey, PartSet>, hint: nat, cands: seq<Candidate>, pending: seq<SetKey>, upper: nat)
    requires Known(sets, pending) && Reach(hint, cands) > upper
    ensures var next := Reach(hint, cands);
            var (found, still) := Pass(c, sets, pending, Up(upper + 1, next));
            && Known(sets, still)
            && Climb(c, sets, hint, cands, pending, upper).0 == Climb(c, sets, hint, cands + found, still, next).0
  {
    var next := Reach(hint, cands);
    PassKnown(c, sets, pending, Up(upper + 1, next));
    if pending == [] {
      NothingToFind(c, sets, Up(upper + 1, next));
      assert cands + [] == cands;
    }
    hide Up, Reach;
  }

  // ----- the theorem -----

  ghost function LostKeys(history: seq<Seen>, mixed: seq<Seen>): iset<SetKey> {
    iset k | FirstTotal(mixed, k) != FirstTotal(history, k)
  }

  // The key's set gave a candidate of the search.
  ghost predicate FoundIn(c: Crypto, history: seq<Seen>, hint: nat, floor: nat, k: SetKey)
    requires AllDecodable(history)
  {
    GroupedIsWell(history);
    OrderIsKnown(Grouped(history));
    var g := Grouped(history);
    k in g.sets && Found(c, k, g.sets[k], Search(c, g, hint, floor).0)
  }

  lemma AllShown(c: Crypto, history: seq<Seen>, mixed: seq<Seen>)
    requires Mixed(c, history, mixed) && OneTotal(history) && AllDecodable(history) && AllDecodable(mixed)
    ensures Shows(c, Grouped(history).sets, Grouped(mixed).sets, LostKeys(history, mixed))
  {
    hide Grouped, At, FirstTotal, Mixed, OneTotal;
    forall k, e
      ensures At(c, e, Grouped(mixed).sets, k) ==
              if k in LostKeys(history, mixed) then None else At(c, e, Grouped(history).sets, k)
    {
      AtAnywhere(c, e, history, mixed, k);
    }
  }

  // Every complete key that is not lost is complete in the mixed history; the others never open.
  lemma CompleteCovers(c: Crypto, g: Groups, g': Groups, lost: iset<SetKey>)
    requires WellGrouped(g) && WellGrouped(g') && Known(g.sets, g.order) && Known(g'.sets, g'.order)
    requires Shows(c, g.sets, g'.sets, lost)
    requires forall k | k in g.sets && k !in lost :: k in g'.sets && |g'.sets[k].parts| >= |g.sets[k].parts| && g'.sets[k].total == g.sets[k].total
    ensures Covers(c, g'.sets, lost, CompleteKeys(g.sets, g.order), CompleteKeys(g'.sets, g'.order))
  {
    var keys, keys' := CompleteKeys(g.sets, g.order), CompleteKeys(g'.sets, g'.order);
    hide CompleteKeys, At, Never, Known;
    forall k | k in keys && k !in lost
      ensures k in keys'
    {
      CompleteKeysHold(g.sets, g.order, k);
      CompleteKeysHold(g'.sets, g'.order, k);
      IncompleteNever(c, g', k);
    }
    forall k | k in keys'
      ensures k in keys || Never(c, g'.sets, k)
    {
      CompleteKeysHold(g.sets, g.order, k);
      CompleteKeysHold(g'.sets, g'.order, k);
      if k !in keys {
        NotCompleteNever(c, g, g', lost, k);
      }
    }
  }

  lemma NotCompleteNever(c: Crypto, g: Groups, g': Groups, lost: iset<SetKey>, k: SetKey)
    requires WellGrouped(g) && Shows(c, g.sets, g'.sets, lost) && (k in g.sets ==> !CompleteSet(g.sets[k]))
    ensures Never(c, g'.sets, k)
  {
    if k in g.sets {
      IncompleteNever(c, g, k);
    }
    hide OpensAt;
    forall e: nat
      ensures At(c, e, g'.sets, k) == None
    {
      assert At(c, e, g.sets, k) == None;
    }
  }

  lemma {:induction false} MixedHasMore(c: Crypto, history: seq<Seen>, mixed: seq<Seen>, k: SetKey, total: nat, i: nat)
    requires Mixed(c, history, mixed)
    ensures |PartsOf(history, k, total, i)| <= |PartsOf(mixed, k, total, i)|
    decreases |mixed|
  {
    if mixed != [] {
      var last, front := mixed[|mixed| - 1], mixed[..|mixed| - 1];
      hide Junk;
      if history != [] && history[|history| - 1] == last && Mixed(c, history[..|history| - 1], front) {
        MixedHasMore(c, history[..|history| - 1], front, k, total, i);
      } else {
        MixedHasMore(c, history, front, k, total, i);
      }
    }
  }

  lemma {:induction false} NoSmaller<T>(a: set<T>, b: set<T>)
    requires a <= b
    ensures |a| <= |b|
  {
    if a != {} {
      var x :| x in a;
      NoSmaller(a - {x}, b - {x});
    }
  }

  lemma KeptHasMore(c: Crypto, history: seq<Seen>, mixed: seq<Seen>, k: SetKey)
    requires Mixed(c, history, mixed) && k in Grouped(history).sets && FirstTotal(mixed, k) == FirstTotal(history, k)
    ensures var g, g' := Grouped(history), Grouped(mixed);
            k in g'.sets && g'.sets[k].total == g.sets[k].total && |g'.sets[k].parts| >= |g.sets[k].parts|
  {
    var g, g' := Grouped(history), Grouped(mixed);
    GroupedHolds(history, k);
    GroupedHolds(mixed, k);
    hide Grouped, PartsOf, FirstTotal, Mixed;
    forall i | i in g.sets[k].parts.Keys
      ensures i in g'.sets[k].parts.Keys
    {
      MixedHasMore(c, history, mixed, k, g.sets[k].total, i);
    }
    NoSmaller(g.sets[k].parts.Keys, g'.sets[k].parts.Keys);
  }

  lemma SameFound(c: Crypto, history: seq<Seen>, mixed: seq<Seen>, hint: nat, floor: nat)
    requires Mixed(c, history, mixed) && OneTotal(history) && AllDecodable(history) && AllDecodable(mixed)
    requires forall k | Shadowed(history, mixed, k) :: !FoundIn(c, history, hint, floor, k)
    ensures var g, g' := Grouped(history), Grouped(mixed);
            && Known(g.sets, g.order) && Known(g'.sets, g'.order)
            && SameSet(Search(c, g, hint, floor).0, Search(c, g', hint, floor).0)
  {
    var g, g', lost := Grouped(history), Grouped(mixed), LostKeys(history, mixed);
    GroupedIsWell(history);
    GroupedIsWell(mixed);
    OrderIsKnown(g);
    OrderIsKnown(g');
    AllShown(c, history, mixed);
    forall k | k in g.sets && k !in lost
      ensures k in g'.sets && |g'.sets[k].parts| >= |g.sets[k].parts| && g'.sets[k].total == g.sets[k].total
    {
      KeptHasMore(c, history, mixed, k);
    }
    forall k | k in lost && k in g.sets && g.sets[k].total > 0
      ensures !Found(c, k, g.sets[k], Search(c, g, hint, floor).0)
    {
      GroupedHolds(history, k);
      assert Shadowed(history, mixed, k);
    }
    hide Grouped, WellGrouped, Shows, At, Pass, Climb, Search, Found, ProbeOrder, CompleteKeys, Mixed, OneTotal, Shadowed, LostKeys, FoundIn;
    SameSearch(c, g, g', lost, hint, floor);
  }

  lemma SameSearch(c: Crypto, g: Groups, g': Groups, lost: iset<SetKey>, hint: nat, floor: nat)
    requires WellGrouped(g) && WellGrouped(g') && Known(g.sets, g.order) && Known(g'.sets, g'.order)
    requires Shows(c, g.sets, g'.sets, lost) && NoneLost(c, g.sets, lost, Search(c, g, hint, floor).0)
    requires forall k | k in g.sets && k !in lost :: k in g'.sets && |g'.sets[k].parts| >= |g.sets[k].parts| && g'.sets[k].total == g.sets[k].total
    ensures SameSet(Search(c, g, hint, floor).0, Search(c, g', hint, floor).0)
  {
    var keys, keys', epochs := CompleteKeys(g.sets, g.order), CompleteKeys(g'.sets, g'.order), ProbeOrder(hint, floor);
    CompleteCovers(c, g, g', lost);
    SearchIsClimb(c, g, hint, floor);
    SearchIsClimb(c, g', hint, floor);
    hide *;
    var (cands, pending) := Pass(c, g.sets, keys, epochs);
    var (cands', pending') := Pass(c, g'.sets, keys', epochs);
    ClimbKeeps(c, g.sets, hint, cands, pending, hint + MAX_PROBE);
    LostIsClosed(c, g.sets, lost, keys, epochs, Search(c, g, hint, floor).0);
    CoveredPass(c, g.sets, g'.sets, lost, keys, keys', epochs);
    CoveredClimb(c, g.sets, g'.sets, lost, hint, cands, cands', pending, pending', hint + MAX_PROBE);
  }

  /**
    Junk put in anywhere: every backup that was found is found again exactly when none of their first
    memos was forestalled by a memo with another total; then the candidates are the same ones.
   */
  lemma JunkAnywhere(c: Crypto, history: seq<Seen>, mixed: seq<Seen>, hint: nat, floor: nat)
    requires Mixed(c, history, mixed) && OneTotal(history) && AllDecodable(history) && AllDecodable(mixed)
    ensures (forall k | FoundIn(c, history, hint, floor, k) :: FoundIn(c, mixed, hint, floor, k)) <==>
            (forall k | FoundIn(c, history, hint, floor, k) :: !Shadowed(history, mixed, k))
    ensures (forall k | FoundIn(c, history, hint, floor, k) :: !Shadowed(history, mixed, k)) ==>
              var g, g' := Grouped(history), Grouped(mixed);
              && Known(g.sets, g.order) && Known(g'.sets, g'.order)
              && SameSet(Search(c, g, hint, floor).0, Search(c, g', hint, floor).0)
  {
    AllShown(c, history, mixed);
    forall k | FoundIn(c, history, hint, floor, k) && Shadowed(history, mixed, k)
      ensures !FoundIn(c, mixed, hint, floor, k)
    {
      ShadowedIsLost(c, history, mixed, hint, floor, k);
    }
    if forall k | FoundIn(c, history, hint, floor, k) :: !Shadowed(history, mixed, k) {
      SameFound(c, history, mixed, hint, floor);
      forall k | FoundIn(c, history, hint, floor, k)
        ensures FoundIn(c, mixed, hint, floor, k)
      {
        KeptIsFound(c, history, mixed, hint, floor, k);
      }
    }
  }

  lemma ShadowedIsLost(c: Crypto, history: seq<Seen>, mixed: seq<Seen>, hint: nat, floor: nat, k: SetKey)
    requires AllDecodable(mixed) && Shadowed(history, mixed, k)
    requires Shows(c, Grouped(history).sets, Grouped(mixed).sets, LostKeys(history, mixed))
    ensures !FoundIn(c, mixed, hint, floor, k)
  {
    hide OpensAt, Search, Grouped, FirstTotal;
    var g' := Grouped(mixed);
    GroupedIsWell(mixed);
    OrderIsKnown(g');
    if k in g'.sets {
      forall e
        ensures OpensAt(c, e, k, g'.sets[k]) == None
      {
        assert At(c, e, g'.sets, k) == None;
      }
    }
  }

  lemma KeptIsFound(c: Crypto, history: seq<Seen>, mixed: seq<Seen>, hint: nat, floor: nat, k: SetKey)
    requires Mixed(c, history, mixed) && OneTotal(history) && AllDecodable(history) && AllDecodable(mixed)
    requires FoundIn(c, history, hint, floor, k) && !Shadowed(history, mixed, k)
    requires Known(Grouped(history).sets, Grouped(history).order) && Known(Grouped(mixed).sets, Grouped(mixed).order)
    requires SameSet(Search(c, Grouped(history), hint, floor).0, Search(c, Grouped(mixed), hint, floor).0)
    ensures FoundIn(c, mixed, hint, floor, k)
  {
    var g, g' := Grouped(history), Grouped(mixed);
    GroupedHolds(history, k);
    GroupedIsWell(history);
    GroupedIsWell(mixed);
    KeptHasMore(c, history, mixed, k);
    AllShown(c, history, mixed);
    hide OpensAt, Search, Grouped, FirstTotal, Mixed, OneTotal;
    var e, cand :| cand in Search(c, g, hint, floor).0 && OpensAt(c, e, k, g.sets[k]) == Some(cand);
    assert At(c, e, g'.sets, k) == At(c, e, g.sets, k);
    assert cand in Search(c, g', hint, floor).0 && OpensAt(c, e, k, g'.sets[k]) == Some(cand);
  }

  // ----- the verdict -----

  // The same backup, number and landing.
  predicate Twin(a: Candidate, b: Candidate) {
    a.id == b.id && SameNumber(a.manifest, b.manifest) && a.ledger == b.ledger
  }

  // What Run decides, told apart only by which of two equal landings of a backup it names.
  predicate Alike(v: Verdict, w: Verdict) {
    && v.anchorOk == w.anchorOk && v.marked == w.marked && v.conflict == w.conflict && v.missing == w.missing
    && (v.latest.Some? <==> w.latest.Some?) && (v.latest.Some? ==> Twin(v.latest.value, w.latest.value))
  }

  lemma TwinOf(found: seq<Candidate>, found': seq<Candidate>, a: Candidate) returns (b: Candidate)
    requires SameSet(found, found') && a in Uniq(found)
    ensures b in Uniq(found') && Twin(a, b)
  {
    UniqIsSorted(found);
    UniqIsSorted(found');
    hide Uniq;
    b :| b in Uniq(found') && b.id == a.id;
    assert b in found && a in found';
    assert !Precedes(a, b) && !Precedes(b, a);
  }

  // A conflict in one is a conflict in the other.
  lemma SameConflict(found: seq<Candidate>, found': seq<Candidate>, anchor: Option<Anchor>)
    requires SameSet(found, found') && Judged(found, anchor).conflict
    ensures Judged(found', anchor).conflict
  {
    ConflictIsATie(found, anchor);
    ConflictIsATie(found', anchor);
    assert Judged(found, anchor).candidates == Uniq(found) && Judged(found', anchor).candidates == Uniq(found');
    hide *;
    var a, b :| TopTie(Uniq(found), a, b);
    SameTie(found, found', a, b);
  }

  lemma SameTie(found: seq<Candidate>, found': seq<Candidate>, a: Candidate, b: Candidate)
    requires SameSet(found, found') && TopTie(Uniq(found), a, b)
    ensures exists a', b' :: TopTie(Uniq(found'), a', b')
  {
    hide Uniq;
    var a' := TwinOf(found, found', a);
    var b' := TwinOf(found, found', b);
    SameSetIsSymmetric(found, found');
    forall c | c in Uniq(found')
      ensures !Newer(c.manifest, a'.manifest)
    {
      var d := TwinOf(found', found, c);
    }
    assert TopTie(Uniq(found'), a', b');
  }

  lemma SameSetIsSymmetric<T(!new)>(a: seq<T>, b: seq<T>)
    requires SameSet(a, b)
    ensures SameSet(b, a)
  {
  }

  lemma SameTrust(found: seq<Candidate>, found': seq<Candidate>, a: Anchor)
    requires SameSet(found, found')
    ensures var v, w := Judged(found, Some(a)), Judged(found', Some(a)); v.anchorOk == w.anchorOk && v.marked == w.marked
  {
    var u, u' := Uniq(found), Uniq(found');
    AnchorTrust(found, a);
    AnchorTrust(found', a);
    SameSetIsSymmetric(found, found');
    assert Judged(found, Some(a)).candidates == u && Judged(found', Some(a)).candidates == u';
    hide Judged, Uniq;
    forall c | c in u
      ensures exists d :: d in u' && Twin(c, d)
    {
      var d := TwinOf(found, found', c);
    }
    forall c | c in u'
      ensures exists d :: d in u && Twin(c, d)
    {
      var d := TwinOf(found', found, c);
    }
  }

  // The first candidate of an order without a tie is newer than every other.
  lemma FirstOfUniq(found: seq<Candidate>)
    requires Uniq(found) != [] && !Tied(Uniq(found))
    ensures forall c | c in Uniq(found) && c != Uniq(found)[0] :: Newer(Uniq(found)[0].manifest, c.manifest)
  {
    UniqIsSorted(found);
    hide Uniq;
    FirstIsNewest(Uniq(found));
  }

  lemma SameLatest(found: seq<Candidate>, found': seq<Candidate>)
    requires SameSet(found, found') && Uniq(found) != [] && Uniq(found') != [] && !Tied(Uniq(found)) && !Tied(Uniq(found'))
    ensures Twin(Uniq(found)[0], Uniq(found')[0])
  {
    hide Uniq, Tied;
    FirstOfUniq(found);
    FirstOfUniq(found');
    SameSetIsSymmetric(found, found');
    var d := TwinOf(found, found', Uniq(found)[0]);
    var c := TwinOf(found', found, Uniq(found')[0]);
    hide SameSet;
  }

  /** The verdict hangs only on which candidates were found, not on the order they were found in. */
  lemma SameVerdict(found: seq<Candidate>, found': seq<Candidate>, anchor: Option<Anchor>)
    requires SameSet(found, found')
    ensures Alike(Judged(found, anchor), Judged(found', anchor))
  {
    var u, u' := Uniq(found), Uniq(found');
    SameSetIsSymmetric(found, found');
    if Judged(found, anchor).conflict {
      SameConflict(found, found', anchor);
    }
    if Judged(found', anchor).conflict {
      SameConflict(found', found, anchor);
    }
    if u != [] {
      var d := TwinOf(found, found', u[0]);
    }
    if u' != [] {
      var d := TwinOf(found', found, u'[0]);
    }
    if u != [] && !Tied(u) {
      SameLatest(found, found');
    }
    if anchor.Some? {
      SameTrust(found, found', anchor.value);
    }
    hide Uniq, Find;
  }

  /**
    Nor does junk put in anywhere change the verdict, unless it forestalls the first memo of a backup
    that was found.
   */
  lemma JunkAnywhereChangesNoVerdict(c: Crypto, did: DidReply, hint: nat, history: seq<Seen>, mixed: seq<Seen>)
    requires Mixed(c, history, mixed) && OneTotal(history) && AllDecodable(history) && AllDecodable(mixed)
    requires forall k | Shadowed(history, mixed, k) :: !FoundIn(c, history, StartEpoch(c, did, hint), hint, k)
    ensures var g, g' := Grouped(history), Grouped(mixed);
            && Known(g.sets, g.order) && Known(g'.sets, g'.order)
            && Alike(VerdictOf(c, did, hint, history), VerdictOf(c, did, hint, mixed))
  {
    SameFound(c, history, mixed, StartEpoch(c, did, hint), hint);
    hide Alike, Judged, Search, Grouped, SameSet;
    SameVerdict(Search(c, Grouped(history), StartEpoch(c, did, hint), hint).0, Search(c, Grouped(mixed), StartEpoch(c, did, hint), hint).0, Trusted(c, did));
  }
}
