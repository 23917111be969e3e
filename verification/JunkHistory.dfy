/**
  What someone with the writer key can do to discovery by appending memos that no key opens:
  nothing that changes a candidate. internal/discover/discover.go:152-229, 378-414.
 */
module JunkHistory {
  import opened Common
  import opened Discovery
  import opened Judgement

  ghost predicate Junk(c: Crypto, s: Seen) {
    forall e: nat | c.knows(e) :: c.open(e, s.key, s.index, s.total, s.ct) == None
  }

  // The candidate of a key at an epoch, if it has a set at all.
  function At(c: Crypto, e: nat, sets: map<SetKey, PartSet>, k: SetKey): Option<Candidate> {
    if k in sets && sets[k].total > 0 then OpensAt(c, e, k, sets[k]) else None
  }

  lemma {:induction false} JunkNeverFirst(c: Crypto, e: nat, k: SetKey, i: nat, total: nat, cts: seq<MemoPart>, p: MemoPart)
    requires c.open(e, k, i, total, p.ct) == None
    ensures FirstOpen(c, e, k, i, total, cts + [p]) == FirstOpen(c, e, k, i, total, cts)
  {
    if cts == [] {
      assert (cts + [p])[1..] == [];
    } else {
      assert (cts + [p])[1..] == cts[1..] + [p];
      JunkNeverFirst(c, e, k, i, total, cts[1..], p);
    }
  }

  // Two sets that show every key the same first opening at every index.
  ghost predicate SameOpenings(c: Crypto, e: nat, k: SetKey, ps: PartSet, ps': PartSet) {
    ps.total == ps'.total
    && forall i :: FirstOpen(c, e, k, i, ps.total, Cts(ps, i)) == FirstOpen(c, e, k, i, ps.total, Cts(ps', i))
  }

  lemma {:induction false} SamePlain(c: Crypto, e: nat, k: SetKey, ps: PartSet, ps': PartSet, n: nat)
    requires SameOpenings(c, e, k, ps, ps')
    ensures PlainUpTo(c, e, k, ps, n) == PlainUpTo(c, e, k, ps', n)
  {
    if n > 0 {
      SamePlain(c, e, k, ps, ps', n - 1);
    }
  }

  lemma SameCandidate(c: Crypto, e: nat, k: SetKey, ps: PartSet, ps': PartSet)
    requires ps.total > 0 && SameOpenings(c, e, k, ps, ps')
    ensures OpensAt(c, e, k, ps) == OpensAt(c, e, k, ps')
  {
    SamePlain(c, e, k, ps, ps', ps.total);
  }

  lemma {:induction false} AbsentNeverOpens(c: Crypto, e: nat, k: SetKey, ps: PartSet, i: nat, n: nat)
    requires i < n && FirstOpen(c, e, k, i, ps.total, Cts(ps, i)) == None
    ensures PlainUpTo(c, e, k, ps, n) == None
  {
    if n - 1 > i {
      AbsentNeverOpens(c, e, k, ps, i, n - 1);
    }
  }

  /** One junk memo changes what no key opens. */
  lemma AddJunk(c: Crypto, e: nat, g: Groups, s: Seen, k: SetKey)
    requires Junk(c, s) && Decodable(s) && WellGrouped(g)
    ensures At(c, e, Add(g, s).sets, k) == At(c, e, g.sets, k)
  {
    var g' := Add(g, s);
    if !c.knows(e) || s.total > MAX_PARTS || k != s.key {
    } else if k !in g.sets {
      var ps := g'.sets[k];
      JunkNeverFirst(c, e, k, s.index, s.total, [], MemoPart(s.ct, s.tx, s.ledger));
      AbsentNeverOpens(c, e, k, ps, s.index, ps.total);
    } else if s.total == g.sets[k].total {
      var ps, ps' := g.sets[k], g'.sets[k];
      JunkNeverFirst(c, e, k, s.index, s.total, Cts(ps, s.index), MemoPart(s.ct, s.tx, s.ledger));
      assert forall i | i != s.index :: Cts(ps, i) == Cts(ps', i);
      SameCandidate(c, e, k, ps, ps');
    }
  }

  // g' shows every key what g shows, and adds keys only at the end.
  ghost predicate Extends(c: Crypto, g: Groups, g': Groups) {
    && g.order <= g'.order
    && (forall k, e :: At(c, e, g'.sets, k) == At(c, e, g.sets, k))
    && (forall k | k in g.sets :: k in g'.sets && g'.sets[k].total == g.sets[k].total && |g.sets[k].parts| <= |g'.sets[k].parts|)
  }

  lemma {:induction false} AppendJunk(c: Crypto, history: seq<Seen>, junk: seq<Seen>)
    requires forall i | 0 <= i < |history| :: Decodable(history[i])
    requires forall i | 0 <= i < |junk| :: Decodable(junk[i]) && Junk(c, junk[i])
    ensures Extends(c, Grouped(history), Grouped(history + junk))
    decreases |junk|
  {
    hide Junk, At;
    if junk == [] {
      assert history + junk == history;
    } else {
      var last := |junk| - 1;
      var before := history + junk[..last];
      assert (history + junk)[..|history + junk| - 1] == before;
      AppendJunk(c, history, junk[..last]);
      GroupedIsWell(before);
      var g, g' := Grouped(before), Grouped(history + junk);
      assert g' == Add(g, junk[last]);
      forall k, e
        ensures At(c, e, g'.sets, k) == At(c, e, g.sets, k)
      {
        AddJunk(c, e, g, junk[last], k);
      }
      AddOnlyGrows(g, junk[last]);
    }
  }

  lemma AddOnlyGrows(g: Groups, s: Seen)
    ensures g.order <= Add(g, s).order
    ensures forall k | k in g.sets ::
              && k in Add(g, s).sets && Add(g, s).sets[k].total == g.sets[k].total
              && |g.sets[k].parts| <= |Add(g, s).sets[k].parts|
  {
    var g' := Add(g, s);
    forall k | k in g.sets
      ensures k in g'.sets && g'.sets[k].total == g.sets[k].total && |g.sets[k].parts| <= |g'.sets[k].parts|
    {
      if g'.sets[k] != g.sets[k] {
        assert g'.sets[k].parts.Keys == g.sets[k].parts.Keys + {s.index};
        if s.index in g.sets[k].parts {
          assert g'.sets[k].parts.Keys == g.sets[k].parts.Keys;
        } else {
          assert |g'.sets[k].parts.Keys| == |g.sets[k].parts.Keys| + 1;
        }
      }
    }
  }

  // ----- the searches over both histories -----

  ghost predicate Never(c: Crypto, sets: map<SetKey, PartSet>, k: SetKey) {
    forall e: nat :: At(c, e, sets, k) == None
  }

  // keys' is keys with keys that never open put in between.
  ghost predicate Padded(c: Crypto, sets: map<SetKey, PartSet>, keys: seq<SetKey>, keys': seq<SetKey>) {
    if keys' == [] then keys == []
    else
      var last := keys'[|keys'| - 1];
      || (keys != [] && keys[|keys| - 1] == last && Padded(c, sets, keys[..|keys| - 1], keys'[..|keys'| - 1]))
      || (Never(c, sets, last) && Padded(c, sets, keys, keys'[..|keys'| - 1]))
  }

  lemma {:induction false} SameOpen(c: Crypto, sets: map<SetKey, PartSet>, sets': map<SetKey, PartSet>, k: SetKey, epochs: seq<nat>)
    requires k in sets && k in sets' && sets[k].total > 0 && sets'[k].total > 0
    requires forall e :: At(c, e, sets', k) == At(c, e, sets, k)
    ensures Open(c, k, sets[k], epochs) == Open(c, k, sets'[k], epochs)
  {
    hide OpensAt;
    if epochs != [] {
      assert At(c, epochs[0], sets', k) == At(c, epochs[0], sets, k);
      SameOpen(c, sets, sets', k, epochs[1..]);
    }
  }

  lemma {:induction false} NeverOpens(c: Crypto, sets: map<SetKey, PartSet>, k: SetKey, epochs: seq<nat>)
    requires k in sets && sets[k].total > 0 && Never(c, sets, k)
    ensures Open(c, k, sets[k], epochs) == None
  {
    hide OpensAt;
    if epochs != [] {
      assert At(c, epochs[0], sets, k) == None;
      NeverOpens(c, sets, k, epochs[1..]);
    }
  }

  ghost predicate SameAt(c: Crypto, sets: map<SetKey, PartSet>, sets': map<SetKey, PartSet>) {
    forall k, e :: At(c, e, sets', k) == At(c, e, sets, k)
  }

  lemma {:induction false} PaddedPass(c: Crypto, sets: map<SetKey, PartSet>, sets': map<SetKey, PartSet>,
                                      keys: seq<SetKey>, keys': seq<SetKey>, epochs: seq<nat>)
    requires Known(sets, keys) && Known(sets', keys') && SameAt(c, sets, sets') && Padded(c, sets', keys, keys')
    ensures Pass(c, sets, keys, epochs).0 == Pass(c, sets', keys', epochs).0
    ensures Padded(c, sets', Pass(c, sets, keys, epochs).1, Pass(c, sets', keys', epochs).1)
    decreases |keys'|
  {
    hide Open, Never, At;
    if keys' != [] {
      var last := keys'[|keys'| - 1];
      var front := keys'[..|keys'| - 1];
      if keys != [] && keys[|keys| - 1] == last && Padded(c, sets', keys[..|keys| - 1], front) {
        PaddedPass(c, sets, sets', keys[..|keys| - 1], front, epochs);
        SameOpen(c, sets, sets', last, epochs);
        PaddedBoth(c, sets', Pass(c, sets, keys[..|keys| - 1], epochs).1, Pass(c, sets', front, epochs).1, last);
      } else {
        PaddedPass(c, sets, sets', keys, front, epochs);
        NeverOpens(c, sets', last, epochs);
        PaddedMore(c, sets', Pass(c, sets, keys, epochs).1, Pass(c, sets', front, epochs).1, last);
      }
    }
  }

  lemma PaddedBoth(c: Crypto, sets: map<SetKey, PartSet>, keys: seq<SetKey>, keys': seq<SetKey>, k: SetKey)
    requires Padded(c, sets, keys, keys')
    ensures Padded(c, sets, keys + [k], keys' + [k])
  {
    assert (keys + [k])[..|keys|] == keys && (keys' + [k])[..|keys'|] == keys';
  }

  lemma PaddedMore(c: Crypto, sets: map<SetKey, PartSet>, keys: seq<SetKey>, keys': seq<SetKey>, k: SetKey)
    requires Padded(c, sets, keys, keys') && Never(c, sets, k)
    ensures Padded(c, sets, keys, keys' + [k])
  {
    assert (keys' + [k])[..|keys'|] == keys';
  }

  // A longer pending list only prolongs the search.
  lemma {:induction false} PaddedClimb(c: Crypto, sets: map<SetKey, PartSet>, sets': map<SetKey, PartSet>, hint: nat,
                                       cands: seq<Candidate>, pending: seq<SetKey>, pending': seq<SetKey>, upper: nat)
    requires Known(sets, pending) && Known(sets', pending') && SameAt(c, sets, sets') && Padded(c, sets', pending, pending')
    ensures Climb(c, sets, hint, cands, pending, upper).0 == Climb(c, sets', hint, cands, pending', upper).0
    decreases MAX_EPOCH - upper
  {
    hide Open, Never, At, Pass, Padded, Known, Reach, SameAt;
    var next := Reach(hint, cands);
    if next > upper && pending' != [] {
      var epochs := Up(upper + 1, next);
      PassKnown(c, sets, pending, epochs);
      PassKnown(c, sets', pending', epochs);
      PaddedPass(c, sets, sets', pending, pending', epochs);
      var (found, still) := Pass(c, sets, pending, epochs);
      var (found', still') := Pass(c, sets', pending', epochs);
      PaddedClimb(c, sets, sets', hint, cands + found, still, still', next);
      if pending == [] {
        NothingToFind(c, sets, epochs);
        assert cands + found == cands;
      }
    } else if pending' == [] {
      PaddedEmpty(c, sets', pending);
    }
  }

  lemma NothingToFind(c: Crypto, sets: map<SetKey, PartSet>, epochs: seq<nat>)
    ensures Known(sets, []) && Pass(c, sets, [], epochs) == ([], [])
  {
  }

  lemma PaddedEmpty(c: Crypto, sets: map<SetKey, PartSet>, keys: seq<SetKey>)
    requires Padded(c, sets, keys, [])
    ensures keys == []
  {
  }

  // ----- complete sets -----

  lemma {:induction false} KeysBelow(s: set<nat>, n: nat)
    requires forall x | x in s :: x < n
    ensures |s| <= n
    ensures |s| < n ==> exists x: nat :: x < n && x !in s
  {
    if n == 0 {
      assert s == {};
    } else if n - 1 in s {
      KeysBelow(s - {n - 1}, n - 1);
    } else {
      KeysBelow(s, n - 1);
    }
  }

  // A set that lacks an index never opens.
  lemma IncompleteNever(c: Crypto, g: Groups, k: SetKey)
    requires WellGrouped(g) && k in g.sets
    ensures |g.sets[k].parts| <= g.sets[k].total
    ensures !CompleteSet(g.sets[k]) ==> Never(c, g.sets, k)
  {
    var ps := g.sets[k];
    KeysBelow(ps.parts.Keys, ps.total);
    if !CompleteSet(ps) {
      var i: nat :| i < ps.total && i !in ps.parts;
      forall e: nat
        ensures At(c, e, g.sets, k) == None
      {
        AbsentNeverOpens(c, e, k, ps, i, ps.total);
      }
    }
  }

  // The complete keys among the first m, and what the m-th one adds.
  function Among(g: Groups, m: nat): seq<SetKey>
    requires Known(g.sets, g.order)
  {
    CompleteKeys(g.sets, g.order[..Min(m, |g.order|)])
  }

  function Added(g: Groups, m: nat): seq<SetKey>
    requires Known(g.sets, g.order)
  {
    if 0 < m <= |g.order| && CompleteSet(g.sets[g.order[m - 1]]) then [g.order[m - 1]] else []
  }

  lemma AmongStep(g: Groups, m: nat)
    requires Known(g.sets, g.order) && m > 0
    ensures Among(g, m) == Among(g, m - 1) + Added(g, m)
  {
    if m <= |g.order| {
      assert g.order[..m][..m - 1] == g.order[..m - 1];
    } else {
      assert Among(g, m) + [] == Among(g, m);
    }
  }

  lemma PaddedOld(c: Crypto, g: Groups, g': Groups, m: nat, had: seq<SetKey>, have: seq<SetKey>)
    requires WellGrouped(g) && WellGrouped(g') && Known(g.sets, g.order) && Known(g'.sets, g'.order) && Extends(c, g, g')
    requires 0 < m <= |g.order| && Padded(c, g'.sets, had, have)
    ensures Padded(c, g'.sets, had + Added(g, m), have + Added(g', m))
  {
    var k := g.order[m - 1];
    assert k == g'.order[m - 1];
    IncompleteNever(c, g', k);
    IncompleteNever(c, g, k);
    hide At, Never, Padded, WellGrouped;
    assert had + [] == had && have + [] == have;
    if CompleteSet(g.sets[k]) {
      PaddedBoth(c, g'.sets, had, have, k);
    } else {
      NeverAgrees(c, g.sets, g'.sets, k);
      PaddedMore(c, g'.sets, had, have, k);
    }
  }

  lemma PaddedNew(c: Crypto, g: Groups, g': Groups, m: nat, had: seq<SetKey>, have: seq<SetKey>)
    requires WellGrouped(g) && WellGrouped(g') && Known(g.sets, g.order) && Known(g'.sets, g'.order) && Extends(c, g, g')
    requires |g.order| < m <= |g'.order| && Padded(c, g'.sets, had, have)
    ensures Padded(c, g'.sets, had + Added(g, m), have + Added(g', m))
  {
    hide At, Never, Padded, WellGrouped, Extends, CompleteSet;
    NewKeyNever(c, g, g', m - 1);
    assert had + Added(g, m) == had;
    if Added(g', m) == [] {
      assert have + Added(g', m) == have;
    } else {
      PaddedMore(c, g'.sets, had, have, g'.order[m - 1]);
    }
  }

  lemma {:induction false} PaddedKeys(c: Crypto, g: Groups, g': Groups, m: nat)
    requires WellGrouped(g) && WellGrouped(g') && Known(g.sets, g.order) && Known(g'.sets, g'.order) && Extends(c, g, g')
    requires m <= |g'.order|
    ensures Padded(c, g'.sets, Among(g, m), Among(g', m))
    decreases m
  {
    if m > 0 {
      hide *;
      PaddedKeys(c, g, g', m - 1);
      AmongStep(g, m);
      AmongStep(g', m);
      if m <= |g.order| {
        PaddedOld(c, g, g', m, Among(g, m - 1), Among(g', m - 1));
      } else {
        PaddedNew(c, g, g', m, Among(g, m - 1), Among(g', m - 1));
      }
    }
  }

  lemma NeverAgrees(c: Crypto, sets: map<SetKey, PartSet>, sets': map<SetKey, PartSet>, k: SetKey)
    requires SameAt(c, sets, sets') && Never(c, sets, k)
    ensures Never(c, sets', k)
  {
    hide At;
  }

  lemma NewKeyNever(c: Crypto, g: Groups, g': Groups, i: nat)
    requires WellGrouped(g) && WellGrouped(g') && Extends(c, g, g') && |g.order| <= i < |g'.order|
    ensures Never(c, g'.sets, g'.order[i])
  {
    hide OpensAt;
    var k := g'.order[i];
    if k in g.order {
      assert false;
    }
    assert forall e: nat :: At(c, e, g.sets, k) == None;
  }

  lemma OrderIsKnown(g: Groups)
    requires WellGrouped(g)
    ensures Known(g.sets, g.order)
  {
    forall i | 0 <= i < |g.order|
      ensures g.order[i] in g.sets && g.sets[g.order[i]].total > 0
    {
      assert g.order[i] in g.order;
    }
  }

  /**
    Whoever holds the writer key may append memos that no key opens, under real ids, nonces and
    indexes too: the candidates are the same, in the same order.
   */
  lemma JunkChangesNoCandidate(c: Crypto, history: seq<Seen>, junk: seq<Seen>, hint: nat, floor: nat)
    requires forall i | 0 <= i < |history| :: Decodable(history[i])
    requires forall i | 0 <= i < |junk| :: Decodable(junk[i]) && Junk(c, junk[i])
    ensures var g, g' := Grouped(history), Grouped(history + junk);
            && Known(g.sets, g.order) && Known(g'.sets, g'.order)
            && Search(c, g', hint, floor).0 == Search(c, g, hint, floor).0
  {
    var g, g' := Grouped(history), Grouped(history + junk);
    GroupedIsWell(history);
    GroupedIsWell(history + junk);
    OrderIsKnown(g);
    OrderIsKnown(g');
    AppendJunk(c, history, junk);
    PaddedKeys(c, g, g', |g'.order|);
    assert g.order[..|g.order|] == g.order && g'.order[..|g'.order|] == g'.order;
    assert |g.order| <= |g'.order|;
    var keys, keys' := CompleteKeys(g.sets, g.order), CompleteKeys(g'.sets, g'.order);
    assert SameAt(c, g.sets, g'.sets);
    var epochs := ProbeOrder(hint, floor);
    hide Grouped, WellGrouped, Extends, Padded, SameAt, At, Pass, Climb, ProbeOrder, CompleteKeys;
    PassKnown(c, g.sets, keys, epochs);
    PassKnown(c, g'.sets, keys', epochs);
    PaddedPass(c, g.sets, g'.sets, keys, keys', epochs);
    var (cands, pending) := Pass(c, g.sets, keys, epochs);
    var (cands', pending') := Pass(c, g'.sets, keys', epochs);
    PaddedClimb(c, g.sets, g'.sets, hint, cands, pending, pending', hint + MAX_PROBE);
  }

  /** Nor does it change the backup that is newest, the conflict, or the trust in the anchor. */
  lemma JunkChangesNoVerdict(c: Crypto, did: DidReply, hint: nat, history: seq<Seen>, junk: seq<Seen>)
    requires forall i | 0 <= i < |history| :: Decodable(history[i])
    requires forall i | 0 <= i < |junk| :: Decodable(junk[i]) && Junk(c, junk[i])
    ensures var g, g' := Grouped(history), Grouped(history + junk);
            && Known(g.sets, g.order) && Known(g'.sets, g'.order)
            && VerdictOf(c, did, hint, history + junk) == VerdictOf(c, did, hint, history)
  {
    JunkChangesNoCandidate(c, history, junk, StartEpoch(c, did, hint), hint);
  }
}
