/**
  What the verdict of Run means, in terms of the history and the keys alone:
  internal/discover/discover.go:116-134, 178-229 and 242-301.
 */
module Verdicts {
  import opened Common
  import opened Discovery
  import opened SearchReach
  import opened Rejections
  import opened Judgement
  import JunkHistory

  // ----- opening -----

  function Joined(pieces: seq<string>): string {
    if pieces == [] then "" else Joined(pieces[..|pieces| - 1]) + pieces[|pieces| - 1]
  }

  // The first ciphertext of part i that opens is number h, and this is its plaintext.
  ghost predicate OpensFirst(c: Crypto, e: nat, k: SetKey, ps: PartSet, i: nat, h: nat, piece: string) {
    && i in ps.parts && h < |ps.parts[i]|
    && c.open(e, k, i, ps.total, ps.parts[i][h].ct) == Some(piece)
    && forall j | 0 <= j < h :: c.open(e, k, i, ps.total, ps.parts[i][j].ct) == None
  }

  /**
    The candidate is the manifest joined from the parts of the set, each opened under the key of one known epoch, and
    it names the set's backup and that epoch. Its transaction and ledger are those of part 0.
   */
  ghost predicate OpenedBy(c: Crypto, e: nat, k: SetKey, ps: PartSet, cand: Candidate, hits: seq<nat>, pieces: seq<string>) {
    && c.knows(e) && |hits| == |pieces| == ps.total > 0
    && (forall i: nat | i < ps.total :: OpensFirst(c, e, k, ps, i, hits[i], pieces[i]))
    && OpensFirst(c, e, k, ps, 0, hits[0], pieces[0])
    && cand.plain == Joined(pieces) && c.decode(cand.plain) == Some(cand.manifest)
    && cand.manifest.id == cand.id == k.id && cand.manifest.epoch == e
    && cand.tx == ps.parts[0][hits[0]].tx && cand.ledger == ps.parts[0][hits[0]].ledger
  }

  lemma {:induction false} FirstOpenExactly(c: Crypto, e: nat, k: SetKey, i: nat, total: nat, cts: seq<MemoPart>, h: nat)
    requires h < |cts| && c.open(e, k, i, total, cts[h].ct).Some?
    requires forall j | 0 <= j < h :: c.open(e, k, i, total, cts[j].ct) == None
    ensures FirstOpen(c, e, k, i, total, cts) == Some((cts[h], c.open(e, k, i, total, cts[h].ct).value))
  {
    if h > 0 {
      FirstOpenExactly(c, e, k, i, total, cts[1..], h - 1);
    }
  }

  lemma {:induction false} FirstOpenAt(c: Crypto, e: nat, k: SetKey, i: nat, total: nat, cts: seq<MemoPart>) returns (h: nat)
    requires FirstOpen(c, e, k, i, total, cts).Some?
    ensures h < |cts| && c.open(e, k, i, total, cts[h].ct).Some? && forall j | 0 <= j < h :: c.open(e, k, i, total, cts[j].ct) == None
    ensures FirstOpen(c, e, k, i, total, cts) == Some((cts[h], c.open(e, k, i, total, cts[h].ct).value))
  {
    if c.open(e, k, i, total, cts[0].ct).Some? {
      h := 0;
    } else {
      h := FirstOpenAt(c, e, k, i, total, cts[1..]);
      h := h + 1;
    }
  }

  lemma {:induction false} JoinedPieces(c: Crypto, e: nat, k: SetKey, ps: PartSet, n: nat, hits: seq<nat>, pieces: seq<string>)
    requires |hits| == |pieces| == n <= ps.total
    requires forall i: nat | i < n :: OpensFirst(c, e, k, ps, i, hits[i], pieces[i])
    ensures PlainUpTo(c, e, k, ps, n) == Some(Joined(pieces))
  {
    if n > 0 {
      var last := n - 1;
      assert OpensFirst(c, e, k, ps, last, hits[last], pieces[last]);
      FirstOpenExactly(c, e, k, last, ps.total, ps.parts[last], hits[last]);
      JoinedPieces(c, e, k, ps, last, hits[..last], pieces[..last]);
    }
  }

  lemma {:induction false} PiecesOf(c: Crypto, e: nat, k: SetKey, ps: PartSet, n: nat) returns (hits: seq<nat>, pieces: seq<string>)
    requires n <= ps.total && PlainUpTo(c, e, k, ps, n).Some?
    ensures |hits| == |pieces| == n && PlainUpTo(c, e, k, ps, n) == Some(Joined(pieces))
    ensures forall i: nat | i < n :: OpensFirst(c, e, k, ps, i, hits[i], pieces[i])
  {
    hits, pieces := [], [];
    if n > 0 {
      var last := n - 1;
      var before, more := PiecesOf(c, e, k, ps, last);
      var h := FirstOpenAt(c, e, k, last, ps.total, Cts(ps, last));
      var piece := c.open(e, k, last, ps.total, Cts(ps, last)[h].ct).value;
      assert OpensFirst(c, e, k, ps, last, h, piece);
      hits, pieces := before + [h], more + [piece];
      assert pieces[..last] == more;
    }
  }

  /** What a set gives at one epoch is exactly what opens of it there. */
  lemma OpensExactly(c: Crypto, e: nat, k: SetKey, ps: PartSet, cand: Candidate)
    requires ps.total > 0
    ensures OpensAt(c, e, k, ps) == Some(cand) <==> exists hits, pieces :: OpenedBy(c, e, k, ps, cand, hits, pieces)
  {
    if OpensAt(c, e, k, ps) == Some(cand) {
      var hits, pieces := PiecesOf(c, e, k, ps, ps.total);
      assert OpensFirst(c, e, k, ps, 0, hits[0], pieces[0]);
      FirstOpenExactly(c, e, k, 0, ps.total, ps.parts[0], hits[0]);
      assert OpenedBy(c, e, k, ps, cand, hits, pieces);
    }
    if hits, pieces :| OpenedBy(c, e, k, ps, cand, hits, pieces) {
      JoinedPieces(c, e, k, ps, ps.total, hits, pieces);
      assert OpensFirst(c, e, k, ps, 0, hits[0], pieces[0]);
      FirstOpenExactly(c, e, k, 0, ps.total, ps.parts[0], hits[0]);
    }
  }

  // ----- the anchor -----

  /**
    An anchor whose MAC does not verify, or whose epoch's key is not known, changes nothing: the verdict and the report
    are those of an account whose DID entry is no anchor.
   */
  lemma ForgedAnchorIsIgnored(c: Crypto, a: Anchor, macOk: bool, hint: nat, seen: seq<Seen>)
    requires !(macOk && c.knows(a.epoch)) && Known(Grouped(seen).sets, Grouped(seen).order)
    ensures var v := VerdictOf(c, NotAnAnchor, hint, seen);
            && VerdictOf(c, AnchorEntry(a, macOk), hint, seen) == v
            && ReportFor(c, AnchorEntry(a, macOk), hint, seen, v.latest) == ReportFor(c, NotAnAnchor, hint, seen, v.latest)
            && !v.anchorOk && !v.marked && !v.missing
  {
    NoAnchorNoTrust(Search(c, Grouped(seen), hint, hint).0);
  }

  // The complete sets that the run left closed.
  function LeftClosed(c: Crypto, did: DidReply, hint: nat, seen: seq<Seen>): seq<SetKey>
    requires Known(Grouped(seen).sets, Grouped(seen).order)
  {
    Search(c, Grouped(seen), StartEpoch(c, did, hint), hint).1
  }

  /**
    An anchor whose MAC verifies is trusted unless a manifest of its backup was found with another epoch or number. It
    raises where the search ends and not where it starts: a complete set still closed opens at no epoch from 63 below the
    hint to 64 above the higher of the hint and the anchor's epoch.
   */
  lemma VerifiedAnchorIsUsed(c: Crypto, a: Anchor, hint: nat, seen: seq<Seen>)
    requires c.knows(a.epoch) && hint <= MAX_EPOCH && a.epoch <= MAX_EPOCH
    requires forall i | 0 <= i < |seen| :: Decodable(seen[i])
    ensures Known(Grouped(seen).sets, Grouped(seen).order)
    ensures var v := VerdictOf(c, AnchorEntry(a, true), hint, seen);
            !v.anchorOk <==> exists b :: b in v.candidates && b.id == a.id && (b.manifest.epoch != a.epoch || b.manifest.number != a.number)
    ensures forall k | k in LeftClosed(c, AnchorEntry(a, true), hint, seen) ::
              && k in Grouped(seen).sets && Grouped(seen).sets[k].total > 0
              && forall e: nat | hint <= e + 63 && (e <= hint + 64 || e <= a.epoch + 64) && e <= MAX_EPOCH ::
                   OpensAt(c, e, k, Grouped(seen).sets[k]) == None
  {
    hide *;
    var g := Grouped(seen);
    GroupedIsWell(seen);
    JunkHistory.OrderIsKnown(g);
    var start := RunFrom(c, a, hint, seen);
    AnchorTrust(Search(c, g, start, hint).0, a);
    ClosedThroughout(c, g, start, hint);
  }

  lemma RunFrom(c: Crypto, a: Anchor, hint: nat, seen: seq<Seen>) returns (start: nat)
    requires c.knows(a.epoch) && hint <= MAX_EPOCH && a.epoch <= MAX_EPOCH
    requires Known(Grouped(seen).sets, Grouped(seen).order)
    ensures start <= MAX_EPOCH && hint <= start && a.epoch <= start && (start == hint || start == a.epoch)
    ensures VerdictOf(c, AnchorEntry(a, true), hint, seen) == Judged(Search(c, Grouped(seen), start, hint).0, Some(a))
    ensures LeftClosed(c, AnchorEntry(a, true), hint, seen) == Search(c, Grouped(seen), start, hint).1
  {
    hide Judged, Search, Grouped, Known;
    start := StartEpoch(c, AnchorEntry(a, true), hint);
  }

  lemma ClosedThroughout(c: Crypto, g: Groups, start: nat, hint: nat)
    requires WellGrouped(g) && Known(g.sets, g.order) && hint <= start <= MAX_EPOCH
    ensures forall k | k in Search(c, g, start, hint).1 ::
              && k in g.sets && g.sets[k].total > 0
              && forall e: nat | hint <= e + 63 && e <= start + 64 && e <= MAX_EPOCH :: OpensAt(c, e, k, g.sets[k]) == None
  {
    hide *;
    forall k | k in Search(c, g, start, hint).1
      ensures k in g.sets && g.sets[k].total > 0
      ensures forall e: nat | hint <= e + 63 && e <= start + 64 && e <= MAX_EPOCH :: OpensAt(c, e, k, g.sets[k]) == None
    {
      InRange(c, g, start, hint, start);
      SearchReaches(c, g, start, hint, k, start);
      forall e: nat | hint <= e + 63 && e <= start + 64 && e <= MAX_EPOCH
        ensures OpensAt(c, e, k, g.sets[k]) == None
      {
        InRange(c, g, start, hint, e);
        SearchReaches(c, g, start, hint, k, e);
      }
    }
  }

  lemma InRange(c: Crypto, g: Groups, start: nat, hint: nat, e: nat)
    requires Known(g.sets, g.order) && hint <= e + 63 && e <= start + 64 && e <= MAX_EPOCH
    ensures Max(0, hint - 63) <= e <= Min(Top(start, Search(c, g, start, hint).0) + 64, MAX_EPOCH)
  {
  }

  // ----- the candidates -----

  /**
    Every backup of the verdict opened whole under one epoch's key, each id is listed once, and every complete set gave
    a backup of the verdict or was left closed.
   */
  lemma VerdictHoldsAll(c: Crypto, did: DidReply, hint: nat, seen: seq<Seen>)
    requires Known(Grouped(seen).sets, Grouped(seen).order)
    ensures var v, sets := VerdictOf(c, did, hint, seen), Grouped(seen).sets;
            && (forall b | b in v.candidates :: Authentic(c, sets, b))
            && (forall i, j | 0 <= i < j < |v.candidates| :: v.candidates[i].id != v.candidates[j].id)
            && forall k | k in Grouped(seen).order && CompleteSet(sets[k]) ::
                 k in LeftClosed(c, did, hint, seen) || exists b :: b in v.candidates && b.id == k.id
  {
    var g, start := Grouped(seen), StartEpoch(c, did, hint);
    var found := Search(c, g, start, hint).0;
    assert VerdictOf(c, did, hint, seen).candidates == Uniq(found);
    assert LeftClosed(c, did, hint, seen) == Search(c, g, start, hint).1;
    hide *;
    SearchIsAuthentic(c, g, start, hint);
    UniqIsSorted(found);
    forall k | k in g.order && CompleteSet(g.sets[k]) && k !in Search(c, g, start, hint).1
      ensures exists b :: b in Uniq(found) && b.id == k.id
    {
      SearchFinds(c, g, start, hint, k);
      FoundId(c, k, g.sets[k], found);
    }
  }

  lemma FoundId(c: Crypto, k: SetKey, ps: PartSet, cands: seq<Candidate>)
    requires ps.total > 0 && Found(c, k, ps, cands)
    ensures exists b :: b in cands && b.id == k.id
  {
    hide PlainUpTo, FirstOpen;
  }
}
