/**
  Discovery over the ledger that the submit protocol wrote: internal/discover/discover.go:113-328 over
  internal/backup/backup.go:400-508. How ids, nonces, parts and transactions read as text, and the
  cryptography of what was sealed, are a parameter.
 */
module LedgerSearch {
  import opened Common
  import opened LedgerModel
  import BackupSteps
  import D = Discovery
  import H = JunkHistory
  import J = Judgement
  import JunkAnywhere
  import SearchReach

  datatype View = View(
    idText: BackupId -> string,
    nonceText: nat -> string,
    partText: Body -> string,
    txText: Tx -> string,
    piece: (nat, nat) -> string,
    crypto: D.Crypto,
    full: string -> Option<Manifest>)

  function KeyOf(v: View, id: BackupId, nonce: nat): D.SetKey {
    D.SetKey(v.idText(id), v.nonceText(nonce))
  }

  // ----- the history that discovery reads -----

  predicate IsPart(b: Body) {
    (b.PartMemo? || b.JunkPart?) && b.index < b.total
  }

  function SeenOf(v: View, r: Rec): D.Seen
    requires IsPart(r.tx.body)
  {
    var b := r.tx.body;
    D.Seen(KeyOf(v, b.id, b.nonce), b.index, b.total, v.partText(b), v.txText(r.tx), r.index)
  }

  // The manifest parts among the account's transactions, junk included.
  function History(v: View, txs: seq<Rec>): seq<D.Seen> {
    if txs == [] then []
    else
      var last := txs[|txs| - 1];
      History(v, txs[..|txs| - 1]) + if last.ok && IsPart(last.tx.body) then [SeenOf(v, last)] else []
  }

  lemma {:induction false} HistoryHas(v: View, txs: seq<Rec>, s: D.Seen)
    ensures s in History(v, txs) <==> exists r :: r in txs && r.ok && IsPart(r.tx.body) && s == SeenOf(v, r)
  {
    if txs != [] {
      var front, last := txs[..|txs| - 1], txs[|txs| - 1];
      HistoryHas(v, front, s);
      assert txs == front + [last];
      hide SeenOf, IsPart;
    }
  }

  lemma HistoryDecodable(v: View, txs: seq<Rec>)
    ensures JunkAnywhere.AllDecodable(History(v, txs))
  {
    forall i | 0 <= i < |History(v, txs)|
      ensures D.Decodable(History(v, txs)[i])
    {
      HistoryHas(v, txs, History(v, txs)[i]);
    }
  }

  lemma {:induction false} PartsHave(history: seq<D.Seen>, k: D.SetKey, total: nat, i: nat, p: D.MemoPart)
    ensures p in JunkAnywhere.PartsOf(history, k, total, i) <==>
            exists s :: s in history && s.key == k && s.total == total && s.index == i && p == D.MemoPart(s.ct, s.tx, s.ledger)
  {
    if history != [] {
      var front, last := history[..|history| - 1], history[|history| - 1];
      PartsHave(front, k, total, i, p);
      assert history == front + [last];
    }
  }

  // ----- what the keys open -----

  function PlainOf(v: View, nonce: nat, count: nat): string {
    if count == 0 then "" else PlainOf(v, nonce, count - 1) + v.piece(nonce, count - 1)
  }

  // The ciphertext of part i of the manifest sealed under nonce n, under its own key, index and total.
  ghost predicate IsSealedPart(v: View, sealed: seq<Manifest>, n: nat, e: nat, k: D.SetKey, i: nat, total: nat, ct: string) {
    && n < |sealed| && e == sealed[n].id.epoch && k == KeyOf(v, sealed[n].id, n)
    && i < total == PartCount(sealed[n]) && ct == v.partText(PartBody(sealed[n], n, i))
  }

  function Reading(v: View, m: Manifest): D.Manifest {
    D.Manifest(v.idText(m.id), m.id.epoch, m.id.number)
  }

  // Texts tell nonces and ids apart, and junk from what was sealed.
  ghost predicate TellsApart(v: View, sealed: seq<Manifest>) {
    && (forall a, b | v.nonceText(a) == v.nonceText(b) :: a == b)
    && (forall a, b | 0 <= a < |sealed| && 0 <= b < |sealed| && v.idText(sealed[a].id) == v.idText(sealed[b].id) :: sealed[a].id == sealed[b].id)
    && (forall b: Body, n, j | b.JunkPart? && 0 <= n < |sealed| && 0 <= j :: v.partText(b) != v.partText(PartBody(sealed[n], n, j)))
  }

  // The AEAD opens the parts that were sealed, and nothing else.
  ghost predicate OpensSealed(v: View, sealed: seq<Manifest>) {
    && (forall n: nat, e, k, i, total, ct | IsSealedPart(v, sealed, n, e, k, i, total, ct) :: v.crypto.open(e, k, i, total, ct) == Some(v.piece(n, i)))
    && (forall e, k, i, total, ct | v.crypto.open(e, k, i, total, ct).Some? :: exists n: nat :: IsSealedPart(v, sealed, n, e, k, i, total, ct))
  }

  // Beside that, a manifest's parts, joined, decode to it.
  ghost predicate Faithful(v: View, sealed: seq<Manifest>) {
    TellsApart(v, sealed) && OpensSealed(v, sealed) && forall n | 0 <= n < |sealed| :: Decodes(v, sealed, n)
  }

  ghost predicate Decodes(v: View, sealed: seq<Manifest>, n: nat)
    requires n < |sealed|
  {
    var plain := PlainOf(v, n, PartCount(sealed[n]));
    v.crypto.decode(plain) == Some(Reading(v, sealed[n])) && v.full(plain) == Some(sealed[n])
  }

  lemma OpensOnlyItself(v: View, sealed: seq<Manifest>, n: nat, e: nat, i: nat, total: nat, ct: string)
    requires Faithful(v, sealed) && n < |sealed| && v.crypto.open(e, KeyOf(v, sealed[n].id, n), i, total, ct).Some?
    ensures IsSealedPart(v, sealed, n, e, KeyOf(v, sealed[n].id, n), i, total, ct)
    ensures v.crypto.open(e, KeyOf(v, sealed[n].id, n), i, total, ct) == Some(v.piece(n, i))
  {
    hide PartBody, PartCount;
    var k := KeyOf(v, sealed[n].id, n);
    var other: nat :| IsSealedPart(v, sealed, other, e, k, i, total, ct);
    assert v.nonceText(other) == v.nonceText(n);
  }

  // Among the ciphertexts of an index the sealed one opens, whatever else is there.
  lemma {:induction false} SealedOpens(v: View, sealed: seq<Manifest>, n: nat, i: nat, cts: seq<D.MemoPart>)
    requires Faithful(v, sealed) && n < |sealed| && i < PartCount(sealed[n])
    requires exists p :: p in cts && p.ct == v.partText(PartBody(sealed[n], n, i))
    ensures var r := D.FirstOpen(v.crypto, sealed[n].id.epoch, KeyOf(v, sealed[n].id, n), i, PartCount(sealed[n]), cts);
            r.Some? && r.value.1 == v.piece(n, i)
  {
    var e, k, total := sealed[n].id.epoch, KeyOf(v, sealed[n].id, n), PartCount(sealed[n]);
    assert IsSealedPart(v, sealed, n, e, k, i, total, v.partText(PartBody(sealed[n], n, i)));
    hide PartBody, PartCount, IsSealedPart;
    if v.crypto.open(e, k, i, total, cts[0].ct).Some? {
      OpensOnlyItself(v, sealed, n, e, i, total, cts[0].ct);
    } else {
      var p :| p in cts && p.ct == v.partText(PartBody(sealed[n], n, i));
      assert p in cts[1..];
      SealedOpens(v, sealed, n, i, cts[1..]);
    }
  }

  lemma {:induction false} FirstOpenIsIn(c: D.Crypto, e: nat, k: D.SetKey, i: nat, total: nat, cts: seq<D.MemoPart>)
    ensures var r := D.FirstOpen(c, e, k, i, total, cts);
            r.Some? ==> r.value.0 in cts && c.open(e, k, i, total, r.value.0.ct) == Some(r.value.1)
  {
    if cts != [] && c.open(e, k, i, total, cts[0].ct).None? {
      FirstOpenIsIn(c, e, k, i, total, cts[1..]);
    }
  }

  lemma {:induction false} EachOpens(c: D.Crypto, e: nat, k: D.SetKey, ps: D.PartSet, n: nat, i: nat)
    requires D.PlainUpTo(c, e, k, ps, n).Some? && i < n
    ensures D.FirstOpen(c, e, k, i, ps.total, D.Cts(ps, i)).Some?
  {
    if i < n - 1 {
      EachOpens(c, e, k, ps, n - 1, i);
    }
  }

  lemma {:induction false} PlainIs(v: View, e: nat, k: D.SetKey, ps: D.PartSet, nonce: nat, n: nat)
    requires forall i: nat | i < n ::
               var r := D.FirstOpen(v.crypto, e, k, i, ps.total, D.Cts(ps, i)); r.Some? && r.value.1 == v.piece(nonce, i)
    ensures D.PlainUpTo(v.crypto, e, k, ps, n) == Some(PlainOf(v, nonce, n))
  {
    hide D.FirstOpen, D.Cts;
    if n > 0 {
      PlainIs(v, e, k, ps, nonce, n - 1);
    }
  }

  // ----- a landed backup in the history -----

  ghost predicate AllLanded(landed: set<Tx>, m: Manifest, nonce: nat) {
    PartCount(m) <= MAX_PARTS && forall j | 0 <= j < PartCount(m) :: HasPart(landed, m, nonce, j)
  }

  // No memo with another total came before the first part.
  ghost predicate Unforestalled(v: View, txs: seq<Rec>, m: Manifest, nonce: nat) {
    JunkAnywhere.FirstTotal(History(v, txs), KeyOf(v, m.id, nonce)) == Some(PartCount(m))
  }

  lemma LandedPartIsSeen(v: View, txs: seq<Rec>, m: Manifest, nonce: nat, j: nat)
    requires HasPart(Landed(txs), m, nonce, j) && j < PartCount(m)
    ensures exists p :: p in JunkAnywhere.PartsOf(History(v, txs), KeyOf(v, m.id, nonce), PartCount(m), j)
                        && p.ct == v.partText(PartBody(m, nonce, j))
  {
    hide PartCount;
    var t :| t in Landed(txs) && t.body == PartBody(m, nonce, j);
    var r :| r in txs && r.ok && r.tx == t;
    var s := SeenOf(v, r);
    HistoryHas(v, txs, s);
    var p := D.MemoPart(s.ct, s.tx, s.ledger);
    PartsHave(History(v, txs), KeyOf(v, m.id, nonce), PartCount(m), j, p);
  }

  // The set of a landed manifest opens at its epoch, and to it.
  lemma SetOpens(v: View, txs: seq<Rec>, sealed: seq<Manifest>, n: nat)
    requires Faithful(v, sealed) && n < |sealed| && v.crypto.knows(sealed[n].id.epoch)
    requires AllLanded(Landed(txs), sealed[n], n) && Unforestalled(v, txs, sealed[n], n)
    ensures var k, g := KeyOf(v, sealed[n].id, n), D.Grouped(History(v, txs));
            && k in g.sets && g.sets[k].total == PartCount(sealed[n])
            && D.OpensAt(v.crypto, sealed[n].id.epoch, k, g.sets[k]).Some?
  {
    var m := sealed[n];
    var k, g, e, history := KeyOf(v, m.id, n), D.Grouped(History(v, txs)), m.id.epoch, History(v, txs);
    JunkAnywhere.GroupedHolds(history, k);
    hide D.Grouped, JunkAnywhere.PartsOf, JunkAnywhere.FirstTotal, PartCount, PartBody, D.FirstOpen, HasPart, IsSealedPart, History;
    var ps := g.sets[k];
    forall i: nat | i < PartCount(m)
      ensures var r := D.FirstOpen(v.crypto, e, k, i, ps.total, D.Cts(ps, i)); r.Some? && r.value.1 == v.piece(n, i)
    {
      LandedPartIsSeen(v, txs, m, n, i);
      SealedOpens(v, sealed, n, i, D.Cts(ps, i));
    }
    PlainIs(v, e, k, ps, n, PartCount(m));
    assert Decodes(v, sealed, n);
    FirstIsOpen(v.crypto, e, k, ps, PartCount(m));
  }

  lemma FirstIsOpen(c: D.Crypto, e: nat, k: D.SetKey, ps: D.PartSet, n: nat)
    requires D.PlainUpTo(c, e, k, ps, n).Some? && n > 0
    ensures D.FirstOpen(c, e, k, 0, ps.total, D.Cts(ps, 0)).Some?
  {
    EachOpens(c, e, k, ps, n, 0);
  }

  // What a candidate with this id tells: a manifest of the backup, and where its chunks have landed.
  ghost predicate Tells(v: View, txs: seq<Rec>, sealed: seq<Manifest>, cand: D.Candidate) {
    exists n :: 0 <= n < |sealed| && cand.id == v.idText(sealed[n].id) && cand.manifest == Reading(v, sealed[n])
                && v.full(cand.plain) == Some(sealed[n]) && NamesLanded(Landed(txs), sealed[n])
  }

  lemma OpensAtMeans(c: D.Crypto, e: nat, k: D.SetKey, ps: D.PartSet, cand: D.Candidate)
    requires ps.total > 0 && D.OpensAt(c, e, k, ps) == Some(cand)
    ensures D.PlainUpTo(c, e, k, ps, ps.total) == Some(cand.plain)
    ensures c.decode(cand.plain) == Some(cand.manifest) && cand.manifest.id == cand.id == k.id
  {
  }

  // A set that opens is the set of a sealed manifest, at its epoch.
  lemma OpenedSet(v: View, sealed: seq<Manifest>, e: nat, k: D.SetKey, ps: D.PartSet, cand: D.Candidate) returns (n: nat, first: D.MemoPart)
    requires Faithful(v, sealed) && ps.total > 0 && D.OpensAt(v.crypto, e, k, ps) == Some(cand)
    ensures n < |sealed| && k == KeyOf(v, sealed[n].id, n) && ps.total == PartCount(sealed[n]) && e == sealed[n].id.epoch
    ensures first in D.Cts(ps, 0) && first.ct == v.partText(PartBody(sealed[n], n, 0))
    ensures cand.plain == PlainOf(v, n, PartCount(sealed[n])) && cand.manifest == Reading(v, sealed[n])
  {
    OpensAtMeans(v.crypto, e, k, ps, cand);
    hide D.OpensAt, D.PlainUpTo, D.FirstOpen, D.Cts, PartBody, PartCount;
    FirstIsOpen(v.crypto, e, k, ps, ps.total);
    var hit := D.FirstOpen(v.crypto, e, k, 0, ps.total, D.Cts(ps, 0)).value;
    FirstOpenIsIn(v.crypto, e, k, 0, ps.total, D.Cts(ps, 0));
    first := hit.0;
    n :| IsSealedPart(v, sealed, n, e, k, 0, ps.total, first.ct);
    forall i: nat | i < ps.total
      ensures var r := D.FirstOpen(v.crypto, e, k, i, ps.total, D.Cts(ps, i)); r.Some? && r.value.1 == v.piece(n, i)
    {
      EachOpens(v.crypto, e, k, ps, ps.total, i);
      FirstOpenIsIn(v.crypto, e, k, i, ps.total, D.Cts(ps, i));
      OpensOnlyItself(v, sealed, n, e, i, ps.total, D.FirstOpen(v.crypto, e, k, i, ps.total, D.Cts(ps, i)).value.0.ct);
    }
    PlainIs(v, e, k, ps, n, ps.total);
    assert Decodes(v, sealed, n);
  }

  // The part that opened is a landed part of that manifest, not junk.
  lemma SeenPartIsLanded(v: View, txs: seq<Rec>, sealed: seq<Manifest>, n: nat, p: D.MemoPart)
    requires Safe(txs, sealed) && Faithful(v, sealed) && n < |sealed|
    requires p in JunkAnywhere.PartsOf(History(v, txs), KeyOf(v, sealed[n].id, n), PartCount(sealed[n]), 0)
    requires p.ct == v.partText(PartBody(sealed[n], n, 0))
    ensures NamesLanded(Landed(txs), sealed[n])
  {
    var history, k := History(v, txs), KeyOf(v, sealed[n].id, n);
    PartsHave(history, k, PartCount(sealed[n]), 0, p);
    var s :| s in history && s.key == k && s.total == PartCount(sealed[n]) && s.index == 0 && p == D.MemoPart(s.ct, s.tx, s.ledger);
    HistoryHas(v, txs, s);
    var r :| r in txs && r.ok && IsPart(r.tx.body) && s == SeenOf(v, r);
    assert v.nonceText(r.tx.body.nonce) == v.nonceText(n);
    assert r.tx.body.PartMemo?;
    assert r.tx in Landed(txs);
    hide Safe, NamesLanded, PartCount, History, JunkAnywhere.PartsOf, Faithful;
    BackupSteps.LandedPartSafe(txs, sealed, r.tx);
  }

  /** Whatever discovery takes for a backup is one, and its chunks are on the ledger. */
  lemma CandidateTells(v: View, txs: seq<Rec>, sealed: seq<Manifest>, e: nat, k: D.SetKey, cand: D.Candidate)
    requires Safe(txs, sealed) && Faithful(v, sealed)
    requires var g := D.Grouped(History(v, txs)); k in g.sets && g.sets[k].total > 0 && D.OpensAt(v.crypto, e, k, g.sets[k]) == Some(cand)
    ensures Tells(v, txs, sealed, cand)
  {
    var ps := D.Grouped(History(v, txs)).sets[k];
    JunkAnywhere.GroupedHolds(History(v, txs), k);
    OpensAtMeans(v.crypto, e, k, ps, cand);
    hide D.Grouped, D.OpensAt, JunkAnywhere.PartsOf, JunkAnywhere.FirstTotal, Safe, PartCount, PartBody, NamesLanded, Landed, History;
    var n, first := OpenedSet(v, sealed, e, k, ps, cand);
    SeenPartIsLanded(v, txs, sealed, n, first);
    assert Decodes(v, sealed, n);
  }

  // ----- the backup is found -----

  // The set of a landed manifest is complete, so the search tries it.
  lemma SetIsTried(v: View, txs: seq<Rec>, sealed: seq<Manifest>, n: nat)
    requires Faithful(v, sealed) && n < |sealed| && v.crypto.knows(sealed[n].id.epoch)
    requires AllLanded(Landed(txs), sealed[n], n) && Unforestalled(v, txs, sealed[n], n)
    ensures var k, g := KeyOf(v, sealed[n].id, n), D.Grouped(History(v, txs)); k in g.order && k in g.sets && D.CompleteSet(g.sets[k])
  {
    SetOpens(v, txs, sealed, n);
    HistoryDecodable(v, txs);
    D.GroupedIsWell(History(v, txs));
    var k, g := KeyOf(v, sealed[n].id, n), D.Grouped(History(v, txs));
    hide D.Grouped, D.OpensAt, Faithful, History;
    H.IncompleteNever(v.crypto, g, k);
    assert H.At(v.crypto, sealed[n].id.epoch, g.sets, k) == D.OpensAt(v.crypto, sealed[n].id.epoch, k, g.sets[k]);
  }

  // It does not stay closed, for its epoch is within the search's reach.
  lemma SetIsNotClosed(c: D.Crypto, g: D.Groups, k: D.SetKey, e: nat, start: nat, floor: nat)
    requires D.WellGrouped(g) && D.Known(g.sets, g.order) && k in g.sets && g.sets[k].total > 0
    requires floor <= start <= D.MAX_EPOCH && floor - 63 <= e <= floor + 64 && e <= D.MAX_EPOCH
    requires D.OpensAt(c, e, k, g.sets[k]).Some?
    ensures k !in D.Search(c, g, start, floor).1
  {
    hide D.OpensAt, D.Search, D.WellGrouped;
    if k in D.Search(c, g, start, floor).1 {
      SearchReach.SearchReaches(c, g, start, floor, k, e);
    }
  }

  // The search's candidates hold one with the id of the landed manifest.
  lemma SearchFindsIt(v: View, txs: seq<Rec>, sealed: seq<Manifest>, n: nat, start: nat, floor: nat) returns (cand: D.Candidate)
    requires Faithful(v, sealed) && n < |sealed| && v.crypto.knows(sealed[n].id.epoch)
    requires AllLanded(Landed(txs), sealed[n], n) && Unforestalled(v, txs, sealed[n], n)
    requires floor <= start <= D.MAX_EPOCH && floor - 63 <= sealed[n].id.epoch <= floor + 64
    requires var g := D.Grouped(History(v, txs)); D.WellGrouped(g) && D.Known(g.sets, g.order)
    ensures cand in D.Search(v.crypto, D.Grouped(History(v, txs)), start, floor).0 && cand.id == v.idText(sealed[n].id)
  {
    var k, g, e := KeyOf(v, sealed[n].id, n), D.Grouped(History(v, txs)), sealed[n].id.epoch;
    hide D.Grouped, D.OpensAt, D.Search, Faithful, History, D.WellGrouped, AllLanded, Unforestalled, D.CompleteSet, PartCount;
    SetOpens(v, txs, sealed, n);
    SetIsTried(v, txs, sealed, n);
    SetIsNotClosed(v.crypto, g, k, e, start, floor);
    SearchReach.SearchFinds(v.crypto, g, start, floor, k);
    cand := FoundOne(v.crypto, k, g.sets[k], D.Search(v.crypto, g, start, floor).0);
  }

  lemma FoundOne(c: D.Crypto, k: D.SetKey, ps: D.PartSet, cands: seq<D.Candidate>) returns (cand: D.Candidate)
    requires ps.total > 0 && SearchReach.Found(c, k, ps, cands)
    ensures cand in cands && cand.id == k.id
  {
    hide D.OpensAt;
    var e, b :| b in cands && D.OpensAt(c, e, k, ps) == Some(b);
    cand := b;
    OpensAtMeans(c, e, k, ps, cand);
  }

  /**
    Once a backup's manifest is on the ledger whole, discovery names the backup, unless a memo with
    another total came ahead of its first part; and every candidate it names is a backup whose chunks
    have landed.
   */
  lemma BackupIsFound(v: View, txs: seq<Rec>, sealed: seq<Manifest>, did: J.DidReply, hint: nat)
    requires Safe(txs, sealed) && Faithful(v, sealed)
    requires hint <= D.MAX_EPOCH && (did.AnchorEntry? ==> did.anchor.epoch <= D.MAX_EPOCH)
    ensures var g := D.Grouped(History(v, txs)); D.WellGrouped(g) && D.Known(g.sets, g.order)
    ensures forall cand | cand in J.VerdictOf(v.crypto, did, hint, History(v, txs)).candidates :: Tells(v, txs, sealed, cand)
    ensures forall n | 0 <= n < |sealed| && FindableAt(v, txs, sealed[n], n, hint) ::
              exists cand :: cand in J.VerdictOf(v.crypto, did, hint, History(v, txs)).candidates && cand.id == v.idText(sealed[n].id)
  {
    var history := History(v, txs);
    var g := D.Grouped(history);
    HistoryDecodable(v, txs);
    D.GroupedIsWell(history);
    H.OrderIsKnown(g);
    var start := J.StartEpoch(v.crypto, did, hint);
    var found := D.Search(v.crypto, g, start, hint).0;
    J.UniqIsSorted(found);
    assert J.VerdictOf(v.crypto, did, hint, history).candidates == J.Uniq(found);
    SearchReach.SearchIsAuthentic(v.crypto, g, start, hint);
    hide D.Grouped, D.Search, J.Uniq, J.VerdictOf, Faithful, Safe, D.OpensAt, D.WellGrouped, Tells, History, AllLanded, Unforestalled, Landed;
    forall cand | cand in J.Uniq(found)
      ensures Tells(v, txs, sealed, cand)
    {
      assert cand in found;
      var k, e :| k in g.sets && g.sets[k].total > 0 && D.OpensAt(v.crypto, e, k, g.sets[k]) == Some(cand);
      CandidateTells(v, txs, sealed, e, k, cand);
    }
    forall n | 0 <= n < |sealed| && FindableAt(v, txs, sealed[n], n, hint)
      ensures exists cand :: cand in J.Uniq(found) && cand.id == v.idText(sealed[n].id)
    {
      var cand := SearchFindsIt(v, txs, sealed, n, start, hint);
    }
  }

  // A manifest that has landed whole and unforestalled, of an epoch whose key is known and near the hint.
  ghost predicate FindableAt(v: View, txs: seq<Rec>, m: Manifest, nonce: nat, hint: nat) {
    && AllLanded(Landed(txs), m, nonce) && Unforestalled(v, txs, m, nonce)
    && v.crypto.knows(m.id.epoch) && hint - 63 <= m.id.epoch <= hint + 64
  }

  // ----- such a view exists for everything that can be sealed -----

  function Unary(n: nat): (s: string)
    ensures |s| == n
  {
    seq(n, _ => 'a')
  }

  function FirstOf(sealed: seq<Manifest>, id: BackupId): (n: nat)
    ensures n <= |sealed| && (n < |sealed| ==> sealed[n].id == id)
    ensures forall j | 0 <= j < n :: sealed[j].id != id
  {
    if sealed == [] || sealed[0].id == id then 0 else 1 + FirstOf(sealed[1..], id)
  }

  function PlainPiece(n: nat, j: nat): string {
    if j == 0 then Unary(n) else ""
  }

  function PlainOpen(sealed: seq<Manifest>, e: nat, k: D.SetKey, i: nat, total: nat, ct: string): Option<string> {
    var n := |k.nonce|;
    if n < |sealed| && e == sealed[n].id.epoch && k == D.SetKey(Unary(FirstOf(sealed, sealed[n].id)), Unary(n))
       && i < total == PartCount(sealed[n]) && ct == "p" then Some(PlainPiece(n, i)) else None
  }

  function PlainView(sealed: seq<Manifest>): View {
    var read := (m: Manifest) => D.Manifest(Unary(FirstOf(sealed, m.id)), m.id.epoch, m.id.number);
    View(
      (id: BackupId) => Unary(FirstOf(sealed, id)),
      Unary,
      (b: Body) => if b.PartMemo? then "p" else "j",
      (t: Tx) => "",
      PlainPiece,
      D.Crypto(
        (e: nat) => true,
        (e: nat, k: D.SetKey, i: nat, total: nat, ct: string) => PlainOpen(sealed, e, k, i, total, ct),
        (plain: string) => if |plain| < |sealed| then Some(read(sealed[|plain|])) else None),
      (plain: string) => if |plain| < |sealed| then Some(sealed[|plain|]) else None)
  }

  lemma {:induction false} PlainViewPlain(sealed: seq<Manifest>, n: nat, count: nat)
    requires count > 0
    ensures PlainOf(PlainView(sealed), n, count) == Unary(n)
  {
    if count > 1 {
      PlainViewPlain(sealed, n, count - 1);
      assert Unary(n) + "" == Unary(n);
    } else {
      assert PlainOf(PlainView(sealed), n, 0) == "";
      assert "" + Unary(n) == Unary(n);
    }
  }

  lemma PlainViewTells(sealed: seq<Manifest>)
    ensures TellsApart(PlainView(sealed), sealed)
  {
    var v := PlainView(sealed);
    hide PartCount;
    forall a: nat, b: nat | v.nonceText(a) == v.nonceText(b)
      ensures a == b
    {
      assert |Unary(a)| == a && |Unary(b)| == b;
    }
    forall a, b | 0 <= a < |sealed| && 0 <= b < |sealed| && v.idText(sealed[a].id) == v.idText(sealed[b].id)
      ensures sealed[a].id == sealed[b].id
    {
      assert |Unary(FirstOf(sealed, sealed[a].id))| == FirstOf(sealed, sealed[a].id);
    }
  }

  lemma PlainOpensSealed(sealed: seq<Manifest>, n: nat, e: nat, k: D.SetKey, i: nat, total: nat, ct: string)
    requires IsSealedPart(PlainView(sealed), sealed, n, e, k, i, total, ct)
    ensures PlainOpen(sealed, e, k, i, total, ct) == Some(PlainPiece(n, i))
  {
    assert |k.nonce| == |Unary(n)| == n;
    hide PartCount, FirstOf, Unary, PlainPiece;
  }

  lemma PlainOpensNoMore(sealed: seq<Manifest>, e: nat, k: D.SetKey, i: nat, total: nat, ct: string)
    requires PlainOpen(sealed, e, k, i, total, ct).Some?
    ensures IsSealedPart(PlainView(sealed), sealed, |k.nonce|, e, k, i, total, ct)
  {
    hide PartCount, FirstOf, Unary, PlainPiece;
  }

  lemma PlainViewOpens(sealed: seq<Manifest>)
    ensures OpensSealed(PlainView(sealed), sealed)
  {
    var v := PlainView(sealed);
    assert v.piece == PlainPiece;
    assert forall e, k, i, total, ct :: v.crypto.open(e, k, i, total, ct) == PlainOpen(sealed, e, k, i, total, ct);
    hide PlainView, IsSealedPart, PlainOpen, PlainPiece;
    forall n: nat, e, k, i, total, ct | IsSealedPart(v, sealed, n, e, k, i, total, ct)
      ensures v.crypto.open(e, k, i, total, ct) == Some(v.piece(n, i))
    {
      PlainOpensSealed(sealed, n, e, k, i, total, ct);
    }
    forall e, k, i, total, ct | v.crypto.open(e, k, i, total, ct).Some?
      ensures exists n: nat :: IsSealedPart(v, sealed, n, e, k, i, total, ct)
    {
      PlainOpensNoMore(sealed, e, k, i, total, ct);
    }
  }

  /** Whatever was sealed, some view reads it so. */
  lemma FaithfulViewExists(sealed: seq<Manifest>)
    ensures Faithful(PlainView(sealed), sealed)
  {
    PlainViewTells(sealed);
    PlainViewOpens(sealed);
    hide TellsApart, OpensSealed, PartCount, FirstOf;
    forall n | 0 <= n < |sealed|
      ensures Decodes(PlainView(sealed), sealed, n)
    {
      PlainViewPlain(sealed, n, PartCount(sealed[n]));
    }
  }
}
