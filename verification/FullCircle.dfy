/**
  One backup from the operator's files through the ledger and back: it is published, submitted in any
  mode from any dump, found again in the history that results, and restored.
  internal/backup/backup.go:80-241 and 400-508, internal/discover/discover.go:113-525,
  internal/restore/restore.go:70-140.
 */
module FullCircle {
  import opened Common
  import opened LedgerClient
  import opened LedgerModel
  import opened LedgerSearch
  import opened Wire
  import BackupSteps
  import BundleStream
  import D = Discovery
  import E = EndToEnd
  import J = Judgement
  import Pipeline
  import Redact
  import Restore
  import Submission
  import TxFormat

  // ----- the backup as the protocol sees it -----

  function PiecesOf(t: E.Tools, onRaw: seq<byte>): seq<seq<byte>> {
    Pipeline.Blocks(Pipeline.Packed(t.flate, onRaw))
  }

  function Ciphertexts(t: E.Tools, pieces: seq<seq<byte>>): (texts: seq<string>)
    ensures |texts| == |pieces|
  {
    seq(|pieces|, i requires 0 <= i < |pieces| => E.TextOf(t.chunks.seal(i, |pieces|, pieces[i])))
  }

  function IdOf(t: E.Tools, onRaw: seq<byte>, bundleRaw: seq<byte>, epoch: Word, number: Word): BackupId {
    var stream := BundleStream.Sealed(t.bundle, t.id, Pipeline.Packed(t.flate, bundleRaw));
    BackupId(epoch, number, Ciphertexts(t, PiecesOf(t, onRaw)), E.TextOf(stream))
  }

  // The memos of a chunk's transaction.
  function MemosIn(t: E.Tools, tx: Tx): seq<TxFormat.Memo> {
    var b := tx.body;
    if b.ChunkMemo? && b.index < 0x10000 && b.total < 0x10000 then
      [Pipeline.MemoOf(Pipeline.Payload(Pipeline.CHUNK_TYPE, t.id, b.index, b.total, [], E.BytesOf(b.ciphertext)))]
    else []
  }

  // What the transactions carry that a manifest names.
  function CarriersOf(t: E.Tools, m: Manifest): (c: seq<Option<seq<TxFormat.Memo>>>)
    ensures |c| == |m.chunks|
  {
    seq(|m.chunks|, i requires 0 <= i < |m.chunks| => if m.chunks[i].ref.Named? then Some(MemosIn(t, m.chunks[i].ref.tx)) else None)
  }

  lemma BytesBack(b: seq<byte>)
    ensures E.BytesOf(E.TextOf(b)) == b
  {
  }

  // The chunks that a landed manifest of the backup names carry the memos that were published.
  lemma CarriersBack(t: E.Tools, onRaw: seq<byte>, bundleRaw: seq<byte>, files: seq<Restore.Listed>, epoch: Word,
                     number: Word, landed: set<Tx>, m: Manifest)
    requires |PiecesOf(t, onRaw)| <= E.MAX_CHUNKS && m.id == IdOf(t, onRaw, bundleRaw, epoch, number) && NamesLanded(landed, m)
    ensures CarriersOf(t, m) == E.Carriers(E.PublishedOf(t, onRaw, bundleRaw, files).memos)
  {
    var pieces, memos := PiecesOf(t, onRaw), E.PublishedOf(t, onRaw, bundleRaw, files).memos;
    hide Pipeline.Blocks, Pipeline.Packed, BundleStream.Sealed, Pipeline.MemoOf, E.TextOf, E.BytesOf;
    assert |m.chunks| == |memos|;
    forall i | 0 <= i < |m.chunks|
      ensures CarriersOf(t, m)[i] == E.Carriers(memos)[i]
    {
      BytesBack(t.chunks.seal(i, |pieces|, pieces[i]));
      assert m.chunks[i].ref.tx.body == ChunkBody(m.id, i);
    }
  }

  // ----- a landed backup -----

  ghost predicate WholeManifest(txs: seq<Rec>, sealed: seq<Manifest>, id: BackupId, n: nat) {
    n < |sealed| && sealed[n].id == id && AllLanded(Landed(txs), sealed[n], n)
  }

  lemma AnchorAt(txs: seq<Rec>, id: BackupId, k: nat) returns (i: nat)
    requires Submission.Anchored(id, k, Landed(txs))
    ensures i < |txs| && txs[i].ok && Submission.AnchorsParts(txs[i].tx.body, id, k)
  {
    hide Submission.AnchorsParts;
    var t :| t in Landed(txs) && Submission.AnchorsParts(t.body, id, k);
    var r :| r in txs && r.ok && r.tx == t;
    i :| 0 <= i < |txs| && txs[i] == r;
  }

  // The manifest behind an anchor is still there at the end.
  lemma CompleteIsWhole(txs: seq<Rec>, sealed: seq<Manifest>, i: nat) returns (n: nat)
    requires Safe(txs, sealed) && i < |txs| && txs[i].tx.body.Anchor? && CompleteBehind(txs, i)
    ensures WholeManifest(txs, sealed, txs[i].tx.body.id, n)
  {
    var before, part0 := Landed(txs[..i]), txs[i].tx.body.part0;
    n := part0.body.nonce;
    assert part0 in before && forall j | 0 <= j < PartCount(part0.body.manifest) :: HasPart(before, part0.body.manifest, n, j);
    LandedGrows(txs, i, |txs|);
    assert txs[..|txs|] == txs;
    hide Safe, PartCount, Landed, HasPart, NamesLanded, CompleteBehind;
    BackupSteps.LandedPartSafe(txs, sealed, part0);
    PartsRemain(before, Landed(txs), sealed[n], n);
  }

  /** An anchor of the backup means that a manifest of it is on the ledger whole. */
  lemma AnchoredIsWhole(txs: seq<Rec>, sealed: seq<Manifest>, id: BackupId, k: nat) returns (n: nat)
    requires Safe(txs, sealed) && Submission.Anchored(id, k, Landed(txs))
    ensures WholeManifest(txs, sealed, id, n)
  {
    hide Safe, Submission.Anchored, WholeManifest, CompleteBehind;
    var i := AnchorAt(txs, id, k);
    AnchorNamesCompleteBackup(txs, sealed, i);
    n := CompleteIsWhole(txs, sealed, i);
  }

  lemma PartsRemain(before: set<Tx>, landed: set<Tx>, m: Manifest, nonce: nat)
    requires before <= landed && forall j | 0 <= j < PartCount(m) :: HasPart(before, m, nonce, j)
    ensures forall j | 0 <= j < PartCount(m) :: HasPart(landed, m, nonce, j)
  {
    hide PartCount;
    forall j | 0 <= j < PartCount(m)
      ensures HasPart(landed, m, nonce, j)
    {
      assert HasPart(before, m, nonce, j);
    }
  }

  // The DID entry as discovery reads it.
  function DidOf(v: View, entry: Option<Body>): J.DidReply {
    if entry.None? || !entry.value.Anchor? then J.NoEntry
    else J.AnchorEntry(J.Anchor(v.idText(entry.value.id), entry.value.epoch, entry.value.number), true)
  }

  method Pick(cands: seq<D.Candidate>, id: string) returns (r: Option<D.Candidate>)
    ensures r.Some? ==> r.value in cands && r.value.id == id
    ensures r.None? ==> forall c | c in cands :: c.id != id
  {
    for i := 0 to |cands|
      invariant forall k | 0 <= k < i :: cands[k].id != id
    {
      if cands[i].id == id {
        return Some(cands[i]);
      }
    }
    return None;
  }

  datatype End = NotPublished | NotSubmitted | NotFound | Restored(files: map<string, Restore.Restored>)

  // ----- what is given -----

  // Whatever comes to be sealed, the view reads it faithfully, and it knows the keys of the epoch.
  ghost predicate Views(views: seq<Manifest> -> View, epoch: Word) {
    forall sealed :: Faithful(views(sealed), sealed) && views(sealed).crypto.knows(epoch)
  }

  // Such views exist.
  lemma ViewsExist(epoch: Word)
    ensures Views(PlainView, epoch)
  {
    hide PlainView;
    forall sealed
      ensures Faithful(PlainView(sealed), sealed) && PlainView(sealed).crypto.knows(epoch)
    {
      FaithfulViewExists(sealed);
      KnowsAll(sealed, epoch);
    }
  }

  lemma KnowsAll(sealed: seq<Manifest>, epoch: Word)
    ensures PlainView(sealed).crypto.knows(epoch)
  {
  }

  // The backup that the files make, once they can be published.
  ghost predicate Made(t: E.Tools, sources: seq<Restore.Source>, opt: Redact.Options, scan: Redact.Scanners, epoch: Word, number: Word,
                       id: BackupId)
  {
    && E.Publishable(t, sources, opt, scan)
    && id == IdOf(t, E.OnChainRaw(t, sources, opt, scan).value, E.BundleRaw(t, sources, opt, scan).value, epoch, number)
  }

  // Each chunk of it is sealed under its own nonce.
  ghost predicate OwnNonces(t: E.Tools, sources: seq<Restore.Source>, opt: Redact.Options, scan: Redact.Scanners, epoch: Word, number: Word) {
    forall id | Made(t, sources, opt, scan, epoch, number, id) :: BackupSteps.DistinctChunks(id)
  }

  lemma MadeIsSmall(t: E.Tools, sources: seq<Restore.Source>, opt: Redact.Options, scan: Redact.Scanners, epoch: Word, number: Word,
                    id: BackupId)
    requires Made(t, sources, opt, scan, epoch, number, id)
    ensures |id.chunks| <= Submission.MAX_CHUNKS && id.epoch == epoch && id.number == number
    ensures E.OnChainRaw(t, sources, opt, scan).Ok? && E.BundleRaw(t, sources, opt, scan).Ok?
    ensures |PiecesOf(t, E.OnChainRaw(t, sources, opt, scan).value)| <= E.MAX_CHUNKS
  {
    hide E.OnChainRaw, E.BundleRaw, Pipeline.Packed, Pipeline.Blocks, BundleStream.Sealed;
  }

  // ----- back from the ledger -----

  // What the search is told, and what it must find.
  lemma CandidateIsOurs(v: View, txs: seq<Rec>, sealed: seq<Manifest>, id: BackupId, n: nat, cand: D.Candidate) returns (m: Manifest)
    requires Faithful(v, sealed) && Tells(v, txs, sealed, cand)
    requires n < |sealed| && sealed[n].id == id && cand.id == v.idText(id)
    ensures v.full(cand.plain) == Some(m) && m.id == id && NamesLanded(Landed(txs), m)
  {
    hide NamesLanded, OpensSealed;
    var k :| 0 <= k < |sealed| && cand.id == v.idText(sealed[k].id) && cand.manifest == Reading(v, sealed[k])
             && v.full(cand.plain) == Some(sealed[k]) && NamesLanded(Landed(txs), sealed[k]);
    m := sealed[k];
  }

  // Discovery over the ledger: the manifest of a candidate of this backup, if it names one.
  method Discover(v: View, ledger: Ledger, id: BackupId, ghost n: nat) returns (m: Option<Manifest>)
    requires ledger.Valid() && Faithful(v, ledger.sealed) && v.crypto.knows(id.epoch)
    requires WholeManifest(ledger.txs, ledger.sealed, id, n)
    ensures m.Some? ==> m.value.id == id && NamesLanded(Landed(ledger.txs), m.value)
    ensures m.None? ==> forall k: nat | WholeManifest(ledger.txs, ledger.sealed, id, k) :: !Unforestalled(v, ledger.txs, ledger.sealed[k], k)
  {
    hide Faithful, Safe, NamesLanded, AllLanded, Unforestalled, Landed, J.VerdictOf, Tells, D.Grouped, History;
    var history := History(v, ledger.txs);
    HistoryDecodable(v, ledger.txs);
    var did := DidOf(v, LastAnchor(ledger.txs));
    var run, report := J.Run(v.crypto, did, id.epoch, Some(history));
    BackupIsFound(v, ledger.txs, ledger.sealed, did, id.epoch);
    var cand := Pick(run.value.candidates, v.idText(id));
    if cand.None? {
      forall k: nat | WholeManifest(ledger.txs, ledger.sealed, id, k)
        ensures !Unforestalled(v, ledger.txs, ledger.sealed[k], k)
      {
        assert !FindableAt(v, ledger.txs, ledger.sealed[k], k, id.epoch);
      }
      return None;
    }
    ghost var found := CandidateIsOurs(v, ledger.txs, ledger.sealed, id, n, cand.value);
    m := v.full(cand.value.plain);
  }

  // The backup is on the ledger whole, and memos with other totals came ahead of all its manifests.
  ghost predicate Forestalled(v: View, txs: seq<Rec>, sealed: seq<Manifest>, id: BackupId) {
    && (exists n: nat :: WholeManifest(txs, sealed, id, n))
    && (forall n: nat | WholeManifest(txs, sealed, id, n) :: !Unforestalled(v, txs, sealed[n], n))
  }

  // A made backup that was submitted: a manifest of it is on the ledger whole.
  method SubmitBackup(ledger: Ledger, maxFee: nat, batch: bool, dump: seq<BackupSteps.DumpTx>, id: BackupId, rest: nat)
    returns (ok: bool, ghost n: nat)
    requires ledger.Valid() && BackupSteps.GenuineDump(dump) && |id.chunks| <= Submission.MAX_CHUNKS && BackupSteps.DistinctChunks(id)
    modifies ledger
    ensures ledger.Progressed()
    ensures ok ==> WholeManifest(ledger.txs, ledger.sealed, id, n)
  {
    hide Safe, Landed, WholeManifest, Submission.Anchored;
    n := 0;
    var plan := Submission.MakePlan(id, rest);
    if plan.Err? {
      return false, n;
    }
    var s := new Submission.Submitter(ledger, maxFee, batch, dump);
    var done, o := s.Submit(plan.value);
    if done.Err? {
      return false, n;
    }
    n := AnchoredIsWhole(ledger.txs, ledger.sealed, id, o.parts);
    ok := true;
  }

  // The files of a made backup, from the transactions that a landed manifest of it names.
  method FetchAndBuild(t: E.Tools, ghost sources: seq<Restore.Source>, ghost opt: Redact.Options, ghost scan: Redact.Scanners,
                       clean: string -> bool, p: E.Published, m: Manifest, ghost id: BackupId, ghost landed: set<Tx>)
    returns (files: map<string, Restore.Restored>)
    requires E.Given(t, sources, opt, scan) && forall i | 0 <= i < |sources| :: clean(sources[i].path)
    requires Made(t, sources, opt, scan, id.epoch, id.number, id) && m.id == id && NamesLanded(landed, m)
    requires p == E.PublishedOf(t, E.OnChainRaw(t, sources, opt, scan).value, E.BundleRaw(t, sources, opt, scan).value,
                                Restore.ListingOf(sources, t.sum))
    ensures E.AllBack(sources, files)
  {
    hide E.Publishable, E.Given, E.AllBack, IdOf, E.PublishedOf, CarriersOf, NamesLanded, PiecesOf, Restore.ListingOf, E.OnChainRaw, E.BundleRaw;
    MadeIsSmall(t, sources, opt, scan, id.epoch, id.number, id);
    CarriersBack(t, E.OnChainRaw(t, sources, opt, scan).value, E.BundleRaw(t, sources, opt, scan).value,
                 Restore.ListingOf(sources, t.sum), id.epoch, id.number, landed, m);
    // The manifest's other fields are the plan's: its id commits to what they are computed from.
    files := E.RestoreFrom(t, sources, opt, scan, clean, p.sheet, CarriersOf(t, m), p.bundle);
  }

  lemma BothArchives(t: E.Tools, sources: seq<Restore.Source>, opt: Redact.Options, scan: Redact.Scanners)
    requires E.Publishable(t, sources, opt, scan)
    ensures E.OnChainRaw(t, sources, opt, scan).Ok? && E.BundleRaw(t, sources, opt, scan).Ok?
  {
    hide E.OnChainRaw, E.BundleRaw;
  }

  lemma MadeIs(t: E.Tools, sources: seq<Restore.Source>, opt: Redact.Options, scan: Redact.Scanners, epoch: Word, number: Word)
    requires E.Publishable(t, sources, opt, scan)
    ensures Made(t, sources, opt, scan, epoch, number,
                 IdOf(t, E.OnChainRaw(t, sources, opt, scan).value, E.BundleRaw(t, sources, opt, scan).value, epoch, number))
  {
    hide E.OnChainRaw, E.BundleRaw, IdOf;
  }

  /**
    The whole circle. Whatever the ledger, other writers and the network do meanwhile: once the submission
    reports success, discovery over the ledger's own history finds the backup and every file comes back,
    unless each of its manifests was forestalled by a memo under its nonce that gives another total.
   */
  method BackUpAndRestore(t: E.Tools, views: seq<Manifest> -> View, ledger: Ledger, maxFee: nat, batch: bool,
                          dump: seq<BackupSteps.DumpTx>, sources: seq<Restore.Source>, opt: Redact.Options, scan: Redact.Scanners,
                          clean: string -> bool, epoch: Word, number: Word, rest: nat)
    returns (end: End)
    requires ledger.Valid() && BackupSteps.GenuineDump(dump) && Views(views, epoch)
    requires forall n, p :: |t.bundle.seal(n, p)| == |p| + BundleStream.TAG_LEN
    requires E.Given(t, sources, opt, scan) && forall i | 0 <= i < |sources| :: clean(sources[i].path)
    requires OwnNonces(t, sources, opt, scan, epoch, number)
    modifies ledger
    ensures ledger.Progressed()
    ensures end.NotPublished? <==> !E.Publishable(t, sources, opt, scan)
    ensures end.Restored? ==> E.AllBack(sources, end.files)
    ensures end.NotFound? ==>
              exists id :: Made(t, sources, opt, scan, epoch, number, id) && Forestalled(views(ledger.sealed), ledger.txs, ledger.sealed, id)
  {
    hide E.Publishable, E.Given, E.AllBack, Safe, Landed, Faithful, Made, IdOf, E.PublishedOf, WholeManifest, NamesLanded, E.OnChainRaw,
         E.BundleRaw, Restore.ListingOf, Unforestalled;
    var published := E.Publish(t, sources, opt, scan);
    if published.None? {
      return NotPublished;
    }
    BothArchives(t, sources, opt, scan);
    var id := IdOf(t, E.OnChainRaw(t, sources, opt, scan).value, E.BundleRaw(t, sources, opt, scan).value, epoch, number);
    MadeIs(t, sources, opt, scan, epoch, number);
    MadeIsSmall(t, sources, opt, scan, epoch, number, id);
    var ok, n := SubmitBackup(ledger, maxFee, batch, dump, id, rest);
    if !ok {
      return NotSubmitted;
    }
    var m := Discover(views(ledger.sealed), ledger, id, n);
    if m.None? {
      return End.NotFound;
    }
    var files := FetchAndBuild(t, sources, opt, scan, clean, published.value, m.value, id, Landed(ledger.txs));
    return Restored(files);
  }
}
