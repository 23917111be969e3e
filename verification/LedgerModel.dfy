/**
  The ledger that a backup is written to, after internal/xrpl/fake/fake.go, made asynchronous: a
  submitted transaction stays pending and may be applied at any later moment up to its last ledger.
  Other holders of the writer key may add junk and replays in between. The ledger only grows.

  Hashes are idealised: a transaction's hash is the transaction itself. A backup id commits to the
  epoch, the backup's number within it and the sealed contents, so it is modelled by them. A manifest part is
  modelled by the manifest it is a part of; JunkPart is one that opens under no key.
 */
module LedgerModel {

  // Epochs, numbers and ledgers have 32 bits.
  type Word = n: int | 0 <= n < 0x100000000

  type LedgerIndex = Word

  datatype BackupId = BackupId(epoch: Word, number: Word, chunks: seq<string>, bundle: string)


  const MAX_LEDGER: LedgerIndex := 0xFFFFFFFF

  // What a manifest records for a chunk. Placeholder is the 64 zeros of a draft.
  datatype TxRef = Unset | Placeholder | Named(tx: Tx)

  datatype NamedChunk = NamedChunk(ref: TxRef, ledger: LedgerIndex)

  // rest is the length of the fields that do not change after the plan is built.
  datatype Manifest = Manifest(id: BackupId, chunks: seq<NamedChunk>, rest: nat)

  datatype Body =
    | ChunkMemo(id: BackupId, index: nat, total: nat, ciphertext: string)
    | PartMemo(id: BackupId, nonce: nat, index: nat, total: nat, manifest: Manifest)
    | JunkPart(id: BackupId, nonce: nat, index: nat, total: nat)
    | Anchor(id: BackupId, part0: Tx, ledger: LedgerIndex, epoch: Word, number: Word)
    | Batch(inner: seq<Tx>)
    | Foreign(data: string)

  datatype Tx = Tx(sequence: nat, lastLedger: nat, fee: nat, isInner: bool, body: Body)

  // A validated transaction. One that is not ok was charged its fee and did nothing.
  datatype Rec = Rec(tx: Tx, index: LedgerIndex, ok: bool)

  // ----- manifest size -----

  const PART_LEN := 944
  const MAX_PARTS := 16

  function Digits(n: nat): nat {
    if n < 10 then 1 else 1 + Digits(n / 10)
  }

  function RefLength(ref: TxRef): nat {
    if ref.Unset? then 0 else 64
  }

  function ChunksLength(chunks: seq<NamedChunk>): nat {
    if chunks == [] then 0
    else
      var last := |chunks| - 1;
      ChunksLength(chunks[..last]) + 100 + Digits(last) + Digits(chunks[last].ledger) + RefLength(chunks[last].ref)
  }

  function PartCount(m: Manifest): (n: nat)
    ensures n >= 1
  {
    (2 + m.rest + ChunksLength(m.chunks) + PART_LEN - 1) / PART_LEN
  }

  // ----- safety -----

  function Landed(txs: seq<Rec>): set<Tx> {
    set r | r in txs && r.ok :: r.tx
  }

  function ChunkBody(id: BackupId, k: nat): Body
    requires k < |id.chunks|
  {
    ChunkMemo(id, k, |id.chunks|, id.chunks[k])
  }

  function PartBody(m: Manifest, nonce: nat, j: nat): Body {
    PartMemo(m.id, nonce, j, PartCount(m), m)
  }

  // Every chunk of the backup is named by a landed transaction that carries it.
  ghost predicate NamesLanded(landed: set<Tx>, m: Manifest) {
    && |m.chunks| == |m.id.chunks|
    && forall k | 0 <= k < |m.chunks| ::
         m.chunks[k].ref.Named? && m.chunks[k].ref.tx in landed && m.chunks[k].ref.tx.body == ChunkBody(m.id, k)
  }

  ghost predicate HasPart(landed: set<Tx>, m: Manifest, nonce: nat, j: nat) {
    exists t :: t in landed && t.body == PartBody(m, nonce, j)
  }

  // The part is a part of the manifest sealed under its nonce, whose chunks have landed. Discovery looks
  // at no more parts than the limit.
  ghost predicate PartSafe(landed: set<Tx>, sealed: seq<Manifest>, b: Body)
    requires b.PartMemo?
  {
    && b.nonce < |sealed| && sealed[b.nonce] == b.manifest
    && b == PartBody(b.manifest, b.nonce, b.index) && b.index < b.total <= MAX_PARTS
    && NamesLanded(landed, b.manifest)
  }

  // The anchor names part 0 of a manifest of its backup, all parts of which have landed.
  ghost predicate AnchorSafe(landed: set<Tx>, b: Body)
    requires b.Anchor?
  {
    && b.epoch == b.id.epoch && b.number == b.id.number
    && b.part0 in landed && b.part0.body.PartMemo?
    && b.part0.body.id == b.id && b.part0.body.index == 0
    && forall j | 0 <= j < b.part0.body.total :: HasPart(landed, b.part0.body.manifest, b.part0.body.nonce, j)
  }

  ghost predicate BodySafe(landed: set<Tx>, sealed: seq<Manifest>, b: Body) {
    match b
    case PartMemo(_, _, _, _, _) => PartSafe(landed, sealed, b)
    case Anchor(_, _, _, _, _) => AnchorSafe(landed, b)
    case _ => true
  }

  // The inner transactions are safe when they apply in order.
  ghost predicate BatchSafe(landed: set<Tx>, sealed: seq<Manifest>, inner: seq<Tx>)
    decreases |inner|
  {
    inner == [] ||
    (BodySafe(landed, sealed, inner[0].body) && BatchSafe(landed + {inner[0]}, sealed, inner[1..]))
  }

  ghost predicate TxSafe(landed: set<Tx>, sealed: seq<Manifest>, t: Tx) {
    if t.body.Batch? then BatchSafe(landed, sealed, t.body.inner) else BodySafe(landed, sealed, t.body)
  }

  // Everything a transaction needs had landed before it.
  ghost predicate Safe(txs: seq<Rec>, sealed: seq<Manifest>) {
    forall i | 0 <= i < |txs| && txs[i].ok :: BodySafe(Landed(txs[..i]), sealed, txs[i].tx.body)
  }

  /**
    The backup that anchor i names is on the ledger ahead of it: every part of one manifest, part 0
    being the one that is named, and every chunk that the manifest names.
   */
  ghost predicate CompleteBehind(txs: seq<Rec>, i: nat)
    requires i < |txs| && txs[i].tx.body.Anchor?
  {
    var a := txs[i].tx.body;
    var before := Landed(txs[..i]);
    && a.part0 in before && a.part0.body.PartMemo? && a.part0.body.index == 0
    && var m, nonce := a.part0.body.manifest, a.part0.body.nonce;
       && m.id == a.id && a.epoch == m.id.epoch && a.number == m.id.number
       && (forall j | 0 <= j < PartCount(m) :: HasPart(before, m, nonce, j))
       && NamesLanded(before, m)
  }

  /** What safety says of an anchor. */
  lemma AnchorNamesCompleteBackup(txs: seq<Rec>, sealed: seq<Manifest>, i: nat)
    requires Safe(txs, sealed) && i < |txs| && txs[i].ok && txs[i].tx.body.Anchor?
    ensures CompleteBehind(txs, i)
  {
    var a := txs[i].tx.body;
    assert BodySafe(Landed(txs[..i]), sealed, a);
    var r :| r in txs[..i] && r.ok && r.tx == a.part0;
    var j :| 0 <= j < i && txs[..i][j] == r;
    assert txs[j] == r;
    assert BodySafe(Landed(txs[..j]), sealed, r.tx.body);
    LandedGrows(txs, j, i);
  }

  lemma LandedGrows(txs: seq<Rec>, j: nat, i: nat)
    requires j <= i <= |txs|
    ensures Landed(txs[..j]) <= Landed(txs[..i])
  {
    forall t | t in Landed(txs[..j])
      ensures t in Landed(txs[..i])
    {
      var r :| r in txs[..j] && r.ok && r.tx == t;
      var k :| 0 <= k < j && txs[..j][k] == r;
      assert txs[..i][k] == r;
    }
  }

  /** Safety holds of every earlier state of the ledger too. */
  lemma SafeAtEveryMoment(txs: seq<Rec>, sealed: seq<Manifest>, i: nat)
    requires Safe(txs, sealed) && i <= |txs|
    ensures Safe(txs[..i], sealed)
  {
    forall j | 0 <= j < i && txs[..i][j].ok
      ensures BodySafe(Landed(txs[..i][..j]), sealed, txs[..i][j].tx.body)
    {
      assert txs[..i][..j] == txs[..j];
    }
  }

  lemma LandedPlus(txs: seq<Rec>, r: Rec)
    ensures Landed(txs + [r]) == Landed(txs) + (if r.ok then {r.tx} else {})
  {
    forall t
      ensures t in Landed(txs + [r]) <==> t in Landed(txs) + (if r.ok then {r.tx} else {})
    {
      if t in Landed(txs) {
        var q :| q in txs && q.ok && q.tx == t;
        assert q in txs + [r];
      }
      if r.ok && t == r.tx {
        assert r in txs + [r];
      }
    }
  }

  lemma MoreLandsStillSafe(landed: set<Tx>, more: set<Tx>, sealed: seq<Manifest>, later: seq<Manifest>, b: Body)
    requires BodySafe(landed, sealed, b) && landed <= more && sealed <= later
    ensures BodySafe(more, later, b)
  {
    if b.Anchor? {
      forall j | 0 <= j < b.part0.body.total
        ensures HasPart(more, b.part0.body.manifest, b.part0.body.nonce, j)
      {
        assert HasPart(landed, b.part0.body.manifest, b.part0.body.nonce, j);
      }
    }
  }

  lemma {:induction false} BatchStaysSafe(landed: set<Tx>, more: set<Tx>, sealed: seq<Manifest>, later: seq<Manifest>,
                                          inner: seq<Tx>)
    requires BatchSafe(landed, sealed, inner) && landed <= more && sealed <= later
    ensures BatchSafe(more, later, inner)
    decreases |inner|
  {
    if inner != [] {
      hide BodySafe;
      MoreLandsStillSafe(landed, more, sealed, later, inner[0].body);
      BatchStaysSafe(landed + {inner[0]}, more + {inner[0]}, sealed, later, inner[1..]);
    }
  }

  lemma TxStaysSafe(landed: set<Tx>, more: set<Tx>, sealed: seq<Manifest>, later: seq<Manifest>, t: Tx)
    requires TxSafe(landed, sealed, t) && landed <= more && sealed <= later
    ensures TxSafe(more, later, t)
  {
    hide BodySafe, BatchSafe;
    if t.body.Batch? {
      BatchStaysSafe(landed, more, sealed, later, t.body.inner);
    } else {
      MoreLandsStillSafe(landed, more, sealed, later, t.body);
    }
  }

  lemma SafeAppend(txs: seq<Rec>, sealed: seq<Manifest>, r: Rec)
    requires Safe(txs, sealed) && (r.ok ==> BodySafe(Landed(txs), sealed, r.tx.body))
    ensures Safe(txs + [r], sealed)
  {
    hide BodySafe;
    forall i | 0 <= i < |txs + [r]| && (txs + [r])[i].ok
      ensures BodySafe(Landed((txs + [r])[..i]), sealed, (txs + [r])[i].tx.body)
    {
      if i < |txs| {
        assert (txs + [r])[..i] == txs[..i];
      } else {
        assert (txs + [r])[..i] == txs;
      }
    }
  }

  lemma SafeWithMoreSealed(txs: seq<Rec>, sealed: seq<Manifest>, later: seq<Manifest>)
    requires Safe(txs, sealed) && sealed <= later
    ensures Safe(txs, later)
  {
    hide BodySafe;
    forall i | 0 <= i < |txs| && txs[i].ok
      ensures BodySafe(Landed(txs[..i]), later, txs[i].tx.body)
    {
      MoreLandsStillSafe(Landed(txs[..i]), Landed(txs[..i]), sealed, later, txs[i].tx.body);
    }
  }

  // The records of inner transactions that all applied in one ledger.
  function Applied(inner: seq<Tx>, index: LedgerIndex): (recs: seq<Rec>)
    ensures |recs| == |inner|
  {
    seq(|inner|, i requires 0 <= i < |inner| => Rec(inner[i], index, true))
  }

  lemma {:induction false} SafeBatch(txs: seq<Rec>, sealed: seq<Manifest>, inner: seq<Tx>, index: LedgerIndex)
    requires Safe(txs, sealed) && BatchSafe(Landed(txs), sealed, inner)
    ensures Safe(txs + Applied(inner, index), sealed)
    decreases |inner|
  {
    hide BodySafe, Safe;
    if inner == [] {
      assert txs + Applied(inner, index) == txs;
    } else {
      var r := Rec(inner[0], index, true);
      SafeAppend(txs, sealed, r);
      LandedPlus(txs, r);
      SafeBatch(txs + [r], sealed, inner[1..], index);
      assert txs + Applied(inner, index) == (txs + [r]) + Applied(inner[1..], index);
    }
  }
}
