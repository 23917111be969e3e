/**
  The pieces of internal/backup/backup.go and batch.go that need no ledger call: what a dump says has
  landed, which bodies each batch carries, and why they are safe to submit.
 */
module BackupSteps {
  import opened LedgerModel

  // A dump entry: a transaction the tool sent, and the ledger it was seen in.
  datatype DumpTx = DumpTx(tx: Tx, ledger: LedgerIndex)

  // The tool only ever sends chunks of a backup it planned, and no junk.
  predicate Genuine(b: Body) {
    && !b.JunkPart?
    && (b.ChunkMemo? ==> b.index < |b.id.chunks| && b == ChunkBody(b.id, b.index))
  }

  predicate GenuineDump(dump: seq<DumpTx>) {
    forall i | 0 <= i < |dump| :: Genuine(dump[i].tx.body)
  }

  // Every chunk has its own ciphertext: each is sealed under its own nonce.
  predicate DistinctChunks(id: BackupId) {
    forall i, j | 0 <= i < j < |id.chunks| :: id.chunks[i] != id.chunks[j]
  }

  // ----- resume -----

  // recorded maps the ciphertext of a confirmed chunk to its transaction.
  ghost predicate RecordedOn(landed: set<Tx>, id: BackupId, recorded: map<string, DumpTx>) {
    forall c | c in recorded ::
      var b := recorded[c].tx.body;
      && recorded[c].tx in landed
      && b.ChunkMemo? && b.index < |id.chunks| && id.chunks[b.index] == c && b == ChunkBody(id, b.index)
  }

  // parts maps a nonce and an index to a confirmed manifest part.
  ghost predicate PartsOn(landed: set<Tx>, id: BackupId, parts: map<nat, map<nat, DumpTx>>) {
    forall n, i | n in parts && i in parts[n] ::
      var b := parts[n][i].tx.body;
      parts[n][i].tx in landed && b.PartMemo? && b.id == id && b.nonce == n && b.index == i
  }

  lemma RecordedChunk(landed: set<Tx>, id: BackupId, recorded: map<string, DumpTx>, k: nat)
    requires RecordedOn(landed, id, recorded) && DistinctChunks(id)
    requires k < |id.chunks| && id.chunks[k] in recorded
    ensures recorded[id.chunks[k]].tx in landed && recorded[id.chunks[k]].tx.body == ChunkBody(id, k)
  {
  }

  lemma LandedPartSafe(txs: seq<Rec>, sealed: seq<Manifest>, t: Tx)
    requires Safe(txs, sealed) && t in Landed(txs) && t.body.PartMemo?
    ensures PartSafe(Landed(txs), sealed, t.body)
  {
    var r :| r in txs && r.ok && r.tx == t;
    var i :| 0 <= i < |txs| && txs[i] == r;
    LandedGrows(txs, i, |txs|);
    assert txs[..|txs|] == txs;
    MoreLandsStillSafe(Landed(txs[..i]), Landed(txs), sealed, sealed, t.body);
  }

  lemma {:induction false} FullSet(s: set<nat>, n: nat)
    requires (forall x | x in s :: x < n) && |s| == n
    ensures forall x: nat | x < n :: x in s
  {
    if n > 0 {
      var rest := s - {n - 1};
      if n - 1 !in s {
        Bounded(s, n - 1);
        assert false;
      }
      assert |rest| == n - 1;
      FullSet(rest, n - 1);
    }
  }

  lemma {:induction false} Bounded(s: set<nat>, n: nat)
    requires forall x | x in s :: x < n
    ensures |s| <= n
  {
    if n > 0 {
      Bounded(s - {n - 1}, n - 1);
    } else {
      assert s == {};
    }
  }

  // A manifest that is all on the ledger, and its part 0.
  ghost predicate ManifestLanded(landed: set<Tx>, m: Manifest, nonce: nat, part0: Tx) {
    && part0 in landed && part0.body == PartBody(m, nonce, 0)
    && forall j | 0 <= j < PartCount(m) :: HasPart(landed, m, nonce, j)
  }

  predicate Complete(parts: map<nat, DumpTx>) {
    0 in parts && parts[0].tx.body.PartMemo? && parts[0].tx.body.total == |parts|
  }

  /** Confirmed parts that are as many as part 0 says are all of one manifest, chunks included. */
  lemma ReusedManifest(txs: seq<Rec>, sealed: seq<Manifest>, id: BackupId, parts: map<nat, map<nat, DumpTx>>, n: nat)
    requires Safe(txs, sealed) && PartsOn(Landed(txs), id, parts)
    requires n in parts && Complete(parts[n])
    ensures n < |sealed|
    ensures NamesLanded(Landed(txs), sealed[n])
    ensures ManifestLanded(Landed(txs), sealed[n], n, parts[n][0].tx) && sealed[n].id == id
  {
    hide Safe, NamesLanded, PartCount, Landed;
    forall i | i in parts[n]
      ensures n < |sealed| && parts[n][i].tx.body == PartBody(sealed[n], n, i) && i < PartCount(sealed[n])
      ensures NamesLanded(Landed(txs), sealed[n])
    {
      LandedPartSafe(txs, sealed, parts[n][i].tx);
    }
    assert forall i | i in parts[n].Keys :: i < PartCount(sealed[n]);
    FullSet(parts[n].Keys, PartCount(sealed[n]));
    forall j | 0 <= j < PartCount(sealed[n])
      ensures HasPart(Landed(txs), sealed[n], n, j)
    {
      assert j in parts[n];
    }
  }

  /**
    The batched path refuses a complete manifest when the dump misses a chunk. The chunk is on the
    ledger all the same, so the check that the sequential path lacks is not what keeps it safe.
   */
  lemma RefusedChunksHaveLanded(txs: seq<Rec>, sealed: seq<Manifest>, id: BackupId, parts: map<nat, map<nat, DumpTx>>,
                                n: nat, k: nat)
    requires Safe(txs, sealed) && PartsOn(Landed(txs), id, parts)
    requires n in parts && Complete(parts[n]) && k < |id.chunks|
    ensures exists t :: t in Landed(txs) && t.body == ChunkBody(id, k)
  {
    ReusedManifest(txs, sealed, id, parts, n);
    hide Safe, PartCount, Landed, HasPart;
    assert sealed[n].chunks[k].ref.tx in Landed(txs);
  }

  // ----- the anchor -----

  function AnchorBody(m: Manifest, part0: Tx, ledger: LedgerIndex): Body {
    Anchor(m.id, part0, ledger, m.id.epoch, m.id.number)
  }

  lemma AnchorIsSafe(landed: set<Tx>, sealed: seq<Manifest>, m: Manifest, nonce: nat, part0: Tx, ledger: LedgerIndex)
    requires ManifestLanded(landed, m, nonce, part0)
    ensures BodySafe(landed, sealed, AnchorBody(m, part0, ledger))
  {
  }

  // ----- inner transactions -----

  // The i-th inner transaction of a batch whose outer sequence is outer.
  function Inner(b: Body, outer: nat, i: nat): Tx {
    Tx(outer + 1 + i, 0, 0, true, b)
  }

  function Inners(bodies: seq<Body>, outer: nat): (items: seq<Tx>)
    ensures |items| == |bodies|
  {
    seq(|bodies|, i requires 0 <= i < |bodies| => Inner(bodies[i], outer, i))
  }

  function ChunkBodies(id: BackupId, indexes: seq<nat>): (bodies: seq<Body>)
    requires forall j | 0 <= j < |indexes| :: indexes[j] < |id.chunks|
    ensures |bodies| == |indexes|
  {
    seq(|indexes|, j requires 0 <= j < |indexes| => ChunkBody(id, indexes[j]))
  }

  function Elems(items: seq<Tx>): set<Tx> {
    set t | t in items
  }

  // Each item is safe once those before it have landed.
  ghost predicate SafeInOrder(landed: set<Tx>, sealed: seq<Manifest>, items: seq<Tx>) {
    forall i | 0 <= i < |items| :: BodySafe(landed + Elems(items[..i]), sealed, items[i].body)
  }

  lemma {:induction false} InOrderIsBatchSafe(landed: set<Tx>, sealed: seq<Manifest>, items: seq<Tx>)
    requires SafeInOrder(landed, sealed, items)
    ensures BatchSafe(landed, sealed, items)
    decreases |items|
  {
    hide BodySafe;
    if items != [] {
      assert landed + Elems(items[..0]) == landed;
      var rest := items[1..];
      var next := landed + {items[0]};
      forall i | 0 <= i < |rest|
        ensures BodySafe(next + Elems(rest[..i]), sealed, rest[i].body)
      {
        assert items[..i + 1] == [items[0]] + rest[..i];
        assert next + Elems(rest[..i]) == landed + Elems(items[..i + 1]);
        assert rest[i] == items[i + 1];
      }
      InOrderIsBatchSafe(next, sealed, rest);
    }
  }

  lemma NamesStayLanded(landed: set<Tx>, more: set<Tx>, m: Manifest)
    requires NamesLanded(landed, m) && landed <= more
    ensures NamesLanded(more, m)
  {
  }

  lemma SealedPartIsSafe(landed: set<Tx>, sealed: seq<Manifest>, m: Manifest, nonce: nat, j: nat)
    requires nonce < |sealed| && sealed[nonce] == m && NamesLanded(landed, m) && j < PartCount(m) <= MAX_PARTS
    ensures BodySafe(landed, sealed, PartBody(m, nonce, j))
  {
  }

  // What TailInOrder is given of its items.
  ghost predicate TailParts(landed: set<Tx>, m: Manifest, nonce: nat, first: nat, parts: seq<Tx>, part0: Tx, ledger: LedgerIndex,
                            anchor: seq<Tx>) {
    && first + |parts| <= PartCount(m) <= MAX_PARTS
    && (forall i | 0 <= i < |parts| :: parts[i].body == PartBody(m, nonce, first + i))
    && (anchor == [] || (|anchor| == 1 && first + |parts| == PartCount(m) && anchor[0].body == AnchorBody(m, part0, ledger)))
    && (forall j | 0 <= j < first :: HasPart(landed, m, nonce, j))
    && if first == 0 then |parts| > 0 && part0 == parts[0] else part0 in landed && part0.body == PartBody(m, nonce, 0)
  }

  lemma TailItemIsSafe(landed: set<Tx>, sealed: seq<Manifest>, head: seq<Tx>, m: Manifest, nonce: nat, first: nat,
                       parts: seq<Tx>, part0: Tx, ledger: LedgerIndex, anchor: seq<Tx>, i: nat)
    requires nonce < |sealed| && sealed[nonce] == m && NamesLanded(landed + Elems(head), m)
    requires TailParts(landed, m, nonce, first, parts, part0, ledger, anchor)
    requires i < |parts + anchor|
    ensures BodySafe(landed + Elems((head + (parts + anchor))[..|head| + i]), sealed, (parts + anchor)[i].body)
  {
    hide BodySafe, NamesLanded, PartCount, PartBody, AnchorBody, HasPart, ManifestLanded, Elems;
    var ahead := (head + (parts + anchor))[..|head| + i];
    HeadIsAhead(head, parts + anchor, |head| + i);
    NamesStayLanded(landed + Elems(head), landed + Elems(ahead), m);
    if i < |parts| {
      SealedPartIsSafe(landed + Elems(ahead), sealed, m, nonce, first + i);
    } else {
      assert ahead == head + parts;
      AllPartsAhead(landed, head, m, nonce, first, parts, part0, ahead);
      AnchorIsSafe(landed + Elems(ahead), sealed, m, nonce, part0, ledger);
    }
  }

  /**
    A run of consecutive parts, with the anchor behind the last one, is safe in a batch: the chunks
    and the earlier parts have landed, or are ahead of it among the given items.
   */
  lemma TailInOrder(landed: set<Tx>, sealed: seq<Manifest>, head: seq<Tx>, m: Manifest, nonce: nat, first: nat,
                    parts: seq<Tx>, part0: Tx, ledger: LedgerIndex, anchor: seq<Tx>)
    requires SafeInOrder(landed, sealed, head)
    requires nonce < |sealed| && sealed[nonce] == m && NamesLanded(landed + Elems(head), m)
    requires TailParts(landed, m, nonce, first, parts, part0, ledger, anchor)
    ensures SafeInOrder(landed, sealed, head + parts + anchor)
  {
    hide BodySafe, NamesLanded, TailParts, Elems;
    var items := head + (parts + anchor);
    assert items == head + parts + anchor;
    forall i | 0 <= i < |items|
      ensures BodySafe(landed + Elems(items[..i]), sealed, items[i].body)
    {
      if i < |head| {
        assert items[..i] == head[..i];
      } else {
        TailItemIsSafe(landed, sealed, head, m, nonce, first, parts, part0, ledger, anchor, i - |head|);
      }
    }
  }

  lemma HeadIsAhead(head: seq<Tx>, tail: seq<Tx>, i: nat)
    requires |head| <= i <= |head + tail|
    ensures Elems(head) <= Elems((head + tail)[..i])
  {
    forall t | t in head
      ensures t in (head + tail)[..i]
    {
      var k :| 0 <= k < |head| && head[k] == t;
      assert (head + tail)[..i][k] == t;
    }
  }

  lemma AllPartsAhead(landed: set<Tx>, head: seq<Tx>, m: Manifest, nonce: nat, first: nat, parts: seq<Tx>, part0: Tx,
                      ahead: seq<Tx>)
    requires first + |parts| == PartCount(m) && ahead == head + parts
    requires forall i | 0 <= i < |parts| :: parts[i].body == PartBody(m, nonce, first + i)
    requires forall j | 0 <= j < first :: HasPart(landed, m, nonce, j)
    requires if first == 0 then |parts| > 0 && part0 == parts[0] else part0 in landed && part0.body == PartBody(m, nonce, 0)
    ensures ManifestLanded(landed + Elems(ahead), m, nonce, part0)
  {
    forall i | 0 <= i < |parts|
      ensures parts[i] in ahead
    {
      assert ahead[|head| + i] == parts[i];
    }
    forall j | 0 <= j < PartCount(m)
      ensures HasPart(landed + Elems(ahead), m, nonce, j)
    {
      if j < first {
        assert HasPart(landed, m, nonce, j);
      } else {
        assert parts[j - first] in Elems(ahead);
      }
    }
  }

  lemma ChunksInOrder(landed: set<Tx>, sealed: seq<Manifest>, items: seq<Tx>)
    requires forall i | 0 <= i < |items| :: items[i].body.ChunkMemo?
    ensures SafeInOrder(landed, sealed, items)
  {
  }

  // ----- the draft manifest -----

  function DraftChunks(chunks: seq<NamedChunk>, pending: seq<nat>): (draft: seq<NamedChunk>)
    ensures |draft| == |chunks|
  {
    seq(|chunks|, i requires 0 <= i < |chunks| => if i in pending then NamedChunk(Placeholder, 0) else chunks[i])
  }

  lemma {:induction false} DigitsGrow(a: nat, b: nat)
    requires a <= b
    ensures Digits(a) <= Digits(b)
  {
    if a >= 10 {
      DigitsGrow(a / 10, b / 10);
    }
  }

  // Longer names and later ledgers make no manifest shorter.
  ghost predicate NoLonger(a: NamedChunk, b: NamedChunk) {
    a.ledger <= b.ledger && RefLength(a.ref) <= RefLength(b.ref)
  }

  lemma {:induction false} NoShorter(a: seq<NamedChunk>, b: seq<NamedChunk>)
    requires |a| == |b| && forall i | 0 <= i < |a| :: NoLonger(a[i], b[i])
    ensures ChunksLength(a) <= ChunksLength(b)
  {
    if a != [] {
      var last := |a| - 1;
      NoShorter(a[..last], b[..last]);
      assert NoLonger(a[last], b[last]);
      DigitsGrow(a[last].ledger, b[last].ledger);
    }
  }

  /** A manifest that names its pending chunks inside the batch has as many parts as the draft. */
  lemma DraftHasRealPartCount(m: Manifest, pending: seq<nat>)
    requires forall i | 0 <= i < |m.chunks| && i in pending :: m.chunks[i].ref.Named? && m.chunks[i].ledger == 0
    ensures PartCount(m.(chunks := DraftChunks(m.chunks, pending))) == PartCount(m)
  {
    NoShorter(m.chunks, DraftChunks(m.chunks, pending));
    NoShorter(DraftChunks(m.chunks, pending), m.chunks);
  }

  /** Outside the batch, where their ledgers are known, it can only have more. */
  lemma DraftIsLeast(m: Manifest, named: Manifest, pending: seq<nat>)
    requires |named.chunks| == |m.chunks| && named == m.(chunks := named.chunks)
    requires forall i | 0 <= i < |m.chunks| && i in pending :: named.chunks[i].ref.Named?
    requires forall i | 0 <= i < |m.chunks| && i !in pending :: named.chunks[i] == m.chunks[i]
    ensures PartCount(m.(chunks := DraftChunks(m.chunks, pending))) <= PartCount(named)
  {
    NoShorter(DraftChunks(m.chunks, pending), named.chunks);
  }
}
