/**
  A backup from the operator's files to what is published, and back to the files:
  internal/backup/backup.go:80-228, internal/discover/discover.go:434-525 and
  internal/restore/restore.go:70-140. Which transaction carries which chunk is a parameter, as are the
  hash, deflate and the two AEADs of the backup.
 */
module EndToEnd {
  import opened Common
  import opened ConfigText
  import opened Redact
  import opened RoundTrip
  import opened Wire
  import BundleStream
  import Container
  import Pipeline
  import Restore
  import Sorting
  import TxFormat

  const MAX_CHUNKS := 8

  // The cryptography and compression of one backup, and the hash that lists the operator's bytes.
  datatype Tools = Tools(
    id: seq<byte>,
    flate: Pipeline.Flate,
    hash: seq<byte> -> seq<byte>,
    sum: string -> string,
    chunks: Pipeline.Aead,
    bundle: BundleStream.Aead)

  // What the manifest says.
  datatype Sheet = Sheet(id: seq<byte>, refs: seq<Pipeline.ChunkRef>, plain: seq<byte>, bundleCipher: seq<byte>,
                         bundlePlain: seq<byte>, files: seq<Restore.Listed>)

  // memos: one for each chunk.
  datatype Published = Published(memos: seq<TxFormat.Memo>, bundle: seq<byte>, sheet: Sheet)

  // ----- text and bytes -----

  // A Go string is a string of bytes.
  predicate Narrow(s: string) {
    forall i | 0 <= i < |s| :: s[i] as int < 256
  }

  function BytesOf(s: string): (b: seq<byte>)
    ensures |b| == |s|
  {
    seq(|s|, i requires 0 <= i < |s| => s[i] as int % 256)
  }

  function TextOf(b: seq<byte>): (s: string)
    ensures |s| == |b|
  {
    seq(|b|, i requires 0 <= i < |b| => b[i] as char)
  }

  lemma TextBack(s: string)
    requires Narrow(s)
    ensures TextOf(BytesOf(s)) == s
  {
  }

  lemma TextTells(a: seq<byte>, b: seq<byte>)
    requires TextOf(a) == TextOf(b)
    ensures a == b
  {
    forall i | 0 <= i < |a|
      ensures a[i] == b[i]
    {
      assert TextOf(a)[i] == TextOf(b)[i];
    }
  }

  function Archived(e: Restore.Entry): Container.Entry {
    Container.Entry(BytesOf(e.path), e.mode % 0x100000000, BytesOf(e.data))
  }

  function Unarchived(e: Container.Entry): Restore.Entry {
    Restore.Entry(TextOf(e.path), e.mode, TextOf(e.data))
  }

  function AllArchived(es: seq<Restore.Entry>): (r: seq<Container.Entry>)
    ensures |r| == |es|
  {
    seq(|es|, i requires 0 <= i < |es| => Archived(es[i]))
  }

  function AllUnarchived(es: seq<Container.Entry>): (r: seq<Restore.Entry>)
    ensures |r| == |es|
  {
    seq(|es|, i requires 0 <= i < |es| => Unarchived(es[i]))
  }

  // ----- publishing -----

  function RefsOf(t: Tools, pieces: seq<seq<byte>>): (refs: seq<Pipeline.ChunkRef>)
    ensures |refs| == |pieces|
  {
    seq(|pieces|, i requires 0 <= i < |pieces| => Pipeline.ChunkRef(i, t.hash(t.chunks.seal(i, |pieces|, pieces[i]))))
  }

  function MemosOf(t: Tools, pieces: seq<seq<byte>>): (memos: seq<TxFormat.Memo>)
    requires |pieces| < 0x10000
    ensures |memos| == |pieces|
  {
    seq(|pieces|, i requires 0 <= i < |pieces| => Pipeline.MemoOf(Pipeline.ChunkPayload(t.chunks, t.id, pieces, i)))
  }

  // What is published of the two containers' bytes.
  function PublishedOf(t: Tools, onRaw: seq<byte>, bundleRaw: seq<byte>, files: seq<Restore.Listed>): Published
    requires |Pipeline.Blocks(Pipeline.Packed(t.flate, onRaw))| <= MAX_CHUNKS
  {
    var pieces := Pipeline.Blocks(Pipeline.Packed(t.flate, onRaw));
    var stream := BundleStream.Sealed(t.bundle, t.id, Pipeline.Packed(t.flate, bundleRaw));
    Published(MemosOf(t, pieces), stream,
              Sheet(t.id, RefsOf(t, pieces), t.hash(onRaw), t.hash(stream), t.hash(bundleRaw), files))
  }

  method SealChunks(t: Tools, pieces: seq<seq<byte>>) returns (memos: Option<seq<TxFormat.Memo>>, refs: seq<Pipeline.ChunkRef>)
    requires |pieces| <= MAX_CHUNKS
    ensures memos.Some? ==> memos.value == MemosOf(t, pieces) && refs == RefsOf(t, pieces)
    ensures memos.Some? <==> forall i | 0 <= i < |pieces| :: MemoFits(t, pieces, i)
  {
    hide Pipeline.MemoOf, TxFormat.MemoArray;
    var out: seq<TxFormat.Memo> := [];
    refs := [];
    for i := 0 to |pieces|
      invariant forall k | 0 <= k < i :: MemoFits(t, pieces, k)
      invariant out == MemosOf(t, pieces)[..i] && refs == RefsOf(t, pieces)[..i]
    {
      var ct := t.chunks.seal(i, |pieces|, pieces[i]);
      var memo := Pipeline.Encode(Pipeline.Payload(Pipeline.CHUNK_TYPE, t.id, i, |pieces|, [], ct));
      if memo.Err? {
        assert !MemoFits(t, pieces, i);
        return None, refs;
      }
      out := out + [memo.value];
      refs := refs + [Pipeline.ChunkRef(i, t.hash(ct))];
    }
    memos := Some(out);
  }

  predicate MemoFits(t: Tools, pieces: seq<seq<byte>>, i: nat)
    requires i < |pieces| < 0x10000
  {
    |t.id| == Pipeline.ID_LEN
    && |TxFormat.MemoArray([Pipeline.MemoOf(Pipeline.ChunkPayload(t.chunks, t.id, pieces, i))])| <= TxFormat.MAX_MEMOS
  }

  // The two archives of a backup.
  function OnChainRaw(t: Tools, sources: seq<Restore.Source>, opt: Options, scan: Scanners): Result<seq<byte>, Container.EncodeError> {
    Container.Encoded(t.hash, AllArchived(Restore.OnChainOf(sources, opt, scan)))
  }

  function BundleRaw(t: Tools, sources: seq<Restore.Source>, opt: Options, scan: Scanners): Result<seq<byte>, Container.EncodeError> {
    Container.Encoded(t.hash, AllArchived(Restore.BundleOf(sources, opt, scan)))
  }

  predicate FitsOnChain(t: Tools, onRaw: seq<byte>) {
    var pieces := Pipeline.Blocks(Pipeline.Packed(t.flate, onRaw));
    |pieces| <= MAX_CHUNKS && forall i | 0 <= i < |pieces| :: MemoFits(t, pieces, i)
  }

  // Every config splits, no file is named twice, and both archives can be written, the on-chain one in 8 chunks.
  ghost predicate Publishable(t: Tools, sources: seq<Restore.Source>, opt: Options, scan: Scanners) {
    && (forall i | 0 <= i < |sources| :: Restore.Unrefused(sources[i], scan))
    && Restore.Distinct(sources)
    && OnChainRaw(t, sources, opt, scan).Ok? && BundleRaw(t, sources, opt, scan).Ok?
    && FitsOnChain(t, OnChainRaw(t, sources, opt, scan).value)
  }

  method NamedOnce(listed: seq<Restore.Listed>) returns (once: bool)
    ensures once <==> Restore.Unlike(listed)
  {
    var seen: set<string> := {};
    for i := 0 to |listed|
      invariant forall k, j | 0 <= k < j < i :: listed[k].path != listed[j].path
      invariant forall p :: p in seen <==> exists k :: 0 <= k < i && listed[k].path == p
    {
      if listed[i].path in seen {
        return false;
      }
      seen := seen + {listed[i].path};
    }
    return true;
  }

  lemma ListingTells(sources: seq<Restore.Source>, sum: string -> string)
    ensures Restore.Unlike(Restore.ListingOf(sources, sum)) <==> Restore.Distinct(sources)
  {
    var listed := Restore.ListingOf(sources, sum);
    assert forall i | 0 <= i < |sources| :: listed[i].path == sources[i].path;
  }

  /** Build, from the files to what is published; it refuses exactly what cannot be published. */
  method Publish(t: Tools, sources: seq<Restore.Source>, opt: Options, scan: Scanners) returns (r: Option<Published>)
    requires forall n, p :: |t.bundle.seal(n, p)| == |p| + BundleStream.TAG_LEN
    ensures r.Some? <==> Publishable(t, sources, opt, scan)
    ensures r.Some? ==> r.value == PublishedOf(t, OnChainRaw(t, sources, opt, scan).value, BundleRaw(t, sources, opt, scan).value,
                                               Restore.ListingOf(sources, t.sum))
  {
    hide Restore.OnChainOf, Restore.BundleOf, Restore.Unrefused, Container.Encoded, Restore.ListingOf, Restore.Unlike, FitsOnChain, PublishedOf;
    var ok, onChain, bundle, listed := Restore.Store(sources, opt, scan, t.sum);
    if !ok {
      return None;
    }
    ListingTells(sources, t.sum);
    var once := NamedOnce(listed);
    if !once {
      return None;
    }
    var onRaw := Container.Encode(t.hash, AllArchived(onChain));
    if onRaw.Err? {
      return None;
    }
    var bundleRaw := Container.Encode(t.hash, AllArchived(bundle));
    if bundleRaw.Err? {
      return None;
    }
    r := PublishRaw(t, onRaw.value, bundleRaw.value, listed);
  }

  method PublishRaw(t: Tools, onRaw: seq<byte>, bundleRaw: seq<byte>, files: seq<Restore.Listed>) returns (r: Option<Published>)
    requires forall n, p :: |t.bundle.seal(n, p)| == |p| + BundleStream.TAG_LEN
    ensures r.Some? <==> FitsOnChain(t, onRaw)
    ensures r.Some? ==> r.value == PublishedOf(t, onRaw, bundleRaw, files)
  {
    hide Pipeline.Packed, Pipeline.Blocks, BundleStream.Sealed, MemosOf, RefsOf, MemoFits;
    var onPacked := Pipeline.Pack(t.flate, onRaw);
    var bundlePacked := Pipeline.Pack(t.flate, bundleRaw);
    var pieces := Pipeline.Split(onPacked);
    if pieces.None? || |pieces.value| > MAX_CHUNKS {
      return None;
    }
    var memos, refs := SealChunks(t, pieces.value);
    if memos.None? {
      return None;
    }
    var stream := BundleStream.SealBundle(t.bundle, t.id, bundlePacked);
    r := Some(Published(memos.value, stream, Sheet(t.id, refs, t.hash(onRaw), t.hash(stream), t.hash(bundleRaw), files)));
  }

  // ----- fetching -----

  // The archive in a packed plaintext, checked against the hash that the manifest gives.
  function Entries(t: Tools, packed: seq<byte>, sum: seq<byte>): Option<seq<Container.Entry>> {
    match Pipeline.Unpacked(t.flate, packed)
    case None => None
    case Some(raw) => if t.hash(raw) != sum then None else Container.Decoded(t.hash, raw)
  }

  function Fetched(t: Tools, s: Sheet, carriers: seq<Option<seq<TxFormat.Memo>>>): Option<seq<Container.Entry>>
    requires |carriers| == |s.refs|
  {
    match Pipeline.Assembled(t.chunks, t.hash, s.id, s.refs, carriers, |s.refs|)
    case None => None
    case Some(packed) => Entries(t, packed, s.plain)
  }

  function Unbundled(t: Tools, s: Sheet, stream: seq<byte>): Option<seq<Container.Entry>> {
    if t.hash(stream) != s.bundleCipher then None
    else match BundleStream.Opened(t.bundle, s.id, stream)
      case None => None
      case Some(packed) => Entries(t, packed, s.bundlePlain)
  }

  method ReadArchive(t: Tools, packed: seq<byte>, sum: seq<byte>) returns (r: Option<seq<Container.Entry>>)
    ensures r == Entries(t, packed, sum)
  {
    var raw := Pipeline.Unpacked(t.flate, packed);
    if raw.None? || t.hash(raw.value) != sum {
      return None;
    }
    r := Container.Decode(t.hash, raw.value);
  }

  /** Fetch: carriers are the memos of the transactions that the manifest's chunk references name. */
  method Fetch(t: Tools, s: Sheet, carriers: seq<Option<seq<TxFormat.Memo>>>) returns (r: Option<seq<Container.Entry>>)
    requires |carriers| == |s.refs|
    ensures r == Fetched(t, s, carriers)
  {
    hide Entries;
    var packed := Pipeline.Assemble(t.chunks, t.hash, s.id, s.refs, carriers);
    if packed.None? {
      return None;
    }
    r := ReadArchive(t, packed.value, s.plain);
  }

  /** OpenBundle of discovery: a file of another backup or an altered one is refused. */
  method Unbundle(t: Tools, s: Sheet, stream: seq<byte>) returns (r: Option<seq<Container.Entry>>)
    ensures r == Unbundled(t, s, stream)
  {
    hide Entries, BundleStream.Opened;
    if t.hash(stream) != s.bundleCipher {
      return None;
    }
    var packed := BundleStream.OpenBundle(t.bundle, s.id, stream);
    if packed.None? {
      return None;
    }
    r := ReadArchive(t, packed.value, s.bundlePlain);
  }

  // ----- what comes back -----

  // What the theorem asks of the tools: inverses, lengths, and an AEAD that opens what it sealed.
  ghost predicate Works(t: Tools, bundlePacked: seq<byte>) {
    && |t.id| == Pipeline.ID_LEN
    && (forall raw :: t.flate.inflate(t.flate.deflate(raw)) == Some(raw))
    && (forall b :: |t.hash(b)| == Container.HASH_LEN)
    && (forall i, n, p :: |t.chunks.seal(i, n, p)| == |p| + Pipeline.TAG_LEN && t.chunks.open(i, n, t.chunks.seal(i, n, p)) == Some(p))
    && BundleStream.Ideal(t.bundle, bundlePacked)
  }

  /** Whatever inflates what it deflated, and whatever the hash, some tools work for a bundle. */
  lemma WorkingTools(id: seq<byte>, flate: Pipeline.Flate, hash: seq<byte> -> seq<byte>, sum: string -> string, bundlePacked: seq<byte>)
    returns (t: Tools)
    requires |id| == Pipeline.ID_LEN && (forall raw :: flate.inflate(flate.deflate(raw)) == Some(raw))
    requires forall b :: |hash(b)| == Container.HASH_LEN
    ensures t.flate == flate && t.hash == hash && t.sum == sum && Works(t, bundlePacked)
  {
    var seal := (i: nat, n: nat, p: seq<byte>) => BundleStream.Tagged([], p);
    var open := (i: nat, n: nat, ct: seq<byte>) => if |ct| < Pipeline.TAG_LEN then None else Some(ct[..|ct| - Pipeline.TAG_LEN]);
    t := Tools(id, flate, hash, sum, Pipeline.Aead(seal, open), BundleStream.Listing(bundlePacked));
    BundleStream.IdealExists(bundlePacked);
    hide BundleStream.Ideal, BundleStream.Listing, BundleStream.Tagged;
  }

  lemma EntriesBack(t: Tools, raw: seq<byte>)
    requires t.flate.inflate(t.flate.deflate(raw)) == Some(raw)
    ensures Entries(t, Pipeline.Packed(t.flate, raw), t.hash(raw)) == Container.Decoded(t.hash, raw)
  {
    Pipeline.UnpackInvertsPack(t.flate, raw);
  }

  // Each chunk's transaction carries its memo.
  function Carriers(memos: seq<TxFormat.Memo>): (c: seq<Option<seq<TxFormat.Memo>>>)
    ensures |c| == |memos|
  {
    seq(|memos|, i requires 0 <= i < |memos| => Some([memos[i]]))
  }

  lemma FetchedBack(t: Tools, bundlePacked: seq<byte>, onRaw: seq<byte>, bundleRaw: seq<byte>, files: seq<Restore.Listed>)
    requires Works(t, bundlePacked) && |Pipeline.Blocks(Pipeline.Packed(t.flate, onRaw))| <= MAX_CHUNKS
    ensures var p := PublishedOf(t, onRaw, bundleRaw, files);
            Fetched(t, p.sheet, Carriers(p.memos)) == Container.Decoded(t.hash, onRaw)
  {
    var p := PublishedOf(t, onRaw, bundleRaw, files);
    var pieces := Pipeline.Blocks(Pipeline.Packed(t.flate, onRaw));
    hide Pipeline.Packed, Pipeline.Blocks, Pipeline.MemoOf, Pipeline.Assembled, BundleStream.Sealed, BundleStream.Ideal, Container.Decoded;
    Pipeline.PiecesBack(t.chunks, t.hash, t.id, pieces, p.sheet.refs, Carriers(p.memos), |pieces|);
    assert pieces[..|pieces|] == pieces;
    Pipeline.BlocksJoin(Pipeline.Packed(t.flate, onRaw));
    EntriesBack(t, onRaw);
  }

  lemma UnbundledBack(t: Tools, onRaw: seq<byte>, bundleRaw: seq<byte>, files: seq<Restore.Listed>)
    requires |Pipeline.Blocks(Pipeline.Packed(t.flate, onRaw))| <= MAX_CHUNKS
    requires Works(t, Pipeline.Packed(t.flate, bundleRaw))
    requires BundleStream.FrameCount(Pipeline.Packed(t.flate, bundleRaw)) <= BundleStream.COUNTER
    ensures var p := PublishedOf(t, onRaw, bundleRaw, files);
            Unbundled(t, p.sheet, p.bundle) == Container.Decoded(t.hash, bundleRaw)
  {
    hide Pipeline.Packed, Pipeline.Blocks, Pipeline.MemoOf, BundleStream.Sealed, BundleStream.Opened, BundleStream.Ideal, Container.Decoded,
         BundleStream.FrameCount, Entries;
    var packed := Pipeline.Packed(t.flate, bundleRaw);
    BundleStream.OnlyTheSealedStreamOpens(t.bundle, t.id, packed, BundleStream.Sealed(t.bundle, t.id, packed));
    EntriesBack(t, bundleRaw);
  }

  // ----- the entries of an archive -----

  // Entries that an archive holds as they are.
  ghost predicate Storable(es: seq<Restore.Entry>) {
    && |es| < 0x100000000
    && forall e | e in es :: Narrow(e.path) && Narrow(e.data) && |e.data| < 0x10000000000000000 && e.mode < Container.MODE_MASK
  }

  lemma EntryBack(e: Restore.Entry)
    requires Narrow(e.path) && Narrow(e.data) && e.mode < Container.MODE_MASK
    ensures Container.Masked(Archived(e)) == Archived(e) && Unarchived(Archived(e)) == e
  {
    TextBack(e.path);
    TextBack(e.data);
  }

  // The same entries, in some order, each path once.
  ghost predicate SameEntries(a: seq<Restore.Entry>, b: seq<Restore.Entry>) {
    (forall e :: e in a <==> e in b) && Restore.OnePath(b)
  }

  lemma SortedHolds(es: seq<Restore.Entry>, x: Container.Entry)
    ensures x in Sorting.Sort(Container.ByPath, AllArchived(es)) <==> exists e :: e in es && x == Archived(e)
  {
    Container.PathsAreOrdered();
    Sorting.SortHolds(Container.ByPath, AllArchived(es), x);
    hide Sorting.Sort, Archived;
    if x in AllArchived(es) {
      var i :| 0 <= i < |es| && AllArchived(es)[i] == x;
      assert es[i] in es;
    }
    forall e | e in es && x == Archived(e)
      ensures x in AllArchived(es)
    {
      var i :| 0 <= i < |es| && es[i] == e;
      assert AllArchived(es)[i] == x;
    }
  }

  lemma MaskedIsSorted(h: Container.Hash, es: seq<Restore.Entry>)
    requires Storable(es) && Container.Encoded(h, AllArchived(es)).Ok? && forall b :: |h(b)| == Container.HASH_LEN
    ensures Container.Decoded(h, Container.Encoded(h, AllArchived(es)).value) == Some(Sorting.Sort(Container.ByPath, AllArchived(es)))
  {
    var all := AllArchived(es);
    var s := Sorting.Sort(Container.ByPath, all);
    forall i | 0 <= i < |all|
      ensures Container.Sized(h, all[i])
    {
      assert es[i] in es;
    }
    Container.DecodeInvertsEncode(h, all);
    forall i | 0 <= i < |s|
      ensures Container.Masked(s[i]) == s[i]
    {
      SortedHolds(es, s[i]);
      var e :| e in es && s[i] == Archived(e);
      EntryBack(e);
    }
    hide Sorting.Sort, Container.Masked;
    assert Container.AllMasked(s) == s;
  }

  lemma PathsDiffer(h: Container.Hash, entries: seq<Container.Entry>, i: nat, j: nat)
    requires Container.Encoded(h, entries).Ok? && i < j < |entries|
    ensures var s := Sorting.Sort(Container.ByPath, entries); s[i].path != s[j].path
  {
    var s := Sorting.Sort(Container.ByPath, entries);
    Container.SortSorts(entries);
    Container.SortedAscends(s);
    Sorting.BeforeIsTotal(s[i].path, s[j].path);
    hide Sorting.Sort, Sorting.Before;
  }

  lemma BackHolds(es: seq<Restore.Entry>, e: Restore.Entry)
    requires Storable(es)
    ensures e in es <==> e in AllUnarchived(Sorting.Sort(Container.ByPath, AllArchived(es)))
  {
    var s := Sorting.Sort(Container.ByPath, AllArchived(es));
    var back := AllUnarchived(s);
    hide Sorting.Sort, Archived, Unarchived, AllArchived;
    if e in es {
      EntryBack(e);
      SortedHolds(es, Archived(e));
      var i :| 0 <= i < |s| && s[i] == Archived(e);
      assert back[i] == e;
    }
    if e in back {
      var i :| 0 <= i < |back| && back[i] == e;
      SortedHolds(es, s[i]);
      var e' :| e' in es && s[i] == Archived(e');
      EntryBack(e');
    }
  }

  /** Encoded and decoded, an archive holds the same entries. */
  lemma ArchiveBack(h: Container.Hash, es: seq<Restore.Entry>)
    requires Storable(es) && Container.Encoded(h, AllArchived(es)).Ok? && forall b :: |h(b)| == Container.HASH_LEN
    ensures var r := Container.Decoded(h, Container.Encoded(h, AllArchived(es)).value);
            r.Some? && SameEntries(es, AllUnarchived(r.value))
  {
    var s := Sorting.Sort(Container.ByPath, AllArchived(es));
    MaskedIsSorted(h, es);
    var back := AllUnarchived(s);
    hide Sorting.Sort, Container.Encoded, Container.Decoded, Archived, Unarchived, AllUnarchived, AllArchived, Storable;
    forall e
      ensures e in es <==> e in back
    {
      BackHolds(es, e);
    }
    forall i, j | 0 <= i < j < |back|
      ensures back[i].path != back[j].path
    {
      BackPathsDiffer(h, es, i, j);
    }
  }

  lemma BackPathsDiffer(h: Container.Hash, es: seq<Restore.Entry>, i: nat, j: nat)
    requires Container.Encoded(h, AllArchived(es)).Ok? && i < j < |es|
    ensures var back := AllUnarchived(Sorting.Sort(Container.ByPath, AllArchived(es))); back[i].path != back[j].path
  {
    var s := Sorting.Sort(Container.ByPath, AllArchived(es));
    PathsDiffer(h, AllArchived(es), i, j);
    hide Sorting.Sort, Container.Encoded;
    if TextOf(s[i].path) == TextOf(s[j].path) {
      TextTells(s[i].path, s[j].path);
    }
  }

  // ----- rebuilding does not depend on the order of the entries -----

  lemma SameByPath(a: seq<Restore.Entry>, b: seq<Restore.Entry>)
    requires Restore.OnePath(a) && SameEntries(a, b)
    ensures Restore.ByPath(a) == Restore.ByPath(b)
  {
    hide Restore.ByPath, Restore.OnePath;
    forall p
      ensures p in Restore.ByPath(a) <==> p in Restore.ByPath(b)
      ensures p in Restore.ByPath(a) ==> Restore.ByPath(a)[p] == Restore.ByPath(b)[p]
    {
      Restore.ByPathKeys(a, p);
      Restore.ByPathKeys(b, p);
      if p in Restore.ByPath(a) {
        Restore.ByPathHas(b, Restore.ByPath(a)[p]);
      }
      if p in Restore.ByPath(b) {
        Restore.ByPathHas(a, Restore.ByPath(b)[p]);
      }
    }
  }

  lemma SameAfterOn(a: seq<Restore.Entry>, b: seq<Restore.Entry>, left: map<string, Restore.Entry>)
    requires Restore.OnePath(a) && SameEntries(a, b)
    ensures Restore.AfterOn(a, left) == Restore.AfterOn(b, left)
  {
    hide Restore.AfterOn, Restore.OnePath, MergedText, BareText;
    var s, r := Restore.AfterOn(a, left), Restore.AfterOn(b, left);
    forall p
      ensures p in s.files <==> p in r.files
      ensures p in s.files ==> s.files[p] == r.files[p]
      ensures p in s.left <==> p in r.left
      ensures p in s.left ==> s.left[p] == r.left[p]
    {
      Restore.AfterOnKeys(a, left, p);
      Restore.AfterOnKeys(b, left, p);
      SamePaths(a, b, p);
      if p in s.files {
        var i :| 0 <= i < |a| && a[i].path == p;
        assert a[i] in a;
        Restore.AfterOnHas(a, left, a[i]);
        Restore.AfterOnHas(b, left, a[i]);
      }
    }
    assert s.files == r.files && s.left == r.left;
  }

  lemma SamePaths(a: seq<Restore.Entry>, b: seq<Restore.Entry>, p: string)
    requires SameEntries(a, b)
    ensures (exists i :: 0 <= i < |a| && a[i].path == p) <==> (exists i :: 0 <= i < |b| && b[i].path == p)
  {
    if i :| 0 <= i < |a| && a[i].path == p {
      assert a[i] in b;
    }
    if i :| 0 <= i < |b| && b[i].path == p {
      assert b[i] in a;
    }
  }

  lemma SameRebuilt(a: seq<Restore.Entry>, b: seq<Restore.Entry>, c: seq<Restore.Entry>, d: seq<Restore.Entry>)
    requires Restore.OnePath(a) && SameEntries(a, b) && Restore.OnePath(c) && SameEntries(c, d)
    ensures Restore.Rebuilt(a, c) == Restore.Rebuilt(b, d)
  {
    SameByPath(c, d);
    SameAfterOn(a, b, Restore.ByPath(c));
    hide Restore.AfterOn, Restore.ByPath;
  }

  // ----- bytes stay bytes -----

  lemma NarrowJoins(a: string, b: string)
    ensures Narrow(a + b) <==> Narrow(a) && Narrow(b)
  {
    assert forall i | 0 <= i < |a| :: (a + b)[i] == a[i];
    assert forall i | 0 <= i < |b| :: (a + b)[|a| + i] == b[i];
  }

  lemma {:induction false} NarrowPieces(ps: seq<Piece>)
    ensures Narrow(Joined(ps)) <==> forall i | 0 <= i < |ps| :: Narrow(ps[i].raw) && Narrow(ps[i].end)
  {
    if ps != [] {
      NarrowPieces(ps[1..]);
      NarrowJoins(ps[0].raw, ps[0].end);
      NarrowJoins(ps[0].raw + ps[0].end, Joined(ps[1..]));
      hide Narrow, Joined;
      assert forall i | 0 < i < |ps| :: ps[i] == ps[1..][i - 1];
    }
  }

  // A line as its pieces, and its value, in bytes.
  predicate NarrowLine(l: Line) {
    Narrow(l.raw) && Narrow(l.end) && (l.comment != "" ==> Narrow(l.value))
  }

  lemma ParsedIsNarrow(text: string, i: nat)
    requires Narrow(text) && i < |Parsed(text).lines|
    ensures NarrowLine(Parsed(text).lines[i])
  {
    var lines := Parsed(text).lines;
    var l := lines[i];
    RenderInvertsParse(text);
    NarrowPieces(Pieces(lines));
    assert Pieces(lines)[i] == Piece(l.raw, l.end);
    ParsedIsWellRead(text, i);
    hide Narrow, Parsed, Joined, Pieces, WellRead;
    if l.comment != "" {
      var line, spaces := CommentShape(l);
      var left, right := TrimSplits(l.raw);
      NarrowJoins(l.value + spaces, l.comment);
      NarrowJoins(l.value, spaces);
      NarrowJoins(left + line, right);
      NarrowJoins(left, line);
    }
  }

  lemma OnChainLineIsNarrow(l: Line, d: Decision)
    requires NarrowLine(l) && (d.MoveComment? ==> l.comment != "")
    ensures Narrow(OnChainLine(l, d).raw) && Narrow(OnChainLine(l, d).end)
  {
    if d.MoveComment? {
      MarkersAreNarrow();
      NarrowJoins(l.value + " ", COMMENT_MARKER);
      NarrowJoins(l.value, " ");
    } else if d.MoveLine? {
      MarkersAreNarrow();
    }
    hide Narrow;
  }

  lemma MarkersAreNarrow()
    ensures Narrow(MOVED_MARKER) && Narrow(COMMENT_MARKER) && Narrow(" ")
  {
    MovedMarkerIsNarrow();
    CommentMarkerIsNarrow();
  }

  lemma MovedMarkerIsNarrow()
    ensures Narrow(MOVED_MARKER)
  {
    assert MOVED_MARKER == "# xrplbak: " + "content " + "moved to " + "the off-" + "chain bundle";
    MarkerIsNarrow("# xrplbak: ", "content ", "moved to ", "the off-", "chain bundle");
  }

  lemma CommentMarkerIsNarrow()
    ensures Narrow(COMMENT_MARKER)
  {
    assert COMMENT_MARKER == "# xrplbak: " + "comment " + "moved to " + "the off-" + "chain bundle";
    MarkerIsNarrow("# xrplbak: ", "comment ", "moved to ", "the off-", "chain bundle");
  }

  lemma MarkerIsNarrow(a: string, b: string, d: string, e: string, f: string)
    requires a == "# xrplbak: " && (b == "content " || b == "comment ")
    requires d == "moved to " && e == "the off-" && f == "chain bundle"
    ensures Narrow(a + b + d + e + f)
  {
    assert Narrow(a) && Narrow(b) && Narrow(d) && Narrow(e) && Narrow(f);
    hide Narrow;
    NarrowJoins(a, b);
    NarrowJoins(a + b, d);
    NarrowJoins(a + b + d, e);
    NarrowJoins(a + b + d + e, f);
  }

  lemma {:induction false} MovedLinesAreLines(lines: seq<Line>, opt: Options, scan: Scanners, l: Line)
    requires l in BundleLines(lines, opt, scan)
    ensures l in lines
  {
    hide Decide;
    if l in BundleLines(lines[1..], opt, scan) {
      MovedLinesAreLines(lines[1..], opt, scan, l);
    }
  }

  lemma SplitIsNarrow(text: string, opt: Options, scan: Scanners)
    requires Narrow(text)
    ensures Narrow(OnChainText(text, opt, scan)) && Narrow(BundleText(text, opt, scan))
  {
    hide Narrow, Parsed, BundleLines, Joined, Decide, OnChainLine;
    var lines := Parsed(text).lines;
    var on, moved := OnChainLines(lines, opt, scan), BundleLines(lines, opt, scan);
    forall i | 0 <= i < |on|
      ensures Narrow(on[i].raw) && Narrow(on[i].end)
    {
      ParsedIsNarrow(text, i);
      MovedFacts(lines[i], opt, scan);
      OnChainLineIsNarrow(lines[i], Decide(lines[i], opt, scan));
    }
    forall i | 0 <= i < |moved|
      ensures Narrow(moved[i].raw) && Narrow(moved[i].end)
    {
      MovedLinesAreLines(lines, opt, scan, moved[i]);
      var k :| 0 <= k < |lines| && lines[k] == moved[i];
      ParsedIsNarrow(text, k);
    }
    NarrowPieces(Pieces(on));
    NarrowPieces(Pieces(moved));
  }

  ghost predicate NarrowSource(s: Restore.Source) {
    Narrow(s.path) && Narrow(s.text) && s.mode < Container.MODE_MASK
  }

  lemma StoredIsNarrow(sources: seq<Restore.Source>, opt: Options, scan: Scanners)
    requires forall s | s in sources :: NarrowSource(s)
    ensures forall e | e in Restore.OnChainOf(sources, opt, scan) || e in Restore.BundleOf(sources, opt, scan) ::
              Narrow(e.path) && Narrow(e.data) && e.mode < Container.MODE_MASK
  {
    hide Narrow, Restore.OnChainOf, Restore.BundleOf, OnChainText, BundleText, Restore.LosesLines;
    forall e | e in Restore.OnChainOf(sources, opt, scan)
      ensures Narrow(e.path) && Narrow(e.data) && e.mode < Container.MODE_MASK
    {
      Restore.OnChainHas(sources, opt, scan, e);
      var i :| 0 <= i < |sources| && sources[i].Configured? && e == Restore.OnChainEntry(sources[i], opt, scan);
      assert NarrowSource(sources[i]);
      SplitIsNarrow(sources[i].text, opt, scan);
    }
    forall e | e in Restore.BundleOf(sources, opt, scan)
      ensures Narrow(e.path) && Narrow(e.data) && e.mode < Container.MODE_MASK
    {
      Restore.BundleHas(sources, opt, scan, e);
      var i :| 0 <= i < |sources| && (sources[i].Included? || Restore.LosesLines(sources[i], opt, scan))
               && e == Restore.BundleEntry(sources[i], opt, scan);
      assert NarrowSource(sources[i]);
      SplitIsNarrow(sources[i].text, opt, scan);
    }
  }

  // ----- the whole way -----

  // The lengths that the archive's fields can say.
  ghost predicate Short(es: seq<Restore.Entry>) {
    |es| < 0x100000000 && forall e | e in es :: |e.data| < 0x10000000000000000
  }

  // Sources and tools for which the way back is promised.
  ghost predicate Given(t: Tools, sources: seq<Restore.Source>, opt: Options, scan: Scanners) {
    && (forall s | s in sources :: NarrowSource(s))
    && Short(Restore.OnChainOf(sources, opt, scan)) && Short(Restore.BundleOf(sources, opt, scan))
    && (BundleRaw(t, sources, opt, scan).Ok? ==>
          var packed := Pipeline.Packed(t.flate, BundleRaw(t, sources, opt, scan).value);
          Works(t, packed) && BundleStream.FrameCount(packed) <= BundleStream.COUNTER)
  }

  // What both halves of a published backup give back.
  lemma HalvesBack(t: Tools, sources: seq<Restore.Source>, opt: Options, scan: Scanners)
    requires Given(t, sources, opt, scan) && Publishable(t, sources, opt, scan)
    ensures var p := PublishedOf(t, OnChainRaw(t, sources, opt, scan).value, BundleRaw(t, sources, opt, scan).value,
                                 Restore.ListingOf(sources, t.sum));
            var on, off := Fetched(t, p.sheet, Carriers(p.memos)), Unbundled(t, p.sheet, p.bundle);
            && on.Some? && SameEntries(Restore.OnChainOf(sources, opt, scan), AllUnarchived(on.value))
            && off.Some? && SameEntries(Restore.BundleOf(sources, opt, scan), AllUnarchived(off.value))
  {
    var onRaw, bundleRaw := OnChainRaw(t, sources, opt, scan).value, BundleRaw(t, sources, opt, scan).value;
    var files := Restore.ListingOf(sources, t.sum);
    StoredIsNarrow(sources, opt, scan);
    hide Restore.OnChainOf, Restore.BundleOf, Container.Encoded, Container.Decoded, BundleStream.Ideal, Pipeline.Packed, Pipeline.Blocks,
         PublishedOf, Fetched, Unbundled, Narrow, SameEntries, AllUnarchived, AllArchived;
    FetchedBack(t, Pipeline.Packed(t.flate, bundleRaw), onRaw, bundleRaw, files);
    UnbundledBack(t, onRaw, bundleRaw, files);
    ArchiveBack(t.hash, Restore.OnChainOf(sources, opt, scan));
    ArchiveBack(t.hash, Restore.BundleOf(sources, opt, scan));
  }

  lemma SameRefused(listed: seq<Restore.Listed>, a: seq<Restore.Entry>, b: seq<Restore.Entry>, c: seq<Restore.Entry>,
                    d: seq<Restore.Entry>, clean: string -> bool)
    requires SameEntries(a, b) && SameEntries(c, d) && Restore.Refused(listed, b + d, clean)
    ensures Restore.Refused(listed, a + c, clean)
  {
    hide Restore.OnePath, Restore.IsListed;
    if i :| 0 <= i < |b + d| && (!clean((b + d)[i].path) || !Restore.IsListed(listed, (b + d)[i].path)) {
      var e := (b + d)[i];
      assert e in b || e in d;
      assert e in a + c;
      var k :| 0 <= k < |a + c| && (a + c)[k] == e;
      assert !clean((a + c)[k].path) || !Restore.IsListed(listed, (a + c)[k].path);
    }
  }

  lemma BuiltBack(t: Tools, sources: seq<Restore.Source>, opt: Options, scan: Scanners, clean: string -> bool,
                  on: seq<Restore.Entry>, off: seq<Restore.Entry>)
    requires Restore.Distinct(sources) && forall i | 0 <= i < |sources| :: clean(sources[i].path)
    requires SameEntries(Restore.OnChainOf(sources, opt, scan), on) && SameEntries(Restore.BundleOf(sources, opt, scan), off)
    ensures !Restore.Refused(Restore.ListingOf(sources, t.sum), on + off, clean)
    ensures Restore.Rebuilt(on, off) == Restore.Rebuilt(Restore.OnChainOf(sources, opt, scan), Restore.BundleOf(sources, opt, scan))
  {
    var onChain, bundle := Restore.OnChainOf(sources, opt, scan), Restore.BundleOf(sources, opt, scan);
    hide *;
    Restore.StoredOnce(sources, opt, scan);
    Restore.NeverRefused(sources, opt, scan, clean, t.sum);
    if Restore.Refused(Restore.ListingOf(sources, t.sum), on + off, clean) {
      SameRefused(Restore.ListingOf(sources, t.sum), onChain, on, bundle, off, clean);
    }
    SameRebuilt(onChain, on, bundle, off);
  }

  lemma PublishedShape(t: Tools, onRaw: seq<byte>, bundleRaw: seq<byte>, files: seq<Restore.Listed>)
    requires FitsOnChain(t, onRaw)
    ensures var p := PublishedOf(t, onRaw, bundleRaw, files); p.sheet.files == files && |p.sheet.refs| == |p.memos|
  {
  }

  // Every source is among the files with its own bytes and mode, proven complete, and nothing else is.
  ghost predicate AllBack(sources: seq<Restore.Source>, files: map<string, Restore.Restored>) {
    && (forall s | s in sources :: s.path in files && files[s.path] == Restore.Restored(s.path, s.mode, s.text, true))
    && (forall p | p in files :: exists s :: s in sources && s.path == p)
  }

  // The sheet's files from both halves: carriers and stream are as they were published.
  method RestoreFrom(t: Tools, ghost sources: seq<Restore.Source>, ghost opt: Options, ghost scan: Scanners, clean: string -> bool,
                     sheet: Sheet, carriers: seq<Option<seq<TxFormat.Memo>>>, stream: seq<byte>)
    returns (files: map<string, Restore.Restored>)
    requires Given(t, sources, opt, scan) && forall i | 0 <= i < |sources| :: clean(sources[i].path)
    requires Publishable(t, sources, opt, scan)
    requires var p := PublishedOf(t, OnChainRaw(t, sources, opt, scan).value, BundleRaw(t, sources, opt, scan).value,
                                  Restore.ListingOf(sources, t.sum));
             sheet == p.sheet && carriers == Carriers(p.memos) && stream == p.bundle
    ensures AllBack(sources, files)
  {
    hide Restore.OnChainOf, Restore.BundleOf, Restore.Unrefused, Container.Encoded, Restore.Rebuilt, Restore.Refused, FitsOnChain, PublishedOf,
         Fetched, Unbundled, SameEntries, Given, Carriers, AllUnarchived;
    HalvesBack(t, sources, opt, scan);
    PublishedShape(t, OnChainRaw(t, sources, opt, scan).value, BundleRaw(t, sources, opt, scan).value, Restore.ListingOf(sources, t.sum));
    var on := Fetch(t, sheet, carriers);
    var off := Unbundle(t, sheet, stream);
    var r, todo := Restore.Build(sheet.files, AllUnarchived(on.value), AllUnarchived(off.value), clean, t.sum);
    BuiltBack(t, sources, opt, scan, clean, AllUnarchived(on.value), AllUnarchived(off.value));
    forall s | s in sources
      ensures s.path in r.value && r.value[s.path] == Restore.Restored(s.path, s.mode, s.text, true)
    {
      Restore.RestoredIsOriginal(sources, opt, scan, s);
      var i :| 0 <= i < |sources| && sources[i] == s;
      assert sheet.files[i] == Restore.Listed(s.path, t.sum(s.text));
    }
    forall p | p in r.value
      ensures exists s :: s in sources && s.path == p
    {
      var i :| 0 <= i < |sheet.files| && sheet.files[i].path == p;
      assert sources[i] in sources;
    }
    files := r.value;
  }

  /**
    From the operator's files to memos and a bundle file, and back: whatever can be published comes back
    byte for byte with its mode, proven complete, and nothing else does.
   */
  method PublishThenRestore(t: Tools, sources: seq<Restore.Source>, opt: Options, scan: Scanners, clean: string -> bool)
    returns (files: Option<map<string, Restore.Restored>>)
    requires forall n, p :: |t.bundle.seal(n, p)| == |p| + BundleStream.TAG_LEN
    requires Given(t, sources, opt, scan) && forall i | 0 <= i < |sources| :: clean(sources[i].path)
    ensures files.Some? <==> Publishable(t, sources, opt, scan)
    ensures files.Some? ==> AllBack(sources, files.value)
  {
    hide Publishable, Given, AllBack, PublishedOf;
    var published := Publish(t, sources, opt, scan);
    if published.None? {
      return None;
    }
    var p := published.value;
    var restored := RestoreFrom(t, sources, opt, scan, clean, p.sheet, Carriers(p.memos), p.bundle);
    files := Some(restored);
  }
}
