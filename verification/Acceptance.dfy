/**
  What is accepted on the way back from the ledger and the bundle file, whoever wrote it: internal/chunk/chunk.go:75-104,
  internal/container/container.go:137-163 and internal/discover/discover.go:447-525.
 */
module Acceptance {
  import opened Common
  import opened Wire
  import opened Pipeline
  import BundleStream
  import Container
  import EndToEnd
  import TxFormat

  // ----- memos -----

  // Version, backup id, index, total, nonce and ciphertext.
  function MemoLayout(p: Payload): seq<byte> {
    [1] + p.id + Two(p.index) + Two(p.total) + p.nonce + p.ct
  }

  lemma CutMemo(data: seq<byte>, n: nat)
    requires |data| >= 21 + n
    ensures data == data[..1] + data[1..17] + data[17..19] + data[19..21] + data[21..21 + n] + data[21 + n..]
  {
  }

  lemma DecodedIsWellFormed(m: TxFormat.Memo)
    requires Decoded(m).Some?
    ensures var p := Decoded(m).value; WellFormed(p) && m.typ == p.typ && m.data == MemoLayout(p)
  {
    NumberBytes(m.data[17..19]);
    NumberBytes(m.data[19..21]);
    hide FromBig, Two;
    CutMemo(m.data, |Decoded(m).value.nonce|);
  }

  lemma WellFormedIsDecoded(m: TxFormat.Memo, p: Payload)
    requires WellFormed(p) && m.typ == p.typ && m.data == MemoLayout(p)
    ensures Decoded(m) == Some(p)
  {
    NumberOfBytes(p.index);
    NumberOfBytes(p.total);
    hide FromBig, Two, Four, Eight;
    CutHeader(p.id, Two(p.index), Two(p.total), p.nonce, p.ct);
  }

  /**
    A memo is taken for a part of a backup exactly when its type is one of the two, its version is 1, its index is below
    its total, and there is room for an id, a tag and, in a manifest part, a nonce; then it is what these bytes say.
   */
  lemma MemoExactly(m: TxFormat.Memo, p: Payload)
    ensures Decoded(m) == Some(p) <==> WellFormed(p) && m.typ == p.typ && m.data == MemoLayout(p)
  {
    hide Decoded, WellFormed, MemoLayout;
    if Decoded(m) == Some(p) {
      DecodedIsWellFormed(m);
    }
    if WellFormed(p) && m.typ == p.typ && m.data == MemoLayout(p) {
      WellFormedIsDecoded(m, p);
    }
  }

  // ----- packed archives -----

  // Whole blocks: compressed bytes, filling, and the length of the filling with these two bytes.
  ghost predicate IsPacked(f: Flate, packed: seq<byte>, c: seq<byte>, filling: seq<byte>, raw: seq<byte>) {
    && |filling| + 2 < 0x10000 && packed == c + filling + Two(|filling| + 2) && |packed| % 960 == 0
    && f.inflate(c) == Some(raw)
  }

  /** What Unpack accepts. The filling may be anything, and longer than a block. */
  lemma UnpackedExactly(f: Flate, packed: seq<byte>, raw: seq<byte>)
    ensures Unpacked(f, packed) == Some(raw) <==> exists c, filling :: IsPacked(f, packed, c, filling, raw)
  {
    if Unpacked(f, packed) == Some(raw) {
      var n := |packed|;
      NumberBytes(packed[n - 2..]);
      hide FromBig, Two;
      var pad := FromBig(packed[n - 2..]);
      assert packed == packed[..n - pad] + packed[n - pad..n - 2] + packed[n - 2..];
      assert IsPacked(f, packed, packed[..n - pad], packed[n - pad..n - 2], raw);
    }
    if c, filling :| IsPacked(f, packed, c, filling, raw) {
      NumberOfBytes(|filling| + 2);
      hide FromBig;
      assert packed[|packed| - 2..] == Two(|filling| + 2);
      assert packed[..|packed| - (|filling| + 2)] == c;
    }
  }

  // ----- chunks -----

  // Every memo of the transaction that claims to be this chunk has the manifest's hash and opens.
  ghost predicate AllGenuine(a: Aead, h: Hash, id: seq<byte>, total: nat, r: ChunkRef, memos: seq<TxFormat.Memo>) {
    forall k | 0 <= k < |memos| && Ours(Decoded(memos[k]), id, r) ::
      h(Decoded(memos[k]).value.ct) == r.sha && a.open(r.index, total, Decoded(memos[k]).value.ct).Some?
  }

  ghost predicate SomeOurs(id: seq<byte>, r: ChunkRef, memos: seq<TxFormat.Memo>) {
    exists k :: 0 <= k < |memos| && Ours(Decoded(memos[k]), id, r)
  }

  lemma {:induction false} CarriedExactly(a: Aead, h: Hash, id: seq<byte>, total: nat, r: ChunkRef, memos: seq<TxFormat.Memo>)
    ensures Carried(a, h, id, total, r, memos).Some? <==> AllGenuine(a, h, id, total, r, memos)
    ensures Carried(a, h, id, total, r, memos).Some? ==>
              (Carried(a, h, id, total, r, memos).value != [] <==> SomeOurs(id, r, memos))
  {
    hide Decoded;
    if memos != [] {
      var front, last := memos[..|memos| - 1], memos[|memos| - 1];
      CarriedExactly(a, h, id, total, r, front);
      assert forall k | 0 <= k < |front| :: front[k] == memos[k];
      assert SomeOurs(id, r, memos) <==> SomeOurs(id, r, front) || Ours(Decoded(last), id, r);
      assert AllGenuine(a, h, id, total, r, memos) <==>
             AllGenuine(a, h, id, total, r, front) &&
             (Ours(Decoded(last), id, r) ==> h(Decoded(last).value.ct) == r.sha && a.open(r.index, total, Decoded(last).value.ct).Some?);
    }
  }

  // Chunk i was found, in a transaction that carries it and nothing false beside it.
  ghost predicate ChunkFound(a: Aead, h: Hash, id: seq<byte>, refs: seq<ChunkRef>, carriers: seq<Option<seq<TxFormat.Memo>>>, i: nat)
    requires i < |refs| == |carriers|
  {
    && carriers[i].Some?
    && AllGenuine(a, h, id, |refs|, refs[i], carriers[i].value) && SomeOurs(id, refs[i], carriers[i].value)
  }

  /** The chunks are assembled exactly when each of them is found, has the manifest's hash, and opens at its place. */
  lemma {:induction false} AssembledExactly(a: Aead, h: Hash, id: seq<byte>, refs: seq<ChunkRef>,
                                            carriers: seq<Option<seq<TxFormat.Memo>>>, n: nat)
    requires n <= |refs| == |carriers|
    ensures Assembled(a, h, id, refs, carriers, n).Some? <==> forall i: nat | i < n :: ChunkFound(a, h, id, refs, carriers, i)
  {
    hide Carried, AllGenuine, SomeOurs;
    if n > 0 {
      AssembledExactly(a, h, id, refs, carriers, n - 1);
      var last: nat := n - 1;
      assert carriers[last].None? ==> !ChunkFound(a, h, id, refs, carriers, last);
      if carriers[n - 1].Some? {
        CarriedExactly(a, h, id, |refs|, refs[last], carriers[last].value);
      }
      assert Assembled(a, h, id, refs, carriers, n).Some? <==>
             Assembled(a, h, id, refs, carriers, last).Some? && ChunkFound(a, h, id, refs, carriers, last);
    }
  }

  // ----- archives -----

  // The archive that a packed plaintext holds has the manifest's hash and is the layout of these entries.
  ghost predicate Holds(t: EndToEnd.Tools, packed: seq<byte>, sum: seq<byte>, es: seq<Container.Entry>) {
    exists c, filling, raw ::
      IsPacked(t.flate, packed, c, filling, raw) && t.hash(raw) == sum && Container.IsArchive(t.hash, raw, es)
  }

  lemma EntriesExactly(t: EndToEnd.Tools, packed: seq<byte>, sum: seq<byte>, es: seq<Container.Entry>)
    ensures EndToEnd.Entries(t, packed, sum) == Some(es) <==> Holds(t, packed, sum, es)
  {
    hide Unpacked, Container.Decoded, Container.IsArchive, IsPacked;
    if EndToEnd.Entries(t, packed, sum) == Some(es) {
      var raw := Unpacked(t.flate, packed).value;
      UnpackedExactly(t.flate, packed, raw);
      Container.DecodedExactly(t.hash, raw, es);
      var c, filling :| IsPacked(t.flate, packed, c, filling, raw);
    }
    if Holds(t, packed, sum, es) {
      var c, filling, raw :|
        IsPacked(t.flate, packed, c, filling, raw) && t.hash(raw) == sum && Container.IsArchive(t.hash, raw, es);
      UnpackedExactly(t.flate, packed, raw);
      Container.DecodedExactly(t.hash, raw, es);
    }
  }

  /**
    Fetch gives entries exactly when every chunk that the manifest names is found genuine, and what they hold together
    has the manifest's hash and is the archive of these entries.
   */
  lemma FetchedExactly(t: EndToEnd.Tools, s: EndToEnd.Sheet, carriers: seq<Option<seq<TxFormat.Memo>>>, es: seq<Container.Entry>)
    requires |carriers| == |s.refs|
    ensures EndToEnd.Fetched(t, s, carriers) == Some(es) <==>
              && (forall i: nat | i < |s.refs| :: ChunkFound(t.chunks, t.hash, s.id, s.refs, carriers, i))
              && Assembled(t.chunks, t.hash, s.id, s.refs, carriers, |s.refs|).Some?
              && Holds(t, Assembled(t.chunks, t.hash, s.id, s.refs, carriers, |s.refs|).value, s.plain, es)
  {
    AssembledExactly(t.chunks, t.hash, s.id, s.refs, carriers, |s.refs|);
    hide Assembled, ChunkFound, EndToEnd.Entries, Holds;
    var packed := Assembled(t.chunks, t.hash, s.id, s.refs, carriers, |s.refs|);
    if packed.Some? {
      EntriesExactly(t, packed.value, s.plain, es);
    }
  }

  /**
    A bundle file is accepted exactly when it has the manifest's hash, opens as the bundle of this backup, and
    holds an archive with the manifest's hash.
   */
  lemma UnbundledExactly(t: EndToEnd.Tools, s: EndToEnd.Sheet, stream: seq<byte>, es: seq<Container.Entry>)
    ensures EndToEnd.Unbundled(t, s, stream) == Some(es) <==>
              && t.hash(stream) == s.bundleCipher && BundleStream.Opened(t.bundle, s.id, stream).Some?
              && Holds(t, BundleStream.Opened(t.bundle, s.id, stream).value, s.bundlePlain, es)
  {
    hide BundleStream.Opened, EndToEnd.Entries, Holds;
    var packed := BundleStream.Opened(t.bundle, s.id, stream);
    if packed.Some? {
      EntriesExactly(t, packed.value, s.bundlePlain, es);
    }
  }
}
