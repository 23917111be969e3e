/**
  From the archive to the ledger's memos and back: internal/container/container.go:119-163,
  internal/chunk/chunk.go:50-114 and the assembly loop of internal/discover/discover.go:447-506.
  Compression, the AEAD and the hash are parameters.
 */
module Pipeline {
  import opened Common
  import opened Wire
  import TxFormat

  const BLOCK := 960
  const TAG_LEN := 16
  const ID_LEN := 16
  const NONCE_LEN := 10
  const HEADER_LEN := 21
  const CHUNK_TYPE: seq<byte> := [0x78, 0x72, 0x70, 0x6C, 0x62, 0x61, 0x6B, 0x2F, 0x76, 0x31, 0x2F, 0x63]
  const MANIFEST_TYPE: seq<byte> := [0x78, 0x72, 0x70, 0x6C, 0x62, 0x61, 0x6B, 0x2F, 0x76, 0x31, 0x2F, 0x6D]

  datatype Flate = Flate(deflate: seq<byte> -> seq<byte>, inflate: seq<byte> -> Option<seq<byte>>)

  // ----- packing -----

  function PadLength(n: nat): (pad: nat)
    ensures pad < BLOCK && (n + pad + 2) % 960 == 0
  {
    var pad := 960 - (n + 2) % 960;
    if pad == 960 then 0 else pad
  }

  function Zeros(n: nat): (z: seq<byte>)
    ensures |z| == n
  {
    seq(n, _ => 0)
  }

  function Packed(f: Flate, raw: seq<byte>): (p: seq<byte>)
    ensures |p| > 0 && |p| % 960 == 0
  {
    var c := f.deflate(raw);
    c + Zeros(PadLength(|c|)) + Big(PadLength(|c|) + 2, 2)
  }

  method Pack(f: Flate, raw: seq<byte>) returns (out: seq<byte>)
    ensures out == Packed(f, raw)
  {
    var c := f.deflate(raw);
    var pad := BLOCK - (|c| + 2) % BLOCK;
    if pad == BLOCK {
      pad := 0;
    }
    assert pad == PadLength(|c|);
    hide Big;
    out := c + Zeros(pad);
    out := out + Big(pad + 2, 2);
    assert |out| == |c| + pad + 2;
  }

  function Unpacked(f: Flate, packed: seq<byte>): Option<seq<byte>> {
    if |packed| < 2 || |packed| % 960 != 0 then None
    else
      var pad := FromBig(packed[|packed| - 2..]);
      if pad < 2 || pad > |packed| then None else f.inflate(packed[..|packed| - pad])
  }

  /** Unpack finds the compressed bytes again, whatever their length. */
  lemma UnpackInvertsPack(f: Flate, raw: seq<byte>)
    requires f.inflate(f.deflate(raw)) == Some(raw)
    ensures Unpacked(f, Packed(f, raw)) == Some(raw)
  {
    var c := f.deflate(raw);
    var pad := PadLength(|c|);
    Powers();
    SmallRoundTrip(pad + 2, 2);
    hide Big, FromBig, Pow256;
    var p := Packed(f, raw);
    assert |p| == |c| + pad + 2;
    assert p[|p| - 2..] == Big(pad + 2, 2);
    assert p[..|p| - (pad + 2)] == c;
  }

  // ----- blocks -----

  function Blocks(packed: seq<byte>): (pieces: seq<seq<byte>>)
    requires |packed| % 960 == 0
    ensures |pieces| == |packed| / 960 && forall i | 0 <= i < |pieces| :: |pieces[i]| == BLOCK
  {
    if packed == [] then [] else [packed[..BLOCK]] + Blocks(packed[BLOCK..])
  }

  method Split(packed: seq<byte>) returns (out: Option<seq<seq<byte>>>)
    ensures out.None? <==> packed == [] || |packed| % 960 != 0
    ensures out.Some? ==> out.value == Blocks(packed)
  {
    if |packed| == 0 || |packed| % BLOCK != 0 {
      return None;
    }
    var n := |packed| / BLOCK;
    var pieces: seq<seq<byte>> := [];
    assert packed[0..] == packed;
    for i := 0 to n
      invariant |packed[i * 960..]| % 960 == 0 && pieces + Blocks(packed[i * 960..]) == Blocks(packed)
    {
      ghost var rest := packed[i * 960..];
      assert rest[..BLOCK] == packed[i * 960..(i + 1) * 960] && rest[BLOCK..] == packed[(i + 1) * 960..];
      assert pieces + ([rest[..BLOCK]] + Blocks(rest[BLOCK..])) == pieces + [rest[..BLOCK]] + Blocks(rest[BLOCK..]);
      pieces := pieces + [packed[i * BLOCK..(i + 1) * BLOCK]];
    }
    assert packed[n * 960..] == [] && pieces + [] == pieces;
    return Some(pieces);
  }

  function Joined(pieces: seq<seq<byte>>): seq<byte> {
    if pieces == [] then [] else pieces[0] + Joined(pieces[1..])
  }

  lemma {:induction false} BlocksJoin(packed: seq<byte>)
    requires |packed| % 960 == 0
    ensures Joined(Blocks(packed)) == packed
  {
    if packed != [] {
      BlocksJoin(packed[BLOCK..]);
      var rest := Blocks(packed[BLOCK..]);
      assert ([packed[..BLOCK]] + rest)[1..] == rest;
      assert packed == packed[..BLOCK] + packed[BLOCK..];
    }
  }

  // ----- memos -----

  datatype Payload = Payload(typ: seq<byte>, id: seq<byte>, index: u16, total: u16, nonce: seq<byte>, ct: seq<byte>)

  datatype EncodeError = BadIdLength | BadNonce | MemoTooLong

  function MemoData(p: Payload): seq<byte> {
    [1] + p.id + Big(p.index, 2) + Big(p.total, 2) + p.nonce + p.ct
  }

  function MemoOf(p: Payload): TxFormat.Memo {
    TxFormat.Memo(p.typ, MemoData(p), [])
  }

  method Encode(p: Payload) returns (r: Result<TxFormat.Memo, EncodeError>)
    ensures r.Ok? ==> r.value == MemoOf(p) && |p.id| == ID_LEN && ((p.typ == MANIFEST_TYPE) <==> |p.nonce| == NONCE_LEN)
    ensures r.Ok? <==> |p.id| == ID_LEN && ((p.typ == MANIFEST_TYPE) <==> |p.nonce| == NONCE_LEN)
                       && |TxFormat.MemoArray([MemoOf(p)])| <= TxFormat.MAX_MEMOS
  {
    hide Big, TxFormat.MemoArray;
    if |p.id| != ID_LEN {
      return Err(BadIdLength);
    }
    if (p.typ == MANIFEST_TYPE) != (|p.nonce| == NONCE_LEN) {
      return Err(BadNonce);
    }
    var data: seq<byte> := [1];
    data := data + p.id;
    data := data + Big(p.index, 2);
    data := data + Big(p.total, 2);
    data := data + p.nonce;
    data := data + p.ct;
    var m := TxFormat.Memo(p.typ, data, []);
    if |TxFormat.MemoArray([m])| > TxFormat.MAX_MEMOS {
      return Err(MemoTooLong);
    }
    return Ok(m);
  }

  function Decoded(m: TxFormat.Memo): Option<Payload> {
    if m.typ != CHUNK_TYPE && m.typ != MANIFEST_TYPE then None
    else if |m.data| < HEADER_LEN + TAG_LEN || m.data[0] != 1 then None
    else
      var id, rest := m.data[1..17], m.data[HEADER_LEN..];
      TwoBytes(m.data[17..19]);
      TwoBytes(m.data[19..21]);
      var index: u16, total: u16 := FromBig(m.data[17..19]), FromBig(m.data[19..21]);
      if m.typ == MANIFEST_TYPE && |rest| < NONCE_LEN + TAG_LEN then None
      else if total == 0 || index >= total then None
      else if m.typ == MANIFEST_TYPE then Some(Payload(m.typ, id, index, total, rest[..NONCE_LEN], rest[NONCE_LEN..]))
      else Some(Payload(m.typ, id, index, total, [], rest))
  }

  lemma TwoBytes(s: seq<byte>)
    requires |s| == 2
    ensures FromBig(s) < 0x10000
  {
    assert s[..1][..0] == [];
    assert FromBig(s[..1]) == 256 * FromBig(s[..1][..0]) + s[0];
  }

  predicate WellFormed(p: Payload) {
    && |p.id| == ID_LEN && p.index < p.total && |p.ct| >= TAG_LEN
    && ((p.typ == CHUNK_TYPE && p.nonce == []) || (p.typ == MANIFEST_TYPE && |p.nonce| == NONCE_LEN))
  }

  lemma CutHeader(id: seq<byte>, i: seq<byte>, t: seq<byte>, nonce: seq<byte>, ct: seq<byte>)
    requires |id| == ID_LEN && |i| == 2 && |t| == 2
    ensures var d: seq<byte> := [1] + id + i + t + nonce + ct;
            d[0] == 1 && d[1..17] == id && d[17..19] == i && d[19..21] == t && d[21..] == nonce + ct
  {
  }

  /** A memo is decoded to the payload it was built from. */
  lemma MemoBack(p: Payload)
    requires WellFormed(p)
    ensures Decoded(MemoOf(p)) == Some(p)
  {
    Powers();
    SmallRoundTrip(p.index, 2);
    SmallRoundTrip(p.total, 2);
    hide Big, FromBig, Pow256;
    CutHeader(p.id, Big(p.index, 2), Big(p.total, 2), p.nonce, p.ct);
    assert (p.nonce + p.ct)[|p.nonce|..] == p.ct && (p.nonce + p.ct)[..|p.nonce|] == p.nonce;
  }

  /** The memo fits the ledger's limit exactly when its ciphertext is at most 982 bytes, 972 with a nonce. */
  lemma MemoFits(p: Payload)
    requires WellFormed(p)
    ensures |TxFormat.MemoArray([MemoOf(p)])| <= TxFormat.MAX_MEMOS <==> |p.ct| + |p.nonce| <= 982
  {
    var m := MemoOf(p);
    var data := MemoData(p);
    hide Big;
    assert |data| == HEADER_LEN + |p.nonce| + |p.ct|;
    assert |m.typ| == 12;
    assert |TxFormat.Blob(7, 12, m.typ)| == 14;
    assert |TxFormat.Blob(7, 13, data)| == 1 + |LengthPrefix(|data|)| + |data|;
    assert TxFormat.MemoList([m]) == Header(14, 10) + (TxFormat.MemoFields(m) + TxFormat.MemoList([]));
  }

  // ----- fetching -----

  // One backup's AEAD: chunk index and total are bound by the associated data.
  datatype Aead = Aead(seal: (nat, nat, seq<byte>) -> seq<byte>, open: (nat, nat, seq<byte>) -> Option<seq<byte>>)

  type Hash = seq<byte> -> seq<byte>

  // What a manifest records of a chunk.
  datatype ChunkRef = ChunkRef(index: nat, sha: seq<byte>)

  predicate Ours(p: Option<Payload>, id: seq<byte>, r: ChunkRef) {
    p.Some? && p.value.typ == CHUNK_TYPE && p.value.id == id && p.value.index == r.index
  }

  // The plaintext that a transaction's memos carry for a chunk; None when one of them is not genuine.
  function Carried(a: Aead, h: Hash, id: seq<byte>, total: nat, r: ChunkRef, memos: seq<TxFormat.Memo>): Option<seq<seq<byte>>> {
    if memos == [] then Some([])
    else
      var before := Carried(a, h, id, total, r, memos[..|memos| - 1]);
      var p := Decoded(memos[|memos| - 1]);
      if before.None? || !Ours(p, id, r) then before
      else if h(p.value.ct) != r.sha then None
      else match a.open(p.value.index, total, p.value.ct)
        case None => None
        case Some(plain) => Some(before.value + [plain])
  }

  // carriers: the memos of the transaction that each chunk reference names, if it was found.
  function Assembled(a: Aead, h: Hash, id: seq<byte>, refs: seq<ChunkRef>, carriers: seq<Option<seq<TxFormat.Memo>>>, n: nat): Option<seq<byte>>
    requires n <= |refs| == |carriers|
  {
    if n == 0 then Some([])
    else
      var before := Assembled(a, h, id, refs, carriers, n - 1);
      if before.None? || carriers[n - 1].None? then None
      else
        var found := Carried(a, h, id, |refs|, refs[n - 1], carriers[n - 1].value);
        if found.None? || found.value == [] then None else Some(before.value + Joined(found.value))
  }

  lemma {:induction false} CarriedStays(a: Aead, h: Hash, id: seq<byte>, total: nat, r: ChunkRef, memos: seq<TxFormat.Memo>, k: nat)
    requires k <= |memos| && Carried(a, h, id, total, r, memos[..k]).None?
    ensures Carried(a, h, id, total, r, memos).None?
    decreases |memos|
  {
    hide Decoded, Ours;
    if k < |memos| {
      assert memos[..|memos| - 1][..k] == memos[..k];
      CarriedStays(a, h, id, total, r, memos[..|memos| - 1], k);
    } else {
      assert memos[..k] == memos;
    }
  }

  lemma {:induction false} AssembledStays(a: Aead, h: Hash, id: seq<byte>, refs: seq<ChunkRef>, carriers: seq<Option<seq<TxFormat.Memo>>>, k: nat, n: nat)
    requires k <= n <= |refs| == |carriers| && Assembled(a, h, id, refs, carriers, k).None?
    ensures Assembled(a, h, id, refs, carriers, n).None?
  {
    hide Carried;
    if k < n {
      AssembledStays(a, h, id, refs, carriers, k, n - 1);
    }
  }

  lemma {:induction false} JoinedMore(pieces: seq<seq<byte>>, last: seq<byte>)
    ensures Joined(pieces + [last]) == Joined(pieces) + last
  {
    if pieces == [] {
      assert ([] + [last])[1..] == [] && [last][1..] == [] && last + [] == last && [] + [last] == [last];
    } else {
      assert (pieces + [last])[1..] == pieces[1..] + [last];
      JoinedMore(pieces[1..], last);
      assert pieces[0] + (Joined(pieces[1..]) + last) == pieces[0] + Joined(pieces[1..]) + last;
    }
  }

  lemma JoinedOne(piece: seq<byte>)
    ensures Joined([piece]) == piece
  {
    JoinedMore([], piece);
    var none: seq<seq<byte>>, empty: seq<byte> := [], [];
    assert none + [piece] == [piece] && empty + piece == piece;
  }

  method ReadCarrier(a: Aead, h: Hash, id: seq<byte>, total: nat, r: ChunkRef, memos: seq<TxFormat.Memo>)
    returns (ok: bool, found: bool, plain: seq<byte>)
    ensures ok <==> Carried(a, h, id, total, r, memos).Some?
    ensures ok ==> var c := Carried(a, h, id, total, r, memos).value; plain == Joined(c) && (found <==> c != [])
  {
    hide Decoded;
    ok, found, plain := true, false, [];
    ghost var done: seq<seq<byte>> := [];
    for i := 0 to |memos|
      invariant Carried(a, h, id, total, r, memos[..i]) == Some(done)
      invariant ok && plain == Joined(done) && (found <==> done != [])
    {
      assert memos[..i + 1][..i] == memos[..i];
      var p := Decoded(memos[i]);
      if p.None? || p.value.typ != CHUNK_TYPE || p.value.id != id || p.value.index != r.index {
        continue;
      }
      var piece := if h(p.value.ct) != r.sha then None else a.open(p.value.index, total, p.value.ct);
      if piece.None? {
        CarriedStays(a, h, id, total, r, memos, i + 1);
        return false, false, [];
      }
      JoinedMore(done, piece.value);
      plain := plain + piece.value;
      done := done + [piece.value];
      found := true;
    }
    assert memos[..|memos|] == memos;
  }

  /** Fetch's assembly: every chunk in turn, each checked against the manifest's hash and the AEAD. */
  method Assemble(a: Aead, h: Hash, id: seq<byte>, refs: seq<ChunkRef>, carriers: seq<Option<seq<TxFormat.Memo>>>) returns (packed: Option<seq<byte>>)
    requires |refs| == |carriers|
    ensures packed == Assembled(a, h, id, refs, carriers, |refs|)
  {
    hide Carried;
    var out: seq<byte> := [];
    for i := 0 to |refs|
      invariant Assembled(a, h, id, refs, carriers, i) == Some(out)
    {
      if carriers[i].None? {
        AssembledStays(a, h, id, refs, carriers, i + 1, |refs|);
        return None;
      }
      var ok, found, plain := ReadCarrier(a, h, id, |refs|, refs[i], carriers[i].value);
      if !ok || !found {
        AssembledStays(a, h, id, refs, carriers, i + 1, |refs|);
        return None;
      }
      out := out + plain;
    }
    return Some(out);
  }

  // ----- the round trip -----

  function ChunkPayload(a: Aead, id: seq<byte>, pieces: seq<seq<byte>>, i: nat): Payload
    requires i < |pieces| < 0x10000
  {
    Payload(CHUNK_TYPE, id, i, |pieces|, [], a.seal(i, |pieces|, pieces[i]))
  }

  // Each chunk's transaction, which carries the chunk's memo.
  ghost predicate Carries(a: Aead, h: Hash, id: seq<byte>, pieces: seq<seq<byte>>, refs: seq<ChunkRef>, carriers: seq<Option<seq<TxFormat.Memo>>>)
    requires |pieces| < 0x10000
  {
    && |refs| == |carriers| == |pieces|
    && forall i | 0 <= i < |pieces| ::
         && refs[i] == ChunkRef(i, h(a.seal(i, |pieces|, pieces[i])))
         && carriers[i] == Some([MemoOf(ChunkPayload(a, id, pieces, i))])
  }

  lemma OneMemo(a: Aead, h: Hash, id: seq<byte>, pieces: seq<seq<byte>>, i: nat)
    requires i < |pieces| < 0x10000 && |id| == ID_LEN
    requires |a.seal(i, |pieces|, pieces[i])| >= TAG_LEN
    requires a.open(i, |pieces|, a.seal(i, |pieces|, pieces[i])) == Some(pieces[i])
    ensures Carried(a, h, id, |pieces|, ChunkRef(i, h(a.seal(i, |pieces|, pieces[i]))), [MemoOf(ChunkPayload(a, id, pieces, i))]) == Some([pieces[i]])
  {
    var p := ChunkPayload(a, id, pieces, i);
    MemoBack(p);
    hide Decoded, MemoOf;
    assert [MemoOf(p)][..0] == [];
    var none: seq<seq<byte>> := [];
    assert none + [pieces[i]] == [pieces[i]];
  }

  lemma {:induction false} PiecesBack(a: Aead, h: Hash, id: seq<byte>, pieces: seq<seq<byte>>, refs: seq<ChunkRef>, carriers: seq<Option<seq<TxFormat.Memo>>>, n: nat)
    requires n <= |pieces| < 0x10000 && |id| == ID_LEN && Carries(a, h, id, pieces, refs, carriers)
    requires forall i, t, p :: |a.seal(i, t, p)| == |p| + TAG_LEN && a.open(i, t, a.seal(i, t, p)) == Some(p)
    ensures Assembled(a, h, id, refs, carriers, n) == Some(Joined(pieces[..n]))
  {
    hide Carried, MemoOf, ChunkPayload;
    if n > 0 {
      var k: nat := n - 1;
      PiecesBack(a, h, id, pieces, refs, carriers, k);
      OneMemo(a, h, id, pieces, k);
      assert pieces[..n] == pieces[..k] + [pieces[k]];
      JoinedMore(pieces[..k], pieces[k]);
      JoinedOne(pieces[k]);
    }
  }

  /** Packed, cut, sealed into memos, found again, opened, joined and unpacked, an archive is itself. */
  lemma FetchInvertsStore(f: Flate, a: Aead, h: Hash, id: seq<byte>, raw: seq<byte>, refs: seq<ChunkRef>, carriers: seq<Option<seq<TxFormat.Memo>>>)
    requires f.inflate(f.deflate(raw)) == Some(raw) && |id| == ID_LEN
    requires forall i, t, p :: |a.seal(i, t, p)| == |p| + TAG_LEN && a.open(i, t, a.seal(i, t, p)) == Some(p)
    requires |Blocks(Packed(f, raw))| < 0x10000
    requires Carries(a, h, id, Blocks(Packed(f, raw)), refs, carriers)
    ensures var packed := Assembled(a, h, id, refs, carriers, |refs|);
            packed.Some? && Unpacked(f, packed.value) == Some(raw)
  {
    hide Carried, MemoOf, ChunkPayload, Assembled, Packed, Unpacked, Blocks;
    var pieces := Blocks(Packed(f, raw));
    PiecesBack(a, h, id, pieces, refs, carriers, |pieces|);
    assert pieces[..|pieces|] == pieces;
    BlocksJoin(Packed(f, raw));
    UnpackInvertsPack(f, raw);
  }

  /** What is packed is whole blocks, and a sealed block always fits a memo. */
  lemma EveryChunkFits(f: Flate, a: Aead, id: seq<byte>, raw: seq<byte>, i: nat)
    requires forall j, t, p :: |a.seal(j, t, p)| == |p| + TAG_LEN
    requires |id| == ID_LEN && i < |Blocks(Packed(f, raw))| < 0x10000
    ensures |TxFormat.MemoArray([MemoOf(ChunkPayload(a, id, Blocks(Packed(f, raw)), i))])| <= TxFormat.MAX_MEMOS
  {
    MemoFits(ChunkPayload(a, id, Blocks(Packed(f, raw)), i));
    hide MemoOf, TxFormat.MemoArray, Packed, Blocks;
  }
}
