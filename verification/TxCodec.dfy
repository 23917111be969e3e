/**
  The codec as it runs: a buffer that Serialize grows, and a reader with a cursor.
  internal/xrpl/codec/codec.go:68-198, decode.go:11-253.
 */
module TxCodec {
  import opened Common
  import opened Wire
  import opened TxFormat

  // ----- writing -----

  method AppendHeader(b: seq<byte>, typ: byte, field: byte) returns (r: seq<byte>)
    ensures r == b + Header(typ, field)
  {
    if typ < 16 && field < 16 {
      r := b + [typ * 16 + field];
    } else if typ < 16 {
      r := b + [typ * 16, field];
    } else if field < 16 {
      r := b + [field, typ];
    } else {
      r := b + [0, typ, field];
    }
  }

  method AppendBlob(b: seq<byte>, typ: byte, field: byte, v: seq<byte>) returns (r: seq<byte>)
    ensures r == b + Blob(typ, field, v)
  {
    r := AppendHeader(b, typ, field);
    r := AppendVL(r, v);
    hide Header, VL;
    assert b + Header(typ, field) + VL(v) == b + (Header(typ, field) + VL(v));
  }

  method AppendNumber(b: seq<byte>, typ: byte, field: byte, v: u32) returns (r: seq<byte>)
    ensures r == b + Number(typ, field, v, 4)
  {
    r := AppendHeader(b, typ, field);
    r := AppendU32(r, v);
    hide Header, Big;
    assert b + Header(typ, field) + Big(v, 4) == b + (Header(typ, field) + Big(v, 4));
  }

  // The memo fields that are not empty.
  method AppendMemo(b: seq<byte>, m: Memo) returns (r: seq<byte>)
    ensures r == b + Header(14, 10) + MemoFields(m)
  {
    r := AppendHeader(b, 14, 10);
    hide Header, Blob;
    if m.typ != [] {
      r := AppendBlob(r, 7, 12, m.typ);
    }
    if m.data != [] {
      r := AppendBlob(r, 7, 13, m.data);
    }
    if m.format != [] {
      r := AppendBlob(r, 7, 14, m.format);
    }
    r := r + [OBJECT_END];
    FourPieces(b + Header(14, 10), Optional(7, 12, m.typ), Optional(7, 13, m.data), Optional(7, 14, m.format), [OBJECT_END]);
  }

  lemma FourPieces(b: seq<byte>, p: seq<byte>, q: seq<byte>, r: seq<byte>, s: seq<byte>)
    ensures b + p + q + r + s == b + (p + (q + (r + s)))
    ensures b + [] == b
  {
  }

  method SerializeMemos(memos: seq<Memo>) returns (r: Result<seq<byte>, CodecError>)
    ensures r == if |MemoArray(memos)| > MAX_MEMOS then Err(MemosTooLong) else Ok(MemoArray(memos))
  {
    hide MemoFields, Header;
    var b := AppendHeader([], 15, 9);
    assert b == Header(15, 9);
    for i := 0 to |memos|
      invariant b + MemoList(memos[i..]) == MemoArray(memos)
    {
      ghost var m, rest := memos[i], MemoList(memos[i + 1..]);
      assert memos[i..][0] == m && memos[i..][1..] == memos[i + 1..];
      assert b + (Header(14, 10) + (MemoFields(m) + rest)) == b + Header(14, 10) + MemoFields(m) + rest;
      b := AppendMemo(b, memos[i]);
    }
    assert memos[|memos|..] == [];
    b := b + [ARRAY_END];
    if |b| > MAX_MEMOS {
      return Err(MemosTooLong);
    }
    return Ok(b);
  }

  // The first k fields, as a buffer that has grown by each of them.
  ghost function Grown(tx: Tx, sig: bool, k: nat): seq<byte> {
    if k == 0 then [] else Grown(tx, sig, k - 1) + Field(tx, sig, k - 1)
  }

  lemma {:induction false} GrownIsFields(tx: Tx, sig: bool, k: nat)
    requires k <= FIELDS
    ensures Grown(tx, sig, k) + Fields(tx, sig, k) == Fields(tx, sig, 0)
  {
    hide Field;
    if k > 0 {
      assert Grown(tx, sig, k) == Grown(tx, sig, k - 1) + Field(tx, sig, k - 1);
      assert Fields(tx, sig, k - 1) == Field(tx, sig, k - 1) + Fields(tx, sig, k);
      hide Grown, Fields;
      GrownIsFields(tx, sig, k - 1);
      FieldMoves(Grown(tx, sig, k - 1), Field(tx, sig, k - 1), Fields(tx, sig, k));
    }
  }

  lemma FieldMoves(a: seq<byte>, b: seq<byte>, c: seq<byte>)
    ensures a + (b + c) == a + b + c
  {
  }

  method AppendU16(b: seq<byte>, v: u16) returns (r: seq<byte>)
    ensures r == b + Big(v, 2)
  {
    r := b + [v / 256, v % 256];
    BigIsTwo(v);
  }

  // Type, flags, sequence, last ledger and fee.
  method SerializeNumbers(tx: Tx) returns (b: seq<byte>)
    requires tx.fee < FEE_BIT
    ensures forall sig :: b == Grown(tx, sig, 5)
  {
    hide Number, Big, Header;
    b := AppendHeader([], 1, 2);
    b := AppendU16(b, tx.typ);
    ghost var b0 := b;
    if tx.flags != 0 {
      b := AppendNumber(b, 2, 2, tx.flags);
    }
    ghost var b1 := b;
    b := AppendNumber(b, 2, 4, tx.sequence);
    ghost var b2 := b;
    if tx.lastLedger != 0 {
      b := AppendNumber(b, 2, 27, tx.lastLedger);
    }
    ghost var b3 := b;
    b := AppendHeader(b, 6, 8);
    b := AppendU64(b, FEE_BIT + tx.fee);
    NumberIs(1, 2, tx.typ, 2);
    NumberIs(6, 8, FEE_BIT + tx.fee, 8);
    FieldMoves([], Header(1, 2), Big(tx.typ, 2));
    FieldMoves(b3, Header(6, 8), Big(FEE_BIT + tx.fee, 8));
    assert b1 == b0 + IfSet(tx.flags, Number(2, 2, tx.flags, 4));
    assert b3 == b2 + IfSet(tx.lastLedger, Number(2, 27, tx.lastLedger, 4));
    hide IfSet, Grown;
    forall sig
      ensures b == Grown(tx, sig, 5)
    {
      NumbersGrown(tx, sig, b0, b1, b2, b3, b);
    }
  }

  // A number that is left out when it is 0.
  function IfSet(v: nat, field: seq<byte>): seq<byte> {
    if v != 0 then field else []
  }

  lemma NumberFields(tx: Tx, sig: bool)
    ensures Field(tx, sig, 0) == Number(1, 2, tx.typ, 2) && Field(tx, sig, 1) == IfSet(tx.flags, Number(2, 2, tx.flags, 4))
    ensures Field(tx, sig, 2) == Number(2, 4, tx.sequence, 4)
    ensures Field(tx, sig, 3) == IfSet(tx.lastLedger, Number(2, 27, tx.lastLedger, 4))
    ensures Field(tx, sig, 4) == Number(6, 8, FEE_BIT + tx.fee, 8)
  {
    hide Number;
  }

  lemma NumbersGrown(tx: Tx, sig: bool, b0: seq<byte>, b1: seq<byte>, b2: seq<byte>, b3: seq<byte>, b4: seq<byte>)
    requires b0 == [] + Number(1, 2, tx.typ, 2) && b1 == b0 + IfSet(tx.flags, Number(2, 2, tx.flags, 4))
    requires b2 == b1 + Number(2, 4, tx.sequence, 4) && b3 == b2 + IfSet(tx.lastLedger, Number(2, 27, tx.lastLedger, 4))
    requires b4 == b3 + Number(6, 8, FEE_BIT + tx.fee, 8)
    ensures b4 == Grown(tx, sig, 5)
  {
    hide *;
    NumberFields(tx, sig);
    GrownStep(tx, sig, 0);
    GrownStep(tx, sig, 1);
    GrownStep(tx, sig, 2);
    GrownStep(tx, sig, 3);
    GrownStep(tx, sig, 4);
  }

  lemma GrownStep(tx: Tx, sig: bool, k: nat)
    ensures Grown(tx, sig, 0) == [] && Grown(tx, sig, k + 1) == Grown(tx, sig, k) + Field(tx, sig, k)
  {
    hide Field;
  }

  lemma NumberIs(typ: byte, field: byte, v: nat, n: nat)
    ensures Number(typ, field, v, n) == Header(typ, field) + Big(v, n)
  {
  }

  method AppendU64(b: seq<byte>, v: u64) returns (r: seq<byte>)
    ensures r == b + Big(v, 8)
  {
    r := b + [v / 0x100000000000000, v / 0x1000000000000 % 256, v / 0x10000000000 % 256, v / 0x100000000 % 256,
              v / 0x1000000 % 256, v / 0x10000 % 256, v / 0x100 % 256, v % 256];
    BigIsEight(v);
  }

  // Keys, signature, DID fields and account; the caller has made the checks.
  method SerializeBlobs(b: seq<byte>, tx: Tx, sig: bool) returns (r: seq<byte>)
    requires b == Grown(tx, sig, 5)
    ensures r == Grown(tx, sig, 11)
  {
    hide Blob, IsInner;
    r := AppendBlob(b, 7, 3, tx.pubKey);
    if sig && !IsInner(tx) {
      r := AppendBlob(r, 7, 4, tx.signature);
    }
    assert r == Grown(tx, sig, 7) by {
      assert Grown(tx, sig, 6) == b + Field(tx, sig, 5);
    }
    if tx.typ == DID_SET {
      ghost var r0 := r;
      if tx.uri != [] {
        r := AppendBlob(r, 7, 5, tx.uri);
      }
      ghost var r1 := r;
      if tx.didDocument != [] {
        r := AppendBlob(r, 7, 26, tx.didDocument);
      }
      ghost var r2 := r;
      if tx.data != [] {
        r := AppendBlob(r, 7, 27, tx.data);
      }
      assert Grown(tx, sig, 8) == r1 && Grown(tx, sig, 9) == r2;
    } else {
      assert Grown(tx, sig, 8) == r && Grown(tx, sig, 9) == r;
    }
    assert r == Grown(tx, sig, 10);
    r := AppendBlob(r, 8, 1, tx.account);
  }

  method Check(tx: Tx, sig: bool) returns (e: Option<CodecError>)
    ensures e == OwnRefusal(tx, sig)
  {
    if tx.fee >= FEE_BIT {
      return Some(FeeTooLarge);
    }
    if IsInner(tx) {
      if tx.fee != 0 {
        return Some(InnerPays);
      }
      if tx.pubKey != [] || tx.signature != [] {
        return Some(InnerSigned);
      }
      if tx.typ == BATCH {
        return Some(NestedBatch);
      }
    } else if |tx.pubKey| != 33 {
      return Some(BadPubKey);
    }
    if sig && !IsInner(tx) && tx.signature == [] {
      return Some(NotSigned);
    }
    if tx.typ == DID_SET && |tx.data| > 256 {
      return Some(DataTooLong);
    }
    return if |tx.account| != 20 then Some(BadAccount) else None;
  }

  /** Serialize: the canonical bytes, or the first reason to refuse. */
  method Serialize(tx: Tx, sig: bool) returns (r: Result<seq<byte>, CodecError>)
    ensures r == Encoded(tx, sig)
    decreases tx, 1
  {
    hide Grown, Fields, MemoArray, InnerRefusal, InnerList, Header, IsInner, Signed;
    var refused := Check(tx, sig);
    if refused.Some? {
      return Err(refused.value);
    }
    assert tx.fee < FEE_BIT;
    hide OwnRefusal;
    var b := SerializeNumbers(tx);
    b := SerializeBlobs(b, tx, sig);
    AllGrown(tx, sig);
    if tx.memos != [] {
      var m := SerializeMemos(tx.memos);
      if m.Err? {
        return m;
      }
      b := b + m.value;
    }
    if tx.typ == BATCH {
      var inner := SerializeInner(tx);
      if inner.Err? {
        return inner;
      }
      b := b + inner.value;
    } else if |tx.inner| > 0 {
      return Err(InnerOnlyInBatch);
    }
    assert Fields(tx, sig, 0) + [] == Fields(tx, sig, 0);
    return Ok(b);
  }

  lemma AllGrown(tx: Tx, sig: bool)
    ensures Fields(tx, sig, 0) == if tx.memos != [] then Grown(tx, sig, 11) + MemoArray(tx.memos) else Grown(tx, sig, 11)
  {
    LastField(tx, sig);
    hide *;
    GrownIsFields(tx, sig, FIELDS);
    var all, most := Grown(tx, sig, FIELDS), Grown(tx, sig, 11);
    assert all + [] == all && most + [] == most;
  }

  lemma LastField(tx: Tx, sig: bool)
    ensures FIELDS == 12 && Fields(tx, sig, FIELDS) == []
    ensures Grown(tx, sig, FIELDS) == Grown(tx, sig, 11) + if tx.memos != [] then MemoArray(tx.memos) else []
  {
    hide MemoArray, Blob, Optional, Number;
    assert Grown(tx, sig, 12) == Grown(tx, sig, 11) + Field(tx, sig, 11);
  }

  // What serializeInner gives for a Batch's inner transactions.
  function InnerEncoded(inner: seq<Tx>): Result<seq<byte>, CodecError> {
    if |inner| < 2 || |inner| > MAX_INNER then Err(BadInnerCount)
    else match InnerRefusal(inner)
      case Some(e) => Err(e)
      case None => Ok(Header(15, 30) + InnerList(inner))
  }

  lemma InnerNext(inner: seq<Tx>, i: nat)
    requires i < |inner|
    ensures var one := inner[i];
            && InnerRefusal(inner[i..]) ==
               (if !IsInner(one) then Some(NotInner)
                else if Encoded(one, false).Err? then Some(Encoded(one, false).error)
                else InnerRefusal(inner[i + 1..]))
            && (IsInner(one) && Encoded(one, false).Ok? ==>
                  InnerList(inner[i..]) == Header(14, 34) + (Encoded(one, false).value + ([OBJECT_END] + InnerList(inner[i + 1..]))))
  {
    assert inner[i..][0] == inner[i] && inner[i..][1..] == inner[i + 1..];
    if IsInner(inner[i]) {
      InnerIsPlain(inner[i]);
    }
    hide Encoded, Refusal, Fields, Header, FieldRefusal;
  }

  // An inner transaction has no inner transactions of its own.
  lemma InnerIsPlain(tx: Tx)
    requires IsInner(tx)
    ensures FieldRefusal(tx, false).Some? ==> Encoded(tx, false) == Err(FieldRefusal(tx, false).value)
    ensures FieldRefusal(tx, false).None? && tx.inner != [] ==> Encoded(tx, false) == Err(InnerOnlyInBatch)
    ensures FieldRefusal(tx, false).None? && tx.inner == [] ==> Encoded(tx, false) == Ok(Fields(tx, false, 0))
  {
    hide Fields, MemoRefusal;
    assert Fields(tx, false, 0) + [] == Fields(tx, false, 0);
  }

  method SerializeInner(tx: Tx) returns (r: Result<seq<byte>, CodecError>)
    ensures r == InnerEncoded(tx.inner)
    decreases tx, 0
  {
    hide Encoded, InnerList, InnerRefusal, Header;
    if |tx.inner| < 2 || |tx.inner| > MAX_INNER {
      return Err(BadInnerCount);
    }
    var b := AppendHeader([], 15, 30);
    assert [] + Header(15, 30) == Header(15, 30) && tx.inner[0..] == tx.inner;
    for i := 0 to |tx.inner|
      invariant InnerRefusal(tx.inner) == InnerRefusal(tx.inner[i..])
      invariant b + InnerList(tx.inner[i..]) == Header(15, 30) + InnerList(tx.inner)
    {
      InnerNext(tx.inner, i);
      if !IsInner(tx.inner[i]) {
        return Err(NotInner);
      }
      var body := Serialize(tx.inner[i], false);
      if body.Err? {
        return body;
      }
      ghost var before := b;
      b := AppendHeader(b, 14, 34);
      b := b + body.value;
      b := b + [OBJECT_END];
      FourPieces(before, Header(14, 34), body.value, [OBJECT_END], InnerList(tx.inner[i + 1..]));
    }
    assert tx.inner[|tx.inner|..] == [];
    InnerListEnd();
    return Ok(b + [ARRAY_END]);
  }

  lemma InnerListEnd()
    ensures InnerList([]) == [ARRAY_END] && InnerRefusal([]) == None
  {
  }
}
