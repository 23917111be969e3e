/**
  Reading back what was written: internal/xrpl/codec/codec.go:68-256 against decode.go:11-253.
 */
module TxRoundTrip {
  import opened Common
  import opened Wire
  import opened TxFormat

  // ----- memos -----

  ghost predicate MemoFits(m: Memo) {
    |m.typ| <= MAX_VL && |m.data| <= MAX_VL && |m.format| <= MAX_VL
  }

  lemma MemoFieldStarts(code: byte, v: seq<byte>, rest: seq<byte>)
    requires v != [] && code in {12, 13, 14}
    ensures var s := Optional(7, code, v) + rest; |s| > 0 && s[0] == 0x70 + code && s[1..] == VL(v) + rest
  {
    assert Header(7, code) == [0x70 + code];
    hide VL, Header;
    var s := Optional(7, code, v) + rest;
    assert s == [0x70 + code] + VL(v) + rest;
  }

  lemma MemoFieldBack(m: Memo, code: byte, v: seq<byte>, rest: seq<byte>)
    requires |v| <= MAX_VL && code in {12, 13, 14}
    ensures ReadMemoFields(m, Optional(7, code, v) + rest) ==
            ReadMemoFields(if v == [] then m
                           else if code == 12 then m.(typ := v)
                           else if code == 13 then m.(data := v)
                           else m.(format := v), rest)
  {
    if v == [] {
      assert Optional(7, code, v) + rest == rest;
    } else {
      hide VL, ReadVL, Optional;
      MemoFieldStarts(code, v, rest);
      VLRoundTrip(v, rest);
    }
  }

  lemma MemoBack(m: Memo, rest: seq<byte>)
    requires MemoFits(m)
    ensures ReadMemoFields(Memo([], [], []), MemoFields(m) + rest) == Done(m, rest)
  {
    var end := [OBJECT_END] + rest;
    var a, b, c := Optional(7, 12, m.typ), Optional(7, 13, m.data), Optional(7, 14, m.format);
    assert MemoFields(m) + rest == a + (b + (c + end));
    hide Optional;
    MemoFieldBack(Memo([], [], []), 12, m.typ, b + (c + end));
    MemoFieldBack(Memo(m.typ, [], []), 13, m.data, c + end);
    MemoFieldBack(Memo(m.typ, m.data, []), 14, m.format, end);
    assert end[1..] == rest;
  }

  lemma StepMemos(before: seq<Memo>, m: Memo, after: seq<byte>)
    requires MemoFits(m)
    ensures ReadMemos(before, Header(14, 10) + (MemoFields(m) + after)) == ReadMemos(before + [m], after)
  {
    hide MemoFields, ReadMemoFields;
    var s := Header(14, 10) + (MemoFields(m) + after);
    assert Header(14, 10) == [0xEA];
    assert s[0] == 0xEA && s[1..] == MemoFields(m) + after;
    MemoBack(m, after);
  }

  lemma {:induction false} MemosBack(before: seq<Memo>, memos: seq<Memo>, rest: seq<byte>)
    requires forall i | 0 <= i < |memos| :: MemoFits(memos[i])
    ensures ReadMemos(before, MemoList(memos) + rest) == Done(before + memos, rest)
    decreases |memos|
  {
    var s := MemoList(memos) + rest;
    if memos == [] {
      assert s[1..] == rest && before + memos == before;
    } else {
      var m, after := memos[0], MemoList(memos[1..]) + rest;
      assert s == Header(14, 10) + (MemoFields(m) + after);
      assert before + [m] + memos[1..] == before + memos;
      hide *;
      StepMemos(before, m, after);
      MemosBack(before + [m], memos[1..], rest);
    }
  }

  lemma OptionalIsLonger(typ: byte, field: byte, v: seq<byte>)
    ensures |v| <= |Optional(typ, field, v)|
  {
  }

  // The limit on the Memos array keeps every memo field short.
  lemma {:induction false} ShortMemos(memos: seq<Memo>, i: nat)
    requires i < |memos|
    ensures |MemoFields(memos[i])| <= |MemoList(memos)|
    ensures |memos[i].typ| + |memos[i].data| + |memos[i].format| <= |MemoFields(memos[i])|
  {
    OptionalIsLonger(7, 12, memos[i].typ);
    OptionalIsLonger(7, 13, memos[i].data);
    OptionalIsLonger(7, 14, memos[i].format);
    hide Optional;
    if i > 0 {
      hide MemoFields;
      ShortMemos(memos[1..], i - 1);
    }
  }

  // ----- one field -----

  lemma Assoc(a: seq<byte>, b: seq<byte>, c: seq<byte>)
    ensures a + b + c == a + (b + c)
  {
  }

  lemma StepObject(tx: Tx, field: seq<byte>, rest: seq<byte>, nested: bool, t: Tx)
    requires field != [] && field[0] != OBJECT_END && ReadField(tx, field + rest) == Done(t, rest)
    ensures ReadObject(tx, field + rest, nested) == ReadObject(t, rest, nested)
  {
    hide ReadField;
  }

  lemma NumberBack(v: nat, n: nat, rest: seq<byte>)
    requires v < Pow256(n)
    ensures ReadNumber(Big(v, n) + rest, n) == Done(v, rest)
  {
    SmallRoundTrip(v, n);
    assert (Big(v, n) + rest)[..n] == Big(v, n) && (Big(v, n) + rest)[n..] == rest;
  }

  // What a number field does to a transaction.
  function SetNumber(tx: Tx, typ: byte, field: byte, v: u64): Option<Tx> {
    if typ == 1 && field == 2 && v < 0x10000 then Some(tx.(typ := v))
    else if typ == 2 && v < 0x100000000 then WithNumber(tx, field, v)
    else if typ == 6 && field == 8 then Some(tx.(fee := Drops(v)))
    else None
  }

  lemma NumberFieldRead(tx: Tx, typ: byte, field: byte, v: u64, n: nat, rest: seq<byte>)
    requires typ > 0 && field > 0 && n == (if typ == 1 then 2 else if typ == 2 then 4 else 8)
    requires SetNumber(tx, typ, field, v).Some?
    ensures ReadField(tx, Header(typ, field) + (Big(v, n) + rest)) == Done(SetNumber(tx, typ, field, v).value, rest)
  {
    Powers();
    hide Header, Big, ReadHeader, ReadNumber, Pow256, ReadMemos, ReadInner, ReadVL, Drops;
    HeaderRoundTrip(typ, field, Big(v, n) + rest);
    NumberBack(v, n, rest);
  }

  lemma NumberFieldBack(tx: Tx, typ: byte, field: byte, v: u64, n: nat, rest: seq<byte>, nested: bool)
    requires typ > 0 && field > 0 && n == (if typ == 1 then 2 else if typ == 2 then 4 else 8)
    requires SetNumber(tx, typ, field, v).Some?
    ensures ReadObject(tx, Number(typ, field, v, n) + rest, nested) == ReadObject(SetNumber(tx, typ, field, v).value, rest, nested)
  {
    assert Number(typ, field, v, n) + rest == Header(typ, field) + (Big(v, n) + rest);
    NumberFieldRead(tx, typ, field, v, n, rest);
    assert Number(typ, field, v, n)[0] == Header(typ, field)[0] != OBJECT_END;
    hide *;
    StepObject(tx, Number(typ, field, v, n), rest, nested, SetNumber(tx, typ, field, v).value);
  }

  function SetBlob(tx: Tx, typ: byte, field: byte, v: seq<byte>): Option<Tx> {
    if typ == 7 then WithBlob(tx, field, v)
    else if typ == 8 && field == 1 then Some(tx.(account := v))
    else None
  }

  lemma BlobFieldRead(tx: Tx, typ: byte, field: byte, v: seq<byte>, rest: seq<byte>)
    requires typ > 0 && field > 0 && |v| <= MAX_VL && SetBlob(tx, typ, field, v).Some?
    ensures ReadField(tx, Header(typ, field) + (VL(v) + rest)) == Done(SetBlob(tx, typ, field, v).value, rest)
  {
    Powers();
    hide Header, VL, ReadHeader, ReadNumber, ReadMemos, ReadInner, ReadVL;
    HeaderRoundTrip(typ, field, VL(v) + rest);
    VLRoundTrip(v, rest);
  }

  lemma BlobStarts(typ: byte, field: byte, v: seq<byte>, rest: seq<byte>)
    ensures Blob(typ, field, v) + rest == Header(typ, field) + (VL(v) + rest)
    ensures 0 < typ < 14 ==> Blob(typ, field, v) != [] && Blob(typ, field, v)[0] != OBJECT_END
  {
    hide VL;
  }

  lemma BlobFieldBack(tx: Tx, typ: byte, field: byte, v: seq<byte>, rest: seq<byte>, nested: bool)
    requires typ > 0 && field > 0 && |v| <= MAX_VL && SetBlob(tx, typ, field, v).Some?
    ensures ReadObject(tx, Blob(typ, field, v) + rest, nested) == ReadObject(SetBlob(tx, typ, field, v).value, rest, nested)
  {
    BlobStarts(typ, field, v, rest);
    BlobFieldRead(tx, typ, field, v, rest);
    assert typ == 7 || typ == 8;
    hide *;
    StepObject(tx, Blob(typ, field, v), rest, nested, SetBlob(tx, typ, field, v).value);
  }

  lemma MemosFit(memos: seq<Memo>)
    requires |MemoArray(memos)| <= MAX_MEMOS
    ensures forall i | 0 <= i < |memos| :: MemoFits(memos[i])
  {
    forall i | 0 <= i < |memos|
      ensures MemoFits(memos[i])
    {
      ShortMemos(memos, i);
    }
  }

  lemma MemoFieldRead(tx: Tx, memos: seq<Memo>, rest: seq<byte>)
    requires |MemoArray(memos)| <= MAX_MEMOS
    ensures ReadField(tx, Header(15, 9) + (MemoList(memos) + rest)) == Done(tx.(memos := memos), rest)
  {
    MemosFit(memos);
    Powers();
    hide MemoFits, MemoList, ReadMemos, ReadHeader, ReadInner, ReadVL, ReadNumber;
    HeaderRoundTrip(15, 9, MemoList(memos) + rest);
    MemosBack([], memos, rest);
    assert [] + memos == memos;
  }

  lemma MemoFieldsBack(tx: Tx, memos: seq<Memo>, rest: seq<byte>, nested: bool)
    requires |MemoArray(memos)| <= MAX_MEMOS
    ensures ReadObject(tx, MemoArray(memos) + rest, nested) == ReadObject(tx.(memos := memos), rest, nested)
  {
    hide MemoList, ReadField, ReadObject, ReadMemos, ReadInner;
    assert MemoArray(memos)[0] == Header(15, 9)[0] != OBJECT_END;
    assert MemoArray(memos) == Header(15, 9) + MemoList(memos);
    hide *;
    Assoc(Header(15, 9), MemoList(memos), rest);
    MemoFieldRead(tx, memos, rest);
    StepObject(tx, MemoArray(memos), rest, nested, tx.(memos := memos));
  }

  // ----- all fields -----

  // A blob that the prefix can measure. Only these three have no limit of their own.
  predicate Measured(tx: Tx) {
    |tx.signature| <= MAX_VL && |tx.uri| <= MAX_VL && |tx.didDocument| <= MAX_VL
  }

  // The transaction with only its first k fields, as they are written.
  function First(tx: Tx, sig: bool, k: nat): Tx {
    var did := tx.typ == DID_SET;
    Tx(
      if k > 0 then tx.typ else 0,
      if k > 1 then tx.flags else 0,
      if k > 2 then tx.sequence else 0,
      if k > 3 then tx.lastLedger else 0,
      if k > 4 then tx.fee else 0,
      if k > 5 then tx.pubKey else [],
      if k > 6 && Signed(tx, sig) then tx.signature else [],
      if k > 7 && did then tx.uri else [],
      if k > 8 && did then tx.didDocument else [],
      if k > 9 && did then tx.data else [],
      if k > 10 then tx.account else [],
      if k > 11 then tx.memos else [],
      [])
  }

  lemma DropsBack(fee: u64)
    requires fee < FEE_BIT
    ensures Drops(FEE_BIT + fee) == fee
  {
  }

  // The numbers, field by field.
  lemma NumberSteps(tx: Tx, sig: bool)
    ensures Field(tx, sig, 0) == Number(1, 2, tx.typ, 2) && First(tx, sig, 1) == First(tx, sig, 0).(typ := tx.typ)
    ensures Field(tx, sig, 1) == (if tx.flags != 0 then Number(2, 2, tx.flags, 4) else []) && First(tx, sig, 2) == First(tx, sig, 1).(flags := tx.flags)
    ensures Field(tx, sig, 2) == Number(2, 4, tx.sequence, 4) && First(tx, sig, 3) == First(tx, sig, 2).(sequence := tx.sequence)
    ensures Field(tx, sig, 3) == (if tx.lastLedger != 0 then Number(2, 27, tx.lastLedger, 4) else [])
    ensures First(tx, sig, 4) == First(tx, sig, 3).(lastLedger := tx.lastLedger)
    ensures Field(tx, sig, 4) == Number(6, 8, FEE_BIT + tx.fee, 8) && First(tx, sig, 5) == First(tx, sig, 4).(fee := tx.fee)
    ensures First(tx, sig, 1).flags == 0 && First(tx, sig, 3).lastLedger == 0
  {
    hide Number, Signed;
  }

  lemma NumbersBack(tx: Tx, sig: bool, k: nat, rest: seq<byte>, nested: bool)
    requires tx.fee < FEE_BIT && k <= 4
    ensures ReadObject(First(tx, sig, k), Field(tx, sig, k) + rest, nested) == ReadObject(First(tx, sig, k + 1), rest, nested)
  {
    hide ReadObject, Number, First, Field, Drops;
    var t := First(tx, sig, k);
    assert [] + rest == rest;
    DropsBack(tx.fee);
    NumberSteps(tx, sig);
    if k == 0 {
      NumberFieldBack(t, 1, 2, tx.typ, 2, rest, nested);
    } else if k == 1 {
      if tx.flags != 0 {
        NumberFieldBack(t, 2, 2, tx.flags, 4, rest, nested);
      }
    } else if k == 2 {
      NumberFieldBack(t, 2, 4, tx.sequence, 4, rest, nested);
    } else if k == 3 {
      if tx.lastLedger != 0 {
        NumberFieldBack(t, 2, 27, tx.lastLedger, 4, rest, nested);
      }
    } else {
      NumberFieldBack(t, 6, 8, FEE_BIT + tx.fee, 8, rest, nested);
    }
  }

  // The blobs that every transaction has room for.
  lemma KeyFields(tx: Tx, sig: bool)
    ensures Field(tx, sig, 5) == Blob(7, 3, tx.pubKey) && First(tx, sig, 6) == First(tx, sig, 5).(pubKey := tx.pubKey)
    ensures Signed(tx, sig) ==> Field(tx, sig, 6) == Blob(7, 4, tx.signature) && First(tx, sig, 7) == First(tx, sig, 6).(signature := tx.signature)
    ensures !Signed(tx, sig) ==> Field(tx, sig, 6) == [] && First(tx, sig, 7) == First(tx, sig, 6)
    ensures Field(tx, sig, 10) == Blob(8, 1, tx.account) && First(tx, sig, 11) == First(tx, sig, 10).(account := tx.account)
  {
    hide Blob, Signed;
  }

  lemma KeysBack(tx: Tx, sig: bool, k: nat, rest: seq<byte>, nested: bool)
    requires |tx.pubKey| <= MAX_VL && |tx.account| <= MAX_VL && Measured(tx) && (5 <= k <= 6 || k == 10)
    ensures ReadObject(First(tx, sig, k), Field(tx, sig, k) + rest, nested) == ReadObject(First(tx, sig, k + 1), rest, nested)
  {
    var t := First(tx, sig, k);
    assert [] + rest == rest;
    hide ReadObject, Blob, First, Field, Signed;
    KeyFields(tx, sig);
    if k == 5 {
      BlobFieldBack(t, 7, 3, tx.pubKey, rest, nested);
    } else if k == 10 {
      BlobFieldBack(t, 8, 1, tx.account, rest, nested);
    } else if Signed(tx, sig) {
      BlobFieldBack(t, 7, 4, tx.signature, rest, nested);
    }
  }

  lemma KeysFit(tx: Tx, sig: bool)
    requires FieldRefusal(tx, sig).None?
    ensures tx.fee < FEE_BIT && |tx.pubKey| <= MAX_VL && |tx.account| <= MAX_VL
  {
    hide MemoRefusal;
  }

  lemma DidFields(tx: Tx, sig: bool)
    ensures var did := tx.typ == DID_SET;
            && Field(tx, sig, 7) == (if did && tx.uri != [] then Blob(7, 5, tx.uri) else [])
            && Field(tx, sig, 8) == (if did && tx.didDocument != [] then Blob(7, 26, tx.didDocument) else [])
            && Field(tx, sig, 9) == (if did && tx.data != [] then Blob(7, 27, tx.data) else [])
            && First(tx, sig, 8) == (if did then First(tx, sig, 7).(uri := tx.uri) else First(tx, sig, 7))
            && First(tx, sig, 9) == (if did then First(tx, sig, 8).(didDocument := tx.didDocument) else First(tx, sig, 8))
            && First(tx, sig, 10) == (if did then First(tx, sig, 9).(data := tx.data) else First(tx, sig, 9))
            && First(tx, sig, 7).uri == First(tx, sig, 8).didDocument == First(tx, sig, 9).data == []
  {
    hide Blob, Signed;
  }

  lemma DidData(tx: Tx, sig: bool)
    requires FieldRefusal(tx, sig).None?
    ensures tx.typ == DID_SET ==> |tx.data| <= MAX_VL
  {
    hide MemoRefusal;
  }

  // The blobs that only a DIDSet has.
  lemma DidBack(tx: Tx, sig: bool, k: nat, rest: seq<byte>, nested: bool)
    requires FieldRefusal(tx, sig).None? && Measured(tx) && 7 <= k <= 9
    ensures ReadObject(First(tx, sig, k), Field(tx, sig, k) + rest, nested) == ReadObject(First(tx, sig, k + 1), rest, nested)
  {
    var t := First(tx, sig, k);
    assert [] + rest == rest;
    DidFields(tx, sig);
    DidData(tx, sig);
    hide ReadObject, Blob, FieldRefusal, Field, First;
    if k == 7 {
      DidBlobBack(t, 5, tx.typ == DID_SET, tx.uri, rest, nested);
    } else if k == 8 {
      DidBlobBack(t, 26, tx.typ == DID_SET, tx.didDocument, rest, nested);
    } else {
      DidBlobBack(t, 27, tx.typ == DID_SET, tx.data, rest, nested);
    }
  }

  // A blob that is left out unless it is there.
  lemma DidBlobBack(t: Tx, field: byte, did: bool, v: seq<byte>, rest: seq<byte>, nested: bool)
    requires (did ==> |v| <= MAX_VL) && WithBlob(t, field, v).Some? && (v == [] ==> WithBlob(t, field, v) == Some(t)) && field > 0
    ensures ReadObject(t, (if did && v != [] then Blob(7, field, v) else []) + rest, nested) ==
            ReadObject(if did then WithBlob(t, field, v).value else t, rest, nested)
  {
    hide ReadObject, Blob;
    if did && v != [] {
      BlobFieldBack(t, 7, field, v, rest, nested);
    } else {
      assert [] + rest == rest;
    }
  }

  lemma LastFieldBack(tx: Tx, sig: bool, rest: seq<byte>, nested: bool)
    requires MemoRefusal(tx.memos).None?
    ensures ReadObject(First(tx, sig, 11), Field(tx, sig, 11) + rest, nested) == ReadObject(First(tx, sig, 12), rest, nested)
  {
    hide ReadObject, MemoArray, Blob, Optional, Number, Signed;
    assert [] + rest == rest;
    if tx.memos != [] {
      MemoFieldsBack(First(tx, sig, 11), tx.memos, rest, nested);
    }
  }

  lemma FieldBack(tx: Tx, sig: bool, k: nat, rest: seq<byte>, nested: bool)
    requires FieldRefusal(tx, sig).None? && Measured(tx) && k < FIELDS
    ensures ReadObject(First(tx, sig, k), Field(tx, sig, k) + rest, nested) == ReadObject(First(tx, sig, k + 1), rest, nested)
  {
    hide ReadObject, First, Field;
    KeysFit(tx, sig);
    if k <= 4 {
      NumbersBack(tx, sig, k, rest, nested);
    } else if 7 <= k <= 9 {
      DidBack(tx, sig, k, rest, nested);
    } else if k <= 10 {
      KeysBack(tx, sig, k, rest, nested);
    } else {
      LastFieldBack(tx, sig, rest, nested);
    }
  }

  lemma {:induction false} FieldsBack(tx: Tx, sig: bool, k: nat, rest: seq<byte>, nested: bool)
    requires FieldRefusal(tx, sig).None? && Measured(tx) && k <= FIELDS
    ensures ReadObject(First(tx, sig, k), Fields(tx, sig, k) + rest, nested) == ReadObject(First(tx, sig, FIELDS), rest, nested)
    decreases FIELDS - k
  {
    hide FieldRefusal, Field, First, ReadObject;
    if k == FIELDS {
      assert Fields(tx, sig, k) + rest == rest;
    } else {
      var after := Fields(tx, sig, k + 1) + rest;
      assert Fields(tx, sig, k) + rest == Field(tx, sig, k) + after;
      FieldBack(tx, sig, k, after, nested);
      FieldsBack(tx, sig, k + 1, rest, nested);
    }
  }

  // ----- inner transactions -----

  ghost predicate AllMeasured(tx: Tx) {
    Measured(tx) && EachMeasured(tx.inner)
  }

  lemma NothingYet(tx: Tx, sig: bool)
    ensures First(tx, sig, 0) == NO_TX
  {
  }

  lemma NestedBack(tx: Tx, rest: seq<byte>)
    requires FieldRefusal(tx, false).None? && Measured(tx)
    ensures ReadObject(NO_TX, Fields(tx, false, 0) + ([OBJECT_END] + rest), true) == Done(First(tx, false, FIELDS), rest)
  {
    hide First, Fields, FieldRefusal, ReadField;
    NothingYet(tx, false);
    FieldsBack(tx, false, 0, [OBJECT_END] + rest, true);
    assert ([OBJECT_END] + rest)[1..] == rest;
  }

  lemma StepInner(before: seq<Tx>, tx: Tx, rest: seq<byte>)
    requires FieldRefusal(tx, false).None? && Measured(tx)
    ensures ReadInner(before, Header(14, 34) + (Fields(tx, false, 0) + ([OBJECT_END] + rest))) ==
            ReadInner(before + [First(tx, false, FIELDS)], rest)
  {
    var body := Fields(tx, false, 0) + ([OBJECT_END] + rest);
    HeaderRoundTrip(14, 34, body);
    NestedBack(tx, rest);
    assert (Header(14, 34) + body)[0] == 0xE0;
    hide First, Fields, FieldRefusal, ReadObject, ReadHeader, Header;
  }

  // The inner transactions with what is written of each.
  function Written(inner: seq<Tx>): (kept: seq<Tx>)
    ensures |kept| == |inner|
  {
    seq(|inner|, i requires 0 <= i < |inner| => First(inner[i], false, FIELDS))
  }

  lemma WrittenSplits(inner: seq<Tx>)
    requires inner != []
    ensures Written(inner) == [First(inner[0], false, FIELDS)] + Written(inner[1..])
  {
    hide First;
  }

  lemma InnerListSplits(inner: seq<Tx>, rest: seq<byte>)
    requires inner != []
    ensures InnerList(inner) + rest ==
            Header(14, 34) + (Fields(inner[0], false, 0) + ([OBJECT_END] + (InnerList(inner[1..]) + rest)))
  {
    var h, f, l := Header(14, 34), Fields(inner[0], false, 0), InnerList(inner[1..]);
    assert InnerList(inner) == h + (f + ([OBJECT_END] + l)) by {
      hide Header, Fields;
    }
    hide *;
    Assoc(h, f + ([OBJECT_END] + l), rest);
    Assoc(f, [OBJECT_END] + l, rest);
    Assoc([OBJECT_END], l, rest);
  }

  lemma InnerRefusalSplits(inner: seq<Tx>)
    requires InnerRefusal(inner).None? && inner != []
    ensures InnerRefusal(inner[1..]).None? && FieldRefusal(inner[0], false).None?
  {
    hide FieldRefusal, IsInner;
  }

  lemma InnerEnds(before: seq<Tx>, rest: seq<byte>)
    ensures ReadInner(before, InnerList([]) + rest) == Done(before + Written([]), rest)
  {
    hide ReadObject, ReadHeader;
    assert (InnerList([]) + rest)[1..] == rest && before + Written([]) == before;
  }

  lemma JoinsOn(before: seq<Tx>, one: Tx, more: seq<Tx>)
    ensures before + [one] + more == before + ([one] + more)
  {
  }

  ghost predicate EachMeasured(inner: seq<Tx>) {
    forall i | 0 <= i < |inner| :: Measured(inner[i])
  }

  lemma EachMeasuredSplits(inner: seq<Tx>)
    requires EachMeasured(inner) && inner != []
    ensures Measured(inner[0]) && EachMeasured(inner[1..])
  {
    hide Measured;
  }

  lemma {:induction false} InnerBack(before: seq<Tx>, inner: seq<Tx>, rest: seq<byte>)
    requires InnerRefusal(inner).None? && EachMeasured(inner)
    ensures ReadInner(before, InnerList(inner) + rest) == Done(before + Written(inner), rest)
    decreases |inner|
  {
    hide *;
    if inner == [] {
      InnerEnds(before, rest);
    } else {
      var one := First(inner[0], false, FIELDS);
      InnerListSplits(inner, rest);
      InnerRefusalSplits(inner);
      EachMeasuredSplits(inner);
      StepInner(before, inner[0], InnerList(inner[1..]) + rest);
      InnerBack(before + [one], inner[1..], rest);
      WrittenSplits(inner);
      JoinsOn(before, one, Written(inner[1..]));
    }
  }

  // ----- the whole transaction -----

  // What is written of a transaction.
  function Kept(tx: Tx, sig: bool): Tx {
    First(tx, sig, FIELDS).(inner := if tx.typ == BATCH then Written(tx.inner) else [])
  }

  lemma InnerFieldRead(t: Tx, list: seq<byte>, kept: seq<Tx>)
    requires ReadInner([], list) == Done(kept, [])
    ensures ReadField(t, Header(15, 30) + list) == Done(t.(inner := kept), [])
  {
    hide ReadInner, Header, ReadHeader, ReadMemos, ReadVL, ReadNumber;
    Powers();
    HeaderRoundTrip(15, 30, list);
  }

  lemma InnerFieldBack(t: Tx, inner: seq<Tx>)
    requires InnerRefusal(inner).None? && EachMeasured(inner)
    ensures ReadObject(t, Header(15, 30) + InnerList(inner), false) == Done(t.(inner := Written(inner)), [])
  {
    var list, kept := InnerList(inner), Written(inner);
    hide ReadField, ReadInner, InnerList, InnerRefusal, Written, Header, EachMeasured;
    InnerBack([], inner, []);
    assert list + [] == list && [] + kept == kept;
    InnerFieldRead(t, list, kept);
    assert ReadObject(t.(inner := kept), [], false) == Done(t.(inner := kept), []);
  }

  /** Deserialize reads back what Serialize wrote. */
  lemma WhatIsWrittenIsRead(tx: Tx, sig: bool)
    requires Encoded(tx, sig).Ok? && AllMeasured(tx)
    ensures Decoded(Encoded(tx, sig).value) == Some(Kept(tx, sig))
  {
    hide First, Fields, FieldRefusal, ReadField, InnerList, Written, ReadInner, Measured, Header, InnerRefusal;
    var tail := if tx.typ == BATCH then Header(15, 30) + InnerList(tx.inner) else [];
    var t := First(tx, sig, FIELDS);
    assert Encoded(tx, sig).value == Fields(tx, sig, 0) + tail;
    NothingYet(tx, sig);
    FieldsBack(tx, sig, 0, tail, false);
    if tx.typ == BATCH {
      InnerFieldBack(t, tx.inner);
    } else {
      NoInner(tx, sig);
      assert t.(inner := []) == t;
    }
  }

  // Nothing that Serialize leaves out.
  ghost predicate NothingLeftOut(tx: Tx, sig: bool) {
    && (tx.typ != DID_SET ==> tx.uri == [] && tx.didDocument == [] && tx.data == [])
    && (!Signed(tx, sig) ==> tx.signature == [])
  }

  ghost predicate Whole(tx: Tx, sig: bool) {
    NothingLeftOut(tx, sig) && forall i | 0 <= i < |tx.inner| :: NothingLeftOut(tx.inner[i], false)
  }

  lemma FirstIsAll(tx: Tx, sig: bool)
    ensures First(tx, sig, FIELDS) == tx.(inner := []) <==> NothingLeftOut(tx, sig)
  {
  }

  lemma {:induction false} InnerHasNoInner(inner: seq<Tx>, i: nat)
    requires InnerRefusal(inner).None? && i < |inner|
    ensures inner[i].inner == [] && IsInner(inner[i]) && FieldRefusal(inner[i], false).None?
  {
    hide FieldRefusal, IsInner;
    if i > 0 {
      InnerHasNoInner(inner[1..], i - 1);
    }
  }

  lemma KeptIsAll(tx: Tx, sig: bool)
    requires Refusal(tx, sig).None?
    ensures Kept(tx, sig) == tx <==> Whole(tx, sig)
  {
    NoInner(tx, sig);
    FirstIsAll(tx, sig);
    forall i | 0 <= i < |tx.inner|
      ensures Written(tx.inner)[i] == tx.inner[i] <==> NothingLeftOut(tx.inner[i], false)
    {
      if tx.typ == BATCH {
        InnerHasNoInner(tx.inner, i);
        FirstIsAll(tx.inner[i], false);
      }
    }
    hide First, NothingLeftOut, FieldRefusal, InnerRefusal;
    if Whole(tx, sig) {
      assert Written(tx.inner) == tx.inner;
    }
  }

  // ----- what cannot be read -----

  // Nothing that is read is longer than a prefix can say.
  lemma ReadIsMeasured(s: seq<byte>)
    ensures ReadVL(s).Done? ==> |ReadVL(s).value| <= MAX_VL
  {
  }

  lemma FieldStaysMeasured(tx: Tx, s: seq<byte>)
    requires AllMeasured(tx)
    ensures ReadField(tx, s).Done? ==> AllMeasured(ReadField(tx, s).value)
    decreases |s|, 0
  {
    match ReadHeader(s)
    case Bad =>
    case Done(code, rest) =>
      ReadIsMeasured(rest);
      if code == (15, 30) {
        InnerStaysMeasured([], rest);
      }
      hide ReadHeader, ReadVL, ReadNumber, ReadMemos, ReadInner, Drops;
  }

  lemma {:induction false} ObjectStaysMeasured(tx: Tx, s: seq<byte>, nested: bool)
    requires AllMeasured(tx)
    ensures ReadObject(tx, s, nested).Done? ==> AllMeasured(ReadObject(tx, s, nested).value)
    decreases |s|, 1
  {
    if s != [] && !(nested && s[0] == OBJECT_END) {
      FieldStaysMeasured(tx, s);
      hide ReadField, AllMeasured;
      var r := ReadField(tx, s);
      if r.Done? {
        ObjectStaysMeasured(r.value, r.rest, nested);
      }
    }
  }

  lemma {:induction false} InnerStaysMeasured(inner: seq<Tx>, s: seq<byte>)
    requires EachMeasured(inner)
    ensures ReadInner(inner, s).Done? ==> EachMeasured(ReadInner(inner, s).value)
    decreases |s|, 0
  {
    if s != [] && s[0] != ARRAY_END && ReadHeader(s).Done? {
      var rest := ReadHeader(s).rest;
      ObjectStaysMeasured(NO_TX, rest, true);
      hide ReadObject, ReadHeader;
      var r := ReadObject(NO_TX, rest, true);
      if r.Done? {
        InnerStaysMeasured(inner + [r.value], r.rest);
      }
    }
  }

  /**
    Deserialize inverts Serialize exactly on the transactions that carry nothing Serialize leaves out,
    DID fields outside a DIDSet or a signature where none is written, and no blob above 995520 bytes.
   */
  lemma DeserializeInvertsSerialize(tx: Tx, sig: bool)
    requires Encoded(tx, sig).Ok?
    ensures Decoded(Encoded(tx, sig).value) == Some(tx) <==> Whole(tx, sig) && AllMeasured(tx)
  {
    hide Kept, Whole, Bytes, Refusal, AllMeasured, ReadObject;
    var b := Encoded(tx, sig).value;
    NothingIsMeasured();
    ObjectStaysMeasured(NO_TX, b, false);
    if AllMeasured(tx) {
      WhatIsWrittenIsRead(tx, sig);
      KeptIsAll(tx, sig);
    }
  }

  lemma NothingIsMeasured()
    ensures AllMeasured(NO_TX)
  {
  }

  lemma NoInner(tx: Tx, sig: bool)
    ensures First(tx, sig, FIELDS).inner == []
  {
  }

  /** Two transactions with the same bytes are the same, in everything that is written. */
  lemma SerializeIsInjective(a: Tx, b: Tx, sig: bool, sig': bool)
    requires Encoded(a, sig).Ok? && Encoded(b, sig').Ok? && AllMeasured(a) && AllMeasured(b)
    requires Encoded(a, sig) == Encoded(b, sig')
    ensures Kept(a, sig) == Kept(b, sig')
    ensures Whole(a, sig) && Whole(b, sig') ==> a == b
  {
    WhatIsWrittenIsRead(a, sig);
    WhatIsWrittenIsRead(b, sig');
    DeserializeInvertsSerialize(a, sig);
    DeserializeInvertsSerialize(b, sig');
    hide *;
  }
}
