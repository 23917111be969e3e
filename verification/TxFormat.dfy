/**
  The transactions xrplbak writes and their binary form, as functions: what Serialize writes, what it
  refuses, and what Deserialize reads. internal/xrpl/codec/codec.go:42-213, decode.go:11-253.
 */
module TxFormat {
  import opened Common
  import opened Wire

  const DID_SET: u16 := 49
  const BATCH: u16 := 71
  const INNER_FLAG := 0x40000000
  const MAX_INNER := 8
  const MAX_MEMOS := 1024
  const OBJECT_END: byte := 0xE1
  const ARRAY_END: byte := 0xF1
  const FEE_BIT := 0x4000000000000000

  datatype Memo = Memo(typ: seq<byte>, data: seq<byte>, format: seq<byte>)

  datatype Tx = Tx(
    typ: u16,
    flags: u32,
    sequence: u32,
    lastLedger: u32,
    fee: u64,
    pubKey: seq<byte>,
    signature: seq<byte>,
    uri: seq<byte>,
    didDocument: seq<byte>,
    data: seq<byte>,
    account: seq<byte>,
    memos: seq<Memo>,
    inner: seq<Tx>)

  const NO_TX := Tx(0, 0, 0, 0, 0, [], [], [], [], [], [], [], [])

  predicate IsInner(tx: Tx) {
    tx.flags / INNER_FLAG % 2 == 1
  }

  // ----- what is written -----

  function Blob(typ: byte, field: byte, v: seq<byte>): seq<byte> {
    Header(typ, field) + VL(v)
  }

  function Optional(typ: byte, field: byte, v: seq<byte>): seq<byte> {
    if v == [] then [] else Blob(typ, field, v)
  }

  function Number(typ: byte, field: byte, v: nat, n: nat): seq<byte> {
    Header(typ, field) + Big(v, n)
  }

  function MemoFields(m: Memo): seq<byte> {
    Optional(7, 12, m.typ) + (Optional(7, 13, m.data) + (Optional(7, 14, m.format) + [OBJECT_END]))
  }

  function MemoList(memos: seq<Memo>): seq<byte> {
    if memos == [] then [ARRAY_END] else Header(14, 10) + (MemoFields(memos[0]) + MemoList(memos[1..]))
  }

  function MemoArray(memos: seq<Memo>): seq<byte> {
    Header(15, 9) + MemoList(memos)
  }

  const FIELDS: nat := 12

  predicate Signed(tx: Tx, sig: bool) {
    sig && !IsInner(tx)
  }

  // The k-th field of a transaction, in canonical order; empty when it is left out.
  function Field(tx: Tx, sig: bool, k: nat): seq<byte> {
    match k
    case 0 => Number(1, 2, tx.typ, 2)
    case 1 => if tx.flags != 0 then Number(2, 2, tx.flags, 4) else []
    case 2 => Number(2, 4, tx.sequence, 4)
    case 3 => if tx.lastLedger != 0 then Number(2, 27, tx.lastLedger, 4) else []
    case 4 => Number(6, 8, FEE_BIT + tx.fee, 8)
    case 5 => Blob(7, 3, tx.pubKey)
    case 6 => if Signed(tx, sig) then Blob(7, 4, tx.signature) else []
    case 7 => if tx.typ == DID_SET then Optional(7, 5, tx.uri) else []
    case 8 => if tx.typ == DID_SET then Optional(7, 26, tx.didDocument) else []
    case 9 => if tx.typ == DID_SET then Optional(7, 27, tx.data) else []
    case 10 => Blob(8, 1, tx.account)
    case 11 => if tx.memos != [] then MemoArray(tx.memos) else []
    case _ => []
  }

  // The fields from the k-th on.
  function Fields(tx: Tx, sig: bool, k: nat): seq<byte>
    decreases FIELDS - k
  {
    if k >= FIELDS then [] else Field(tx, sig, k) + Fields(tx, sig, k + 1)
  }

  function InnerList(inner: seq<Tx>): seq<byte> {
    if inner == [] then [ARRAY_END]
    else Header(14, 34) + (Fields(inner[0], false, 0) + ([OBJECT_END] + InnerList(inner[1..])))
  }

  function Bytes(tx: Tx, sig: bool): seq<byte> {
    Fields(tx, sig, 0) + if tx.typ == BATCH then Header(15, 30) + InnerList(tx.inner) else []
  }

  // ----- what is refused -----

  datatype CodecError =
    | FeeTooLarge
    | InnerPays
    | InnerSigned
    | NestedBatch
    | BadPubKey
    | NotSigned
    | DataTooLong
    | BadAccount
    | MemosTooLong
    | BadInnerCount
    | NotInner
    | InnerOnlyInBatch

  function MemoRefusal(memos: seq<Memo>): Option<CodecError> {
    if memos != [] && |MemoArray(memos)| > MAX_MEMOS then Some(MemosTooLong) else None
  }

  // The checks on a transaction's own fields, in order.
  function OwnRefusal(tx: Tx, sig: bool): Option<CodecError> {
    if tx.fee >= FEE_BIT then Some(FeeTooLarge)
    else if IsInner(tx) && tx.fee != 0 then Some(InnerPays)
    else if IsInner(tx) && (tx.pubKey != [] || tx.signature != []) then Some(InnerSigned)
    else if IsInner(tx) && tx.typ == BATCH then Some(NestedBatch)
    else if !IsInner(tx) && |tx.pubKey| != 33 then Some(BadPubKey)
    else if Signed(tx, sig) && tx.signature == [] then Some(NotSigned)
    else if tx.typ == DID_SET && |tx.data| > 256 then Some(DataTooLong)
    else if |tx.account| != 20 then Some(BadAccount)
    else None
  }

  function FieldRefusal(tx: Tx, sig: bool): Option<CodecError> {
    if OwnRefusal(tx, sig).Some? then OwnRefusal(tx, sig) else MemoRefusal(tx.memos)
  }

  function InnerRefusal(inner: seq<Tx>): Option<CodecError> {
    if inner == [] then None
    else if !IsInner(inner[0]) then Some(NotInner)
    else if FieldRefusal(inner[0], false).Some? then FieldRefusal(inner[0], false)
    else if inner[0].inner != [] then Some(InnerOnlyInBatch)
    else InnerRefusal(inner[1..])
  }

  function Refusal(tx: Tx, sig: bool): Option<CodecError> {
    if FieldRefusal(tx, sig).Some? then FieldRefusal(tx, sig)
    else if tx.typ != BATCH then if tx.inner != [] then Some(InnerOnlyInBatch) else None
    else if |tx.inner| < 2 || |tx.inner| > MAX_INNER then Some(BadInnerCount)
    else InnerRefusal(tx.inner)
  }

  function Encoded(tx: Tx, sig: bool): Result<seq<byte>, CodecError> {
    match Refusal(tx, sig)
    case Some(e) => Err(e)
    case None => Ok(Bytes(tx, sig))
  }

  // ----- what is read -----

  function ReadMemoFields(m: Memo, s: seq<byte>): (r: Read<Memo>)
    ensures r.Done? ==> |r.rest| < |s|
    decreases |s|
  {
    if s == [] then Bad
    else if s[0] == OBJECT_END then Done(m, s[1..])
    else
      match ReadVL(s[1..])
      case Bad => Bad
      case Done(v, rest) =>
        if s[0] == 0x7C then ReadMemoFields(m.(typ := v), rest)
        else if s[0] == 0x7D then ReadMemoFields(m.(data := v), rest)
        else if s[0] == 0x7E then ReadMemoFields(m.(format := v), rest)
        else Bad
  }

  function ReadMemos(memos: seq<Memo>, s: seq<byte>): (r: Read<seq<Memo>>)
    ensures r.Done? ==> |r.rest| < |s|
    decreases |s|
  {
    if s == [] then Bad
    else if s[0] == ARRAY_END then Done(memos, s[1..])
    else if s[0] != 0xEA then Bad
    else
      match ReadMemoFields(Memo([], [], []), s[1..])
      case Bad => Bad
      case Done(m, rest) => ReadMemos(memos + [m], rest)
  }

  function ReadNumber(s: seq<byte>, n: nat): (r: Read<nat>)
    ensures r.Done? ==> |r.rest| + n == |s| && r.value < Pow256(n)
  {
    if n > |s| then Bad
    else
      FromBigFits(s[..n]);
      Done(FromBig(s[..n]), s[n..])
  }

  lemma {:induction false} FromBigFits(s: seq<byte>)
    ensures FromBig(s) < Pow256(|s|)
  {
    if s != [] {
      FromBigFits(s[..|s| - 1]);
    }
  }

  function WithNumber(tx: Tx, field: byte, v: u32): Option<Tx> {
    if field == 2 then Some(tx.(flags := v))
    else if field == 4 then Some(tx.(sequence := v))
    else if field == 27 then Some(tx.(lastLedger := v))
    else None
  }

  function WithBlob(tx: Tx, field: byte, v: seq<byte>): Option<Tx> {
    if field == 3 then Some(tx.(pubKey := v))
    else if field == 4 then Some(tx.(signature := v))
    else if field == 5 then Some(tx.(uri := v))
    else if field == 26 then Some(tx.(didDocument := v))
    else if field == 27 then Some(tx.(data := v))
    else None
  }

  // The fee with the bit that marks an XRP amount cleared.
  function Drops(v: u64): u64 {
    if v / FEE_BIT % 2 == 1 then v - FEE_BIT else v
  }

  // One field, stored in tx.
  function ReadField(tx: Tx, s: seq<byte>): (r: Read<Tx>)
    ensures r.Done? ==> |r.rest| < |s|
    decreases |s|, 0
  {
    Powers();
    match ReadHeader(s)
    case Bad => Bad
    case Done((typ, field), rest) =>
      if typ == 1 && field == 2 then
        match ReadNumber(rest, 2)
        case Bad => Bad
        case Done(v, rest') => Done(tx.(typ := v), rest')
      else if typ == 2 then
        match ReadNumber(rest, 4)
        case Bad => Bad
        case Done(v, rest') =>
          var t := WithNumber(tx, field, v);
          if t.Some? then Done(t.value, rest') else Bad
      else if typ == 6 && field == 8 then
        match ReadNumber(rest, 8)
        case Bad => Bad
        case Done(v, rest') => Done(tx.(fee := Drops(v)), rest')
      else if typ == 7 then
        match ReadVL(rest)
        case Bad => Bad
        case Done(v, rest') =>
          var t := WithBlob(tx, field, v);
          if t.Some? then Done(t.value, rest') else Bad
      else if typ == 8 && field == 1 then
        match ReadVL(rest)
        case Bad => Bad
        case Done(v, rest') => Done(tx.(account := v), rest')
      else if typ == 15 && field == 9 then
        match ReadMemos([], rest)
        case Bad => Bad
        case Done(memos, rest') => Done(tx.(memos := memos), rest')
      else if typ == 15 && field == 30 then
        match ReadInner([], rest)
        case Bad => Bad
        case Done(inner, rest') => Done(tx.(inner := inner), rest')
      else Bad
  }

  // At the top level to the end of the input; nested, to the object end marker.
  function ReadObject(tx: Tx, s: seq<byte>, nested: bool): (r: Read<Tx>)
    ensures r.Done? ==> |r.rest| <= |s| && (!nested ==> r.rest == [])
    decreases |s|, 1
  {
    if s == [] then if nested then Bad else Done(tx, [])
    else if nested && s[0] == OBJECT_END then Done(tx, s[1..])
    else
      match ReadField(tx, s)
      case Bad => Bad
      case Done(t, rest) => ReadObject(t, rest, nested)
  }

  function ReadInner(inner: seq<Tx>, s: seq<byte>): (r: Read<seq<Tx>>)
    ensures r.Done? ==> |r.rest| < |s|
    decreases |s|, 0
  {
    if s == [] then Bad
    else if s[0] == ARRAY_END then Done(inner, s[1..])
    else
      match ReadHeader(s)
      case Bad => Bad
      case Done((typ, field), rest) =>
        if typ != 14 || field != 34 then Bad
        else
          match ReadObject(NO_TX, rest, true)
          case Bad => Bad
          case Done(t, rest') => ReadInner(inner + [t], rest')
  }

  function Decoded(b: seq<byte>): Option<Tx> {
    match ReadObject(NO_TX, b, false)
    case Bad => None
    case Done(tx, _) => Some(tx)
  }
}
