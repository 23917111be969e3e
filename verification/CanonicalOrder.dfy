/**
  The order that the transaction format prescribes, by type code and then field code, and what each field carries:
  internal/xrpl/codec/codec.go:1-5 and 66-213. The bytes are taken apart by a reader that knows
  headers and lengths and no transaction.
 */
module CanonicalOrder {
  import opened Common
  import opened Wire
  import opened TxFormat
  import opened TxRoundTrip

  // ----- taking bytes apart -----

  datatype Entry = Entry(typ: byte, field: byte, value: Value)

  datatype Value = Plain(bytes: seq<byte>) | Array(elements: seq<Element>)

  datatype Element = Element(field: byte, entries: seq<Entry>)

  // What a type code says of the length of the value behind it.
  function ReadPlain(typ: byte, s: seq<byte>): (r: Read<seq<byte>>)
    ensures r.Done? ==> |r.rest| <= |s|
  {
    if typ == 1 then Take(s, 2)
    else if typ == 2 then Take(s, 4)
    else if typ == 6 then Take(s, 8)
    else if typ == 7 || typ == 8 then ReadVL(s)
    else Bad
  }

  function ReadEntry(s: seq<byte>): (r: Read<Entry>)
    ensures r.Done? ==> |r.rest| < |s|
    decreases |s|, 0
  {
    match ReadHeader(s)
    case Bad => Bad
    case Done((typ, field), rest) =>
      if typ == 15 then
        match ReadElements(rest)
        case Bad => Bad
        case Done(elements, rest') => Done(Entry(typ, field, Array(elements)), rest')
      else
        match ReadPlain(typ, rest)
        case Bad => Bad
        case Done(v, rest') => Done(Entry(typ, field, Plain(v)), rest')
  }

  // At the top level to the end of the input; nested, to the object end marker.
  function ReadEntries(s: seq<byte>, nested: bool): (r: Read<seq<Entry>>)
    ensures r.Done? ==> |r.rest| <= |s|
    decreases |s|, 1
  {
    if s == [] then if nested then Bad else Done([], [])
    else if nested && s[0] == 0xE1 then Done([], s[1..])
    else
      match ReadEntry(s)
      case Bad => Bad
      case Done(e, rest) => Prepended(e, ReadEntries(rest, nested))
  }

  function Prepended<T>(x: T, r: Read<seq<T>>): Read<seq<T>> {
    if r.Done? then Done([x] + r.value, r.rest) else Bad
  }

  // Objects to the array end marker.
  function ReadElements(s: seq<byte>): (r: Read<seq<Element>>)
    ensures r.Done? ==> |r.rest| < |s|
    decreases |s|, 0
  {
    if s == [] then Bad
    else if s[0] == 0xF1 then Done([], s[1..])
    else
      match ReadHeader(s)
      case Bad => Bad
      case Done((typ, field), rest) =>
        if typ != 14 then Bad
        else
          match ReadEntries(rest, true)
          case Bad => Bad
          case Done(entries, rest') => Prepended(Element(field, entries), ReadElements(rest'))
  }

  // ----- what is there -----

  function When(there: bool, e: Entry): seq<Entry> {
    if there then [e] else []
  }

  // The fields of a memo that are not empty.
  function MemoEntries(m: Memo): seq<Entry> {
    When(m.typ != [], Entry(7, 12, Plain(m.typ))) +
    When(m.data != [], Entry(7, 13, Plain(m.data))) +
    When(m.format != [], Entry(7, 14, Plain(m.format)))
  }

  function MemoElements(memos: seq<Memo>): seq<Element> {
    seq(|memos|, i requires 0 <= i < |memos| => Element(10, MemoEntries(memos[i])))
  }

  // Type, flags, sequence, last ledger and fee. An XRP amount has bit 62 set.
  function NumberEntries(tx: Tx): seq<Entry>
    requires tx.fee < FEE_BIT
  {
    [Entry(1, 2, Plain(Two(tx.typ)))] +
    When(tx.flags != 0, Entry(2, 2, Plain(Four(tx.flags)))) +
    [Entry(2, 4, Plain(Four(tx.sequence)))] +
    When(tx.lastLedger != 0, Entry(2, 27, Plain(Four(tx.lastLedger)))) +
    [Entry(6, 8, Plain(Eight(0x4000000000000000 + tx.fee)))]
  }

  function KeyEntries(tx: Tx, sig: bool): seq<Entry> {
    [Entry(7, 3, Plain(tx.pubKey))] + When(sig && !IsInner(tx), Entry(7, 4, Plain(tx.signature)))
  }

  // The fields that only a DIDSet has.
  function DidEntries(tx: Tx): seq<Entry> {
    When(tx.typ == 49 && tx.uri != [], Entry(7, 5, Plain(tx.uri))) +
    When(tx.typ == 49 && tx.didDocument != [], Entry(7, 26, Plain(tx.didDocument))) +
    When(tx.typ == 49 && tx.data != [], Entry(7, 27, Plain(tx.data)))
  }

  function BlobEntries(tx: Tx, sig: bool): seq<Entry> {
    KeyEntries(tx, sig) + DidEntries(tx) + [Entry(8, 1, Plain(tx.account))]
  }

  function OwnEntries(tx: Tx, sig: bool): seq<Entry>
    requires tx.fee < FEE_BIT
  {
    NumberEntries(tx) + BlobEntries(tx, sig) + When(tx.memos != [], Entry(15, 9, Array(MemoElements(tx.memos))))
  }

  function InnerElements(inner: seq<Tx>): seq<Element>
    requires forall i | 0 <= i < |inner| :: inner[i].fee < FEE_BIT
  {
    seq(|inner|, i requires 0 <= i < |inner| => Element(34, OwnEntries(inner[i], false)))
  }

  function Entries(tx: Tx, sig: bool): seq<Entry>
    requires tx.fee < FEE_BIT && forall i | 0 <= i < |tx.inner| :: tx.inner[i].fee < FEE_BIT
  {
    OwnEntries(tx, sig) + When(tx.typ == 71, Entry(15, 30, Array(InnerElements(tx.inner))))
  }

  // ----- the order -----

  predicate Below(a: Entry, b: Entry) {
    a.typ < b.typ || (a.typ == b.typ && a.field < b.field)
  }

  // Strictly ascending by type code, then field code.
  ghost predicate Ascends(es: seq<Entry>) {
    forall i, j | 0 <= i < j < |es| :: Below(es[i], es[j])
  }

  // At every level: in the transaction, in each memo and in each inner transaction.
  ghost predicate AscendsThroughout(es: seq<Entry>) {
    Ascends(es) && forall i | 0 <= i < |es| :: AscendsInside(es[i])
  }

  ghost predicate AscendsInside(e: Entry) {
    e.value.Array? ==>
      forall j | 0 <= j < |e.value.elements| ::
        && Ascends(e.value.elements[j].entries)
        && forall k | 0 <= k < |e.value.elements[j].entries| :: AscendsInside(e.value.elements[j].entries[k])
  }

  ghost predicate AllBelow(es: seq<Entry>, e: Entry) {
    forall i | 0 <= i < |es| :: Below(es[i], e)
  }

  // One more entry, or none, above all those before it.
  lemma AscendsMore(es: seq<Entry>, there: bool, e: Entry, next: Entry)
    requires Ascends(es) && AllBelow(es, e) && Below(e, next)
    ensures Ascends(es + When(there, e)) && AllBelow(es + When(there, e), next)
  {
  }

  // Another entry, or none, that ascends inside too.
  lemma ThroughoutMore(es: seq<Entry>, there: bool, e: Entry, next: Entry)
    requires AscendsThroughout(es) && AllBelow(es, e) && (there ==> AscendsInside(e)) && Below(e, next)
    ensures AscendsThroughout(es + When(there, e)) && AllBelow(es + When(there, e), next)
  {
    AscendsMore(es, there, e, next);
    hide Ascends, Below, AscendsInside;
  }

  lemma PlainMore(es: seq<Entry>, there: bool, typ: byte, field: byte, v: seq<byte>, next: Entry)
    requires AscendsThroughout(es) && AllBelow(es, Entry(typ, field, Plain(v))) && Below(Entry(typ, field, Plain(v)), next)
    ensures AscendsThroughout(es + When(there, Entry(typ, field, Plain(v))))
    ensures AllBelow(es + When(there, Entry(typ, field, Plain(v))), next)
  {
    assert AscendsInside(Entry(typ, field, Plain(v)));
    hide AscendsThroughout, AllBelow, Below;
    ThroughoutMore(es, there, Entry(typ, field, Plain(v)), next);
  }

  lemma NothingAscends(e: Entry)
    ensures AscendsThroughout([]) && AllBelow([], e)
  {
  }

  // Where the next entry goes.
  function At(typ: byte, field: byte): Entry {
    Entry(typ, field, Plain([]))
  }

  lemma BelowByCode(es: seq<Entry>, a: Entry, b: Entry)
    requires AllBelow(es, a) && a.typ == b.typ && a.field == b.field
    ensures AllBelow(es, b)
  {
  }

  lemma PlainNext(es: seq<Entry>, there: bool, typ: byte, field: byte, v: seq<byte>, typ': byte, field': byte)
    requires AscendsThroughout(es) && AllBelow(es, At(typ, field)) && (typ < typ' || (typ == typ' && field < field'))
    ensures AscendsThroughout(es + When(there, Entry(typ, field, Plain(v))))
    ensures AllBelow(es + When(there, Entry(typ, field, Plain(v))), At(typ', field'))
  {
    BelowByCode(es, At(typ, field), Entry(typ, field, Plain(v)));
    hide AscendsThroughout, AllBelow, When;
    PlainMore(es, there, typ, field, v, At(typ', field'));
  }

  lemma MemoAscends(m: Memo)
    ensures AscendsThroughout(MemoEntries(m))
  {
    hide AscendsThroughout, AllBelow, When;
    NothingAscends(At(7, 12));
    var es := [] + When(m.typ != [], Entry(7, 12, Plain(m.typ)));
    PlainNext([], m.typ != [], 7, 12, m.typ, 7, 13);
    PlainNext(es, m.data != [], 7, 13, m.data, 7, 14);
    PlainNext(es + When(m.data != [], Entry(7, 13, Plain(m.data))), m.format != [], 7, 14, m.format, 8, 0);
    assert es == When(m.typ != [], Entry(7, 12, Plain(m.typ)));
  }

  lemma NumbersAscend(tx: Tx)
    requires tx.fee < FEE_BIT
    ensures AscendsThroughout(NumberEntries(tx)) && AllBelow(NumberEntries(tx), At(7, 3))
  {
    hide AscendsThroughout, AllBelow;
    NothingAscends(At(1, 2));
    var e0 := [Entry(1, 2, Plain(Two(tx.typ)))];
    var e1 := e0 + When(tx.flags != 0, Entry(2, 2, Plain(Four(tx.flags))));
    var e2 := e1 + [Entry(2, 4, Plain(Four(tx.sequence)))];
    var e3 := e2 + When(tx.lastLedger != 0, Entry(2, 27, Plain(Four(tx.lastLedger))));
    PlainNext([], true, 1, 2, Two(tx.typ), 2, 2);
    assert [] + When(true, Entry(1, 2, Plain(Two(tx.typ)))) == e0;
    PlainNext(e0, tx.flags != 0, 2, 2, Four(tx.flags), 2, 4);
    PlainNext(e1, true, 2, 4, Four(tx.sequence), 2, 27);
    PlainNext(e2, tx.lastLedger != 0, 2, 27, Four(tx.lastLedger), 6, 8);
    PlainNext(e3, true, 6, 8, Eight(0x4000000000000000 + tx.fee), 7, 3);
  }

  // The keys after any entries that are below them, and so on.
  lemma KeysAscend(es: seq<Entry>, tx: Tx, sig: bool)
    requires AscendsThroughout(es) && AllBelow(es, At(7, 3))
    ensures AscendsThroughout(es + KeyEntries(tx, sig)) && AllBelow(es + KeyEntries(tx, sig), At(7, 5))
  {
    hide AscendsThroughout, AllBelow, IsInner;
    var e0 := es + [Entry(7, 3, Plain(tx.pubKey))];
    PlainNext(es, true, 7, 3, tx.pubKey, 7, 4);
    PlainNext(e0, sig && !IsInner(tx), 7, 4, tx.signature, 7, 5);
    assert e0 + When(sig && !IsInner(tx), Entry(7, 4, Plain(tx.signature))) == es + KeyEntries(tx, sig);
  }

  lemma DidAscends(es: seq<Entry>, tx: Tx)
    requires AscendsThroughout(es) && AllBelow(es, At(7, 5))
    ensures AscendsThroughout(es + DidEntries(tx)) && AllBelow(es + DidEntries(tx), At(8, 1))
  {
    hide AscendsThroughout, AllBelow, When;
    var did := tx.typ == 49;
    var a, b, c := When(did && tx.uri != [], Entry(7, 5, Plain(tx.uri))),
                   When(did && tx.didDocument != [], Entry(7, 26, Plain(tx.didDocument))),
                   When(did && tx.data != [], Entry(7, 27, Plain(tx.data)));
    PlainNext(es, did && tx.uri != [], 7, 5, tx.uri, 7, 26);
    PlainNext(es + a, did && tx.didDocument != [], 7, 26, tx.didDocument, 7, 27);
    PlainNext(es + a + b, did && tx.data != [], 7, 27, tx.data, 8, 1);
    assert es + a + b + c == es + (a + b + c);
  }

  lemma BlobsAscend(es: seq<Entry>, tx: Tx, sig: bool)
    requires AscendsThroughout(es) && AllBelow(es, At(7, 3))
    ensures AscendsThroughout(es + BlobEntries(tx, sig)) && AllBelow(es + BlobEntries(tx, sig), At(15, 9))
  {
    hide *;
    var keys, did := KeyEntries(tx, sig), DidEntries(tx);
    KeysAscend(es, tx, sig);
    DidAscends(es + keys, tx);
    PlainNext(es + keys + did, true, 8, 1, tx.account, 15, 9);
    BlobsJoin(es, tx, sig);
  }

  lemma BlobsJoin(es: seq<Entry>, tx: Tx, sig: bool)
    ensures es + KeyEntries(tx, sig) + DidEntries(tx) + When(true, Entry(8, 1, Plain(tx.account))) == es + BlobEntries(tx, sig)
  {
    hide KeyEntries, DidEntries;
  }

  lemma MemosAscend(memos: seq<Memo>)
    ensures AscendsInside(Entry(15, 9, Array(MemoElements(memos))))
  {
    forall j | 0 <= j < |memos|
      ensures AscendsThroughout(MemoEntries(memos[j]))
    {
      MemoAscends(memos[j]);
    }
    hide MemoEntries, Ascends;
  }

  lemma OwnAscend(tx: Tx, sig: bool)
    requires tx.fee < FEE_BIT
    ensures AscendsThroughout(OwnEntries(tx, sig)) && AllBelow(OwnEntries(tx, sig), At(15, 30))
  {
    var memos := Entry(15, 9, Array(MemoElements(tx.memos)));
    NumbersAscend(tx);
    BlobsAscend(NumberEntries(tx), tx, sig);
    MemosAscend(tx.memos);
    BelowByCode(NumberEntries(tx) + BlobEntries(tx, sig), At(15, 9), memos);
    hide AscendsThroughout, AllBelow, AscendsInside, NumberEntries, BlobEntries, When;
    ThroughoutMore(NumberEntries(tx) + BlobEntries(tx, sig), tx.memos != [], memos, At(15, 30));
  }

  /** The entries of a transaction ascend, its memos' and its inner transactions' too. */
  lemma EntriesAscend(tx: Tx, sig: bool)
    requires tx.fee < FEE_BIT && forall i | 0 <= i < |tx.inner| :: tx.inner[i].fee < FEE_BIT
    ensures AscendsThroughout(Entries(tx, sig))
  {
    var inner := Entry(15, 30, Array(InnerElements(tx.inner)));
    OwnAscend(tx, sig);
    forall j | 0 <= j < |tx.inner|
      ensures AscendsThroughout(OwnEntries(tx.inner[j], false))
    {
      OwnAscend(tx.inner[j], false);
    }
    hide OwnEntries, Ascends, When;
    assert AscendsInside(inner);
    BelowByCode(OwnEntries(tx, sig), At(15, 30), inner);
    hide AscendsThroughout, AllBelow, AscendsInside;
    ThroughoutMore(OwnEntries(tx, sig), tx.typ == 71, inner, At(16, 0));
  }

  // ----- reading -----

  function Appended<T>(xs: seq<T>, r: Read<seq<T>>): Read<seq<T>> {
    if r.Done? then Done(xs + r.value, r.rest) else Bad
  }

  // What is read of bytes that are one entry, or none.
  lemma EntryRead(there: bool, e: Entry, bytes: seq<byte>, rest: seq<byte>, nested: bool)
    requires !there ==> bytes == []
    requires there ==> bytes != [] && bytes[0] != 0xE1 && ReadEntry(bytes + rest) == Done(e, rest)
    ensures ReadEntries(bytes + rest, nested) == Appended(When(there, e), ReadEntries(rest, nested))
  {
    hide ReadEntry;
    if !there {
      assert bytes + rest == rest;
      if ReadEntries(rest, nested).Done? {
        assert [] + ReadEntries(rest, nested).value == ReadEntries(rest, nested).value;
      }
    }
  }

  lemma HeaderStarts(typ: byte, field: byte)
    requires 0 < typ < 14 || typ == 15
    ensures Header(typ, field)[0] != 0xE1
  {
  }

  lemma PlainRead(typ: byte, field: byte, body: seq<byte>, v: seq<byte>, rest: seq<byte>)
    requires 0 < typ < 14 && field > 0 && ReadPlain(typ, body + rest) == Done(v, rest)
    ensures ReadEntry(Header(typ, field) + body + rest) == Done(Entry(typ, field, Plain(v)), rest)
  {
    hide Header, ReadPlain, ReadHeader, ReadElements;
    assert Header(typ, field) + body + rest == Header(typ, field) + (body + rest);
    HeaderRoundTrip(typ, field, body + rest);
  }

  lemma NumberRead(there: bool, typ: byte, field: byte, v: nat, n: nat, bytes: seq<byte>, rest: seq<byte>, nested: bool)
    requires field > 0 && n == (if typ == 1 then 2 else if typ == 2 then 4 else 8) && (typ == 1 || typ == 2 || typ == 6)
    requires bytes == Big(v, n)
    ensures ReadEntries((if there then Number(typ, field, v, n) else []) + rest, nested) ==
            Appended(When(there, Entry(typ, field, Plain(bytes))), ReadEntries(rest, nested))
  {
    var f := if there then Number(typ, field, v, n) else [];
    if there {
      assert (bytes + rest)[..n] == bytes && (bytes + rest)[n..] == rest;
      PlainRead(typ, field, bytes, bytes, rest);
      HeaderStarts(typ, field);
      assert f == Header(typ, field) + bytes;
    }
    hide Number, Big, Header, ReadEntry, ReadEntries, Appended, When;
    EntryRead(there, Entry(typ, field, Plain(bytes)), f, rest, nested);
  }

  lemma BlobRead(there: bool, typ: byte, field: byte, v: seq<byte>, rest: seq<byte>, nested: bool)
    requires 7 <= typ <= 8 && field > 0 && |v| <= MAX_VL
    ensures ReadEntries((if there then Blob(typ, field, v) else []) + rest, nested) ==
            Appended(When(there, Entry(typ, field, Plain(v))), ReadEntries(rest, nested))
  {
    var f := if there then Blob(typ, field, v) else [];
    if there {
      VLRoundTrip(v, rest);
      assert f == Header(typ, field) + VL(v);
      hide VL, ReadVL;
      PlainRead(typ, field, VL(v), v, rest);
      HeaderStarts(typ, field);
    }
    hide Blob, VL, Header, ReadEntry, ReadEntries, Appended, When;
    EntryRead(there, Entry(typ, field, Plain(v)), f, rest, nested);
  }

  lemma OptionalRead(typ: byte, field: byte, v: seq<byte>, rest: seq<byte>, nested: bool)
    requires 7 <= typ <= 8 && field > 0 && |v| <= MAX_VL
    ensures ReadEntries(Optional(typ, field, v) + rest, nested) ==
            Appended(When(v != [], Entry(typ, field, Plain(v))), ReadEntries(rest, nested))
  {
    hide Blob, ReadEntries, Appended, When;
    BlobRead(v != [], typ, field, v, rest, nested);
  }

  lemma ObjectEnds(rest: seq<byte>)
    ensures ReadEntries([OBJECT_END] + rest, true) == Done([], rest)
  {
    assert ([OBJECT_END] + rest)[1..] == rest;
  }

  lemma AppendedTwice<T>(a: seq<T>, b: seq<T>, r: Read<seq<T>>)
    ensures Appended(a, Appended(b, r)) == Appended(a + b, r)
  {
    if r.Done? {
      assert a + (b + r.value) == a + b + r.value;
    }
  }

  lemma MemoRead(m: Memo, rest: seq<byte>)
    requires MemoFits(m)
    ensures ReadEntries(MemoFields(m) + rest, true) == Done(MemoEntries(m), rest)
  {
    var end := [OBJECT_END] + rest;
    MemoSplit(m, rest);
    hide *;
    var b, c := Optional(7, 13, m.data), Optional(7, 14, m.format);
    var y, z := When(m.data != [], Entry(7, 13, Plain(m.data))), When(m.format != [], Entry(7, 14, Plain(m.format)));
    OptionalRead(7, 12, m.typ, b + (c + end), true);
    OptionalRead(7, 13, m.data, c + end, true);
    OptionalRead(7, 14, m.format, end, true);
    ObjectEnds(rest);
    AppendedTwice(y, z, ReadEntries(end, true));
    AppendedTwice(When(m.typ != [], Entry(7, 12, Plain(m.typ))), y + z, ReadEntries(end, true));
    AppendedDone(MemoEntries(m), [], rest);
    assert MemoEntries(m) + [] == MemoEntries(m);
  }

  lemma MemoSplit(m: Memo, rest: seq<byte>)
    ensures MemoFields(m) + rest ==
            Optional(7, 12, m.typ) + (Optional(7, 13, m.data) + (Optional(7, 14, m.format) + ([OBJECT_END] + rest)))
    ensures MemoEntries(m) ==
            When(m.typ != [], Entry(7, 12, Plain(m.typ))) +
            (When(m.data != [], Entry(7, 13, Plain(m.data))) + When(m.format != [], Entry(7, 14, Plain(m.format))))
    ensures |m.typ| <= MAX_VL && |m.data| <= MAX_VL && |m.format| <= MAX_VL <==> MemoFits(m)
  {
    hide Optional, When;
  }

  lemma AppendedDone<T>(a: seq<T>, b: seq<T>, rest: seq<byte>)
    ensures Appended(a, Done(b, rest)) == Done(a + b, rest)
  {
  }

  lemma PrependedDone<T>(x: T, xs: seq<T>, rest: seq<byte>)
    ensures Prepended(x, Done(xs, rest)) == Done([x] + xs, rest)
  {
  }

  // One object of an array, and the ones behind it.
  lemma ElementRead(field: byte, body: seq<byte>, entries: seq<Entry>, rest: seq<byte>)
    requires field > 0 && ReadEntries(body + rest, true) == Done(entries, rest)
    ensures ReadElements(Header(14, field) + (body + rest)) == Prepended(Element(field, entries), ReadElements(rest))
  {
    assert (Header(14, field) + (body + rest))[0] != 0xF1;
    hide Header, ReadHeader, ReadEntries;
    HeaderRoundTrip(14, field, body + rest);
  }

  lemma ArrayEnds(rest: seq<byte>)
    ensures ReadElements([ARRAY_END] + rest) == Done([], rest)
  {
    assert ([ARRAY_END] + rest)[1..] == rest;
  }

  lemma {:induction false} MemosRead(memos: seq<Memo>, rest: seq<byte>)
    requires forall i | 0 <= i < |memos| :: MemoFits(memos[i])
    ensures ReadElements(MemoList(memos) + rest) == Done(MemoElements(memos), rest)
  {
    if memos == [] {
      ArrayEnds(rest);
    } else {
      var m, after := memos[0], MemoList(memos[1..]) + rest;
      assert MemoList(memos) + rest == Header(14, 10) + (MemoFields(m) + after);
      assert MemoElements(memos) == [Element(10, MemoEntries(m))] + MemoElements(memos[1..]);
      hide MemoFields, MemoEntries, ReadElements, ReadEntries, Header, MemoFits, MemoElements;
      MemoRead(m, after);
      ElementRead(10, MemoFields(m), MemoEntries(m), after);
      MemosRead(memos[1..], rest);
    }
  }

  lemma ArrayEntry(field: byte, list: seq<byte>, elements: seq<Element>, rest: seq<byte>)
    requires field > 0 && ReadElements(list + rest) == Done(elements, rest)
    ensures ReadEntry(Header(15, field) + list + rest) == Done(Entry(15, field, Array(elements)), rest)
  {
    assert Header(15, field) + list + rest == Header(15, field) + (list + rest);
    hide Header, ReadHeader, ReadElements, ReadPlain;
    HeaderRoundTrip(15, field, list + rest);
  }

  lemma ArrayRead(there: bool, field: byte, list: seq<byte>, elements: seq<Element>, rest: seq<byte>, nested: bool)
    requires field > 0 && (there ==> ReadElements(list + rest) == Done(elements, rest))
    ensures ReadEntries((if there then Header(15, field) + list else []) + rest, nested) ==
            Appended(When(there, Entry(15, field, Array(elements))), ReadEntries(rest, nested))
  {
    hide *;
    var f := if there then Header(15, field) + list else [];
    if there {
      HeaderStarts(15, field);
      ArrayEntry(field, list, elements, rest);
    }
    EntryRead(there, Entry(15, field, Array(elements)), f, rest, nested);
  }

  // ----- a whole transaction -----

  // What field k of a transaction reads as.
  function FieldEntry(tx: Tx, sig: bool, k: nat): seq<Entry>
    requires tx.fee < FEE_BIT
  {
    var did := tx.typ == 49;
    match k
    case 0 => [Entry(1, 2, Plain(Two(tx.typ)))]
    case 1 => When(tx.flags != 0, Entry(2, 2, Plain(Four(tx.flags))))
    case 2 => [Entry(2, 4, Plain(Four(tx.sequence)))]
    case 3 => When(tx.lastLedger != 0, Entry(2, 27, Plain(Four(tx.lastLedger))))
    case 4 => [Entry(6, 8, Plain(Eight(0x4000000000000000 + tx.fee)))]
    case 5 => [Entry(7, 3, Plain(tx.pubKey))]
    case 6 => When(sig && !IsInner(tx), Entry(7, 4, Plain(tx.signature)))
    case 7 => When(did && tx.uri != [], Entry(7, 5, Plain(tx.uri)))
    case 8 => When(did && tx.didDocument != [], Entry(7, 26, Plain(tx.didDocument)))
    case 9 => When(did && tx.data != [], Entry(7, 27, Plain(tx.data)))
    case 10 => [Entry(8, 1, Plain(tx.account))]
    case 11 => When(tx.memos != [], Entry(15, 9, Array(MemoElements(tx.memos))))
    case _ => []
  }

  function EntriesFrom(tx: Tx, sig: bool, k: nat): seq<Entry>
    requires tx.fee < FEE_BIT
    decreases FIELDS - k
  {
    if k >= FIELDS then [] else FieldEntry(tx, sig, k) + EntriesFrom(tx, sig, k + 1)
  }

  lemma NumberFieldEntry(tx: Tx, sig: bool, k: nat, rest: seq<byte>, nested: bool)
    requires tx.fee < FEE_BIT && k <= 4
    ensures ReadEntries(Field(tx, sig, k) + rest, nested) == Appended(FieldEntry(tx, sig, k), ReadEntries(rest, nested))
  {
    hide Number, ReadEntries, Appended, Big, Two, Four, Eight;
    if k == 0 {
      BigIsTwo(tx.typ);
      NumberRead(true, 1, 2, tx.typ, 2, Two(tx.typ), rest, nested);
    } else if k == 1 {
      BigIsFour(tx.flags);
      NumberRead(tx.flags != 0, 2, 2, tx.flags, 4, Four(tx.flags), rest, nested);
    } else if k == 2 {
      BigIsFour(tx.sequence);
      NumberRead(true, 2, 4, tx.sequence, 4, Four(tx.sequence), rest, nested);
    } else if k == 3 {
      BigIsFour(tx.lastLedger);
      NumberRead(tx.lastLedger != 0, 2, 27, tx.lastLedger, 4, Four(tx.lastLedger), rest, nested);
    } else {
      BigIsEight(FEE_BIT + tx.fee);
      NumberRead(true, 6, 8, FEE_BIT + tx.fee, 8, Eight(FEE_BIT + tx.fee), rest, nested);
    }
  }

  lemma BlobFieldEntry(tx: Tx, sig: bool, k: nat, rest: seq<byte>, nested: bool)
    requires FieldRefusal(tx, sig).None? && Measured(tx) && 5 <= k <= 10
    ensures ReadEntries(Field(tx, sig, k) + rest, nested) == Appended(FieldEntry(tx, sig, k), ReadEntries(rest, nested))
  {
    hide Blob, ReadEntries, Appended, MemoRefusal;
    if k == 5 {
      BlobRead(true, 7, 3, tx.pubKey, rest, nested);
    } else if k == 6 {
      BlobRead(Signed(tx, sig), 7, 4, tx.signature, rest, nested);
    } else if k == 10 {
      BlobRead(true, 8, 1, tx.account, rest, nested);
    } else if k == 7 {
      BlobRead(tx.typ == 49 && tx.uri != [], 7, 5, tx.uri, rest, nested);
    } else if k == 8 {
      BlobRead(tx.typ == 49 && tx.didDocument != [], 7, 26, tx.didDocument, rest, nested);
    } else if tx.typ == 49 {
      BlobRead(tx.data != [], 7, 27, tx.data, rest, nested);
    } else {
      BlobRead(false, 7, 27, [], rest, nested);
    }
  }

  lemma MemoFieldEntry(tx: Tx, sig: bool, rest: seq<byte>, nested: bool)
    requires MemoRefusal(tx.memos).None? && tx.fee < FEE_BIT
    ensures ReadEntries(Field(tx, sig, 11) + rest, nested) == Appended(FieldEntry(tx, sig, 11), ReadEntries(rest, nested))
  {
    if tx.memos != [] {
      MemosFit(tx.memos);
      MemosRead(tx.memos, rest);
    }
    MemoFieldIs(tx, sig);
    hide *;
    ArrayRead(tx.memos != [], 9, MemoList(tx.memos), MemoElements(tx.memos), rest, nested);
  }

  lemma MemoFieldIs(tx: Tx, sig: bool)
    requires tx.fee < FEE_BIT
    ensures Field(tx, sig, 11) == if tx.memos != [] then Header(15, 9) + MemoList(tx.memos) else []
    ensures FieldEntry(tx, sig, 11) == When(tx.memos != [], Entry(15, 9, Array(MemoElements(tx.memos))))
  {
    hide Header, MemoList, When, MemoElements;
  }

  // The entry of field k, whichever it is.
  lemma FieldRead(tx: Tx, sig: bool, k: nat, rest: seq<byte>, nested: bool)
    requires FieldRefusal(tx, sig).None? && Measured(tx) && k < FIELDS && tx.fee < FEE_BIT
    ensures ReadEntries(Field(tx, sig, k) + rest, nested) == Appended(FieldEntry(tx, sig, k), ReadEntries(rest, nested))
  {
    assert MemoRefusal(tx.memos).None?;
    hide *;
    if k <= 4 {
      NumberFieldEntry(tx, sig, k, rest, nested);
    } else if k <= 10 {
      BlobFieldEntry(tx, sig, k, rest, nested);
    } else {
      MemoFieldEntry(tx, sig, rest, nested);
    }
  }

  lemma FieldsSplit(tx: Tx, sig: bool, k: nat, rest: seq<byte>)
    requires k < FIELDS
    ensures Fields(tx, sig, k) + rest == Field(tx, sig, k) + (Fields(tx, sig, k + 1) + rest)
    ensures tx.fee < FEE_BIT ==> EntriesFrom(tx, sig, k) == FieldEntry(tx, sig, k) + EntriesFrom(tx, sig, k + 1)
  {
    hide Field, FieldEntry;
  }

  lemma FieldsEnd(tx: Tx, sig: bool, rest: seq<byte>, nested: bool)
    requires tx.fee < FEE_BIT
    ensures ReadEntries(Fields(tx, sig, FIELDS) + rest, nested) == Appended(EntriesFrom(tx, sig, FIELDS), ReadEntries(rest, nested))
  {
    hide ReadEntries;
    assert Fields(tx, sig, FIELDS) + rest == rest;
    var r := ReadEntries(rest, nested);
    assert r.Done? ==> [] + r.value == r.value;
  }

  lemma {:induction false} FieldsRead(tx: Tx, sig: bool, k: nat, rest: seq<byte>, nested: bool)
    requires FieldRefusal(tx, sig).None? && Measured(tx) && k <= FIELDS && tx.fee < FEE_BIT
    ensures ReadEntries(Fields(tx, sig, k) + rest, nested) == Appended(EntriesFrom(tx, sig, k), ReadEntries(rest, nested))
    decreases FIELDS - k
  {
    hide *;
    if k == FIELDS {
      FieldsEnd(tx, sig, rest, nested);
    } else {
      FieldsSplit(tx, sig, k, rest);
      FieldRead(tx, sig, k, Fields(tx, sig, k + 1) + rest, nested);
      FieldsRead(tx, sig, k + 1, rest, nested);
      AppendedTwice(FieldEntry(tx, sig, k), EntriesFrom(tx, sig, k + 1), ReadEntries(rest, nested));
    }
  }

  lemma FieldsOn(tx: Tx, sig: bool, k: nat)
    requires k < FIELDS && tx.fee < FEE_BIT
    ensures EntriesFrom(tx, sig, k) == FieldEntry(tx, sig, k) + EntriesFrom(tx, sig, k + 1)
  {
    hide FieldEntry;
  }

  lemma NumberFields(tx: Tx, sig: bool)
    requires tx.fee < FEE_BIT
    ensures FieldEntry(tx, sig, 0) + (FieldEntry(tx, sig, 1) + (FieldEntry(tx, sig, 2) + (FieldEntry(tx, sig, 3) + FieldEntry(tx, sig, 4)))) ==
            NumberEntries(tx)
  {
    hide Two, Four, Eight, When;
    FiveJoin(FieldEntry(tx, sig, 0), FieldEntry(tx, sig, 1), FieldEntry(tx, sig, 2), FieldEntry(tx, sig, 3), FieldEntry(tx, sig, 4));
  }

  lemma BlobFields(tx: Tx, sig: bool)
    requires tx.fee < FEE_BIT
    ensures FieldEntry(tx, sig, 5) + (FieldEntry(tx, sig, 6) + (FieldEntry(tx, sig, 7) + (FieldEntry(tx, sig, 8) +
            (FieldEntry(tx, sig, 9) + FieldEntry(tx, sig, 10))))) == BlobEntries(tx, sig)
  {
    hide When, IsInner;
    SixJoin(FieldEntry(tx, sig, 5), FieldEntry(tx, sig, 6), FieldEntry(tx, sig, 7), FieldEntry(tx, sig, 8), FieldEntry(tx, sig, 9),
            FieldEntry(tx, sig, 10));
  }

  lemma FiveJoin(a: seq<Entry>, b: seq<Entry>, c: seq<Entry>, d: seq<Entry>, e: seq<Entry>)
    ensures a + (b + (c + (d + e))) == a + b + c + d + e
  {
  }

  lemma SixJoin(a: seq<Entry>, b: seq<Entry>, c: seq<Entry>, d: seq<Entry>, e: seq<Entry>, f: seq<Entry>)
    ensures a + (b + (c + (d + (e + f)))) == (a + b) + (c + d + e) + f
  {
  }

  lemma FiveMore(a: seq<Entry>, b: seq<Entry>, c: seq<Entry>, d: seq<Entry>, e: seq<Entry>, more: seq<Entry>)
    ensures a + (b + (c + (d + (e + more)))) == a + (b + (c + (d + e))) + more
  {
  }

  lemma SixMore(a: seq<Entry>, b: seq<Entry>, c: seq<Entry>, d: seq<Entry>, e: seq<Entry>, f: seq<Entry>, more: seq<Entry>)
    ensures a + (b + (c + (d + (e + (f + more))))) == a + (b + (c + (d + (e + f)))) + more
  {
  }

  lemma FirstFive(tx: Tx, sig: bool)
    requires tx.fee < FEE_BIT
    ensures EntriesFrom(tx, sig, 0) == NumberEntries(tx) + EntriesFrom(tx, sig, 5)
  {
    hide FieldEntry, EntriesFrom, NumberEntries;
    FieldsOn(tx, sig, 0);
    FieldsOn(tx, sig, 1);
    FieldsOn(tx, sig, 2);
    FieldsOn(tx, sig, 3);
    FieldsOn(tx, sig, 4);
    NumberFields(tx, sig);
    FiveMore(FieldEntry(tx, sig, 0), FieldEntry(tx, sig, 1), FieldEntry(tx, sig, 2), FieldEntry(tx, sig, 3), FieldEntry(tx, sig, 4),
             EntriesFrom(tx, sig, 5));
  }

  lemma NextSix(tx: Tx, sig: bool)
    requires tx.fee < FEE_BIT
    ensures EntriesFrom(tx, sig, 5) == BlobEntries(tx, sig) + EntriesFrom(tx, sig, 11)
  {
    hide FieldEntry, EntriesFrom, BlobEntries;
    FieldsOn(tx, sig, 5);
    FieldsOn(tx, sig, 6);
    FieldsOn(tx, sig, 7);
    FieldsOn(tx, sig, 8);
    FieldsOn(tx, sig, 9);
    FieldsOn(tx, sig, 10);
    BlobFields(tx, sig);
    SixMore(FieldEntry(tx, sig, 5), FieldEntry(tx, sig, 6), FieldEntry(tx, sig, 7), FieldEntry(tx, sig, 8), FieldEntry(tx, sig, 9),
            FieldEntry(tx, sig, 10), EntriesFrom(tx, sig, 11));
  }

  lemma LastOne(tx: Tx, sig: bool)
    requires tx.fee < FEE_BIT
    ensures EntriesFrom(tx, sig, 11) == When(tx.memos != [], Entry(15, 9, Array(MemoElements(tx.memos))))
  {
    MemoFieldIs(tx, sig);
    hide FieldEntry, When, MemoElements;
    assert EntriesFrom(tx, sig, 12) == [];
  }

  lemma AllFields(tx: Tx, sig: bool)
    requires tx.fee < FEE_BIT
    ensures EntriesFrom(tx, sig, 0) == OwnEntries(tx, sig)
  {
    hide EntriesFrom, NumberEntries, BlobEntries, When, MemoElements;
    FirstFive(tx, sig);
    NextSix(tx, sig);
    LastOne(tx, sig);
  }

  // ----- inner transactions -----

  lemma FeeFits(tx: Tx, sig: bool)
    requires FieldRefusal(tx, sig).None?
    ensures tx.fee < FEE_BIT
  {
    hide MemoRefusal;
  }

  lemma InnerRead(tx: Tx, rest: seq<byte>)
    requires FieldRefusal(tx, false).None? && Measured(tx) && tx.fee < FEE_BIT
    ensures ReadEntries(Fields(tx, false, 0) + ([OBJECT_END] + rest), true) == Done(OwnEntries(tx, false), rest)
  {
    hide *;
    FieldsRead(tx, false, 0, [OBJECT_END] + rest, true);
    AllFields(tx, false);
    ObjectEnds(rest);
    AppendedDone(OwnEntries(tx, false), [], rest);
    assert OwnEntries(tx, false) + [] == OwnEntries(tx, false);
  }

  lemma InnerFees(inner: seq<Tx>)
    requires InnerRefusal(inner).None?
    ensures forall i | 0 <= i < |inner| :: inner[i].fee < FEE_BIT
  {
    forall i | 0 <= i < |inner|
      ensures inner[i].fee < FEE_BIT
    {
      InnerHasNoInner(inner, i);
      FeeFits(inner[i], false);
    }
  }

  lemma InnerElementsSplit(inner: seq<Tx>)
    requires inner != [] && forall i | 0 <= i < |inner| :: inner[i].fee < FEE_BIT
    ensures InnerElements(inner) == [Element(34, OwnEntries(inner[0], false))] + InnerElements(inner[1..])
  {
    hide OwnEntries;
  }

  lemma InnerElement(body: seq<byte>, entries: seq<Entry>, rest: seq<byte>)
    requires ReadEntries(body + ([OBJECT_END] + rest), true) == Done(entries, rest)
    ensures ReadElements(Header(14, 34) + (body + ([OBJECT_END] + rest))) == Prepended(Element(34, entries), ReadElements(rest))
  {
    var closed := body + [OBJECT_END];
    assert closed + rest == body + ([OBJECT_END] + rest);
    hide *;
    ElementRead(34, closed, entries, rest);
  }

  lemma InnersEnd(inner: seq<Tx>, rest: seq<byte>)
    requires inner == []
    ensures ReadElements(InnerList(inner) + rest) == Done(InnerElements(inner), rest)
  {
    ArrayEnds(rest);
    hide ReadElements;
    assert InnerList(inner) == [ARRAY_END];
    assert InnerElements(inner) == [];
  }

  lemma {:induction false} InnersRead(inner: seq<Tx>, rest: seq<byte>)
    requires InnerRefusal(inner).None? && EachMeasured(inner) && forall i | 0 <= i < |inner| :: inner[i].fee < FEE_BIT
    ensures ReadElements(InnerList(inner) + rest) == Done(InnerElements(inner), rest)
  {
    hide *;
    if inner == [] {
      InnersEnd(inner, rest);
    } else {
      var after := InnerList(inner[1..]) + rest;
      InnerListSplits(inner, rest);
      InnerRefusalSplits(inner);
      EachMeasuredSplits(inner);
      FeeFits(inner[0], false);
      InnerRead(inner[0], after);
      InnerElement(Fields(inner[0], false, 0), OwnEntries(inner[0], false), after);
      InnersRead(inner[1..], rest);
      InnerElementsSplit(inner);
      PrependedDone(Element(34, OwnEntries(inner[0], false)), InnerElements(inner[1..]), rest);
    }
  }

  /**
    What Serialize writes is in canonical order at every level, and says what the transaction says: taken apart, the
    bytes are its entries, and they ascend.
   */
  lemma WrittenInOrder(tx: Tx, sig: bool)
    requires Encoded(tx, sig).Ok? && AllMeasured(tx)
    ensures tx.fee < FEE_BIT && forall i | 0 <= i < |tx.inner| :: tx.inner[i].fee < FEE_BIT
    ensures ReadEntries(Encoded(tx, sig).value, false) == Done(Entries(tx, sig), [])
    ensures AscendsThroughout(Entries(tx, sig))
  {
    hide *;
    WrittenIs(tx, sig);
    FeeFits(tx, sig);
    InnerFees(tx.inner);
    FieldsRead(tx, sig, 0, Tail(tx), false);
    AllFields(tx, sig);
    TailRead(tx);
    AppendedDone(OwnEntries(tx, sig), TailEntries(tx), []);
    EntriesAre(tx, sig);
    EntriesAscend(tx, sig);
  }

  // What is behind the fields that every transaction has.
  function Tail(tx: Tx): seq<byte> {
    if tx.typ == BATCH then Header(15, 30) + InnerList(tx.inner) else []
  }

  function TailEntries(tx: Tx): seq<Entry>
    requires forall i | 0 <= i < |tx.inner| :: tx.inner[i].fee < FEE_BIT
  {
    When(tx.typ == BATCH, Entry(15, 30, Array(InnerElements(tx.inner))))
  }

  lemma EntriesAre(tx: Tx, sig: bool)
    requires tx.fee < FEE_BIT && forall i | 0 <= i < |tx.inner| :: tx.inner[i].fee < FEE_BIT
    ensures Entries(tx, sig) == OwnEntries(tx, sig) + TailEntries(tx)
  {
    hide OwnEntries, When, InnerElements;
  }

  lemma WrittenIs(tx: Tx, sig: bool)
    requires Encoded(tx, sig).Ok? && AllMeasured(tx)
    ensures FieldRefusal(tx, sig).None? && Encoded(tx, sig).value == Fields(tx, sig, 0) + Tail(tx)
    ensures InnerRefusal(tx.inner).None? && Measured(tx) && EachMeasured(tx.inner)
  {
    hide Header, InnerList, Fields, FieldRefusal;
    if tx.typ == BATCH {
      hide InnerRefusal;
    }
  }

  lemma TailRead(tx: Tx)
    requires InnerRefusal(tx.inner).None? && EachMeasured(tx.inner) && forall i | 0 <= i < |tx.inner| :: tx.inner[i].fee < FEE_BIT
    ensures ReadEntries(Tail(tx), false) == Done(TailEntries(tx), [])
  {
    hide InnerRefusal, EachMeasured, InnerList, InnerElements, ReadElements, When, ReadEntry, Header;
    InnersRead(tx.inner, []);
    ArrayRead(tx.typ == BATCH, 30, InnerList(tx.inner), InnerElements(tx.inner), [], false);
    NothingRead();
    hide ReadEntries;
    assert Tail(tx) + [] == Tail(tx) && TailEntries(tx) + [] == TailEntries(tx);
  }

  lemma NothingRead()
    ensures ReadEntries([], false) == Done([], [])
  {
  }

  // ----- what is refused -----

  // What the network and the tool ask of a transaction's own fields.
  predicate OwnFieldsFit(tx: Tx, sig: bool) {
    && tx.fee < 0x4000000000000000 && |tx.account| == 20
    && (if IsInner(tx) then tx.fee == 0 && tx.pubKey == [] && tx.signature == [] && tx.typ != 71
        else |tx.pubKey| == 33 && (sig ==> tx.signature != []))
    && (tx.typ == 49 ==> |tx.data| <= 256)
    && (tx.memos != [] ==> |MemoArray(tx.memos)| <= 1024)
  }

  // A Batch has 2 to 8 inner transactions, flagged as such; anything else has none.
  ghost predicate InnerFit(tx: Tx) {
    if tx.typ != 71 then tx.inner == []
    else
      && 2 <= |tx.inner| <= 8
      && forall i | 0 <= i < |tx.inner| :: IsInner(tx.inner[i]) && OwnFieldsFit(tx.inner[i], false) && tx.inner[i].inner == []
  }

  lemma OwnFieldsExactly(tx: Tx, sig: bool)
    ensures FieldRefusal(tx, sig).None? <==> OwnFieldsFit(tx, sig)
  {
    hide MemoArray, IsInner;
  }

  lemma {:induction false} InnerExactly(inner: seq<Tx>)
    ensures InnerRefusal(inner).None? <==>
              forall i | 0 <= i < |inner| :: IsInner(inner[i]) && OwnFieldsFit(inner[i], false) && inner[i].inner == []
  {
    if inner != [] {
      OwnFieldsExactly(inner[0], false);
      InnerExactly(inner[1..]);
      hide FieldRefusal, OwnFieldsFit, IsInner;
      assert forall i | 0 < i < |inner| :: inner[i] == inner[1..][i - 1];
      assert forall i | 0 <= i < |inner| - 1 :: inner[1..][i] == inner[i + 1];
    }
  }

  /** Serialize refuses exactly the transactions that do not fit. */
  lemma WrittenExactly(tx: Tx, sig: bool)
    ensures Encoded(tx, sig).Ok? <==> OwnFieldsFit(tx, sig) && InnerFit(tx)
  {
    OwnFieldsExactly(tx, sig);
    InnerExactly(tx.inner);
    hide FieldRefusal, OwnFieldsFit, IsInner, InnerRefusal, Bytes;
  }
}
