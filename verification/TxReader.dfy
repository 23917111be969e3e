/**
  Deserialize and its reader, a cursor over the blob. internal/xrpl/codec/decode.go:11-253.
 */
module TxReader {
  import opened Common
  import opened Wire
  import opened TxFormat

  class Reader {
    const b: seq<byte>
    var i: nat

    constructor (b: seq<byte>)
      ensures this.b == b && Valid() && Rest() == b
    {
      this.b, i := b, 0;
    }

    ghost predicate Valid()
      reads this
    {
      i <= |b|
    }

    function Rest(): seq<byte>
      requires Valid()
      reads this
    {
      b[i..]
    }

    // r is what the specification reads, and the cursor stands behind it.
    ghost predicate Reads<T>(r: Option<T>, spec: Read<T>)
      requires Valid()
      reads this
    {
      match spec
      case Bad => r.None?
      case Done(v, rest) => r == Some(v) && Rest() == rest
    }

    method Take(n: nat) returns (r: Option<seq<byte>>)
      requires Valid()
      modifies `i
      ensures Valid() && old(i) <= i && Reads(r, Wire.Take(old(Rest()), n))
    {
      if i + n > |b| {
        return None;
      }
      r := Some(b[i..i + n]);
      assert Rest()[..n] == b[i..i + n] && Rest()[n..] == b[i + n..];
      i := i + n;
    }

    method TakeByte() returns (r: Option<byte>)
      requires Valid()
      modifies `i
      ensures Valid() && old(i) <= i
      ensures if old(Rest()) == [] then r.None? && i == old(i) else r == Some(old(Rest())[0]) && Rest() == old(Rest())[1..] && i == old(i) + 1
    {
      var v := Take(1);
      r := if v.None? then None else Some(v.value[0]);
    }

    method Header() returns (r: Option<(byte, byte)>)
      requires Valid()
      modifies `i
      ensures Valid() && old(i) <= i && Reads(r, ReadHeader(old(Rest())))
    {
      var h := TakeByte();
      if h.None? {
        return None;
      }
      var typ, field := h.value / 16, h.value % 16;
      if typ == 0 {
        var t := TakeByte();
        if t.None? {
          return None;
        }
        typ := t.value;
      }
      if field == 0 {
        var f := TakeByte();
        if f.None? {
          return None;
        }
        field := f.value;
      }
      return Some((typ, field));
    }

    // A big-endian number of n bytes.
    method Number(n: nat) returns (r: Option<nat>)
      requires Valid()
      modifies `i
      ensures Valid() && old(i) <= i && Reads(r, ReadNumber(old(Rest()), n))
    {
      var v := Take(n);
      if v.None? {
        return None;
      }
      var d: nat := 0;
      for k := 0 to n
        invariant d == FromBig(v.value[..k])
      {
        assert v.value[..k + 1][..k] == v.value[..k];
        var low: int := v.value[k];
        d := d * 256 + low;
      }
      assert v.value[..n] == v.value;
      return Some(d);
    }

    method Vl() returns (r: Option<seq<byte>>)
      requires Valid()
      modifies `i
      ensures Valid() && old(i) <= i && Reads(r, ReadVL(old(Rest())))
    {
      hide Wire.Take;
      var l := TakeByte();
      if l.None? {
        return None;
      }
      var n: int := l.value;
      if n <= 192 {
      } else if n <= 240 {
        var l2 := TakeByte();
        if l2.None? {
          return None;
        }
        var low: int := l2.value;
        n := 193 + (n - 193) * 256 + low;
      } else {
        var l2 := TakeByte();
        if l2.None? {
          return None;
        }
        var l3 := TakeByte();
        if l3.None? {
          return None;
        }
        var high: int, low: int := l2.value, l3.value;
        n := 12481 + (n - 241) * 65536 + high * 256 + low;
      }
      r := Take(n);
    }

    // One memo's fields, up to and including the object end.
    method MemoFields() returns (r: Option<Memo>)
      requires Valid()
      modifies `i
      ensures Valid() && old(i) <= i && Reads(r, ReadMemoFields(Memo([], [], []), old(Rest())))
    {
      hide ReadVL;
      var m := Memo([], [], []);
      ghost var spec := ReadMemoFields(m, Rest());
      while true
        invariant Valid() && old(i) <= i && spec == ReadMemoFields(m, Rest())
        decreases |b| - i
      {
        var f := TakeByte();
        if f.None? {
          return None;
        }
        if f.value == OBJECT_END {
          return Some(m);
        }
        var v := Vl();
        if v.None? {
          return None;
        }
        if f.value == 0x7C {
          m := m.(typ := v.value);
        } else if f.value == 0x7D {
          m := m.(data := v.value);
        } else if f.value == 0x7E {
          m := m.(format := v.value);
        } else {
          return None;
        }
      }
    }

    method Memos() returns (r: Option<seq<Memo>>)
      requires Valid()
      modifies `i
      ensures Valid() && old(i) <= i && Reads(r, ReadMemos([], old(Rest())))
    {
      hide ReadMemoFields;
      var out: seq<Memo> := [];
      ghost var spec := ReadMemos(out, Rest());
      while true
        invariant Valid() && old(i) <= i && spec == ReadMemos(out, Rest())
        decreases |b| - i
      {
        var h := TakeByte();
        if h.None? {
          return None;
        }
        if h.value == ARRAY_END {
          return Some(out);
        }
        if h.value != 0xEA {
          return None;
        }
        var m := MemoFields();
        if m.None? {
          return None;
        }
        out := out + [m.value];
      }
    }

    method Field(tx: Tx) returns (r: Option<Tx>)
      requires Valid()
      modifies `i
      ensures Valid() && old(i) <= i && Reads(r, ReadField(tx, old(Rest()))) && (r.Some? ==> old(i) < i)
      decreases |b| - i, 0
    {
      hide ReadHeader, ReadNumber, ReadVL, ReadMemos, ReadInner;
      Powers();
      hide Pow256;
      var h := Header();
      if h.None? {
        return None;
      }
      var (typ, field) := h.value;
      if typ == 1 && field == 2 {
        var v := Number(2);
        return if v.None? then None else Some(tx.(typ := v.value));
      }
      if typ == 2 {
        var v := Number(4);
        return if v.None? then None else WithNumber(tx, field, v.value);
      }
      if typ == 6 && field == 8 {
        var v := Number(8);
        return if v.None? then None else Some(tx.(fee := Drops(v.value)));
      }
      if typ == 7 {
        var v := Vl();
        return if v.None? then None else WithBlob(tx, field, v.value);
      }
      if typ == 8 && field == 1 {
        var v := Vl();
        return if v.None? then None else Some(tx.(account := v.value));
      }
      if typ == 15 && field == 9 {
        var v := Memos();
        return if v.None? then None else Some(tx.(memos := v.value));
      }
      if typ == 15 && field == 30 {
        var v := RawTransactions();
        return if v.None? then None else Some(tx.(inner := v.value));
      }
      return None;
    }

    method Object(nested: bool) returns (r: Option<Tx>)
      requires Valid()
      modifies `i
      ensures Valid() && old(i) <= i && Reads(r, ReadObject(NO_TX, old(Rest()), nested))
      decreases |b| - i, 1
    {
      hide ReadField;
      var tx := NO_TX;
      ghost var spec := ReadObject(tx, Rest(), nested);
      while i < |b|
        invariant Valid() && old(i) <= i && spec == ReadObject(tx, Rest(), nested)
        decreases |b| - i
      {
        assert Rest()[0] == b[i];
        if nested && b[i] == OBJECT_END {
          assert Rest()[1..] == b[i + 1..];
          i := i + 1;
          return Some(tx);
        }
        var t := Field(tx);
        if t.None? {
          return None;
        }
        tx := t.value;
      }
      return if nested then None else Some(tx);
    }

    method RawTransactions() returns (r: Option<seq<Tx>>)
      requires Valid()
      modifies `i
      ensures Valid() && old(i) <= i && Reads(r, ReadInner([], old(Rest())))
      decreases |b| - i, 0
    {
      hide ReadObject, ReadHeader;
      var out: seq<Tx> := [];
      ghost var spec := ReadInner(out, Rest());
      while true
        invariant Valid() && old(i) <= i && spec == ReadInner(out, Rest())
        decreases |b| - i
      {
        if i >= |b| {
          return None;
        }
        if b[i] == ARRAY_END {
          assert Rest()[1..] == b[i + 1..];
          i := i + 1;
          return Some(out);
        }
        var h := Header();
        if h.None? {
          return None;
        }
        var (typ, field) := h.value;
        if typ != 14 || field != 34 {
          return None;
        }
        var one := Object(true);
        if one.None? {
          return None;
        }
        out := out + [one.value];
      }
    }
  }

  /** Deserialize. At the top level the reader stops only at the end, so no bytes can be left over. */
  method Deserialize(b: seq<byte>) returns (r: Option<Tx>)
    ensures r == Decoded(b)
  {
    hide ReadObject;
    var reader := new Reader(b);
    r := reader.Object(false);
    assert r.Some? ==> reader.i == |b|;
  }
}
