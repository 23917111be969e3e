/**
  The building blocks of the XRPL binary format: field headers, length prefixes and big-endian
  integers. internal/xrpl/codec/codec.go:218-256 and decode.go:145-213.
 */
module Wire {
  type byte = n: int | 0 <= n < 256
  type u16 = n: int | 0 <= n < 0x10000
  type u32 = n: int | 0 <= n < 0x100000000
  type u64 = n: int | 0 <= n < 0x10000000000000000

  // What is read off the front of the bytes, and what is left.
  datatype Read<T> = Done(value: T, rest: seq<byte>) | Bad

  // ----- integers -----

  function Pow256(n: nat): (p: nat)
    ensures p >= 1
  {
    if n == 0 then 1 else 256 * Pow256(n - 1)
  }

  // The low n bytes of v, the highest first.
  function Big(v: nat, n: nat): (s: seq<byte>)
    ensures |s| == n
  {
    if n == 0 then [] else Big(v / 256, n - 1) + [v % 256]
  }

  function FromBig(s: seq<byte>): nat {
    if s == [] then 0 else 256 * FromBig(s[..|s| - 1]) + s[|s| - 1]
  }

  lemma {:induction false} BigRoundTrip(v: nat, n: nat)
    ensures FromBig(Big(v, n)) == v % Pow256(n)
  {
    if n > 0 {
      BigRoundTrip(v / 256, n - 1);
      assert Big(v, n)[..n - 1] == Big(v / 256, n - 1);
      ModStep(v, Pow256(n - 1));
    }
  }

  lemma ModStep(v: nat, p: nat)
    requires p >= 1
    ensures 256 * ((v / 256) % p) + v % 256 == v % (256 * p)
    ensures v / 256 / p == v / (256 * p)
  {
    var q := v / 256 / p;
    var r := (v / 256) % p;
    assert v / 256 == q * p + r;
    var low := 256 * r + v % 256;
    assert v == q * (256 * p) + low by {
      assert 256 * (q * p) == q * (256 * p);
    }
    assert 0 <= low < 256 * p;
    DivRest(v, 256 * p, q, low);
  }

  lemma {:induction false} NextMultiple(a: nat, b: nat, d: nat)
    requires a < b
    ensures a * d + d <= b * d
  {
    assert b * d == (b - 1) * d + d;
    if a < b - 1 {
      NextMultiple(a, b - 1, d);
    }
  }

  lemma DivRest(v: nat, d: nat, q: nat, low: nat)
    requires d >= 1 && v == q * d + low && low < d
    ensures v % d == low && v / d == q
  {
    var other := v / d;
    assert v == other * d + v % d && 0 <= v % d < d;
    if other < q {
      NextMultiple(other, q, d);
      assert false;
    } else if q < other {
      NextMultiple(q, other, d);
      assert false;
    }
  }

  lemma Powers()
    ensures Pow256(2) == 0x10000 && Pow256(4) == 0x100000000 && Pow256(8) == 0x10000000000000000
  {
    assert Pow256(1) == 256;
    assert Pow256(3) == 256 * 0x10000;
    assert Pow256(5) == 256 * 0x100000000;
    assert Pow256(6) == 256 * Pow256(5);
    assert Pow256(7) == 256 * Pow256(6);
  }

  lemma SmallRoundTrip(v: nat, n: nat)
    requires v < Pow256(n)
    ensures FromBig(Big(v, n)) == v
  {
    BigRoundTrip(v, n);
  }

  // Big-endian integers of two, four and eight bytes.
  function Two(v: u16): seq<byte> {
    [v / 0x100, v % 0x100]
  }

  function Four(v: u32): seq<byte> {
    [v / 0x1000000, v / 0x10000 % 0x100, v / 0x100 % 0x100, v % 0x100]
  }

  function Eight(v: u64): seq<byte> {
    [v / 0x100000000000000, v / 0x1000000000000 % 0x100, v / 0x10000000000 % 0x100, v / 0x100000000 % 0x100,
     v / 0x1000000 % 0x100, v / 0x10000 % 0x100, v / 0x100 % 0x100, v % 0x100]
  }

  lemma BigStep(v: nat, n: nat)
    ensures Big(v, n + 1) == Big(v / 256, n) + [v % 256]
  {
  }

  lemma BigIsTwo(v: u16)
    ensures Big(v, 2) == Two(v)
  {
    assert Big(v / 256, 1) == Big(v / 256 / 256, 0) + [v / 256 % 256];
  }

  lemma BigIsFour(v: u32)
    ensures Big(v, 4) == Four(v)
  {
    assert Big(v / 0x1000000, 1) == [v / 0x1000000 % 256] by {
      assert Big(v / 0x1000000 / 256, 0) == [];
    }
    assert v / 256 / 256 == v / 0x10000 && v / 0x10000 / 256 == v / 0x1000000;
    assert Big(v / 0x10000, 2) == [v / 0x1000000, v / 0x10000 % 256];
    assert Big(v / 0x100, 3) == [v / 0x1000000, v / 0x10000 % 256, v / 0x100 % 256];
  }

  lemma BigIsEight(v: u64)
    ensures Big(v, 8) == Eight(v)
  {
    var h := v / 0x100000000;
    BigIsFour(h);
    hide Big;
    BigStep(v / 0x1000000, 4);
    BigStep(v / 0x10000, 5);
    BigStep(v / 0x100, 6);
    BigStep(v, 7);
    assert v / 0x1000000 / 256 == h && v / 0x10000 / 256 == v / 0x1000000 && v / 0x100 / 256 == v / 0x10000;
    assert h / 0x1000000 == v / 0x100000000000000;
    assert h / 0x10000 == v / 0x1000000000000 && h / 0x100 == v / 0x10000000000;
  }

  lemma {:induction false} BigOfFromBig(s: seq<byte>)
    ensures Big(FromBig(s), |s|) == s
  {
    if s != [] {
      var front, d := s[..|s| - 1], s[|s| - 1];
      BigOfFromBig(front);
      assert FromBig(s) / 256 == FromBig(front) && FromBig(s) % 256 == d;
      assert s == front + [d];
    }
  }

  lemma {:induction false} FromBigBounded(s: seq<byte>)
    ensures FromBig(s) < Pow256(|s|)
  {
    if s != [] {
      FromBigBounded(s[..|s| - 1]);
    }
  }

  // Two, four or eight bytes are the number that they stand for.
  lemma NumberBytes(s: seq<byte>)
    requires |s| == 2 || |s| == 4 || |s| == 8
    ensures |s| == 2 ==> FromBig(s) < 0x10000 && s == Two(FromBig(s))
    ensures |s| == 4 ==> FromBig(s) < 0x100000000 && s == Four(FromBig(s))
    ensures |s| == 8 ==> FromBig(s) < 0x10000000000000000 && s == Eight(FromBig(s))
  {
    BigOfFromBig(s);
    FromBigBounded(s);
    Powers();
    hide Big, FromBig, Two, Four, Eight, Pow256;
    if |s| == 2 {
      BigIsTwo(FromBig(s));
    } else if |s| == 4 {
      BigIsFour(FromBig(s));
    } else {
      BigIsEight(FromBig(s));
    }
  }

  lemma NumberOfBytes(v: nat)
    ensures v < 0x10000 ==> FromBig(Two(v)) == v
    ensures v < 0x100000000 ==> FromBig(Four(v)) == v
    ensures v < 0x10000000000000000 ==> FromBig(Eight(v)) == v
  {
    Powers();
    hide Big, FromBig, Two, Four, Eight, Pow256;
    if v < 0x10000 {
      BigIsTwo(v);
      SmallRoundTrip(v, 2);
    }
    if v < 0x100000000 {
      BigIsFour(v);
      SmallRoundTrip(v, 4);
    }
    if v < 0x10000000000000000 {
      BigIsEight(v);
      SmallRoundTrip(v, 8);
    }
  }

  method AppendU32(b: seq<byte>, v: u32) returns (r: seq<byte>)
    ensures r == b + Big(v, 4)
  {
    r := b + [v / 0x1000000, v / 0x10000 % 256, v / 0x100 % 256, v % 256];
    BigIsFour(v);
  }

  // ----- headers -----

  // A field's type code and field code, each in a nibble when it fits in one.
  function Header(typ: byte, field: byte): (s: seq<byte>)
    ensures 1 <= |s| <= 3
  {
    if typ < 16 && field < 16 then [typ * 16 + field]
    else if typ < 16 then [typ * 16, field]
    else if field < 16 then [field, typ]
    else [0, typ, field]
  }

  function ReadHeader(s: seq<byte>): (r: Read<(byte, byte)>)
    ensures r.Done? ==> |r.rest| < |s|
  {
    if s == [] then Bad
    else
      var typ, field := s[0] / 16, s[0] % 16;
      var afterTyp := if typ == 0 then 2 else 1;
      if |s| < afterTyp then Bad
      else
        var t := if typ == 0 then s[1] else typ;
        if field != 0 then Done((t, field), s[afterTyp..])
        else if |s| < afterTyp + 1 then Bad
        else Done((t, s[afterTyp]), s[afterTyp + 1..])
  }

  /** A header is read back, whatever follows it, exactly when neither code is 0. */
  lemma HeaderRoundTrip(typ: byte, field: byte, rest: seq<byte>)
    ensures ReadHeader(Header(typ, field) + rest) == Done((typ, field), rest) <==> typ > 0 && field > 0
  {
    var h := Header(typ, field);
    assert (h + rest)[|h|..] == rest;
  }

  // ----- length prefixes -----

  function LengthPrefix(n: nat): seq<byte> {
    if n <= 192 then [n]
    else if n <= 12480 then [193 + (n - 193) / 256, (n - 193) % 256]
    else [(241 + (n - 12481) / 65536) % 256, (n - 12481) / 256 % 256, (n - 12481) % 256]
  }

  function VL(v: seq<byte>): seq<byte> {
    LengthPrefix(|v|) + v
  }

  function Take(s: seq<byte>, n: nat): (r: Read<seq<byte>>)
    ensures r.Done? ==> |r.rest| == |s| - n && |r.value| == n
  {
    if n > |s| then Bad else Done(s[..n], s[n..])
  }

  function ReadVL(s: seq<byte>): (r: Read<seq<byte>>)
    ensures r.Done? ==> |r.rest| < |s|
  {
    if s == [] then Bad
    else
      var first: int := s[0];
      if first <= 192 then Take(s[1..], first)
      else if first <= 240 then
        if |s| < 2 then Bad
        else
          var second: int := s[1];
          Take(s[2..], 193 + (first - 193) * 256 + second)
      else if |s| < 3 then Bad
      else
        var second: int, third: int := s[1], s[2];
        Take(s[3..], 12481 + (first - 241) * 65536 + second * 256 + third)
  }

  // The longest blob whose first prefix byte does not wrap. The XRPL format stops at 918744.
  const MAX_VL := 995520

  lemma ThreeBytes(k: nat)
    ensures k == k / 65536 * 65536 + k / 256 % 256 * 256 + k % 256
  {
  }

  lemma ReadPrefix(n: nat, rest: seq<byte>)
    requires n <= MAX_VL
    ensures ReadVL(LengthPrefix(n) + rest) == Take(rest, n)
  {
    hide Take;
    var p := LengthPrefix(n);
    assert (p + rest)[|p|..] == rest;
    if n > 12480 {
      ThreeBytes(n - 12481);
      assert (p + rest)[1] == p[1] && (p + rest)[2] == p[2];
    }
  }

  lemma LongPrefixWraps(n: nat, rest: seq<byte>)
    requires n > MAX_VL
    ensures var r := ReadVL(LengthPrefix(n) + rest); r.Done? ==> |r.value| != n
  {
    var p := LengthPrefix(n);
    ThreeBytes(n - 12481);
    assert (p + rest)[1] == p[1] && (p + rest)[2] == p[2];
  }

  /** A blob is read back, whatever follows it, exactly when it is at most 995520 bytes long. */
  lemma VLRoundTrip(v: seq<byte>, rest: seq<byte>)
    ensures ReadVL(VL(v) + rest) == Done(v, rest) <==> |v| <= MAX_VL
  {
    assert VL(v) + rest == LengthPrefix(|v|) + (v + rest);
    if |v| <= MAX_VL {
      ReadPrefix(|v|, v + rest);
    } else {
      LongPrefixWraps(|v|, v + rest);
    }
  }

  method AppendVL(b: seq<byte>, v: seq<byte>) returns (r: seq<byte>)
    ensures r == b + VL(v)
  {
    var n := |v|;
    if n <= 192 {
      r := b + [n];
    } else if n <= 12480 {
      n := n - 193;
      r := b + [193 + n / 256, n % 256];
    } else {
      n := n - 12481;
      r := b + [(241 + n / 65536) % 256, n / 256 % 256, n % 256];
    }
    assert b + LengthPrefix(|v|) + v == b + (LengthPrefix(|v|) + v);
    r := r + v;
  }
}
