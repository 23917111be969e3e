/**
  The RIPEMD-160 streaming digest: internal/xrpl/sign/ripemd160/ripemd160.go:20-124. The compression
  of one block is a parameter.
 */
module Ripemd160 {
  import opened Wire

  const BLOCK := 64
  const WRAP := 0x10000000000000000

  // The five words of the running context, and what one block makes of them.
  type Context = s: seq<u32> | |s| == 5 witness [0, 0, 0, 0, 0]

  type Compression = (Context, seq<byte>) -> Context

  const START: Context := [0x67452301, 0xefcdab89, 0x98badcfe, 0x10325476, 0xc3d2e1f0]

  // ----- the one-shot hash -----

  // Every whole block of the data, in order.
  function Blocks(c: Compression, s: Context, data: seq<byte>): Context
    decreases |data|
  {
    if |data| < BLOCK then s else Blocks(c, c(s, data[..BLOCK]), data[BLOCK..])
  }

  // What is behind the last whole block.
  function Left(m: seq<byte>): (l: seq<byte>)
    ensures |l| == |m| % 64
  {
    m[|m| - |m| % 64..]
  }

  function Zeros(n: nat): (z: seq<byte>)
    ensures |z| == n
  {
    seq(n, _ => 0)
  }

  // A 1 bit, then 0 bits until 56 bytes mod 64.
  function Padding(n: nat): (p: seq<byte>)
    ensures |p| >= 1 && (n + |p|) % 64 == 56
  {
    [0x80] + Zeros(if n % 64 < 56 then 55 - n % 64 else 119 - n % 64)
  }

  function Little(v: nat, n: nat): (s: seq<byte>)
    ensures |s| == n
  {
    if n == 0 then [] else [v % 256] + Little(v / 256, n - 1)
  }

  // The message, its padding, and its length in bits modulo 2^64.
  function Padded(m: seq<byte>): seq<byte> {
    m + Padding(|m|) + Little(8 * |m| % WRAP, 8)
  }

  function Rendered(s: seq<u32>): seq<byte> {
    if s == [] then [] else Rendered(s[..|s| - 1]) + Little(s[|s| - 1], 4)
  }

  function Hash(c: Compression, m: seq<byte>): seq<byte> {
    Rendered(Blocks(c, START, Padded(m)))
  }

  lemma EightMore(n: nat)
    requires n % 64 == 56
    ensures (n + 8) % 64 == 0
  {
  }

  /** The padded message is whole blocks. */
  lemma PaddedIsWhole(m: seq<byte>)
    ensures |Padded(m)| % 64 == 0
  {
    var pad := Padding(|m|);
    EightMore(|m| + |pad|);
    hide Padding, Little;
    assert |Padded(m)| == |m| + |pad| + 8;
  }

  // ----- the bytes of the digest -----

  // The n bytes of a number from k on, the lowest one first.
  lemma {:induction false} LittleShifts(v: nat, n: nat, k: nat)
    requires k <= n
    ensures Little(v, n)[k..] == Little(v / Power(k), n - k)
  {
    if k > 0 {
      LittleShifts(v / 256, n - 1, k - 1);
      QuotientOfQuotient(v, Power(k - 1));
      assert Little(v, n)[k..] == Little(v / 256, n - 1)[k - 1..];
    }
  }

  function Power(k: nat): (p: nat)
    ensures p > 0
  {
    if k == 0 then 1 else 256 * Power(k - 1)
  }

  lemma QuotientOfQuotient(v: nat, b: nat)
    requires b > 0
    ensures v / 256 / b == v / (256 * b)
  {
    var q, r := v / 256, v % 256;
    var t, u := q / b, q % b;
    assert v == 256 * q + r;
    assert q == t * b + u && u < b;
    var bt := t * b;
    assert t * (256 * b) == 256 * bt;
    assert v == t * (256 * b) + (256 * u + r);
    DivRest(v, 256 * b, t, 256 * u + r);
  }

  lemma LittleByte(v: nat, n: nat, k: nat)
    requires k < n
    ensures Little(v, n)[k] == v / Power(k) % 256
  {
    LittleShifts(v, n, k);
    assert Little(v, n)[k] == Little(v, n)[k..][0];
  }

  lemma LittleBytes(v: nat, bytes: seq<byte>)
    requires forall k | 0 <= k < |bytes| :: bytes[k] == v / Power(k) % 256
    ensures bytes == Little(v, |bytes|)
  {
    forall k | 0 <= k < |bytes|
      ensures bytes[k] == Little(v, |bytes|)[k]
    {
      LittleByte(v, |bytes|, k);
    }
  }

  lemma Powers()
    ensures Power(1) == 0x100 && Power(2) == 0x10000 && Power(3) == 0x1000000 && Power(4) == 0x100000000
    ensures Power(5) == 0x10000000000 && Power(6) == 0x1000000000000 && Power(7) == 0x100000000000000
  {
  }

  // Whole blocks: the message, 0x80, zeros as few as will do, and the length in bits, its lowest byte first.
  ghost predicate IsPadded(m: seq<byte>, data: seq<byte>) {
    var n := |data|;
    && n % 64 == 0 && |m| + 9 <= n < |m| + 9 + 64
    && data[..|m|] == m && data[|m|] == 0x80
    && (forall i | |m| < i < n - 8 :: data[i] == 0)
    && var bits := 8 * |m|;
       && data[n - 8] == bits % 256
       && data[n - 7] == bits / 0x100 % 256
       && data[n - 6] == bits / 0x10000 % 256
       && data[n - 5] == bits / 0x1000000 % 256
       && data[n - 4] == bits / 0x100000000 % 256
       && data[n - 3] == bits / 0x10000000000 % 256
       && data[n - 2] == bits / 0x1000000000000 % 256
       && data[n - 1] == bits / 0x100000000000000 % 256
  }

  // The five words, each its lowest byte first.
  ghost predicate IsRendered(s: Context, hash: seq<byte>) {
    && |hash| == 20
    && forall i | 0 <= i < 5 ::
         && hash[4 * i] == s[i] % 256
         && hash[4 * i + 1] == s[i] / 0x100 % 256
         && hash[4 * i + 2] == s[i] / 0x10000 % 256
         && hash[4 * i + 3] == s[i] / 0x1000000
  }

  /** The hash is the context after the last block of the padded message, from the start context on. */
  ghost predicate IsHash(c: Compression, m: seq<byte>, hash: seq<byte>) {
    exists data :: IsPadded(m, data) && IsRendered(Blocks(c, START, data), hash)
  }

  lemma WrapIsIdle(bits: nat, p: nat, q: nat)
    requires p > 0 && p * q == WRAP && q % 256 == 0
    ensures bits % WRAP / p % 256 == bits / p % 256
  {
    var k, r := bits / WRAP, bits % WRAP;
    assert bits == (k * q) * p + r by {
      assert k * (p * q) == (k * q) * p;
    }
    DivRest(bits, p, k * q + r / p, r % p);
    assert bits / p == k * q + r / p;
    var h := q / 256;
    assert q == 256 * h;
    assert k * q == 256 * (k * h);
    DivRest(k * q + r / p, 256, k * h + r / p / 256, r / p % 256);
  }

  // The last 8 bytes are those of the length, which the count's wrap does not reach.
  lemma LengthBytes(bits: nat)
    ensures var l := Little(bits % WRAP, 8);
            && l[0] == bits % 256
            && l[1] == bits / 0x100 % 256
            && l[2] == bits / 0x10000 % 256
            && l[3] == bits / 0x1000000 % 256
            && l[4] == bits / 0x100000000 % 256
            && l[5] == bits / 0x10000000000 % 256
            && l[6] == bits / 0x1000000000000 % 256
            && l[7] == bits / 0x100000000000000 % 256
  {
    Powers();
    var v := bits % WRAP;
    forall k | 0 <= k < 8
      ensures Little(v, 8)[k] == v / Power(k) % 256
    {
      LittleByte(v, 8, k);
    }
    assert Power(0) == 1;
    hide Little, Power;
    WrapIsIdle(bits, 1, WRAP);
    WrapIsIdle(bits, 0x100, 0x100000000000000);
    WrapIsIdle(bits, 0x10000, 0x1000000000000);
    WrapIsIdle(bits, 0x1000000, 0x10000000000);
    WrapIsIdle(bits, 0x100000000, 0x100000000);
    WrapIsIdle(bits, 0x10000000000, 0x1000000);
    WrapIsIdle(bits, 0x1000000000000, 0x10000);
    WrapIsIdle(bits, 0x100000000000000, 0x100);
  }

  /** What is compressed is the message, 0x80, zeros, and the length. */
  lemma PaddedIsPadded(m: seq<byte>)
    ensures IsPadded(m, Padded(m))
  {
    PaddedIsWhole(m);
    LengthBytes(8 * |m|);
    var pad, l := Padding(|m|), Little(8 * |m| % WRAP, 8);
    var data := Padded(m);
    assert pad[0] == 0x80 && |pad| <= 64 && forall i | 0 < i < |pad| :: pad[i] == 0;
    hide Little, Padding;
    assert data == m + pad + l;
    assert data[..|m|] == m;
    assert forall i | |m| <= i < |data| - 8 :: data[i] == pad[i - |m|];
    assert forall k | 0 <= k < 8 :: data[|data| - 8 + k] == l[k];
  }

  // The four bytes of a word.
  ghost predicate WordAt(v: nat, bytes: seq<byte>, k: nat)
    requires k + 4 <= |bytes|
  {
    bytes[k] == v % 256 && bytes[k + 1] == v / 0x100 % 256 && bytes[k + 2] == v / 0x10000 % 256 && bytes[k + 3] == v / 0x1000000 % 256
  }

  lemma WordBytes(v: nat)
    ensures WordAt(v, Little(v, 4), 0)
  {
    Powers();
    assert Power(0) == 1;
    LittleByte(v, 4, 0);
    LittleByte(v, 4, 1);
    LittleByte(v, 4, 2);
    LittleByte(v, 4, 3);
    hide Little, Power;
  }

  lemma {:induction false} RenderedWords(s: seq<u32>, i: nat)
    requires i < |s|
    ensures |Rendered(s)| == 4 * |s| && WordAt(s[i], Rendered(s), 4 * i)
  {
    var last := |s| - 1;
    WordBytes(s[last]);
    hide Little;
    if i < last {
      RenderedWords(s[..last], i);
    } else if last > 0 {
      RenderedWords(s[..last], 0);
    }
  }

  lemma RenderedIsRendered(s: Context)
    ensures IsRendered(s, Rendered(s))
  {
    forall i | 0 <= i < 5
      ensures |Rendered(s)| == 20 && WordAt(s[i], Rendered(s), 4 * i)
    {
      RenderedWords(s, i);
    }
    hide Rendered;
    assert WordAt(s[0], Rendered(s), 0);
    forall i | 0 <= i < 5
      ensures var h := Rendered(s);
              && h[4 * i] == s[i] % 256
              && h[4 * i + 1] == s[i] / 0x100 % 256
              && h[4 * i + 2] == s[i] / 0x10000 % 256
              && h[4 * i + 3] == s[i] / 0x1000000
    {
      assert WordAt(s[i], Rendered(s), 4 * i);
    }
  }

  /** What is compressed tells the message: no two have the same padding. */
  lemma PaddingIsInjective(m: seq<byte>, m': seq<byte>, data: seq<byte>)
    requires IsPadded(m, data) && IsPadded(m', data)
    ensures m == m'
  {
  }

  lemma OnePadding(m: seq<byte>, data: seq<byte>, data': seq<byte>)
    requires IsPadded(m, data) && IsPadded(m, data')
    ensures data == data'
  {
    OneLength(|m|, |data|, |data'|);
    forall i | 0 <= i < |data|
      ensures data[i] == data'[i]
    {
      if i < |m| {
        assert data[..|m|][i] == data'[..|m|][i];
      }
    }
  }

  lemma OneLength(m: nat, n: nat, n': nat)
    requires n % 64 == n' % 64 == 0 && m + 9 <= n < m + 73 && m + 9 <= n' < m + 73
    ensures n == n'
  {
  }

  lemma OneRendering(s: Context, hash: seq<byte>, hash': seq<byte>)
    requires IsRendered(s, hash) && IsRendered(s, hash')
    ensures hash == hash'
  {
    forall k | 0 <= k < 20
      ensures hash[k] == hash'[k]
    {
      var i, w := k / 4, s[k / 4];
      assert hash[4 * i] == w % 256 == hash'[4 * i];
      assert hash[4 * i + 1] == w / 0x100 % 256 == hash'[4 * i + 1];
      assert hash[4 * i + 2] == w / 0x10000 % 256 == hash'[4 * i + 2];
      assert hash[4 * i + 3] == w / 0x1000000 == hash'[4 * i + 3];
      assert k == 4 * i || k == 4 * i + 1 || k == 4 * i + 2 || k == 4 * i + 3;
    }
  }

  /** A message has one hash, and it is what the one-shot form computes. */
  lemma OneHash(c: Compression, m: seq<byte>, hash: seq<byte>)
    ensures IsHash(c, m, hash) <==> hash == Hash(c, m)
  {
    PaddedIsPadded(m);
    RenderedIsRendered(Blocks(c, START, Padded(m)));
    hide Blocks, Padded, Rendered, IsPadded, IsRendered;
    if data :| IsPadded(m, data) && IsRendered(Blocks(c, START, data), hash) {
      OnePadding(m, data, Padded(m));
      OneRendering(Blocks(c, START, data), hash, Hash(c, m));
    }
  }

  // The start context's bytes, 16 of them the hexadecimal digits upwards and downwards.
  const START_BYTES: seq<byte> := [
    0x01, 0x23, 0x45, 0x67, 0x89, 0xab, 0xcd, 0xef, 0xfe, 0xdc, 0xba, 0x98, 0x76, 0x54, 0x32, 0x10, 0xf0, 0xe1, 0xd2, 0xc3
  ]

  lemma StartBytes()
    ensures IsRendered(START, START_BYTES)
  {
    var h := START_BYTES;
    assert |START| == 5 && |h| == 20;
    assert h[0] == START[0] % 256 && h[1] == START[0] / 0x100 % 256 && h[2] == START[0] / 0x10000 % 256 && h[3] == START[0] / 0x1000000;
    assert h[4] == START[1] % 256 && h[5] == START[1] / 0x100 % 256 && h[6] == START[1] / 0x10000 % 256 && h[7] == START[1] / 0x1000000;
    assert h[8] == START[2] % 256 && h[9] == START[2] / 0x100 % 256 && h[10] == START[2] / 0x10000 % 256 && h[11] == START[2] / 0x1000000;
    assert h[12] == START[3] % 256 && h[13] == START[3] / 0x100 % 256 && h[14] == START[3] / 0x10000 % 256 && h[15] == START[3] / 0x1000000;
    assert h[16] == START[4] % 256 && h[17] == START[4] / 0x100 % 256 && h[18] == START[4] / 0x10000 % 256 && h[19] == START[4] / 0x1000000;
  }

  lemma CountsAdd(a: nat, b: nat)
    ensures (a % 0x10000000000000000 + b % 0x10000000000000000) % 0x10000000000000000 == (a + b) % 0x10000000000000000
  {
  }

  lemma CountsMod(a: nat)
    ensures a % 0x10000000000000000 % 64 == a % 64
  {
  }

  lemma CountsShift(a: nat)
    ensures a % 0x10000000000000000 * 8 % 0x10000000000000000 == 8 * a % 0x10000000000000000
  {
    var q, r := a / 0x10000000000000000, a % 0x10000000000000000;
    var k, t := r * 8 / 0x10000000000000000, r * 8 % 0x10000000000000000;
    assert 8 * a == (8 * q + k) * 0x10000000000000000 + t;
    DivRest(8 * a, 0x10000000000000000, 8 * q + k, t);
  }

  // The count modulo 2^64 is all that is needed of the length.
  lemma CountsJoin(a: nat, b: nat)
    ensures (a % WRAP + b % WRAP) % WRAP == (a + b) % WRAP
    ensures a % WRAP % 64 == a % 64
    ensures a % WRAP * 8 % WRAP == 8 * a % WRAP
  {
    CountsAdd(a, b);
    CountsMod(a);
    CountsShift(a);
  }

  // ----- the digest after a message -----

  lemma {:induction false} BlocksJoin(c: Compression, s: Context, a: seq<byte>, b: seq<byte>)
    requires |a| % 64 == 0
    ensures Blocks(c, s, a + b) == Blocks(c, Blocks(c, s, a), b)
    decreases |a|
  {
    if a == [] {
      assert a + b == b;
    } else {
      assert (a + b)[..BLOCK] == a[..BLOCK] && (a + b)[BLOCK..] == a[BLOCK..] + b;
      BlocksJoin(c, c(s, a[..BLOCK]), a[BLOCK..], b);
    }
  }

  lemma WholePart(c: Compression, s: Context, m: seq<byte>, q: seq<byte>)
    ensures |m[..|m| - |m| % 64]| % 64 == 0
    ensures Blocks(c, s, m + q) == Blocks(c, Blocks(c, s, m), Left(m) + q)
  {
    var whole := m[..|m| - |m| % 64];
    assert m == whole + Left(m) && m + q == whole + (Left(m) + q);
    BlocksJoin(c, s, whole, Left(m));
    BlocksJoin(c, s, whole, Left(m) + q);
  }

  // What more input does when it fits beside the leftover, fills it up, or starts at a block.
  lemma LeftGrows(m: seq<byte>, q: seq<byte>)
    requires |Left(m)| + |q| < BLOCK
    ensures Left(m + q) == Left(m) + q
  {
    var k := |m| % 64;
    RestOf(|m| - k, k, |q|);
    assert |m + q| - |m + q| % 64 == |m| - k;
    assert (m + q)[|m| - k..] == m[|m| - k..] + q;
  }

  lemma RestOf(whole: nat, k: nat, more: nat)
    requires whole % 64 == 0 && k + more < 64
    ensures (whole + k + more) % 64 == k + more
  {
  }

  lemma StillShort(c: Compression, m: seq<byte>, q: seq<byte>)
    requires |Left(m)| + |q| < BLOCK
    ensures Blocks(c, START, m + q) == Blocks(c, START, m) && Left(m + q) == Left(m) + q
  {
    hide Blocks, Left;
    LeftGrows(m, q);
    WholePart(c, START, m, q);
    Short(c, Blocks(c, START, m), Left(m) + q);
  }

  lemma FillsUp(c: Compression, m: seq<byte>, q: seq<byte>)
    requires |Left(m)| + |q| == BLOCK
    ensures Blocks(c, START, m + q) == c(Blocks(c, START, m), Left(m) + q) && |m + q| % 64 == 0
  {
    WholePart(c, START, m, q);
    hide Left;
    OneBlock(c, Blocks(c, START, m), Left(m) + q);
  }

  lemma FromBlockStart(c: Compression, m: seq<byte>, q: seq<byte>)
    requires |m| % 64 == 0
    ensures Blocks(c, START, m + q) == Blocks(c, Blocks(c, START, m), q) && Left(m + q) == Left(q)
  {
    hide Blocks;
    BlocksJoin(c, START, m, q);
    var k := |q| % 64;
    assert |m + q| % 64 == k;
    assert (m + q)[|m + q| - k..] == q[|q| - k..];
  }

  lemma Short(c: Compression, s: Context, data: seq<byte>)
    requires |data| < BLOCK
    ensures Blocks(c, s, data) == s
  {
  }

  lemma OneBlock(c: Compression, s: Context, data: seq<byte>)
    requires |data| == BLOCK
    ensures Blocks(c, s, data) == c(s, data)
  {
    assert data[..BLOCK] == data && data[BLOCK..] == [];
    Short(c, c(s, data), []);
  }

  class Digest {
    const c: Compression
    var s: Context
    const x: array<byte>
    var nx: nat
    var tc: u64

    constructor (c: Compression)
      ensures this.c == c && Holds([]) && fresh(x)
    {
      this.c := c;
      x := new byte[BLOCK];
      s, nx, tc := START, 0, 0;
    }

    // The context is that of the whole blocks of m, and the buffer holds what is left.
    ghost predicate Buffers(m: seq<byte>)
      reads `s, `nx, x
    {
      x.Length == BLOCK && nx < BLOCK && s == Blocks(c, START, m) && x[..nx] == Left(m)
    }

    // The digest has been fed the message m.
    ghost predicate Holds(m: seq<byte>)
      reads this, x
    {
      Buffers(m) && tc == |m| % WRAP
    }

    // _Block: every whole block of p; the number of bytes taken.
    method Compress(p: seq<byte>) returns (n: nat)
      modifies `s
      ensures s == Blocks(c, old(s), p) && n == |p| - |p| % 64
    {
      n := 0;
      while n + BLOCK <= |p|
        invariant n % 64 == 0 && n <= |p|
        invariant Blocks(c, s, p[n..]) == Blocks(c, old(s), p)
      {
        assert p[n..][..BLOCK] == p[n..n + BLOCK] && p[n..][BLOCK..] == p[n + BLOCK..];
        s := c(s, p[n..n + BLOCK]);
        n := n + BLOCK;
      }
    }

    // The bytes that fill the buffer up, or all of them when they do not.
    method Fill(p: seq<byte>, ghost m: seq<byte>) returns (n: nat)
      requires Buffers(m) && nx > 0
      modifies `s, `nx, x
      ensures n <= |p| && Buffers(m + p[..n]) && (nx == 0 || n == |p|)
    {
      hide Blocks, Left;
      n := |p|;
      if n > BLOCK - nx {
        n := BLOCK - nx;
      }
      ghost var before := x[..nx];
      for i := 0 to n
        invariant x[..nx] == before && x[nx..nx + i] == p[..i]
        modifies x
      {
        x[nx + i] := p[i];
      }
      assert x[..nx + n] == before + p[..n];
      if nx + n < BLOCK {
        StillShort(c, m, p[..n]);
      } else {
        FillsUp(c, m, p[..n]);
        FromBlockStart(c, m + p[..n], []);
        assert m + p[..n] + [] == m + p[..n];
      }
      nx := nx + n;
      if nx == BLOCK {
        assert x[..] == x[..nx];
        s := c(s, x[..]);
        nx := 0;
      }
    }

    // Whole blocks, then the buffer, from a block boundary on.
    method FromBoundary(p: seq<byte>, ghost m: seq<byte>)
      requires Buffers(m) && nx == 0
      modifies `s, `nx, x
      ensures Buffers(m + p)
    {
      hide Blocks, Left;
      assert x[..nx] == [];
      LeftIsNone(m);
      FromBlockStart(c, m, p);
      LeftIs(p);
      var n := Compress(p);
      var rest := p[n..];
      for i := 0 to |rest|
        invariant x[..i] == rest[..i]
        modifies x
      {
        x[i] := rest[i];
      }
      nx := |rest|;
    }

    // Write without its count.
    method Absorb(p: seq<byte>, ghost m: seq<byte>)
      requires Buffers(m)
      modifies `s, `nx, x
      ensures Buffers(m + p)
    {
      hide Blocks, Left;
      if nx == 0 {
        FromBoundary(p, m);
      } else {
        var n := Fill(p, m);
        assert m + p == m + p[..n] + p[n..];
        if nx == 0 {
          FromBoundary(p[n..], m + p[..n]);
        } else {
          assert p[..n] == p;
        }
      }
    }

    /** However the input is cut, the state is that of the input so far. */
    method Write(p: seq<byte>, ghost m: seq<byte>) returns (nn: nat)
      requires Holds(m)
      modifies `s, `nx, `tc, x
      ensures Holds(m + p) && nn == |p|
    {
      hide Blocks, Left;
      nn := |p|;
      CountsJoin(|m|, |p|);
      tc := (tc + nn % WRAP) % WRAP;
      Absorb(p, m);
    }

    // A copy, so that the caller can keep writing.
    constructor Copy(d: Digest, ghost m: seq<byte>)
      requires d.Holds(m)
      ensures c == d.c && Holds(m) && fresh(x)
    {
      c := d.c;
      s, nx, tc := d.s, d.nx, d.tc;
      var buffer := d.x;
      x := new byte[BLOCK](i reads buffer requires 0 <= i < buffer.Length == BLOCK => buffer[i]);
      new;
      assert x[..nx] == d.x[..nx];
    }

    // The padding and the length. The buffer is always empty behind them.
    method Finish(ghost m: seq<byte>)
      requires Holds(m)
      modifies `s, `nx, `tc, x
      ensures s == Blocks(c, START, Padded(m)) && nx == 0
    {
      hide Blocks, Left, Padded;
      CountsJoin(|m|, 0);
      var bits := tc * 8 % WRAP;
      var tmp := [0x80] + Zeros(63);
      var pad := if tc % 64 < 56 then tmp[..56 - tc % 64] else tmp[..64 + 56 - tc % 64];
      PadIs(|m|, tc % 64);
      var n := Write(pad, m);
      var length: seq<byte> := [];
      for i := 0 to 8
        invariant |length| == i && forall k | 0 <= k < i :: length[k] == bits / Power(k) % 256
      {
        length := length + [bits / Power(i) % 256];
      }
      LittleBytes(bits, length);
      n := Write(length, m + pad);
      PaddedIs(m);
      PaddedIsWhole(m);
      LeftIsNone(Padded(m));
      assert |x[..nx]| == nx;
    }

    /**
      Sum: the one-shot hash of the input so far, which leaves the digest as it was. The panic on a
      buffer that is not empty is never reached.
     */
    method Sum(ghost m: seq<byte>) returns (hash: seq<byte>)
      requires Holds(m)
      ensures hash == Hash(c, m) && IsHash(c, m, hash)
    {
      hide Blocks, Left, Padded, IsHash, Rendered;
      var d := new Digest.Copy(this, m);
      d.Finish(m);
      assert d.nx == 0;
      hash := Render(d.s);
      OneHash(c, m, hash);
    }
  }

  method Render(s: Context) returns (hash: seq<byte>)
    ensures hash == Rendered(s)
  {
    hide Little;
    hash := [];
    for i := 0 to 5
      invariant hash == Rendered(s[..i])
    {
      assert s[..i + 1][..i] == s[..i];
      var w := s[i];
      WordBytes(w);
      assert Little(w, 4) == [w % 256, w / 0x100 % 256, w / 0x10000 % 256, w / 0x1000000];
      hash := hash + [w % 256, w / 0x100 % 256, w / 0x10000 % 256, w / 0x1000000];
    }
    assert s[..5] == s;
  }

  lemma PadIs(n: nat, r: nat)
    requires r == n % 64
    ensures var tmp := [0x80] + Zeros(63);
            Padding(n) == if r < 56 then tmp[..56 - r] else tmp[..64 + 56 - r]
  {
  }

  lemma PaddedIs(m: seq<byte>)
    ensures Padded(m) == m + Padding(|m|) + Little(8 * |m| % WRAP, 8)
  {
  }

  function Joined(pieces: seq<seq<byte>>): seq<byte> {
    if pieces == [] then [] else Joined(pieces[..|pieces| - 1]) + pieces[|pieces| - 1]
  }

  /** Every way of cutting a message into writes gives its one-shot hash. */
  method HashOf(c: Compression, pieces: seq<seq<byte>>) returns (hash: seq<byte>)
    ensures hash == Hash(c, Joined(pieces)) && IsHash(c, Joined(pieces), hash)
  {
    hide Blocks, Left, IsHash;
    var d := new Digest(c);
    for i := 0 to |pieces|
      invariant d.c == c && d.Holds(Joined(pieces[..i])) && fresh(d) && fresh(d.x)
    {
      assert pieces[..i + 1][..i] == pieces[..i];
      var n := d.Write(pieces[i], Joined(pieces[..i]));
    }
    assert pieces[..|pieces|] == pieces;
    hash := d.Sum(Joined(pieces));
  }

  lemma LeftIs(p: seq<byte>)
    ensures Left(p) == p[|p| - |p| % 64..]
  {
  }

  lemma LeftIsNone(m: seq<byte>)
    ensures |m| % 64 == 0 <==> Left(m) == []
  {
  }
}
