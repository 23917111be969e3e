/** XRPL base58 with its checksum wrapper: internal/xrpl/sign/base58.go:11-104. */
module Base58 {
  import opened Common
  import opened Wire

  const BASE: nat := 58

  // The XRPL alphabet.
  function Letter(v: nat): char
    requires v < BASE
  {
    match v
    case 0 => 'r' case 1 => 'p' case 2 => 's' case 3 => 'h' case 4 => 'n' case 5 => 'a'
    case 6 => 'f' case 7 => '3' case 8 => '9' case 9 => 'w' case 10 => 'B' case 11 => 'U'
    case 12 => 'D' case 13 => 'N' case 14 => 'E' case 15 => 'G' case 16 => 'H' case 17 => 'J'
    case 18 => 'K' case 19 => 'L' case 20 => 'M' case 21 => '4' case 22 => 'P' case 23 => 'Q'
    case 24 => 'R' case 25 => 'S' case 26 => 'T' case 27 => '7' case 28 => 'V' case 29 => 'W'
    case 30 => 'X' case 31 => 'Y' case 32 => 'Z' case 33 => '2' case 34 => 'b' case 35 => 'c'
    case 36 => 'd' case 37 => 'e' case 38 => 'C' case 39 => 'g' case 40 => '6' case 41 => '5'
    case 42 => 'j' case 43 => 'k' case 44 => 'm' case 45 => '8' case 46 => 'o' case 47 => 'F'
    case 48 => 'q' case 49 => 'i' case 50 => '1' case 51 => 't' case 52 => 'u' case 53 => 'v'
    case 54 => 'A' case 55 => 'x' case 56 => 'y' case _ => 'z'
  }

  // decodeMap: the value of a letter, if it is one.
  function Value(c: char): Option<nat> {
    match c
    case 'r' => Some(0) case 'p' => Some(1) case 's' => Some(2) case 'h' => Some(3) case 'n' => Some(4)
    case 'a' => Some(5) case 'f' => Some(6) case '3' => Some(7) case '9' => Some(8) case 'w' => Some(9)
    case 'B' => Some(10) case 'U' => Some(11) case 'D' => Some(12) case 'N' => Some(13) case 'E' => Some(14)
    case 'G' => Some(15) case 'H' => Some(16) case 'J' => Some(17) case 'K' => Some(18) case 'L' => Some(19)
    case 'M' => Some(20) case '4' => Some(21) case 'P' => Some(22) case 'Q' => Some(23) case 'R' => Some(24)
    case 'S' => Some(25) case 'T' => Some(26) case '7' => Some(27) case 'V' => Some(28) case 'W' => Some(29)
    case 'X' => Some(30) case 'Y' => Some(31) case 'Z' => Some(32) case '2' => Some(33) case 'b' => Some(34)
    case 'c' => Some(35) case 'd' => Some(36) case 'e' => Some(37) case 'C' => Some(38) case 'g' => Some(39)
    case '6' => Some(40) case '5' => Some(41) case 'j' => Some(42) case 'k' => Some(43) case 'm' => Some(44)
    case '8' => Some(45) case 'o' => Some(46) case 'F' => Some(47) case 'q' => Some(48) case 'i' => Some(49)
    case '1' => Some(50) case 't' => Some(51) case 'u' => Some(52) case 'v' => Some(53) case 'A' => Some(54)
    case 'x' => Some(55) case 'y' => Some(56) case 'z' => Some(57)
    case _ => None
  }

  /** Each value has its own letter. */
  lemma ValueOfLetter(v: nat)
    requires v < BASE
    ensures Value(Letter(v)) == Some(v)
  {
  }

  lemma LetterOfValue(c: char)
    ensures Value(c).Some? ==> Value(c).value < BASE && Letter(Value(c).value) == c
  {
  }

  // ----- numbers in any base -----

  predicate DigitsOf(base: nat, ds: seq<nat>) {
    forall i | 0 <= i < |ds| :: ds[i] < base
  }

  function Val(base: nat, ds: seq<nat>): nat {
    if ds == [] then 0 else Val(base, ds[..|ds| - 1]) * base + ds[|ds| - 1]
  }

  // The digits of x, the highest first; none for 0.
  function Pos(base: nat, x: nat): (ds: seq<nat>)
    requires base >= 2
    ensures DigitsOf(base, ds)
  {
    if x == 0 then []
    else
      Smaller(x, base);
      Pos(base, x / base) + [x % base]
  }

  lemma Smaller(x: nat, base: nat)
    requires x > 0 && base >= 2
    ensures x / base < x && x == x / base * base + x % base
  {
    DivisionSplits(x, base);
    AtLeastTwice(x / base, base);
  }

  lemma DivisionSplits(x: nat, base: nat)
    requires base >= 2
    ensures x == x / base * base + x % base
  {
  }

  lemma AtLeastTwice(q: nat, base: nat)
    requires base >= 2
    ensures q * base >= q + q
  {
    NextMultiple(1, base, q);
  }

  lemma ValStep(base: nat, front: seq<nat>, d: nat)
    ensures Val(base, front + [d]) == Val(base, front) * base + d
  {
    assert (front + [d])[..|front|] == front;
  }

  lemma PosStep(base: nat, v: nat, d: nat)
    requires base >= 2 && d < base
    ensures v * base + d >= 0
    ensures Pos(base, v * base + d) == if v == 0 && d == 0 then [] else Pos(base, v) + [d]
  {
    DivRest(v * base + d, base, v, d);
    if v > 0 {
      NextMultiple(0, v, base);
    } else {
      assert v * base == 0;
    }
  }

  function Zeros(ds: seq<nat>): (n: nat)
    ensures n <= |ds|
  {
    if ds != [] && ds[0] == 0 then 1 + Zeros(ds[1..]) else 0
  }

  function Padding(n: nat): (s: seq<byte>)
    ensures |s| == n && forall i | 0 <= i < n :: s[i] == 0
  {
    seq(n, _ => 0)
  }

  function LetterPadding(n: nat): (s: string)
    ensures |s| == n && forall i | 0 <= i < n :: s[i] == Letter(0)
  {
    seq(n, _ => Letter(0))
  }

  lemma {:induction false} ZerosLead(ds: seq<nat>)
    ensures ds[..Zeros(ds)] == Padding(Zeros(ds))
    ensures Zeros(ds) < |ds| ==> ds[Zeros(ds)] != 0
  {
    if ds != [] && ds[0] == 0 {
      ZerosLead(ds[1..]);
      forall i | 0 <= i < Zeros(ds)
        ensures ds[i] == 0
      {
        assert i == 0 || ds[i] == ds[1..][i - 1] == ds[1..][..Zeros(ds[1..])][i - 1];
      }
    }
  }

  lemma {:induction false} ValOfPos(base: nat, x: nat)
    requires base >= 2
    ensures Val(base, Pos(base, x)) == x
    ensures Zeros(Pos(base, x)) == 0
  {
    if x > 0 {
      Smaller(x, base);
      var q, r := x / base, x % base;
      var front := Pos(base, q);
      ValOfPos(base, q);
      assert Pos(base, x) == front + [r];
      NoDigits(base, q);
      hide Val, Pos;
      ValStep(base, front, r);
      ZerosEnd(front, r);
    }
  }

  lemma NoDigits(base: nat, x: nat)
    requires base >= 2
    ensures Pos(base, x) == [] <==> x == 0
  {
  }

  lemma {:induction false} ZerosEnd(ds: seq<nat>, d: nat)
    ensures Zeros(ds + [d]) == if Zeros(ds) < |ds| then Zeros(ds) else |ds| + if d == 0 then 1 else 0
  {
    if ds == [] {
      assert (ds + [d])[1..] == [];
    } else if ds[0] == 0 {
      assert (ds + [d])[1..] == ds[1..] + [d];
      ZerosEnd(ds[1..], d);
    }
  }

  lemma {:induction false} PosOfVal(base: nat, ds: seq<nat>)
    requires base >= 2 && DigitsOf(base, ds)
    ensures Pos(base, Val(base, ds)) == ds[Zeros(ds)..]
    ensures Val(base, ds) == 0 <==> Zeros(ds) == |ds|
  {
    if ds != [] {
      hide Val, Pos, Zeros;
      var front, d := ds[..|ds| - 1], ds[|ds| - 1];
      var v := Val(base, front);
      PosOfVal(base, front);
      assert ds == front + [d];
      ValStep(base, front, d);
      ZerosEnd(front, d);
      PosStep(base, v, d);
      NoDigits(base, v);
      NoDigits(base, v * base + d);
      assert ds[Zeros(ds)..] == if v == 0 && d == 0 then [] else front[Zeros(front)..] + [d];
    }
  }

  // ----- base58 -----

  function Letters(ds: seq<nat>): (s: string)
    requires DigitsOf(BASE, ds)
    ensures |s| == |ds|
  {
    seq(|ds|, i requires 0 <= i < |ds| => Letter(ds[i]))
  }

  predicate OverAlphabet(s: string) {
    forall i | 0 <= i < |s| :: Value(s[i]).Some?
  }

  function Values(s: string): (ds: seq<nat>)
    requires OverAlphabet(s)
    ensures |ds| == |s|
  {
    seq(|s|, i requires 0 <= i < |s| => Value(s[i]).value)
  }

  // Leading zero bytes become as many letters of value 0; the rest is the number in base 58.
  function Encoded(b: seq<byte>): string {
    LetterPadding(Zeros(b)) + Letters(Pos(BASE, Val(256, b)))
  }

  function Decoded(s: string): Option<seq<byte>> {
    if !OverAlphabet(s) then None
    else
      var ds := Values(s);
      var bytes: seq<byte> := Pos(256, Val(BASE, ds));
      Some(Padding(Zeros(ds)) + bytes)
  }

  lemma {:induction false} ZerosOfPadded(z: nat, ds: seq<nat>)
    requires Zeros(ds) == 0
    ensures Zeros(Padding(z) + ds) == z
  {
    if z == 0 {
      assert Padding(0) + ds == ds;
    } else {
      assert (Padding(z) + ds)[1..] == Padding(z - 1) + ds;
      ZerosOfPadded(z - 1, ds);
    }
  }

  lemma {:induction false} ValOfZeros(base: nat, z: nat)
    ensures Val(base, Padding(z)) == 0
  {
    if z > 0 {
      ValOfZeros(base, z - 1);
      assert Padding(z)[..z - 1] == Padding(z - 1);
      assert 0 * base == 0;
    }
  }

  lemma {:induction false} ValOfPadded(base: nat, z: nat, ds: seq<nat>)
    ensures Val(base, Padding(z) + ds) == Val(base, ds)
    decreases |ds|
  {
    if ds == [] {
      assert Padding(z) + ds == Padding(z);
      ValOfZeros(base, z);
    } else {
      var front, d := ds[..|ds| - 1], ds[|ds| - 1];
      ValOfPadded(base, z, front);
      assert Padding(z) + ds == (Padding(z) + front) + [d] && ds == front + [d];
      hide Val;
      ValStep(base, Padding(z) + front, d);
      ValStep(base, front, d);
    }
  }

  lemma LettersBack(ds: seq<nat>)
    requires DigitsOf(BASE, ds)
    ensures OverAlphabet(Letters(ds)) && Values(Letters(ds)) == ds
  {
    hide Letter, Value;
    forall i | 0 <= i < |ds|
      ensures Value(Letters(ds)[i]) == Some(ds[i])
    {
      ValueOfLetter(ds[i]);
    }
  }

  lemma ValuesBack(s: string)
    requires OverAlphabet(s)
    ensures DigitsOf(BASE, Values(s)) && Letters(Values(s)) == s
  {
    hide Letter, Value;
    forall i | 0 <= i < |s|
      ensures Value(s[i]).value < BASE && Letter(Value(s[i]).value) == s[i]
    {
      LetterOfValue(s[i]);
    }
  }

  // The encoding is the letters of the padded digits.
  lemma EncodedIsLetters(b: seq<byte>)
    ensures var ds := Padding(Zeros(b)) + Pos(BASE, Val(256, b));
            DigitsOf(BASE, ds) && Encoded(b) == Letters(ds)
  {
    hide Letter, Pos, Val, Zeros;
    LettersJoin(Zeros(b), Pos(BASE, Val(256, b)));
  }

  lemma LettersJoin(z: nat, ds: seq<nat>)
    requires DigitsOf(BASE, ds)
    ensures DigitsOf(BASE, Padding(z) + ds) && Letters(Padding(z) + ds) == LetterPadding(z) + Letters(ds)
  {
    hide Letter;
  }

  lemma DecodedOfLetters(ds: seq<nat>)
    requires DigitsOf(BASE, ds)
    ensures Decoded(Letters(ds)) == Some(Padding(Zeros(ds)) + Pos(256, Val(BASE, ds)))
  {
    LettersBack(ds);
    hide Letter, Value, Letters, Pos, Val, Zeros, Values, OverAlphabet;
  }

  lemma DecodedOfText(s: string)
    requires OverAlphabet(s)
    ensures Decoded(s) == Some(Padding(Zeros(Values(s))) + Pos(256, Val(BASE, Values(s))))
  {
    hide Value, Pos, Val, Zeros, Values;
  }

  // A number without leading zeros and its padding, in both bases.
  lemma PaddedNumber(base: nat, other: nat, ds: seq<nat>)
    requires base >= 2 && other >= 2 && DigitsOf(base, ds)
    ensures var padded := Padding(Zeros(ds)) + Pos(other, Val(base, ds));
            Zeros(padded) == Zeros(ds) && Val(other, padded) == Val(base, ds)
    ensures Padding(Zeros(ds)) + Pos(base, Val(base, ds)) == ds
  {
    var v := Val(base, ds);
    hide Val, Pos, Zeros;
    ValOfPos(other, v);
    ZerosOfPadded(Zeros(ds), Pos(other, v));
    ValOfPadded(other, Zeros(ds), Pos(other, v));
    PosOfVal(base, ds);
    ZerosLead(ds);
    assert ds == ds[..Zeros(ds)] + ds[Zeros(ds)..];
  }

  /** Decoding gives back every byte string, leading zeros included. */
  lemma DecodeInvertsEncode(b: seq<byte>)
    ensures Decoded(Encoded(b)) == Some(b)
  {
    var ds := Padding(Zeros(b)) + Pos(BASE, Val(256, b));
    hide Letter, Value, Letters, Values, OverAlphabet, Pos, Val, Zeros, Encoded, Decoded, Padding;
    PaddedNumber(256, BASE, b);
    EncodedIsLetters(b);
    DecodedOfLetters(ds);
  }

  /** Encoding gives back every string over the alphabet. */
  lemma EncodeInvertsDecode(s: string)
    requires OverAlphabet(s)
    ensures Decoded(s).Some? && Encoded(Decoded(s).value) == s
  {
    hide Letter, Value, Letters, Values, OverAlphabet, Pos, Val, Zeros, Encoded, Decoded, Padding;
    ValuesBack(s);
    PaddedNumber(BASE, 256, Values(s));
    DecodedOfText(s);
    EncodedIsLetters(Decoded(s).value);
  }

  // ----- as it runs -----

  function Reversed(s: string): (r: string)
    ensures |r| == |s|
  {
    seq(|s|, i requires 0 <= i < |s| => s[|s| - 1 - i])
  }

  method ReverseInPlace(a: array<char>)
    modifies a
    ensures a[..] == Reversed(old(a[..]))
  {
    var i, j := 0, a.Length - 1;
    while i < j
      invariant 0 <= i && i + j == a.Length - 1 && i <= j + 1
      invariant forall k | 0 <= k < i :: a[k] == old(a[a.Length - 1 - k]) && a[a.Length - 1 - k] == old(a[k])
      invariant forall k | i <= k <= j :: a[k] == old(a[k])
    {
      a[i], a[j] := a[j], a[i];
      i, j := i + 1, j - 1;
    }
  }

  lemma LastLetter(x: nat)
    requires x > 0
    ensures Letters(Pos(BASE, x)) == Letters(Pos(BASE, x / BASE)) + [Letter(x % BASE)]
  {
    var front, d := Pos(BASE, x / BASE), x % BASE;
    assert Pos(BASE, x) == front + [d];
    hide *;
    LettersMore(front, d);
  }

  lemma LettersMore(ds: seq<nat>, d: nat)
    requires DigitsOf(BASE, ds) && d < BASE
    ensures DigitsOf(BASE, ds + [d]) && Letters(ds + [d]) == Letters(ds) + [Letter(d)]
  {
    hide Letter;
  }

  lemma ReversedGrows(s: string, c: char)
    ensures Reversed(s + [c]) == [c] + Reversed(s)
  {
  }

  method EncodeBase58(b: seq<byte>) returns (r: string)
    ensures r == Encoded(b)
  {
    hide Letter, Pos, Val, Letters, Reversed;
    var x: nat := Val(256, b);
    var out := "";
    assert Letters(Pos(BASE, x)) + Reversed(out) == Letters(Pos(BASE, x));
    while x > 0
      invariant Letters(Pos(BASE, x)) + Reversed(out) == Letters(Pos(BASE, Val(256, b)))
    {
      ghost var front := Letters(Pos(BASE, x / BASE));
      LastLetter(x);
      ReversedGrows(out, Letter(x % BASE));
      assert front + [Letter(x % BASE)] + Reversed(out) == front + ([Letter(x % BASE)] + Reversed(out));
      out := out + [Letter(x % BASE)];
      x := x / BASE;
    }
    NoDigits(BASE, 0);
    assert Letters([]) + Reversed(out) == Reversed(out);
    ghost var number := Reversed(out);
    var i := 0;
    assert LetterPadding(0) + number == number;
    while i < |b| && b[i] == 0
      invariant 0 <= i <= |b| && Zeros(b) == i + Zeros(b[i..])
      invariant Reversed(out) == LetterPadding(i) + number
    {
      assert b[i..][1..] == b[i + 1..];
      ReversedGrows(out, Letter(0));
      assert [Letter(0)] + (LetterPadding(i) + number) == LetterPadding(i + 1) + number;
      out := out + [Letter(0)];
      i := i + 1;
    }
    var a := new char[|out|](k requires 0 <= k < |out| => out[k]);
    assert a[..] == out;
    ReverseInPlace(a);
    r := a[..];
  }

  method DecodeBase58(s: string) returns (r: Option<seq<byte>>)
    ensures r == Decoded(s)
  {
    hide Letter, Value, Pos, Val;
    var x: nat := 0;
    assert Val(BASE, []) == 0 by {
      ValOfNone();
    }
    for i := 0 to |s|
      invariant OverAlphabet(s[..i]) && x == Val(BASE, Values(s[..i]))
    {
      var v := Value(s[i]);
      if v.None? {
        return None;
      }
      ValStep(BASE, Values(s[..i]), v.value);
      assert Values(s[..i + 1]) == Values(s[..i]) + [v.value];
      x := x * BASE + v.value;
    }
    assert s[..|s|] == s;
    ghost var ds := Values(s);
    var zeros := 0;
    while zeros < |s| && s[zeros] == Letter(0)
      invariant 0 <= zeros <= |s| && Zeros(ds) == zeros + Zeros(ds[zeros..])
    {
      ValueOfLetter(0);
      assert ds[zeros..][1..] == ds[zeros + 1..];
      zeros := zeros + 1;
    }
    assert zeros < |s| ==> ds[zeros..][0] != 0 by {
      if zeros < |s| {
        LetterOfValue(s[zeros]);
      }
    }
    var bytes: seq<byte> := Pos(256, x);
    return Some(Padding(zeros) + bytes);
  }

  lemma ValOfNone()
    ensures Val(BASE, []) == 0
  {
  }

  // ----- with a checksum -----

  // The first 4 bytes of SHA-256 applied twice.
  datatype Checksum = Checksum(of: seq<byte> -> seq<byte>)

  const SUM_LEN := 4

  function EncodeCheck(sum: Checksum, prefix: seq<byte>, payload: seq<byte>): string {
    Encoded(prefix + payload + sum.of(prefix + payload))
  }

  method DecodeBase58Check(sum: Checksum, s: string, prefix: seq<byte>, payloadLen: nat) returns (r: Option<seq<byte>>)
    requires forall b :: |sum.of(b)| == SUM_LEN
    ensures r.Some? ==> |r.value| == payloadLen && s == EncodeCheck(sum, prefix, r.value)
    ensures r.None? ==> forall payload: seq<byte> | |payload| == payloadLen :: s != EncodeCheck(sum, prefix, payload)
  {
    hide Encoded, Decoded, Value;
    forall payload: seq<byte> | s == EncodeCheck(sum, prefix, payload)
      ensures Decoded(s) == Some(prefix + payload + sum.of(prefix + payload))
    {
      DecodeInvertsEncode(prefix + payload + sum.of(prefix + payload));
    }
    var raw := DecodeBase58(s);
    if raw.None? {
      return None;
    }
    DecodedIsOverAlphabet(s);
    EncodeInvertsDecode(s);
    var n := |prefix|;
    if |raw.value| != n + payloadLen + SUM_LEN {
      return None;
    }
    if raw.value[..n] != prefix {
      return None;
    }
    var body := raw.value[..n + payloadLen];
    if sum.of(body) != raw.value[n + payloadLen..] {
      return None;
    }
    r := Some(raw.value[n..n + payloadLen]);
    assert body == prefix + r.value;
    assert raw.value == body + raw.value[n + payloadLen..];
  }

  lemma DecodedIsOverAlphabet(s: string)
    requires Decoded(s).Some?
    ensures OverAlphabet(s)
  {
  }

  /**
    The encoding of bytes is the string over the alphabet that stands for the same number and has as many letters of
    value 0 in front as the bytes have zeros.
   */
  lemma EncodedIsTheNumber(b: seq<byte>)
    ensures var s := Encoded(b);
            && OverAlphabet(s) && Val(BASE, Values(s)) == Val(256, b) && Zeros(Values(s)) == Zeros(b)
  {
    var ds := Padding(Zeros(b)) + Pos(BASE, Val(256, b));
    hide Letter, Value, Letters, Values, OverAlphabet, Pos, Val, Zeros, Encoded, Padding;
    PaddedNumber(256, BASE, b);
    EncodedIsLetters(b);
    LettersBack(ds);
  }
}
