/**
  The encrypted bundle file: a stream of sealed frames. internal/crypto/aead.go:117-202. The AEAD of
  one bundle key, with its associated data fixed, is a parameter.
 */
module BundleStream {
  import opened Common
  import opened Wire

  const TAG_LEN := 16
  const FRAME_LEN := 65536
  const COUNTER := 0x100000000
  const MAGIC: seq<byte> := [0x58, 0x42, 0x4B, 0x31]
  const HEADER_LEN := 20

  datatype Aead = Aead(seal: (seq<byte>, seq<byte>) -> seq<byte>, open: (seq<byte>, seq<byte>) -> Option<seq<byte>>)

  // u32 frame index, seven zero bytes, and the mark of the last frame.
  function Nonce(i: nat, final: bool): seq<byte> {
    Big(i % COUNTER, 4) + Mark(final)
  }

  function Mark(final: bool): seq<byte> {
    [0, 0, 0, 0, 0, 0, 0, if final then 1 else 0]
  }

  // Where frame i starts.
  function Start(i: nat): nat {
    65536 * i
  }

  function FrameCount(plain: seq<byte>): (n: nat)
    ensures n >= 1 && Start(n - 1) <= |plain| <= Start(n)
  {
    if plain == [] then 1 else (|plain| + FRAME_LEN - 1) / FRAME_LEN
  }

  function Frame(plain: seq<byte>, i: nat): (f: seq<byte>)
    requires i < FrameCount(plain)
    ensures |f| <= FRAME_LEN
  {
    plain[Start(i)..if i == FrameCount(plain) - 1 then |plain| else Start(i + 1)]
  }

  function SealedFrame(a: Aead, plain: seq<byte>, i: nat): seq<byte>
    requires i < FrameCount(plain)
  {
    a.seal(Nonce(i, i == FrameCount(plain) - 1), Frame(plain, i))
  }

  // The frames from the i-th on.
  function Frames(a: Aead, plain: seq<byte>, i: nat): seq<byte>
    requires i <= FrameCount(plain)
    decreases FrameCount(plain) - i
  {
    if i == FrameCount(plain) then []
    else
      var ct := SealedFrame(a, plain, i);
      Big(|ct|, 4) + ct + Frames(a, plain, i + 1)
  }

  function Sealed(a: Aead, id: seq<byte>, plain: seq<byte>): seq<byte> {
    MAGIC + id + Frames(a, plain, 0)
  }

  lemma Regroup(a: seq<byte>, b: seq<byte>, c: seq<byte>, d: seq<byte>)
    ensures a + (b + c + d) == a + b + c + d
  {
  }

  method SealBundle(a: Aead, id: seq<byte>, plain: seq<byte>) returns (out: seq<byte>)
    requires forall n, p :: |a.seal(n, p)| == |p| + TAG_LEN
    ensures out == Sealed(a, id, plain)
  {
    out := MAGIC + id;
    var frames := (|plain| + FRAME_LEN - 1) / FRAME_LEN;
    if frames == 0 {
      frames := 1;
    }
    assert frames == FrameCount(plain);
    hide Nonce, Big, FrameCount;
    for i := 0 to frames
      invariant out + Frames(a, plain, i) == Sealed(a, id, plain)
    {
      var lo := i * FRAME_LEN;
      var hi := lo + FRAME_LEN;
      if hi > |plain| {
        hi := |plain|;
      }
      assert plain[lo..hi] == Frame(plain, i);
      var ct := a.seal(Nonce(i, i == frames - 1), plain[lo..hi]);
      ghost var rest := Frames(a, plain, i + 1);
      Regroup(out, Big(|ct|, 4), ct, rest);
      out := AppendU32(out, |ct|);
      out := out + ct;
    }
    assert out + [] == out;
  }

  // ----- opening -----

  function OpenFrames(a: Aead, i: nat, s: seq<byte>): Option<seq<byte>>
    decreases |s|
  {
    if |s| < 4 then None
    else
      var l := FromBig(s[..4]);
      if l > FRAME_LEN + TAG_LEN || |s| - 4 < l then None
      else
        var ct, rest := s[4..4 + l], s[4 + l..];
        match a.open(Nonce(i, rest == []), ct)
        case None => None
        case Some(p) =>
          if rest == [] then Some(p)
          else match OpenFrames(a, i + 1, rest)
            case None => None
            case Some(q) => Some(p + q)
  }

  function Opened(a: Aead, id: seq<byte>, stream: seq<byte>): Option<seq<byte>> {
    if |stream| < HEADER_LEN || stream[..4] != MAGIC || stream[4..HEADER_LEN] != id then None
    else OpenFrames(a, 0, stream[HEADER_LEN..])
  }

  // One frame at a position of the stream.
  lemma OpenStep(a: Aead, i: nat, stream: seq<byte>, pos: nat)
    requires pos <= |stream|
    ensures OpenFrames(a, i, stream[pos..]) ==
            if pos + 4 > |stream| then None
            else
              var l := FromBig(stream[pos..pos + 4]);
              var next := pos + 4 + l;
              if l > FRAME_LEN + TAG_LEN || next > |stream| then None
              else match a.open(Nonce(i, next == |stream|), stream[pos + 4..next])
                case None => None
                case Some(p) =>
                  if next == |stream| then Some(p)
                  else match OpenFrames(a, i + 1, stream[next..])
                    case None => None
                    case Some(q) => Some(p + q)
  {
    hide FromBig, Nonce;
    var s := stream[pos..];
    if |s| >= 4 {
      assert s[..4] == stream[pos..pos + 4];
      var l := FromBig(s[..4]);
      if 4 + l <= |s| {
        assert s[4..4 + l] == stream[pos + 4..pos + 4 + l] && s[4 + l..] == stream[pos + 4 + l..];
      }
    }
  }

  method OpenBundle(a: Aead, id: seq<byte>, stream: seq<byte>) returns (r: Option<seq<byte>>)
    ensures r == Opened(a, id, stream)
  {
    hide FromBig, Nonce, OpenFrames;
    if |stream| < HEADER_LEN || stream[..4] != MAGIC || stream[4..HEADER_LEN] != id {
      return None;
    }
    var pos := HEADER_LEN;
    var out: seq<byte> := [];
    var i := 0;
    ghost var spec := OpenFrames(a, 0, stream[HEADER_LEN..]);
    assert spec.Some? ==> [] + spec.value == spec.value;
    while true
      invariant 0 <= i && HEADER_LEN <= pos <= |stream|
      invariant spec == match OpenFrames(a, i, stream[pos..]) case None => None case Some(q) => Some(out + q)
      decreases |stream| - pos
    {
      OpenStep(a, i, stream, pos);
      if pos + 4 > |stream| {
        return None;
      }
      var l := FromBig(stream[pos..pos + 4]);
      if l > FRAME_LEN + TAG_LEN {
        return None;
      }
      if pos + 4 + l > |stream| {
        return None;
      }
      var ct := stream[pos + 4..pos + 4 + l];
      pos := pos + 4 + l;
      var final := pos == |stream|;
      var p := a.open(Nonce(i, final), ct);
      if p.None? {
        return None;
      }
      ghost var before := out;
      out := out + p.value;
      if final {
        return Some(out);
      }
      i := i + 1;
      ghost var rest := OpenFrames(a, i, stream[pos..]);
      assert rest.Some? ==> before + (p.value + rest.value) == out + rest.value;
    }
  }

  // ----- what is accepted -----

  // The AEAD opens the frames of this bundle, and nothing else: its key seals no other bundle.
  ghost predicate Ideal(a: Aead, plain: seq<byte>) {
    && (forall n, p :: |a.seal(n, p)| == |p| + TAG_LEN)
    && (forall j | 0 <= j < FrameCount(plain) :: Opens(a, plain, j))
    && forall n, ct | a.open(n, ct).Some? :: SealedHere(a, plain, n, ct)
  }

  ghost predicate Opens(a: Aead, plain: seq<byte>, j: nat)
    requires j < FrameCount(plain)
  {
    a.open(Nonce(j, j == FrameCount(plain) - 1), SealedFrame(a, plain, j)) == Some(Frame(plain, j))
  }

  ghost predicate SealedHere(a: Aead, plain: seq<byte>, n: seq<byte>, ct: seq<byte>) {
    exists j :: 0 <= j < FrameCount(plain) && n == Nonce(j, j == FrameCount(plain) - 1) && ct == SealedFrame(a, plain, j)
  }

  // An AEAD that keeps a list of what it sealed, and puts an empty tag behind it.
  function Tagged(n: seq<byte>, p: seq<byte>): (ct: seq<byte>)
    ensures |ct| == |p| + TAG_LEN && ct[..|p|] == p
  {
    p + seq(TAG_LEN, _ => 0)
  }

  ghost predicate Listed(plain: seq<byte>, n: seq<byte>, ct: seq<byte>) {
    exists j :: 0 <= j < FrameCount(plain) && n == Nonce(j, j == FrameCount(plain) - 1) && ct == Tagged(n, Frame(plain, j))
  }

  ghost function Listing(plain: seq<byte>): Aead {
    Aead(Tagged, (n: seq<byte>, ct: seq<byte>) => if |ct| >= TAG_LEN && Listed(plain, n, ct) then Some(ct[..|ct| - TAG_LEN]) else None)
  }

  /** Every bundle has such an AEAD. */
  lemma IdealExists(plain: seq<byte>)
    ensures Ideal(Listing(plain), plain)
  {
    var a := Listing(plain);
    hide Nonce, Frame, FrameCount, Tagged;
    forall j | 0 <= j < FrameCount(plain)
      ensures Opens(a, plain, j)
    {
      var n := Nonce(j, j == FrameCount(plain) - 1);
      assert SealedFrame(a, plain, j) == Tagged(n, Frame(plain, j));
      assert Listed(plain, n, SealedFrame(a, plain, j));
    }
    forall n, ct | a.open(n, ct).Some?
      ensures SealedHere(a, plain, n, ct)
    {
      var j :| 0 <= j < FrameCount(plain) && n == Nonce(j, j == FrameCount(plain) - 1) && ct == Tagged(n, Frame(plain, j));
      assert ct == SealedFrame(a, plain, j);
    }
  }

  lemma NonceNames(i: nat, final: bool, j: nat, last: bool)
    requires i < COUNTER && j < COUNTER && Nonce(i, final) == Nonce(j, last)
    ensures i == j && final == last
  {
    hide *;
    NonceIs(i, final);
    NonceIs(j, last);
    Counters(i);
    Counters(j);
    MarksTell(final, last);
    SplitsAlike(Big(i, 4), Mark(final), Big(j, 4), Mark(last));
  }

  lemma NonceIs(i: nat, final: bool)
    requires i < COUNTER
    ensures Nonce(i, final) == Big(i, 4) + Mark(final)
  {
    hide Big, Mark;
    assert i % COUNTER == i;
  }

  lemma Counters(i: nat)
    requires i < COUNTER
    ensures FromBig(Big(i, 4)) == i
  {
    Powers();
    hide Big, FromBig, Pow256;
    SmallRoundTrip(i, 4);
  }

  lemma MarksTell(final: bool, last: bool)
    ensures Mark(final) == Mark(last) ==> final == last
  {
    assert Mark(final)[7] == (if final then 1 else 0) && Mark(last)[7] == (if last then 1 else 0);
  }

  lemma SplitsAlike(a: seq<byte>, b: seq<byte>, c: seq<byte>, d: seq<byte>)
    requires |a| == |c| && a + b == c + d
    ensures a == c && b == d
  {
    assert (a + b)[..|a|] == a && (c + d)[..|c|] == c && (a + b)[|a|..] == b && (c + d)[|c|..] == d;
  }

  // A frame that opens is the frame of that index, and is last exactly when it is marked last.
  lemma FrameIsGenuine(a: Aead, plain: seq<byte>, i: nat, final: bool, ct: seq<byte>)
    requires Ideal(a, plain) && i < FrameCount(plain) <= COUNTER && a.open(Nonce(i, final), ct).Some?
    ensures final == (i == FrameCount(plain) - 1) && ct == SealedFrame(a, plain, i)
    ensures a.open(Nonce(i, final), ct) == Some(Frame(plain, i))
  {
    assert SealedHere(a, plain, Nonce(i, final), ct);
    var j: nat :| j < FrameCount(plain) && Nonce(i, final) == Nonce(j, j == FrameCount(plain) - 1) && ct == SealedFrame(a, plain, j);
    NonceNames(i, final, j, j == FrameCount(plain) - 1);
    assert Opens(a, plain, i);
  }

  lemma Cut(s: seq<byte>, l: nat)
    requires |s| >= 4 + l && l == FromBig(s[..4])
    ensures s == Big(l, 4) + s[4..4 + l] + s[4 + l..]
  {
    BigOfFromBig(s[..4]);
    hide Big, FromBig;
    assert Big(l, 4) == s[..4];
    assert s == s[..4] + s[4..4 + l] + s[4 + l..];
  }

  lemma FrameJoins(plain: seq<byte>, i: nat)
    requires i < FrameCount(plain)
    ensures Start(i) <= |plain|
    ensures plain[Start(i)..] ==
            if i == FrameCount(plain) - 1 then Frame(plain, i) else Frame(plain, i) + plain[Start(i + 1)..]
  {
    var n := FrameCount(plain);
    assert Start(i) <= Start(n - 1) <= |plain|;
    if i < n - 1 {
      assert Start(i + 1) <= |plain|;
      assert Frame(plain, i) == plain[Start(i)..Start(i + 1)];
      assert plain[Start(i)..] == plain[Start(i)..Start(i + 1)] + plain[Start(i + 1)..];
    }
  }

  lemma {:induction false} OpenedIsSealed(a: Aead, plain: seq<byte>, i: nat, s: seq<byte>)
    requires Ideal(a, plain) && i < FrameCount(plain) <= COUNTER && OpenFrames(a, i, s).Some?
    ensures s == Frames(a, plain, i) && Start(i) <= |plain| && OpenFrames(a, i, s).value == plain[Start(i)..]
    decreases |s|
  {
    hide Ideal, Nonce, SealedFrame, FromBig, Big, Frame, FrameCount;
    var l := FromBig(s[..4]);
    var ct, rest := s[4..4 + l], s[4 + l..];
    FrameIsGenuine(a, plain, i, rest == [], ct);
    Cut(s, l);
    FrameJoins(plain, i);
    if rest == [] {
      RestIsMore(a, plain, i + 1);
    } else {
      OpenedIsSealed(a, plain, i + 1, rest);
    }
  }

  lemma Slices(a: seq<byte>, b: seq<byte>, c: seq<byte>)
    ensures (a + b + c)[..|a|] == a && (a + b + c)[|a|..|a| + |b|] == b && (a + b + c)[|a| + |b|..] == c
  {
  }

  lemma OneFrameOpens(a: Aead, i: nat, size: seq<byte>, ct: seq<byte>, rest: seq<byte>, p: seq<byte>)
    requires |size| == 4 && FromBig(size) == |ct| <= FRAME_LEN + TAG_LEN && a.open(Nonce(i, rest == []), ct) == Some(p)
    ensures OpenFrames(a, i, size + ct + rest) ==
            if rest == [] then Some(p)
            else match OpenFrames(a, i + 1, rest) case None => None case Some(q) => Some(p + q)
  {
    hide FromBig, Nonce;
    Slices(size, ct, rest);
  }

  lemma {:induction false} SealedOpens(a: Aead, plain: seq<byte>, i: nat)
    requires Ideal(a, plain) && i < FrameCount(plain) <= COUNTER
    ensures Start(i) <= |plain| && OpenFrames(a, i, Frames(a, plain, i)) == Some(plain[Start(i)..])
    decreases FrameCount(plain) - i
  {
    hide *;
    var ct, rest := SealedFrame(a, plain, i), Frames(a, plain, i + 1);
    SealedFits(a, plain, i);
    FrameHead(a, plain, i);
    RestIsMore(a, plain, i + 1);
    OneFrameOpens(a, i, Big(|ct|, 4), ct, rest, Frame(plain, i));
    FrameJoins(plain, i);
    if rest != [] {
      SealedOpens(a, plain, i + 1);
    }
  }

  lemma FrameHead(a: Aead, plain: seq<byte>, i: nat)
    requires i < FrameCount(plain) && |SealedFrame(a, plain, i)| < COUNTER
    ensures var ct := SealedFrame(a, plain, i);
            && Frames(a, plain, i) == Big(|ct|, 4) + ct + Frames(a, plain, i + 1)
            && FromBig(Big(|ct|, 4)) == |ct|
  {
    Powers();
    hide SealedFrame, FrameCount, FromBig, Big, Pow256;
    SmallRoundTrip(|SealedFrame(a, plain, i)|, 4);
  }

  lemma SealedFits(a: Aead, plain: seq<byte>, i: nat)
    requires Ideal(a, plain) && i < FrameCount(plain)
    ensures var ct := SealedFrame(a, plain, i);
            |ct| == |Frame(plain, i)| + TAG_LEN <= FRAME_LEN + TAG_LEN < COUNTER
            && a.open(Nonce(i, i == FrameCount(plain) - 1), ct) == Some(Frame(plain, i))
  {
    assert Opens(a, plain, i);
  }

  lemma RestIsMore(a: Aead, plain: seq<byte>, i: nat)
    requires i <= FrameCount(plain)
    ensures Frames(a, plain, i) == [] <==> i == FrameCount(plain)
  {
  }

  /**
    A stream is accepted exactly when it is the sealed one, byte for byte; then it gives the plaintext.
    Cutting at a frame boundary, extending, reordering and framing anew all fail. The condition is that
    the frame counter has not wrapped.
   */
  lemma OnlyTheSealedStreamOpens(a: Aead, id: seq<byte>, plain: seq<byte>, stream: seq<byte>)
    requires Ideal(a, plain) && |id| == 16 && FrameCount(plain) <= COUNTER
    ensures Opened(a, id, stream) == if stream == Sealed(a, id, plain) then Some(plain) else None
  {
    hide Ideal, OpenFrames, Frames, FrameCount;
    var frames := Frames(a, plain, 0);
    HeaderCuts(id, frames);
    assert plain[0..] == plain;
    SealedOpens(a, plain, 0);
    if Opened(a, id, stream).Some? {
      OpenedIsSealed(a, plain, 0, stream[HEADER_LEN..]);
      HeaderJoins(id, stream);
    }
  }

  lemma HeaderCuts(id: seq<byte>, frames: seq<byte>)
    requires |id| == 16
    ensures var s := MAGIC + id + frames; |s| >= HEADER_LEN && s[..4] == MAGIC && s[4..HEADER_LEN] == id && s[HEADER_LEN..] == frames
  {
  }

  lemma HeaderJoins(id: seq<byte>, stream: seq<byte>)
    requires |stream| >= HEADER_LEN && stream[..4] == MAGIC && stream[4..HEADER_LEN] == id
    ensures stream == MAGIC + id + stream[HEADER_LEN..]
  {
    assert stream == stream[..4] + stream[4..HEADER_LEN] + stream[HEADER_LEN..];
  }

  /** What wraps: past 2^32 frames, two frames share a nonce. */
  lemma NoncesRepeatPastTheCounter(i: nat)
    ensures Nonce(i + COUNTER, false) == Nonce(i, false)
  {
    assert (i + COUNTER) % COUNTER == i % COUNTER;
  }

  // ----- the bytes of a stream -----

  // The frames, each behind its length.
  ghost function Framed(frames: seq<seq<byte>>): seq<byte>
    requires forall i | 0 <= i < |frames| :: |frames[i]| < 0x100000000
  {
    if frames == [] then [] else Four(|frames[0]|) + frames[0] + Framed(frames[1..])
  }

  // Frame i of n: 64 KiB of the plaintext, the rest in the last, under the frame's index and the mark of the last.
  ghost predicate IsFrame(a: Aead, plain: seq<byte>, i: nat, n: nat, frame: seq<byte>)
    requires i < n
  {
    && 65536 * i <= |plain| && (i < n - 1 ==> 65536 * (i + 1) <= |plain|) && |frame| < 0x100000000
    && frame == a.seal(Four(i % 0x100000000) + [0, 0, 0, 0, 0, 0, 0, if i == n - 1 then 1 else 0],
                       if i == n - 1 then plain[65536 * i..] else plain[65536 * i..65536 * (i + 1)])
  }

  // As many frames as the plaintext needs, and one for an empty plaintext.
  ghost predicate IsStream(a: Aead, id: seq<byte>, plain: seq<byte>, stream: seq<byte>, frames: seq<seq<byte>>) {
    var n := |frames|;
    && n >= 1 && (n == 1 || 65536 * (n - 1) < |plain|) && |plain| <= 65536 * n
    && (forall i: nat | i < n :: IsFrame(a, plain, i, n, frames[i]))
    && stream == [0x58, 0x42, 0x4B, 0x31] + id + Framed(frames)
  }

  lemma FrameIs(a: Aead, plain: seq<byte>, i: nat)
    requires i < FrameCount(plain) && forall n, p :: |a.seal(n, p)| == |p| + TAG_LEN
    ensures IsFrame(a, plain, i, FrameCount(plain), SealedFrame(a, plain, i))
  {
    BigIsFour(i % COUNTER);
    hide Big, Four;
    FrameJoins(plain, i);
    SealedIsShort(a, plain, i);
    if i < FrameCount(plain) - 1 {
      FrameJoins(plain, i + 1);
    } else {
      assert Frame(plain, i) == plain[65536 * i..];
    }
  }

  lemma {:induction false} FramesFrom(a: Aead, plain: seq<byte>, i: nat) returns (frames: seq<seq<byte>>)
    requires i <= FrameCount(plain) && forall n, p :: |a.seal(n, p)| == |p| + TAG_LEN
    ensures |frames| == FrameCount(plain) - i
    ensures forall k: nat | k < |frames| :: IsFrame(a, plain, i + k, FrameCount(plain), frames[k]) && |frames[k]| < 0x100000000
    ensures Frames(a, plain, i) == Framed(frames)
    decreases FrameCount(plain) - i
  {
    hide SealedFrame, IsFrame, FrameCount;
    frames := [];
    if i < FrameCount(plain) {
      var ct := SealedFrame(a, plain, i);
      SealedIsShort(a, plain, i);
      FrameIs(a, plain, i);
      var rest := FramesFrom(a, plain, i + 1);
      frames := [ct] + rest;
      BigIsFour(|ct|);
      hide Big, Four;
      assert frames[1..] == rest;
      forall k: nat | k < |frames|
        ensures IsFrame(a, plain, i + k, FrameCount(plain), frames[k]) && |frames[k]| < 0x100000000
      {
        if k > 0 {
          assert frames[k] == rest[k - 1] && i + k == i + 1 + (k - 1);
        }
      }
    }
  }

  lemma SealedIsShort(a: Aead, plain: seq<byte>, i: nat)
    requires i < FrameCount(plain) && forall n, p :: |a.seal(n, p)| == |p| + TAG_LEN
    ensures |SealedFrame(a, plain, i)| < 0x100000000
  {
    hide Nonce, Frame, FrameCount;
  }

  /** What a sealed bundle is made of, byte for byte. */
  lemma SealedIsStream(a: Aead, id: seq<byte>, plain: seq<byte>) returns (frames: seq<seq<byte>>)
    requires forall n, p :: |a.seal(n, p)| == |p| + TAG_LEN
    ensures IsStream(a, id, plain, Sealed(a, id, plain), frames)
  {
    frames := FramesFrom(a, plain, 0);
    forall i: nat | i < |frames|
      ensures IsFrame(a, plain, i, |frames|, frames[i])
    {
      assert IsFrame(a, plain, 0 + i, FrameCount(plain), frames[i]);
    }
    hide IsFrame, Framed, Frames;
  }
}
