/**
  The file archive that backup encrypts: internal/container/container.go:22-117. The hash of an entry's
  content is a parameter.
 */
module Container {
  import opened Common
  import opened Wire
  import opened Sorting

  const MAGIC: seq<byte> := [0x58, 0x42, 0x43, 0x31]
  const HASH_LEN := 32
  const MAX_PATH := 65535
  const MODE_MASK := 4096

  datatype Entry = Entry(path: seq<byte>, mode: u32, data: seq<byte>)

  datatype EncodeError = DuplicatePath | BadPathLength

  type Hash = seq<byte> -> seq<byte>

  // ----- canonical order -----

  // Byte order on paths.
  predicate ByPath(a: Entry, b: Entry) {
    Before(a.path, b.path)
  }

  lemma PathsAreOrdered()
    ensures IsOrder(ByPath)
  {
    hide Before;
    forall a, b | ByPath(a, b)
      ensures !ByPath(b, a)
    {
      BeforeIsTotal(a.path, b.path);
    }
    forall a, b, c | ByPath(a, b) && !ByPath(c, b)
      ensures ByPath(a, c)
    {
      BeforeSteps(a.path, b.path, c.path);
    }
  }

  ghost predicate Ascending(s: seq<Entry>) {
    forall i, j | 0 <= i < j < |s| :: Before(s[i].path, s[j].path)
  }

  lemma SortSorts(s: seq<Entry>)
    ensures InOrder(ByPath, Sort(ByPath, s)) && multiset(Sort(ByPath, s)) == multiset(s)
  {
    PathsAreOrdered();
    SortOrders(ByPath, s);
  }

  // No two neighbours have one path.
  predicate NoRepeat(s: seq<Entry>) {
    forall i | 0 < i < |s| :: s[i].path != s[i - 1].path
  }

  lemma SortedAscends(s: seq<Entry>)
    requires InOrder(ByPath, s) && NoRepeat(s)
    ensures Ascending(s)
  {
    hide Before;
    forall i, j | 0 <= i < j < |s|
      ensures Before(s[i].path, s[j].path)
    {
      AscendsTo(s, i, j);
    }
  }

  lemma {:induction false} AscendsTo(s: seq<Entry>, i: nat, j: nat)
    requires InOrder(ByPath, s) && NoRepeat(s) && i < j < |s|
    ensures Before(s[i].path, s[j].path)
  {
    hide Before;
    BeforeIsTotal(s[j - 1].path, s[j].path);
    if i < j - 1 {
      AscendsTo(s, i, j - 1);
      BeforeIsTransitive(s[i].path, s[j - 1].path, s[j].path);
    }
  }

  lemma SameFirst(a: seq<Entry>, b: seq<Entry>)
    requires Ascending(a) && Ascending(b) && multiset(a) == multiset(b) && a != [] && b != []
    ensures a[0] == b[0]
  {
    hide Before;
    assert a[0] in multiset(a) && b[0] in multiset(b);
    var i :| 0 <= i < |b| && b[i] == a[0];
    var j :| 0 <= j < |a| && a[j] == b[0];
    BeforeIsTotal(a[0].path, b[0].path);
  }

  lemma Tail(a: seq<Entry>)
    requires Ascending(a) && a != []
    ensures Ascending(a[1..]) && multiset(a[1..]) == multiset(a) - multiset{a[0]} && a == [a[0]] + a[1..]
  {
    hide Before;
    assert a == [a[0]] + a[1..];
  }

  lemma NoneLeft(a: seq<Entry>, b: seq<Entry>)
    requires multiset(a) == multiset(b)
    ensures a == [] <==> b == []
  {
    assert |multiset(a)| == |a| && |multiset(b)| == |b|;
  }

  // A set of entries has one ascending order.
  lemma {:induction false} OneOrder(a: seq<Entry>, b: seq<Entry>)
    requires Ascending(a) && Ascending(b) && multiset(a) == multiset(b)
    ensures a == b
    decreases |a|
  {
    hide Before, Ascending;
    NoneLeft(a, b);
    if a != [] {
      SameFirst(a, b);
      Tail(a);
      Tail(b);
      OneOrder(a[1..], b[1..]);
    }
  }

  // ----- the bytes -----

  function EntryBytes(h: Hash, e: Entry): seq<byte> {
    Big(|e.path|, 2) + e.path + Big(e.mode % MODE_MASK, 4) + Big(|e.data|, 8) + h(e.data) + e.data
  }

  function EntriesBytes(h: Hash, s: seq<Entry>): seq<byte> {
    if s == [] then [] else EntryBytes(h, s[0]) + EntriesBytes(h, s[1..])
  }

  predicate PathFits(e: Entry) {
    0 < |e.path| <= MAX_PATH
  }

  function Encoded(h: Hash, entries: seq<Entry>): Result<seq<byte>, EncodeError> {
    var s := Sort(ByPath, entries);
    if !NoRepeat(s) then Err(DuplicatePath)
    else if exists i :: 0 <= i < |s| && !PathFits(s[i]) then Err(BadPathLength)
    else Ok(MAGIC + Big(|s|, 4) + EntriesBytes(h, s))
  }

  method Encode(h: Hash, entries: seq<Entry>) returns (r: Result<seq<byte>, EncodeError>)
    ensures r == Encoded(h, entries)
  {
    hide Big, Before, EntryBytes, Sort;
    var sorted := Sort(ByPath, entries);
    var n := 1;
    while n < |sorted|
      invariant 1 <= n && forall k | 0 < k < n && k < |sorted| :: sorted[k].path != sorted[k - 1].path
    {
      if sorted[n].path == sorted[n - 1].path {
        return Err(DuplicatePath);
      }
      n := n + 1;
    }
    var b := MAGIC + Big(|sorted|, 4);
    ghost var head := b;
    assert sorted[0..] == sorted;
    for i := 0 to |sorted|
      invariant forall k | 0 <= k < i :: PathFits(sorted[k])
      invariant b + EntriesBytes(h, sorted[i..]) == head + EntriesBytes(h, sorted)
    {
      if |sorted[i].path| == 0 || |sorted[i].path| > MAX_PATH {
        return Err(BadPathLength);
      }
      EntriesNext(h, sorted, i);
      Joins(b, EntryBytes(h, sorted[i]), EntriesBytes(h, sorted[i + 1..]));
      b := AppendEntry(h, b, sorted[i]);
    }
    assert sorted[|sorted|..] == [] && b + [] == b;
    return Ok(b);
  }

  lemma EntriesNext(h: Hash, s: seq<Entry>, i: nat)
    requires i < |s|
    ensures EntriesBytes(h, s[i..]) == EntryBytes(h, s[i]) + EntriesBytes(h, s[i + 1..])
  {
    assert s[i..][0] == s[i] && s[i..][1..] == s[i + 1..];
  }

  lemma Joins(a: seq<byte>, b: seq<byte>, c: seq<byte>)
    ensures a + (b + c) == a + b + c
  {
  }

  method AppendEntry(h: Hash, b: seq<byte>, e: Entry) returns (r: seq<byte>)
    ensures r == b + EntryBytes(h, e)
  {
    hide Big;
    r := b + Big(|e.path|, 2);
    r := r + e.path;
    r := r + Big(e.mode % MODE_MASK, 4);
    r := r + Big(|e.data|, 8);
    r := r + h(e.data);
    r := r + e.data;
    Regroup(b, Big(|e.path|, 2), e.path, Big(e.mode % MODE_MASK, 4), Big(|e.data|, 8), h(e.data), e.data);
  }

  lemma Regroup(b: seq<byte>, p: seq<byte>, q: seq<byte>, r: seq<byte>, s: seq<byte>, t: seq<byte>, u: seq<byte>)
    ensures b + p + q + r + s + t + u == b + (p + q + r + s + t + u)
  {
  }

  // ----- reading -----

  function ReadEntry(h: Hash, s: seq<byte>): (r: Read<Entry>)
    ensures r.Done? ==> |r.rest| < |s|
  {
    var path := if |s| < 2 then Bad else Take(s[2..], FromBig(s[..2]));
    if path.Bad? then Bad
    else
      var head := path.rest;
      if |head| < 12 + HASH_LEN then Bad
      else
        FromBigFits(head[..4]);
        var mode: u32 := FromBig(head[..4]);
        var size, sum := FromBig(head[4..12]), head[12..12 + HASH_LEN];
        var data := Take(head[12 + HASH_LEN..], size);
        if data.Bad? || h(data.value) != sum then Bad else Done(Entry(path.value, mode, data.value), data.rest)
  }

  lemma FromBigFits(s: seq<byte>)
    requires |s| == 4
    ensures FromBig(s) < 0x100000000
  {
    FromBigBounded(s);
    Powers();
  }

  function ReadEntries(h: Hash, s: seq<byte>, count: nat): Option<seq<Entry>> {
    if count == 0 then if s == [] then Some([]) else None
    else match ReadEntry(h, s)
      case Bad => None
      case Done(e, rest) =>
        match ReadEntries(h, rest, count - 1)
        case None => None
        case Some(es) => Some([e] + es)
  }

  function Decoded(h: Hash, b: seq<byte>): Option<seq<Entry>> {
    if |b| < 8 || b[..4] != MAGIC then None else ReadEntries(h, b[8..], FromBig(b[4..8]))
  }

  method Decode(h: Hash, b: seq<byte>) returns (r: Option<seq<Entry>>)
    ensures r == Decoded(h, b)
  {
    hide FromBig, ReadEntry;
    if |b| < 8 || b[..4] != MAGIC {
      return None;
    }
    var count, rest := FromBig(b[4..8]), b[8..];
    var out: seq<Entry> := [];
    ghost var spec := ReadEntries(h, rest, count);
    assert spec.Some? ==> [] + spec.value == spec.value;
    for i := 0 to count
      invariant spec == match ReadEntries(h, rest, count - i) case None => None case Some(es) => Some(out + es)
    {
      var e := DecodeEntry(h, rest);
      if e.Bad? {
        return None;
      }
      ghost var more := ReadEntries(h, e.rest, count - i - 1);
      assert more.Some? ==> out + ([e.value] + more.value) == out + [e.value] + more.value;
      out := out + [e.value];
      rest := e.rest;
    }
    if |rest| != 0 {
      return None;
    }
    assert out + [] == out;
    return Some(out);
  }

  method DecodeEntry(h: Hash, s: seq<byte>) returns (r: Read<Entry>)
    ensures r == ReadEntry(h, s)
  {
    hide FromBig;
    if |s| < 2 {
      return Bad;
    }
    var plen := FromBig(s[..2]);
    if 2 + plen > |s| {
      return Bad;
    }
    var path, head := s[2..2 + plen], s[2 + plen..];
    assert s[2..][..plen] == path && s[2..][plen..] == head;
    if |head| < 4 || |head| < 12 || |head| < 12 + HASH_LEN {
      return Bad;
    }
    FromBigFits(head[..4]);
    var mode: u32 := FromBig(head[..4]);
    var size, sum, body := FromBig(head[4..12]), head[12..12 + HASH_LEN], head[12 + HASH_LEN..];
    if size > |body| {
      return Bad;
    }
    var data := body[..size];
    if h(data) != sum {
      return Bad;
    }
    return Done(Entry(path, mode, data), body[size..]);
  }

  // ----- laws -----

  // No path twice, said of the entries as a multiset.
  ghost predicate OnePathEach(m: multiset<Entry>) {
    && (forall x, y | x in m && y in m && x.path == y.path :: x == y)
    && (forall x | x in m :: m[x] == 1)
  }

  lemma AscendingIsOnePathEach(t: seq<Entry>)
    requires Ascending(t)
    ensures OnePathEach(multiset(t))
  {
    hide Before;
    forall i, j | 0 <= i < j < |t|
      ensures t[i].path != t[j].path
    {
      BeforeIsTotal(t[i].path, t[j].path);
    }
    forall x | x in multiset(t)
      ensures multiset(t)[x] == 1
    {
      if multiset(t)[x] >= 2 {
        var i, j := Twice(t, x);
        assert false;
      }
    }
  }

  lemma RepeatIsTwice(t: seq<Entry>, k: nat)
    requires 0 < k < |t| && t[k].path == t[k - 1].path
    ensures !OnePathEach(multiset(t))
  {
    assert t[k] in multiset(t) && t[k - 1] in multiset(t);
    if t[k] == t[k - 1] {
      CountsTwice(t, k - 1, k);
    }
  }

  /** A repeated path is found, in whatever order the entries come. */
  lemma RepeatIsFound(s: seq<Entry>)
    ensures NoRepeat(Sort(ByPath, s)) <==> OnePathEach(multiset(s))
  {
    hide Before, OnePathEach;
    var t := Sort(ByPath, s);
    SortSorts(s);
    if NoRepeat(t) {
      SortedAscends(t);
      AscendingIsOnePathEach(t);
    } else {
      var k :| 0 < k < |t| && t[k].path == t[k - 1].path;
      RepeatIsTwice(t, k);
    }
  }

  /** The result depends only on which entries there are, not on the order they are given in. */
  lemma OrderDoesNotMatter(h: Hash, a: seq<Entry>, b: seq<Entry>)
    requires multiset(a) == multiset(b)
    ensures Encoded(h, a) == Encoded(h, b)
  {
    hide Before, EntriesBytes, OnePathEach, Sort;
    RepeatIsFound(a);
    RepeatIsFound(b);
    if NoRepeat(Sort(ByPath, a)) {
      SortSorts(a);
      SortSorts(b);
      SortedAscends(Sort(ByPath, a));
      SortedAscends(Sort(ByPath, b));
      OneOrder(Sort(ByPath, a), Sort(ByPath, b));
    }
  }

  predicate Sized(h: Hash, e: Entry) {
    |e.data| < 0x10000000000000000 && |h(e.data)| == HASH_LEN
  }

  function Masked(e: Entry): Entry {
    e.(mode := e.mode % MODE_MASK)
  }

  function AllMasked(s: seq<Entry>): (r: seq<Entry>)
    ensures |r| == |s|
  {
    seq(|s|, i requires 0 <= i < |s| => Masked(s[i]))
  }

  // Fixed-length numbers and known lengths cut an entry back into its parts.
  lemma CutEntry(p: seq<byte>, path: seq<byte>, m: seq<byte>, n: seq<byte>, sum: seq<byte>, data: seq<byte>, rest: seq<byte>)
    requires |p| == 2 && |m| == 4 && |n| == 8 && |sum| == HASH_LEN
    ensures var s := p + path + m + n + sum + data + rest;
            var head := s[2..][|path|..];
            && s[..2] == p && s[2..][..|path|] == path
            && head[..4] == m && head[4..12] == n && head[12..12 + HASH_LEN] == sum
            && head[12 + HASH_LEN..][..|data|] == data && head[12 + HASH_LEN..][|data|..] == rest
  {
    var s := p + path + m + n + sum + data + rest;
    assert s[2..] == path + (m + n + sum + data + rest);
    assert s[2..][|path|..] == m + n + sum + data + rest;
  }

  lemma EntryBack(h: Hash, e: Entry, rest: seq<byte>)
    requires PathFits(e) && Sized(h, e)
    ensures ReadEntry(h, EntryBytes(h, e) + rest) == Done(Masked(e), rest)
  {
    Powers();
    SmallRoundTrip(|e.path|, 2);
    SmallRoundTrip(e.mode % MODE_MASK, 4);
    SmallRoundTrip(|e.data|, 8);
    hide FromBig, Big, Pow256;
    CutEntry(Big(|e.path|, 2), e.path, Big(e.mode % MODE_MASK, 4), Big(|e.data|, 8), h(e.data), e.data, rest);
  }

  lemma MaskedSplits(s: seq<Entry>)
    requires s != []
    ensures AllMasked(s) == [Masked(s[0])] + AllMasked(s[1..])
  {
  }

  ghost predicate Fits(h: Hash, s: seq<Entry>) {
    forall i | 0 <= i < |s| :: PathFits(s[i]) && Sized(h, s[i])
  }

  lemma {:induction false} EntriesBack(h: Hash, s: seq<Entry>)
    requires Fits(h, s)
    ensures ReadEntries(h, EntriesBytes(h, s), |s|) == Some(AllMasked(s))
  {
    if s != [] {
      assert Fits(h, s[1..]) && PathFits(s[0]) && Sized(h, s[0]);
      hide ReadEntry, EntryBytes, PathFits, Sized, Fits, AllMasked;
      EntryBack(h, s[0], EntriesBytes(h, s[1..]));
      EntriesBack(h, s[1..]);
      MaskedSplits(s);
    }
  }

  lemma CutHead(m: seq<byte>, n: seq<byte>, rest: seq<byte>)
    requires |m| == 4 && |n| == 4
    ensures (m + n + rest)[..4] == m && (m + n + rest)[4..8] == n && (m + n + rest)[8..] == rest
  {
  }

  lemma SortedFrom(entries: seq<Entry>, i: nat)
    requires i < |entries|
    ensures Sort(ByPath, entries)[i] in entries
  {
    SortSorts(entries);
    hide Sort;
    assert Sort(ByPath, entries)[i] in multiset(Sort(ByPath, entries));
  }

  lemma EncodedWhenFit(h: Hash, entries: seq<Entry>)
    requires Encoded(h, entries).Ok?
    ensures forall i | 0 <= i < |entries| :: PathFits(Sort(ByPath, entries)[i])
    ensures Encoded(h, entries).value == MAGIC + Big(|entries|, 4) + EntriesBytes(h, Sort(ByPath, entries))
  {
    hide Sort, PathFits, Big, EntriesBytes, NoRepeat;
  }

  lemma SortFits(h: Hash, entries: seq<Entry>)
    requires Encoded(h, entries).Ok? && forall i | 0 <= i < |entries| :: Sized(h, entries[i])
    ensures Fits(h, Sort(ByPath, entries))
    ensures Encoded(h, entries).value == MAGIC + Big(|entries|, 4) + EntriesBytes(h, Sort(ByPath, entries))
  {
    hide Sized, Before, EntriesBytes, Big, Sort, PathFits, Encoded;
    EncodedWhenFit(h, entries);
    var s := Sort(ByPath, entries);
    forall i | 0 <= i < |s|
      ensures PathFits(s[i]) && Sized(h, s[i])
    {
      SortedFrom(entries, i);
    }
  }

  /** Decode gives back what Encode was given, in path order and with the mode masked to 12 bits. */
  lemma DecodeInvertsEncode(h: Hash, entries: seq<Entry>)
    requires Encoded(h, entries).Ok? && |entries| < 0x100000000
    requires forall i | 0 <= i < |entries| :: Sized(h, entries[i])
    ensures Decoded(h, Encoded(h, entries).value) == Some(AllMasked(Sort(ByPath, entries)))
  {
    SortFits(h, entries);
    Powers();
    SmallRoundTrip(|entries|, 4);
    hide FromBig, Big, Pow256, Sort, EntriesBytes, ReadEntries, Before, AllMasked, Fits, Encoded, Sized;
    EntriesBack(h, Sort(ByPath, entries));
    CutHead(MAGIC, Big(|entries|, 4), EntriesBytes(h, Sort(ByPath, entries)));
  }

  // ----- what is accepted -----

  ghost predicate Legible(h: Hash, e: Entry) {
    |e.path| < 0x10000 && |e.data| < 0x10000000000000000 && |h(e.data)| == HASH_LEN
  }

  // One entry: path length and path, mode, content length, the hash of the content, and the content.
  function Layout(h: Hash, e: Entry): seq<byte>
    requires |e.path| < 0x10000 && |e.data| < 0x10000000000000000
  {
    Two(|e.path|) + e.path + Four(e.mode) + Eight(|e.data|) + h(e.data) + e.data
  }

  ghost predicate AllLegible(h: Hash, es: seq<Entry>) {
    es == [] || (Legible(h, es[0]) && AllLegible(h, es[1..]))
  }

  ghost function Layouts(h: Hash, es: seq<Entry>): seq<byte>
    requires AllLegible(h, es)
  {
    if es == [] then [] else Layout(h, es[0]) + Layouts(h, es[1..])
  }

  ghost predicate IsArchive(h: Hash, b: seq<byte>, es: seq<Entry>) {
    |es| < 0x100000000 && AllLegible(h, es) && b == [0x58, 0x42, 0x43, 0x31] + Four(|es|) + Layouts(h, es)
  }

  lemma LegibleIsRead(h: Hash, e: Entry, rest: seq<byte>)
    requires Legible(h, e)
    ensures ReadEntry(h, Layout(h, e) + rest) == Done(e, rest)
  {
    NumberOfBytes(|e.path|);
    NumberOfBytes(e.mode);
    NumberOfBytes(|e.data|);
    CutEntry(Two(|e.path|), e.path, Four(e.mode), Eight(|e.data|), h(e.data), e.data, rest);
    hide FromBig, Two, Four, Eight;
  }

  lemma Rejoined(s: seq<byte>, path: seq<byte>, head: seq<byte>, data: seq<byte>, rest: seq<byte>)
    requires |s| >= 2 && s[2..] == path + head && |head| >= 12 + HASH_LEN && head[12 + HASH_LEN..] == data + rest
    ensures s == s[..2] + path + head[..4] + head[4..12] + head[12..12 + HASH_LEN] + data + rest
  {
    assert s == s[..2] + (path + head);
    assert head == head[..4] + (head[4..12] + (head[12..12 + HASH_LEN] + (data + rest)));
  }

  lemma ReadIsCut(h: Hash, s: seq<byte>)
    requires ReadEntry(h, s).Done?
    ensures var Done(e, rest) := ReadEntry(h, s);
            var head := s[2..][|e.path|..];
            && |s| >= 2 && s[2..] == e.path + head && |head| >= 12 + HASH_LEN && head[12 + HASH_LEN..] == e.data + rest
            && |e.path| == FromBig(s[..2]) && e.mode == FromBig(head[..4]) && |e.data| == FromBig(head[4..12])
            && h(e.data) == head[12..12 + HASH_LEN]
  {
    hide FromBig;
  }

  lemma ReadIsLegible(h: Hash, s: seq<byte>)
    requires ReadEntry(h, s).Done?
    ensures var Done(e, rest) := ReadEntry(h, s); Legible(h, e) && s == Layout(h, e) + rest
  {
    var Done(e, rest) := ReadEntry(h, s);
    var head := s[2..][|e.path|..];
    ReadIsCut(h, s);
    hide FromBig, Two, Four, Eight, ReadEntry;
    NumberBytes(s[..2]);
    NumberBytes(head[..4]);
    NumberBytes(head[4..12]);
    Rejoined(s, e.path, head, e.data, rest);
  }

  lemma ReadsOne(h: Hash, s: seq<byte>, es: seq<Entry>)
    requires es != [] && ReadEntries(h, s, |es|) == Some(es)
    ensures ReadEntry(h, s).Done? && ReadEntry(h, s).value == es[0]
    ensures ReadEntries(h, ReadEntry(h, s).rest, |es| - 1) == Some(es[1..])
  {
    hide ReadEntry;
  }

  lemma OneRead(h: Hash, s: seq<byte>, es: seq<Entry>)
    requires es != [] && ReadEntry(h, s).Done? && ReadEntry(h, s).value == es[0]
    requires ReadEntries(h, ReadEntry(h, s).rest, |es| - 1) == Some(es[1..])
    ensures ReadEntries(h, s, |es|) == Some(es)
  {
    hide ReadEntry;
    assert es == [es[0]] + es[1..];
  }

  lemma {:induction false} EntriesExactly(h: Hash, s: seq<byte>, es: seq<Entry>)
    ensures ReadEntries(h, s, |es|) == Some(es) <==> AllLegible(h, es) && s == Layouts(h, es)
    decreases |es|
  {
    hide ReadEntry, Layout, Legible;
    if es != [] {
      hide ReadEntries;
      if ReadEntries(h, s, |es|) == Some(es) {
        ReadsOne(h, s, es);
        ReadIsLegible(h, s);
        EntriesExactly(h, ReadEntry(h, s).rest, es[1..]);
      }
      if AllLegible(h, es) && s == Layouts(h, es) {
        LegibleIsRead(h, es[0], Layouts(h, es[1..]));
        EntriesExactly(h, Layouts(h, es[1..]), es[1..]);
        OneRead(h, s, es);
      }
    }
  }

  lemma {:induction false} CountIs(h: Hash, s: seq<byte>, n: nat)
    ensures ReadEntries(h, s, n).Some? ==> |ReadEntries(h, s, n).value| == n
    decreases n
  {
    hide ReadEntry;
    if n > 0 && ReadEntry(h, s).Done? {
      CountIs(h, ReadEntry(h, s).rest, n - 1);
    }
  }

  /**
    What Decode accepts is exactly the layout of the entries that it gives: nothing whose content does not have the
    recorded hash, nothing cut short, and nothing with bytes behind it.
   */
  lemma DecodedExactly(h: Hash, b: seq<byte>, es: seq<Entry>)
    ensures Decoded(h, b) == Some(es) <==> IsArchive(h, b, es)
  {
    if Decoded(h, b) == Some(es) {
      DecodedIsArchive(h, b, es);
    }
    if IsArchive(h, b, es) {
      ArchiveIsDecoded(h, b, es);
    }
  }

  lemma DecodedIsArchive(h: Hash, b: seq<byte>, es: seq<Entry>)
    requires Decoded(h, b) == Some(es)
    ensures IsArchive(h, b, es)
  {
    hide ReadEntries, Layouts, AllLegible, FromBig, Four, Eight, Two;
    CountIs(h, b[8..], FromBig(b[4..8]));
    NumberBytes(b[4..8]);
    EntriesExactly(h, b[8..], es);
    assert b == b[..4] + b[4..8] + b[8..];
  }

  lemma ArchiveIsDecoded(h: Hash, b: seq<byte>, es: seq<Entry>)
    requires IsArchive(h, b, es)
    ensures Decoded(h, b) == Some(es)
  {
    NumberOfBytes(|es|);
    hide ReadEntries, Layouts, AllLegible, FromBig, Four, Eight, Two;
    EntriesExactly(h, Layouts(h, es), es);
    CutHead([0x58, 0x42, 0x43, 0x31], Four(|es|), Layouts(h, es));
  }

  /** Encode refuses exactly a repeated path and a path that is empty or longer than its length field can say. */
  lemma EncodesExactly(h: Hash, entries: seq<Entry>)
    ensures Encoded(h, entries).Ok? <==> OnePathEach(multiset(entries)) && forall e | e in entries :: 0 < |e.path| < 0x10000
    ensures Encoded(h, entries) == Err(DuplicatePath) <==> !OnePathEach(multiset(entries))
  {
    RepeatIsFound(entries);
    SortSorts(entries);
    var s := Sort(ByPath, entries);
    hide Sort, Before, OnePathEach, NoRepeat;
    forall e
      ensures e in entries <==> e in s
    {
      assert e in multiset(s) <==> e in multiset(entries);
    }
  }

  /** The archive has its entries in byte order of their paths: the first difference decides, and a prefix comes first. */
  lemma WrittenInOrder(h: Hash, entries: seq<Entry>)
    requires Encoded(h, entries).Ok?
    ensures var s := Sort(ByPath, entries);
            && multiset(s) == multiset(entries)
            && forall i, j | 0 <= i < j < |s| :: ComesFirst(s[i].path, s[j].path)
  {
    var s := Sort(ByPath, entries);
    SortSorts(entries);
    SortedAscends(s);
    hide Sort, Before, ComesFirst;
    forall i, j | 0 <= i < j < |s|
      ensures ComesFirst(s[i].path, s[j].path)
    {
      assert Before(s[i].path, s[j].path);
      BeforeExactly(s[i].path, s[j].path);
    }
  }
}
