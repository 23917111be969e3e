/**
  How discovery finds the backups of an account: internal/discover/discover.go:84-432. Keys, the AEAD
  and the manifest decoder are parameters; nothing is assumed of them unless a lemma says so.
 */
module Discovery {
  import opened Common

  const MAX_EPOCH := 0xFFFFFFFF
  const MAX_PROBE := 64
  const MAX_PARTS := 16

  // A backup id and the nonce prefix that one sealing run drew.
  datatype SetKey = SetKey(id: string, nonce: string)

  // One manifest part memo, as chunk.Decode accepts it, with where it landed.
  datatype Seen = Seen(key: SetKey, index: nat, total: nat, ct: string, tx: string, ledger: nat)

  datatype MemoPart = MemoPart(ct: string, tx: string, ledger: nat)

  // Every ciphertext seen for an index is kept, oldest first.
  datatype PartSet = PartSet(total: nat, parts: map<nat, seq<MemoPart>>)

  // A backup's number within its epoch has 32 bits.
  type Number = n: int | 0 <= n <= 0xFFFFFFFF

  const MAX_NUMBER: Number := 0xFFFFFFFF

  datatype Manifest = Manifest(id: string, epoch: nat, number: Number)

  datatype Candidate = Candidate(manifest: Manifest, id: string, tx: string, ledger: nat, plain: string)

  // knows: a key file has one epoch, a root key all. open: one manifest part under an epoch's key.
  datatype Crypto = Crypto(
    knows: nat -> bool,
    open: (nat, SetKey, nat, nat, string) -> Option<string>,
    decode: string -> Option<Manifest>)

  predicate Decodable(s: Seen) {
    s.index < s.total
  }

  // ----- grouping -----

  datatype Groups = Groups(order: seq<SetKey>, sets: map<SetKey, PartSet>, oversized: set<SetKey>)

  const EMPTY := Groups([], map[], {})

  function Cts(ps: PartSet, i: nat): seq<MemoPart> {
    if i in ps.parts then ps.parts[i] else []
  }

  function Register(g: Groups, k: SetKey, total: nat): (r: Groups)
    ensures k in r.sets
  {
    if k in g.sets then g else g.(order := g.order + [k], sets := g.sets[k := PartSet(total, map[])])
  }

  // A memo with another total than the set it names is passed over.
  function Add(g: Groups, s: Seen): Groups {
    if s.total > MAX_PARTS then g.(oversized := g.oversized + {s.key})
    else
      var r := Register(g, s.key, s.total);
      var ps := r.sets[s.key];
      if s.total != ps.total then r
      else r.(sets := r.sets[s.key := ps.(parts := ps.parts[s.index := Cts(ps, s.index) + [MemoPart(s.ct, s.tx, s.ledger)]])])
  }

  function Grouped(seen: seq<Seen>): Groups {
    if seen == [] then EMPTY else Add(Grouped(seen[..|seen| - 1]), seen[|seen| - 1])
  }

  // order lists the keys once each, and every set is within its total.
  ghost predicate WellGrouped(g: Groups) {
    && (forall k :: k in g.order <==> k in g.sets)
    && (forall i, j | 0 <= i < j < |g.order| :: g.order[i] != g.order[j])
    && (forall k | k in g.sets :: 0 < g.sets[k].total <= MAX_PARTS && forall i | i in g.sets[k].parts :: i < g.sets[k].total)
  }

  lemma {:induction false} GroupedIsWell(seen: seq<Seen>)
    requires forall i | 0 <= i < |seen| :: Decodable(seen[i])
    ensures WellGrouped(Grouped(seen))
  {
    if seen != [] {
      GroupedIsWell(seen[..|seen| - 1]);
      hide Add, WellGrouped;
      AddIsWell(Grouped(seen[..|seen| - 1]), seen[|seen| - 1]);
    }
  }

  lemma AddIsWell(g: Groups, s: Seen)
    requires WellGrouped(g) && Decodable(s)
    ensures WellGrouped(Add(g, s))
  {
    if s.total <= MAX_PARTS {
      var r := Register(g, s.key, s.total);
      assert WellGrouped(r);
      hide Register, Cts;
    }
  }

  predicate CompleteSet(ps: PartSet) {
    ps.total == |ps.parts|
  }

  // ----- opening -----

  // The first ciphertext of an index that opens.
  function FirstOpen(c: Crypto, e: nat, k: SetKey, i: nat, total: nat, cts: seq<MemoPart>): Option<(MemoPart, string)> {
    if cts == [] then None
    else match c.open(e, k, i, total, cts[0].ct)
      case Some(p) => Some((cts[0], p))
      case None => FirstOpen(c, e, k, i, total, cts[1..])
  }

  function PlainUpTo(c: Crypto, e: nat, k: SetKey, ps: PartSet, n: nat): Option<string> {
    if n == 0 then Some("")
    else match PlainUpTo(c, e, k, ps, n - 1)
      case None => None
      case Some(plain) =>
        match FirstOpen(c, e, k, n - 1, ps.total, Cts(ps, n - 1))
        case None => None
        case Some(hit) => Some(plain + hit.1)
  }

  // The candidate that a set gives at one epoch, if it gives one.
  function OpensAt(c: Crypto, e: nat, k: SetKey, ps: PartSet): Option<Candidate>
    requires ps.total > 0
  {
    if !c.knows(e) then None
    else match PlainUpTo(c, e, k, ps, ps.total)
      case None => None
      case Some(plain) =>
        match c.decode(plain)
        case None => None
        case Some(m) =>
          if m.id != k.id || m.epoch != e then None
          else
            var first := FirstOpen(c, e, k, 0, ps.total, Cts(ps, 0));
            if first.None? then None
            else Some(Candidate(m, k.id, first.value.0.tx, first.value.0.ledger, plain))
  }

  function Open(c: Crypto, k: SetKey, ps: PartSet, epochs: seq<nat>): Option<Candidate>
    requires ps.total > 0
  {
    if epochs == [] then None
    else match OpensAt(c, epochs[0], k, ps)
      case Some(cand) => Some(cand)
      case None => Open(c, k, ps, epochs[1..])
  }

  method FirstOpening(c: Crypto, e: nat, k: SetKey, i: nat, total: nat, cts: seq<MemoPart>) returns (r: Option<(MemoPart, string)>)
    ensures r == FirstOpen(c, e, k, i, total, cts)
  {
    for j := 0 to |cts|
      invariant FirstOpen(c, e, k, i, total, cts) == FirstOpen(c, e, k, i, total, cts[j..])
    {
      var p := c.open(e, k, i, total, cts[j].ct);
      if p.Some? {
        return Some((cts[j], p.value));
      }
    }
    return None;
  }

  /** openManifest: each epoch in order, and for each index every ciphertext seen. */
  method OpenManifest(c: Crypto, k: SetKey, ps: PartSet, epochs: seq<nat>) returns (r: Option<Candidate>)
    requires ps.total > 0
    ensures r == Open(c, k, ps, epochs)
  {
    for n := 0 to |epochs|
      invariant Open(c, k, ps, epochs) == Open(c, k, ps, epochs[n..])
    {
      var e := epochs[n];
      assert epochs[n..][0] == e && epochs[n..][1..] == epochs[n + 1..];
      if !c.knows(e) {
        continue;
      }
      var plain := "";
      var first: Option<MemoPart> := None;
      var good := true;
      var i := 0;
      while i < ps.total && good
        invariant 0 <= i <= ps.total
        invariant PlainUpTo(c, e, k, ps, i) == if good then Some(plain) else None
        invariant good && i > 0 ==>
                    var f := FirstOpen(c, e, k, 0, ps.total, Cts(ps, 0));
                    f.Some? && first == Some(f.value.0)
        decreases ps.total - i, good
      {
        var cand := FirstOpening(c, e, k, i, ps.total, Cts(ps, i));
        if cand.Some? {
          plain := plain + cand.value.1;
          if i == 0 {
            first := Some(cand.value.0);
          }
        }
        good := cand.Some?;
        i := i + 1;
      }
      if !good {
        ClosedStaysClosed(c, e, k, ps, i, ps.total);
        continue;
      }
      var m := c.decode(plain);
      if m.None? || m.value.id != k.id || m.value.epoch != e {
        continue;
      }
      return Some(Candidate(m.value, k.id, first.value.tx, first.value.ledger, plain));
    }
    return None;
  }

  lemma {:induction false} ClosedStaysClosed(c: Crypto, e: nat, k: SetKey, ps: PartSet, i: nat, n: nat)
    requires i <= n && PlainUpTo(c, e, k, ps, i) == None
    ensures PlainUpTo(c, e, k, ps, n) == None
  {
    if i < n {
      ClosedStaysClosed(c, e, k, ps, i, n - 1);
    }
  }

  // ----- the epochs to try -----

  function Down(hi: int, lo: int): seq<nat>
    requires 0 <= lo
    decreases hi - lo
  {
    if hi < lo then [] else [hi] + Down(hi - 1, lo)
  }

  function Up(lo: int, hi: int): seq<nat>
    requires 0 <= lo
    decreases hi - lo
  {
    if hi < lo then [] else [lo] + Up(lo + 1, hi)
  }

  function Min(a: int, b: int): int {
    if a < b then a else b
  }

  function Max(a: int, b: int): int {
    if a < b then b else a
  }

  // The lowest epoch the search reaches.
  function Lowest(hint: nat, floor: nat): nat {
    Max(0, Min(floor, hint) - MAX_PROBE + 1)
  }

  function ProbeOrder(hint: nat, floor: nat): seq<nat> {
    Down(hint, Lowest(hint, floor)) + Up(hint + 1, Min(hint + MAX_PROBE, MAX_EPOCH))
  }

  lemma {:induction false} DownHolds(hi: int, lo: int, e: int)
    requires 0 <= lo
    ensures e in Down(hi, lo) <==> lo <= e <= hi
    decreases hi - lo
  {
    if hi >= lo {
      DownHolds(hi - 1, lo, e);
    }
  }

  lemma {:induction false} UpHolds(lo: int, hi: int, e: int)
    requires 0 <= lo
    ensures e in Up(lo, hi) <==> lo <= e <= hi
    decreases hi - lo
  {
    if hi >= lo {
      UpHolds(lo + 1, hi, e);
    }
  }

  lemma {:induction false} DownEnds(hi: int, lo: int)
    requires 0 <= lo <= hi
    ensures Down(hi, lo) == (if hi == lo then [] else Down(hi, lo + 1)) + [lo]
    decreases hi - lo
  {
    if hi > lo {
      DownEnds(hi - 1, lo);
    }
  }

  lemma {:induction false} UpEnds(lo: int, hi: int)
    requires 0 <= lo <= hi
    ensures Up(lo, hi) == Up(lo, hi - 1) + [hi]
    decreases hi - lo
  {
    if lo < hi {
      UpEnds(lo + 1, hi);
    }
  }

  method EpochsUp(lo: nat, hi: int) returns (out: seq<nat>)
    ensures out == Up(lo, hi)
  {
    out := [];
    var e := lo;
    while e <= hi
      invariant lo <= e && (e <= hi + 1 || e == lo)
      invariant out == Up(lo, e - 1)
    {
      UpEnds(lo, e);
      out := out + [e];
      e := e + 1;
    }
  }

  /** probeOrder: the hint, then earlier epochs, then later ones. */
  method Probes(hint: nat, floor: nat) returns (out: seq<nat>)
    ensures out == ProbeOrder(hint, floor)
  {
    var low := if floor > hint then hint else floor;
    out := [];
    var e: int := hint;
    while e >= 0 && e >= low - MAX_PROBE + 1
      invariant Lowest(hint, floor) - 1 <= e <= hint
      invariant out == if e == hint then [] else Down(hint, e + 1)
      decreases e
    {
      DownEnds(hint, e);
      out := out + [e];
      e := e - 1;
    }
    var up := EpochsUp(hint + 1, Min(hint + MAX_PROBE, MAX_EPOCH));
    out := out + up;
  }

  lemma ProbesCover(hint: nat, floor: nat, e: nat)
    requires hint <= MAX_EPOCH && e <= MAX_EPOCH
    ensures e in ProbeOrder(hint, floor) <==> Lowest(hint, floor) <= e <= hint + MAX_PROBE
  {
    DownHolds(hint, Lowest(hint, floor), e);
    UpHolds(hint + 1, Min(hint + MAX_PROBE, MAX_EPOCH), e);
  }

  // ----- the search -----

  // What a list of epochs opens of a list of sets, and what stays closed, both in order.
  function Pass(c: Crypto, sets: map<SetKey, PartSet>, keys: seq<SetKey>, epochs: seq<nat>): (seq<Candidate>, seq<SetKey>)
    requires Known(sets, keys)
  {
    if keys == [] then ([], [])
    else
      var (cands, still) := Pass(c, sets, keys[..|keys| - 1], epochs);
      var k := keys[|keys| - 1];
      match Open(c, k, sets[k], epochs)
      case Some(cand) => (cands + [cand], still)
      case None => (cands, still + [k])
  }

  predicate Known(sets: map<SetKey, PartSet>, keys: seq<SetKey>) {
    forall i | 0 <= i < |keys| :: keys[i] in sets && sets[keys[i]].total > 0
  }

  function CompleteKeys(sets: map<SetKey, PartSet>, order: seq<SetKey>): (keys: seq<SetKey>)
    requires Known(sets, order)
    ensures Known(sets, keys) && forall i | 0 <= i < |keys| :: CompleteSet(sets[keys[i]])
  {
    if order == [] then []
    else
      var k := order[|order| - 1];
      CompleteKeys(sets, order[..|order| - 1]) + if CompleteSet(sets[k]) then [k] else []
  }

  // The newest epoch of the hint and the candidates.
  function Top(hint: nat, cands: seq<Candidate>): (top: nat)
    ensures top >= hint
  {
    if cands == [] then hint else Max(Top(hint, cands[..|cands| - 1]), cands[|cands| - 1].manifest.epoch)
  }

  function Reach(hint: nat, cands: seq<Candidate>): (next: nat)
    ensures next <= MAX_EPOCH
  {
    Min(Top(hint, cands) + MAX_PROBE, MAX_EPOCH)
  }

  lemma PassKnown(c: Crypto, sets: map<SetKey, PartSet>, keys: seq<SetKey>, epochs: seq<nat>)
    requires Known(sets, keys)
    ensures Known(sets, Pass(c, sets, keys, epochs).1)
  {
    if keys != [] {
      PassKnown(c, sets, keys[..|keys| - 1], epochs);
    }
  }

  // The upward search from an upper end already tried.
  function Climb(c: Crypto, sets: map<SetKey, PartSet>, hint: nat, cands: seq<Candidate>, pending: seq<SetKey>, upper: nat): (seq<Candidate>, seq<SetKey>)
    requires Known(sets, pending)
    decreases MAX_EPOCH - upper
  {
    var next := Reach(hint, cands);
    if pending == [] || next <= upper then (cands, pending)
    else
      PassKnown(c, sets, pending, Up(upper + 1, next));
      var (found, still) := Pass(c, sets, pending, Up(upper + 1, next));
      Climb(c, sets, hint, cands + found, still, next)
  }

  // Every candidate, in the order it is found, and the complete sets that no epoch tried opens.
  function Search(c: Crypto, g: Groups, hint: nat, floor: nat): (seq<Candidate>, seq<SetKey>)
    requires Known(g.sets, g.order)
  {
    var keys := CompleteKeys(g.sets, g.order);
    PassKnown(c, g.sets, keys, ProbeOrder(hint, floor));
    var (cands, pending) := Pass(c, g.sets, keys, ProbeOrder(hint, floor));
    Climb(c, g.sets, hint, cands, pending, hint + MAX_PROBE)
  }

  /** The history scan and both searches of Run. */
  method FindCandidates(c: Crypto, seen: seq<Seen>, hint: nat, floor: nat)
    returns (cands: seq<Candidate>, pending: seq<SetKey>, groups: Groups)
    requires forall i | 0 <= i < |seen| :: Decodable(seen[i])
    requires floor <= hint <= MAX_EPOCH
    ensures groups == Grouped(seen) && WellGrouped(groups) && Known(groups.sets, groups.order)
    ensures (cands, pending) == Search(c, groups, hint, floor)
  {
    groups := ScanHistory(seen);
    GroupedIsWell(seen);
    var epochs := Probes(hint, floor);
    hide Open, Climb, ProbeOrder;
    cands, pending := FirstPass(c, groups, epochs);
    PassKnown(c, groups.sets, CompleteKeys(groups.sets, groups.order), epochs);
    cands, pending := SearchUp(c, groups.sets, hint, cands, pending);
  }

  method FirstPass(c: Crypto, groups: Groups, epochs: seq<nat>) returns (cands: seq<Candidate>, pending: seq<SetKey>)
    requires Known(groups.sets, groups.order)
    ensures (cands, pending) == Pass(c, groups.sets, CompleteKeys(groups.sets, groups.order), epochs)
  {
    hide Open;
    cands, pending := [], [];
    ghost var keys: seq<SetKey> := [];
    for i := 0 to |groups.order|
      invariant keys == CompleteKeys(groups.sets, groups.order[..i])
      invariant (cands, pending) == Pass(c, groups.sets, keys, epochs)
    {
      var k := groups.order[i];
      var ps := groups.sets[k];
      assert groups.order[..i + 1][..i] == groups.order[..i];
      if !CompleteSet(ps) {
        assert keys + [] == keys;
        continue;
      }
      assert (keys + [k])[..|keys|] == keys;
      keys := keys + [k];
      var cand := OpenManifest(c, k, ps, epochs);
      if cand.None? {
        pending := pending + [k];
        continue;
      }
      cands := cands + [cand.value];
    }
    assert groups.order[..|groups.order|] == groups.order;
  }

  method ScanHistory(seen: seq<Seen>) returns (groups: Groups)
    ensures groups == Grouped(seen)
  {
    groups := EMPTY;
    for i := 0 to |seen|
      invariant groups == Grouped(seen[..i])
    {
      assert seen[..i + 1][..i] == seen[..i];
      var s := seen[i];
      if s.total > MAX_PARTS {
        groups := groups.(oversized := groups.oversized + {s.key});
        continue;
      }
      if s.key !in groups.sets {
        groups := groups.(order := groups.order + [s.key], sets := groups.sets[s.key := PartSet(s.total, map[])]);
      }
      assert groups == Register(Grouped(seen[..i]), s.key, s.total);
      var ps := groups.sets[s.key];
      if s.total != ps.total {
        continue;
      }
      var parts := ps.parts[s.index := Cts(ps, s.index) + [MemoPart(s.ct, s.tx, s.ledger)]];
      groups := groups.(sets := groups.sets[s.key := ps.(parts := parts)]);
    }
    assert seen[..|seen|] == seen;
  }

  /** The upward search: each epoch found moves it up, until a pass finds nothing new. */
  method SearchUp(c: Crypto, sets: map<SetKey, PartSet>, hint: nat, given: seq<Candidate>, closed: seq<SetKey>)
    returns (cands: seq<Candidate>, pending: seq<SetKey>)
    requires Known(sets, closed)
    ensures (cands, pending) == Climb(c, sets, hint, given, closed, hint + MAX_PROBE)
  {
    cands, pending := given, closed;
    var upper := hint + MAX_PROBE;
    while pending != []
      invariant Known(sets, pending)
      invariant Climb(c, sets, hint, cands, pending, upper) == Climb(c, sets, hint, given, closed, hint + MAX_PROBE)
      decreases MAX_EPOCH - upper
    {
      var top := TopOf(hint, cands);
      var next := top + MAX_PROBE;
      if next > MAX_EPOCH {
        next := MAX_EPOCH;
      }
      if next <= upper {
        break;
      }
      var more := EpochsUp(upper + 1, next);
      ghost var before, waiting := cands, pending;
      PassKnown(c, sets, pending, more);
      var found, still := OnePass(c, sets, pending, more);
      cands, pending, upper := cands + found, still, next;
    }
  }

  method TopOf(hint: nat, cands: seq<Candidate>) returns (top: nat)
    ensures top == Top(hint, cands)
  {
    top := hint;
    for i := 0 to |cands|
      invariant top == Top(hint, cands[..i])
    {
      assert cands[..i + 1][..i] == cands[..i];
      if cands[i].manifest.epoch > top {
        top := cands[i].manifest.epoch;
      }
    }
    assert cands[..|cands|] == cands;
  }

  method OnePass(c: Crypto, sets: map<SetKey, PartSet>, keys: seq<SetKey>, epochs: seq<nat>)
    returns (found: seq<Candidate>, still: seq<SetKey>)
    requires Known(sets, keys)
    ensures (found, still) == Pass(c, sets, keys, epochs)
  {
    found, still := [], [];
    for i := 0 to |keys|
      invariant (found, still) == Pass(c, sets, keys[..i], epochs)
    {
      assert keys[..i + 1][..i] == keys[..i];
      var k := keys[i];
      var cand := OpenManifest(c, k, sets[k], epochs);
      if cand.Some? {
        found := found + [cand.value];
      } else {
        still := still + [k];
      }
    }
    assert keys[..|keys|] == keys;
  }
}
