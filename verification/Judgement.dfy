/**
  Which backup discovery names and the restore command takes: internal/discover/discover.go:242-361
  and cmd/xrplbak/cmd_restore.go:46-73.
 */
module Judgement {
  import opened Common
  import opened Discovery
  import opened Rejections
  import opened Sorting

  datatype Anchor = Anchor(id: string, epoch: nat, number: nat)

  // anchorOk and marked: the anchor is trusted, and the candidate it names was found.
  datatype Verdict = Verdict(candidates: seq<Candidate>, anchorOk: bool, marked: bool, latest: Option<Candidate>, conflict: bool, missing: bool)

  predicate Newer(a: Manifest, b: Manifest) {
    if a.epoch != b.epoch then a.epoch > b.epoch else a.number > b.number
  }

  predicate SameNumber(a: Manifest, b: Manifest) {
    a.epoch == b.epoch && a.number == b.number
  }

  predicate NewerThanAnchor(m: Manifest, a: Anchor) {
    m.epoch > a.epoch || (m.epoch == a.epoch && m.number > a.number)
  }

  // ----- sort -----

  // Newest first; of one (epoch, number), the last landing first.
  predicate Precedes(a: Candidate, b: Candidate) {
    if !SameNumber(a.manifest, b.manifest) then Newer(a.manifest, b.manifest) else a.ledger > b.ledger
  }

  // The order is a strict weak order.
  lemma NewestFirst()
    ensures IsOrder(Precedes)
  {
  }

  // ----- one entry per backup -----

  // What is kept of s when ids in seen were kept behind it.
  function Dedup(s: seq<Candidate>, seen: set<string>): seq<Candidate> {
    if s == [] then []
    else
      var c := s[|s| - 1];
      if c.id in seen then Dedup(s[..|s| - 1], seen) else Dedup(s[..|s| - 1], seen + {c.id}) + [c]
  }

  method Dedupe(s: seq<Candidate>) returns (uniq: seq<Candidate>)
    ensures uniq == Dedup(s, {})
  {
    uniq := [];
    var seen: set<string> := {};
    var i := |s|;
    assert s[..|s|] == s;
    while i > 0
      invariant 0 <= i <= |s|
      invariant Dedup(s, {}) == Dedup(s[..i], seen) + uniq
    {
      i := i - 1;
      assert s[..i + 1][..i] == s[..i];
      var c := s[i];
      if c.id !in seen {
        seen := seen + {c.id};
        assert (Dedup(s[..i], seen) + [c]) + uniq == Dedup(s[..i], seen) + ([c] + uniq);
        uniq := [c] + uniq;
      }
    }
  }

  lemma {:induction false} DedupFrom(s: seq<Candidate>, seen: set<string>)
    ensures forall c | c in Dedup(s, seen) :: c in s && c.id !in seen
  {
    if s != [] {
      var last := s[|s| - 1];
      DedupFrom(s[..|s| - 1], seen);
      DedupFrom(s[..|s| - 1], seen + {last.id});
    }
  }

  lemma {:induction false} DedupCovers(s: seq<Candidate>, seen: set<string>, x: Candidate)
    requires x in s && x.id !in seen
    ensures exists c :: c in Dedup(s, seen) && c.id == x.id
  {
    var last := s[|s| - 1];
    if last.id == x.id {
      assert last in Dedup(s, seen);
    } else {
      var seen' := seen + {last.id};
      DedupCovers(s[..|s| - 1], if last.id in seen then seen else seen', x);
      var c :| c in Dedup(s[..|s| - 1], if last.id in seen then seen else seen') && c.id == x.id;
      assert c in Dedup(s, seen);
    }
  }

  lemma {:induction false} DedupOnce(s: seq<Candidate>, seen: set<string>)
    ensures forall i, j | 0 <= i < j < |Dedup(s, seen)| :: Dedup(s, seen)[i].id != Dedup(s, seen)[j].id
  {
    if s != [] {
      var last := s[|s| - 1];
      DedupOnce(s[..|s| - 1], seen);
      DedupOnce(s[..|s| - 1], seen + {last.id});
      DedupFrom(s[..|s| - 1], seen + {last.id});
    }
  }

  lemma {:induction false} DedupInOrder(s: seq<Candidate>, seen: set<string>)
    requires InOrder(Precedes, s)
    ensures InOrder(Precedes, Dedup(s, seen))
    ensures forall c, x | c in Dedup(s, seen) && x in s && x.id == c.id :: !Precedes(c, x)
  {
    if s != [] {
      var front, last := s[..|s| - 1], s[|s| - 1];
      var seen' := if last.id in seen then seen else seen + {last.id};
      DedupInOrder(front, seen');
      DedupFrom(front, seen');
      forall x | x in s
        ensures !Precedes(last, x) && (x in front || x == last)
      {
      }
    }
  }

  // ----- the verdict -----

  function Uniq(found: seq<Candidate>): seq<Candidate> {
    Dedup(Sort(Precedes, found), {})
  }

  /** One entry per backup id, newest first; of one backup, the first landing of its oldest number. */
  lemma UniqIsSorted(found: seq<Candidate>)
    ensures var u := Uniq(found);
            && InOrder(Precedes, u)
            && (forall i, j | 0 <= i < j < |u| :: u[i].id != u[j].id)
            && (forall c | c in u :: c in found && forall x | x in found && x.id == c.id :: !Precedes(c, x))
            && (forall x | x in found :: exists c :: c in u && c.id == x.id)
  {
    var s := Sort(Precedes, found);
    var u := Uniq(found);
    NewestFirst();
    SortOrders(Precedes, found);
    hide Sort, IsOrder, Precedes, Dedup, InOrder;
    forall x
      ensures x in found <==> x in s
    {
      assert x in multiset(s) <==> x in multiset(found);
    }
    DedupInOrder(s, {});
    DedupOnce(s, {});
    DedupFrom(s, {});
    forall x | x in found
      ensures exists c :: c in u && c.id == x.id
    {
      DedupCovers(s, {}, x);
    }
  }

  // Of no higher epoch, or of the same epoch and no higher number.
  predicate NoLater(m: Manifest, than: Manifest) {
    m.epoch < than.epoch || (m.epoch == than.epoch && m.number <= than.number)
  }

  lemma NotAhead(c: Candidate, x: Candidate)
    requires !Precedes(c, x)
    ensures NoLater(c.manifest, x.manifest)
    ensures c.manifest.epoch == x.manifest.epoch && c.manifest.number == x.manifest.number ==> c.ledger <= x.ledger
  {
  }

  /**
    The candidates stand newest first, by epoch and then number. What is kept of one backup that was found several
    times is of no later epoch and number than any other finding of it, and of the first ledger among those that share them.
   */
  lemma KeptIsTheFirst(found: seq<Candidate>)
    ensures var u := Uniq(found);
            && (forall i, j | 0 <= i < j < |u| :: NoLater(u[j].manifest, u[i].manifest))
            && forall c, x | c in u && x in found && x.id == c.id ::
                 && NoLater(c.manifest, x.manifest)
                 && (c.manifest.epoch == x.manifest.epoch && c.manifest.number == x.manifest.number ==> c.ledger <= x.ledger)
  {
    var u := Uniq(found);
    UniqIsSorted(found);
    hide Uniq, Precedes, NoLater;
    forall i, j | 0 <= i < j < |u|
      ensures NoLater(u[j].manifest, u[i].manifest)
    {
      NotAhead(u[j], u[i]);
    }
    forall c, x | c in u && x in found && x.id == c.id
      ensures NoLater(c.manifest, x.manifest)
      ensures c.manifest.epoch == x.manifest.epoch && c.manifest.number == x.manifest.number ==> c.ledger <= x.ledger
    {
      NotAhead(c, x);
    }
  }

  // The candidate of an id; there is at most one after Dedup.
  function Find(u: seq<Candidate>, id: string): Option<Candidate> {
    if u == [] then None else if u[0].id == id then Some(u[0]) else Find(u[1..], id)
  }

  predicate Tied(u: seq<Candidate>) {
    |u| > 1 && SameNumber(u[0].manifest, u[1].manifest)
  }

  // anchor: the DID entry, when its MAC verifies.
  function Judged(found: seq<Candidate>, anchor: Option<Anchor>): Verdict {
    var u := Uniq(found);
    var named := if anchor.None? then None else Find(u, anchor.value.id);
    var agrees := named.None? || (named.value.manifest.epoch == anchor.value.epoch && named.value.manifest.number == anchor.value.number);
    var ok := anchor.Some? && agrees;
    var latest := if u == [] || Tied(u) then None else Some(u[0]);
    var missing := ok && latest.Some? && latest.value.id != anchor.value.id && !NewerThanAnchor(latest.value.manifest, anchor.value);
    Verdict(u, ok, ok && named.Some?, latest, Tied(u), missing)
  }

  /** The checks of Run once the search has ended. */
  method Judge(found: seq<Candidate>, anchor: Option<Anchor>) returns (v: Verdict)
    ensures v == Judged(found, anchor)
  {
    var u := Dedupe(Sort(Precedes, found));
    v := Verdict(u, anchor.Some?, false, None, false, false);
    if anchor.Some? {
      for i := 0 to |u|
        invariant !v.marked ==> Find(u, anchor.value.id) == Find(u[i..], anchor.value.id)
        invariant v == Verdict(u, true, v.marked, None, false, false)
        invariant v.marked ==>
                    var named := Find(u, anchor.value.id);
                    && named.Some? && named.value.manifest.epoch == anchor.value.epoch && named.value.manifest.number == anchor.value.number
                    && forall k | i <= k < |u| :: u[k].id != anchor.value.id
      {
        if u[i].id != anchor.value.id {
          continue;
        }
        if u[i].manifest.epoch != anchor.value.epoch || u[i].manifest.number != anchor.value.number {
          v := v.(anchorOk := false);
          break;
        }
        v := v.(marked := true);
        UniqIsSorted(found);
      }
    }
    if |u| > 0 {
      if |u| > 1 && SameNumber(u[0].manifest, u[1].manifest) {
        v := v.(conflict := true);
      }
      if !v.conflict {
        v := v.(latest := Some(u[0]));
      }
    }
    if v.anchorOk && v.latest.Some? && !(v.marked && v.latest.value.id == anchor.value.id) {
      if !NewerThanAnchor(v.latest.value.manifest, anchor.value) {
        v := v.(missing := true);
      }
    }
  }

  lemma {:induction false} FindFinds(u: seq<Candidate>, id: string)
    ensures match Find(u, id)
            case None => forall c | c in u :: c.id != id
            case Some(c) => c in u && c.id == id
  {
    if u != [] && u[0].id != id {
      FindFinds(u[1..], id);
      assert u == [u[0]] + u[1..];
    }
  }

  // Of a higher epoch than every other candidate, or of the same epoch and a higher number.
  ghost predicate IsNewest(top: Candidate, cands: seq<Candidate>) {
    && top in cands
    && forall c | c in cands && c != top ::
         var a, m := top.manifest, c.manifest;
         m.epoch < a.epoch || (m.epoch == a.epoch && m.number < a.number)
  }

  /** What the tool restores without being told is the newest backup found; there is one unless two backups tie. */
  lemma LatestIsNewest(found: seq<Candidate>, anchor: Option<Anchor>)
    ensures var v := Judged(found, anchor);
            && (v.latest.None? <==> found == [] || v.conflict)
            && (v.latest.Some? ==> IsNewest(v.latest.value, v.candidates))
  {
    hide *;
    var u := Uniq(found);
    LatestIsFirst(found, anchor);
    UniqIsSorted(found);
    NoneOfNone(found);
    if u != [] && !Tied(u) {
      FirstIsLatest(u);
    }
  }

  lemma FirstIsLatest(u: seq<Candidate>)
    requires InOrder(Precedes, u) && u != [] && !Tied(u)
    ensures IsNewest(u[0], u)
  {
    FirstIsNewest(u);
    LaterIsNewer(u[0]);
    hide InOrder, Precedes, Tied, Newer;
  }

  lemma LatestIsFirst(found: seq<Candidate>, anchor: Option<Anchor>)
    ensures var u, v := Uniq(found), Judged(found, anchor);
            v.candidates == u && v.conflict == Tied(u) && v.latest == if u == [] || Tied(u) then None else Some(u[0])
  {
    hide Uniq, Find, Tied;
  }

  lemma NoneOfNone(found: seq<Candidate>)
    ensures Uniq(found) == [] <==> found == []
  {
    UniqIsSorted(found);
    hide *;
    if found != [] {
      assert found[0] in found;
    }
    if Uniq(found) != [] {
      assert Uniq(found)[0] in Uniq(found);
    }
  }

  lemma LaterIsNewer(top: Candidate)
    ensures forall c: Candidate | Newer(top.manifest, c.manifest) ::
              var a, m := top.manifest, c.manifest;
              m.epoch < a.epoch || (m.epoch == a.epoch && m.number < a.number)
  {
  }

  /**
    The backup that a trusted anchor names is reported out of reach exactly when the newest backup found is
    another one, and of no higher epoch, or of the same epoch and no higher number.
   */
  lemma MissingExactly(found: seq<Candidate>, a: Anchor)
    ensures var v := Judged(found, Some(a));
            v.missing <==>
              && v.anchorOk && v.latest.Some? && v.latest.value.id != a.id
              && var m := v.latest.value.manifest;
                 m.epoch < a.epoch || (m.epoch == a.epoch && m.number <= a.number)
  {
    hide Uniq, Find, Tied;
  }

  /** Nothing is expected of an anchor that is not there. */
  lemma NoAnchorNoTrust(found: seq<Candidate>)
    ensures var v := Judged(found, None); !v.anchorOk && !v.marked && !v.missing
  {
    hide Uniq, Find, Tied;
  }

  lemma FirstIsNewest(u: seq<Candidate>)
    requires InOrder(Precedes, u) && u != [] && !Tied(u)
    ensures forall c | c in u && c != u[0] :: Newer(u[0].manifest, c.manifest)
  {
    forall c | c in u && c != u[0]
      ensures Newer(u[0].manifest, c.manifest)
    {
      var i :| 0 < i < |u| && u[i] == c;
      assert !Precedes(u[1], u[0]) && !Precedes(c, u[0]);
      assert i == 1 || !Precedes(c, u[1]);
    }
  }

  // Two backups of one number that nothing exceeds.
  ghost predicate TopTie(u: seq<Candidate>, a: Candidate, b: Candidate) {
    && a in u && b in u && a.id != b.id
    && a.manifest.epoch == b.manifest.epoch && a.manifest.number == b.manifest.number
    && forall c | c in u ::
         c.manifest.epoch < a.manifest.epoch || (c.manifest.epoch == a.manifest.epoch && c.manifest.number <= a.manifest.number)
  }

  /** A conflict is two backups that nothing else is newer than and that share a number. */
  lemma ConflictIsATie(found: seq<Candidate>, anchor: Option<Anchor>)
    ensures Judged(found, anchor).conflict <==> exists a, b :: TopTie(Judged(found, anchor).candidates, a, b)
  {
    hide *;
    UniqIsSorted(found);
    ConflictIsTied(found, anchor);
    TiedIsTopTie(Uniq(found));
  }

  lemma ConflictIsTied(found: seq<Candidate>, anchor: Option<Anchor>)
    ensures Judged(found, anchor).candidates == Uniq(found) && (Judged(found, anchor).conflict <==> Tied(Uniq(found)))
  {
    hide Uniq, Find, Tied;
  }

  lemma TiedIsTopTie(u: seq<Candidate>)
    requires InOrder(Precedes, u) && forall i, j | 0 <= i < j < |u| :: u[i].id != u[j].id
    ensures Tied(u) <==> exists a, b :: TopTie(u, a, b)
  {
    hide InOrder;
    if Tied(u) {
      NoneNewer(u);
      assert TopTie(u, u[0], u[1]);
    }
    if a, b :| TopTie(u, a, b) {
      NoTieBelow(u, a, b);
    }
  }

  lemma NoneNewer(u: seq<Candidate>)
    requires InOrder(Precedes, u) && u != []
    ensures forall c | c in u :: !Newer(c.manifest, u[0].manifest)
  {
    forall c | c in u
      ensures !Newer(c.manifest, u[0].manifest)
    {
      var i :| 0 <= i < |u| && u[i] == c;
      assert i == 0 || !Precedes(u[i], u[0]);
    }
  }

  lemma NoTieBelow(u: seq<Candidate>, a: Candidate, b: Candidate)
    requires InOrder(Precedes, u) && a in u && b in u && a != b && SameNumber(a.manifest, b.manifest)
    requires forall c | c in u :: !Newer(c.manifest, a.manifest)
    ensures Tied(u)
  {
    var i :| 0 <= i < |u| && u[i] == a;
    var j :| 0 <= j < |u| && u[j] == b;
    assert u[0] in u && u[1] in u;
    assert !Newer(u[0].manifest, a.manifest);
    assert i == 0 || !Precedes(a, u[0]);
    assert j == 0 || !Precedes(b, u[0]);
    assert i <= 1 || !Precedes(a, u[1]);
    assert j <= 1 || !Precedes(b, u[1]);
    assert !Precedes(u[1], u[0]);
  }

  predicate Agrees(c: Candidate, a: Anchor) {
    c.manifest.epoch == a.epoch && c.manifest.number == a.number
  }

  /** An anchor is distrusted exactly when the manifest it names was found with another number. */
  lemma AnchorTrust(found: seq<Candidate>, a: Anchor)
    ensures var v := Judged(found, Some(a));
            && (!v.anchorOk <==>
                  exists c :: c in v.candidates && c.id == a.id && (c.manifest.epoch != a.epoch || c.manifest.number != a.number))
            && (v.marked <==> v.anchorOk && exists c :: c in v.candidates && c.id == a.id)
  {
    hide *;
    TrustHangsOnFind(found, a);
    UniqIsSorted(found);
    FindTells(Uniq(found), a);
    AgreeingIs(a);
  }

  lemma AgreeingIs(a: Anchor)
    ensures forall c: Candidate :: Agrees(c, a) <==> c.manifest.epoch == a.epoch && c.manifest.number == a.number
  {
  }

  lemma TrustHangsOnFind(found: seq<Candidate>, a: Anchor)
    ensures var v, named := Judged(found, Some(a)), Find(Uniq(found), a.id);
            && v.candidates == Uniq(found)
            && (v.anchorOk <==> named.None? || Agrees(named.value, a))
            && (v.marked <==> v.anchorOk && named.Some?)
  {
    hide Uniq, Find;
  }

  lemma FindTells(u: seq<Candidate>, a: Anchor)
    requires forall i, j | 0 <= i < j < |u| :: u[i].id != u[j].id
    ensures var named := Find(u, a.id);
            && (named.Some? <==> exists c :: c in u && c.id == a.id)
            && (named.Some? && !Agrees(named.value, a) <==> exists c :: c in u && c.id == a.id && !Agrees(c, a))
  {
    FindFinds(u, a.id);
    hide Find;
    forall c | c in u && c.id == a.id
      ensures Find(u, a.id) == Some(c)
    {
      var i :| 0 <= i < |u| && u[i] == c;
      var j :| 0 <= j < |u| && u[j] == Find(u, a.id).value;
    }
  }

  // ----- choose -----

  datatype Choice = Chosen(cand: Candidate) | Ambiguous | NoSuchBackup | Conflicting | OutOfReach | NothingFound

  predicate Named(want: string, c: Candidate) {
    want <= c.id
  }

  /** choose: the newest backup, or the only one whose id starts with what the operator named. */
  method Choose(v: Verdict, want: string) returns (r: Choice)
    requires forall i, j | 0 <= i < j < |v.candidates| :: v.candidates[i].id != v.candidates[j].id
    ensures want == "" ==> (r.Chosen? <==> v.latest.Some? && !v.conflict && !v.missing)
    ensures want == "" && r.Chosen? ==> v.latest == Some(r.cand)
    ensures want == "" ==> (r.Conflicting? <==> v.conflict) && (r.OutOfReach? <==> !v.conflict && v.missing)
    ensures want != "" && r.Chosen? ==> r.cand in v.candidates && forall c | c in v.candidates :: Named(want, c) <==> c == r.cand
    ensures want != "" && r.Ambiguous? ==> exists a, b :: a in v.candidates && b in v.candidates && a.id != b.id && Named(want, a) && Named(want, b)
    ensures want != "" && r.NoSuchBackup? ==> forall c | c in v.candidates :: !Named(want, c)
    ensures want != "" ==> r.Chosen? || r.Ambiguous? || r.NoSuchBackup?
  {
    if want != "" {
      var hit: Option<Candidate> := None;
      for i := 0 to |v.candidates|
        invariant hit.None? ==> forall k | 0 <= k < i :: !Named(want, v.candidates[k])
        invariant hit.Some? ==> exists n :: 0 <= n < i && v.candidates[n] == hit.value && Named(want, hit.value)
                                            && forall k | 0 <= k < i && k != n :: !Named(want, v.candidates[k])
      {
        var c := v.candidates[i];
        if want <= c.id {
          if hit.Some? {
            return Ambiguous;
          }
          hit := Some(c);
        }
      }
      return if hit.None? then NoSuchBackup else Chosen(hit.value);
    }
    if v.conflict {
      return Conflicting;
    }
    if v.missing {
      return OutOfReach;
    }
    return if v.latest.None? then NothingFound else Chosen(v.latest.value);
  }

  // ----- the whole run -----

  // What the server answers for the DID entry. macOk: the MAC verifies under the key of the anchor's epoch.
  datatype DidReply = NoEntry | DidFailed | NotAnAnchor | AnchorEntry(anchor: Anchor, macOk: bool)

  function Trusted(c: Crypto, did: DidReply): Option<Anchor> {
    if did.AnchorEntry? && c.knows(did.anchor.epoch) && did.macOk then Some(did.anchor) else None
  }

  // The anchor can raise where the search starts, never the floor it reaches down to.
  function StartEpoch(c: Crypto, did: DidReply, hint: nat): nat {
    if Trusted(c, did).Some? then Max(hint, did.anchor.epoch) else hint
  }

  function VerdictOf(c: Crypto, did: DidReply, hint: nat, seen: seq<Seen>): Verdict
    requires Known(Grouped(seen).sets, Grouped(seen).order)
  {
    Judged(Search(c, Grouped(seen), StartEpoch(c, did, hint), hint).0, Trusted(c, did))
  }

  // What is reported of the manifests that stayed closed.
  ghost function ReportFor(c: Crypto, did: DidReply, hint: nat, seen: seq<Seen>, latest: Option<Candidate>): Report
    requires Known(Grouped(seen).sets, Grouped(seen).order)
  {
    ClosedIsKnown(c, Grouped(seen), StartEpoch(c, did, hint), hint);
    ReportOf(Grouped(seen), Search(c, Grouped(seen), StartEpoch(c, did, hint), hint).1, latest)
  }

  /** Run: history is None when the account's transactions cannot be read. */
  method Run(c: Crypto, did: DidReply, hint: nat, history: Option<seq<Seen>>) returns (r: Option<Verdict>, report: Report)
    requires hint <= MAX_EPOCH && (did.AnchorEntry? ==> did.anchor.epoch <= MAX_EPOCH)
    requires history.Some? ==> forall i | 0 <= i < |history.value| :: Decodable(history.value[i])
    ensures r.Some? <==> !did.DidFailed? && history.Some?
    ensures r.Some? ==> var seen := history.value;
                        && Known(Grouped(seen).sets, Grouped(seen).order) && r.value == VerdictOf(c, did, hint, seen)
                        && report == ReportFor(c, did, hint, seen, r.value.latest)
  {
    report := Report(0, 0);
    var start := hint;
    var anchor: Option<Anchor> := None;
    match did {
      case AnchorEntry(a, macOk) =>
        if c.knows(a.epoch) && macOk {
          anchor := Some(a);
          if a.epoch > hint {
            start := a.epoch;
          }
        }
      case DidFailed =>
        return None, report;
      case _ =>
    }
    if history.None? {
      return None, report;
    }
    hide Search, Grouped, Known, Judged;
    var cands, pending, groups := FindCandidates(c, history.value, start, hint);
    assert cands == Search(c, groups, start, hint).0 && pending == Search(c, groups, start, hint).1 by {
      assert (cands, pending).0 == cands && (cands, pending).1 == pending;
    }
    var v := Judge(cands, anchor);
    ClosedIsKnown(c, groups, start, hint);
    report := CountRejected(groups, pending, v.latest);
    r := Some(v);
  }
}
