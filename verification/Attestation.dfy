/**
  The judgement over an account's history that decides whether its newest public attestation counts:
  internal/pubattest/delegate.go:161-287. Signature checks are parameters.
 */
module Attestation {
  import opened Common

  datatype Delegation = Delegation(vpk: string, attestPub: string, dseq: nat, sig: string)

  datatype Record = Record(version: nat, vpk: string, dseq: nat, epoch: nat, number: nat, backupId: string, sig: string)

  // A memo as the two decoders see it. They go by memo type, so at most one accepts it.
  datatype Memo = DelegationMemo(d: Delegation) | AttestationMemo(r: Record) | OtherMemo

  // mine: sent by the account, and successful.
  datatype TxRec = TxRec(mine: bool, ledger: nat, memos: seq<Memo>)

  // The master key's signature on a delegation, on a record, and an attestation key's on a record.
  datatype Checks = Checks(delegation: Delegation -> bool, master: Record -> bool, delegated: (string, Record) -> bool)

  datatype Reason = BadMaster | Replaced(dseq: nat, ledger: nat) | NoDelegation | BadDelegated

  datatype Finding =
    | NoAttestation
    | Invalid(record: Record, ledger: nat, reason: Reason)
    | ValidMaster(record: Record, ledger: nat)
    | ValidDelegated(record: Record, ledger: nat, delegation: Delegation, delegLedger: nat)

  const DELEGATED := 2

  // ----- specification: a scan over the account's memos -----

  datatype Event = Event(ledger: nat, memo: Memo)

  datatype Placed = Placed(d: Delegation, ledger: nat)

  // The newest attestation so far with the delegations ahead of it, and every delegation so far.
  datatype Scan = Scan(att: Option<Event>, ahead: seq<Placed>, dels: seq<Placed>)

  function MemoEvents(t: TxRec): seq<Event> {
    if t.mine then seq(|t.memos|, i requires 0 <= i < |t.memos| => Event(t.ledger, t.memos[i])) else []
  }

  function Events(txs: seq<TxRec>): seq<Event> {
    if txs == [] then [] else Events(txs[..|txs| - 1]) + MemoEvents(txs[|txs| - 1])
  }

  predicate Verified(c: Checks, e: Event) {
    e.memo.DelegationMemo? && c.delegation(e.memo.d)
  }

  function Step(c: Checks, s: Scan, e: Event): Scan {
    match e.memo
    case DelegationMemo(d) => if c.delegation(d) then s.(dels := s.dels + [Placed(d, e.ledger)]) else s
    case AttestationMemo(_) =>
      if s.att.None? || e.ledger >= s.att.value.ledger then s.(att := Some(e), ahead := s.dels) else s
    case OtherMemo => s
  }

  function ScanFrom(c: Checks, s: Scan, events: seq<Event>): Scan {
    if events == [] then s else Step(c, ScanFrom(c, s, events[..|events| - 1]), events[|events| - 1])
  }

  const EMPTY := Scan(None, [], [])

  function Scanned(c: Checks, events: seq<Event>): Scan {
    ScanFrom(c, EMPTY, events)
  }

  // The last delegation of a key and dseq, and the first of that key with a higher one.
  function LastMatch(dels: seq<Placed>, r: Record): Option<Placed> {
    if dels == [] then None
    else
      var last := dels[|dels| - 1];
      if last.d.vpk == r.vpk && last.d.dseq == r.dseq then Some(last) else LastMatch(dels[..|dels| - 1], r)
  }

  function FirstHigher(dels: seq<Placed>, r: Record): Option<Placed> {
    if dels == [] then None
    else
      var last := dels[|dels| - 1];
      var before := FirstHigher(dels[..|dels| - 1], r);
      if before.Some? then before
      else if last.d.vpk == r.vpk && last.d.dseq > r.dseq then Some(last)
      else None
  }

  function Judged(c: Checks, att: Option<Event>, ahead: seq<Placed>): Finding {
    if att.None? || !att.value.memo.AttestationMemo? then NoAttestation
    else
      var r, ledger := att.value.memo.r, att.value.ledger;
      if r.version != DELEGATED then if c.master(r) then ValidMaster(r, ledger) else Invalid(r, ledger, BadMaster)
      else
        var higher, mine := FirstHigher(ahead, r), LastMatch(ahead, r);
        if higher.Some? then Invalid(r, ledger, Replaced(higher.value.d.dseq, higher.value.ledger))
        else if mine.None? then Invalid(r, ledger, NoDelegation)
        else if !c.delegated(mine.value.d.attestPub, r) then Invalid(r, ledger, BadDelegated)
        else ValidDelegated(r, ledger, mine.value.d, mine.value.ledger)
  }

  function Verdict(c: Checks, events: seq<Event>): Finding {
    var s := Scanned(c, events);
    Judged(c, s.att, s.ahead)
  }

  // ----- Evaluate -----

  datatype Ordered = Ordered(p: Placed, order: nat)

  function Bare(dels: seq<Ordered>): (r: seq<Placed>)
    ensures |r| == |dels|
  {
    seq(|dels|, i requires 0 <= i < |dels| => dels[i].p)
  }

  // The delegations read before the attestation are the first n.
  ghost predicate Split(dels: seq<Ordered>, n: nat, attOrder: nat, order: nat) {
    && n <= |dels| && attOrder <= order
    && (forall i | 0 <= i < |dels| :: dels[i].order <= order && dels[i].order != attOrder)
    && (forall i | 0 <= i < |dels| :: dels[i].order < attOrder <==> i < n)
  }

  // What Evaluate's variables say of the memos read so far.
  ghost predicate Tracks(c: Checks, events: seq<Event>, dels: seq<Ordered>, att: Option<Event>, attLedger: nat,
                         attOrder: nat, order: nat, n: nat) {
    && n <= |dels| && Split(dels, n, attOrder, order)
    && Scanned(c, events) == Scan(att, Bare(dels)[..n], Bare(dels))
    && if att.Some? then attLedger == att.value.ledger && att.value.memo.AttestationMemo? && attOrder > 0
       else attLedger == 0 && attOrder == 0 && n == 0
  }

  lemma TracksOther(c: Checks, events: seq<Event>, e: Event, dels: seq<Ordered>, att: Option<Event>, attLedger: nat,
                    attOrder: nat, order: nat, n: nat)
    requires Tracks(c, events, dels, att, attLedger, attOrder, order, n) && Step(c, Scanned(c, events), e) == Scanned(c, events)
    ensures Tracks(c, events + [e], dels, att, attLedger, attOrder, order + 1, n)
  {
    ScanNext(c, events, e);
    hide Scanned;
  }

  lemma TracksDelegation(c: Checks, events: seq<Event>, e: Event, dels: seq<Ordered>, att: Option<Event>, attLedger: nat,
                         attOrder: nat, order: nat, n: nat)
    requires Tracks(c, events, dels, att, attLedger, attOrder, order, n) && Verified(c, e)
    ensures Tracks(c, events + [e], dels + [Ordered(Placed(e.memo.d, e.ledger), order + 1)], att, attLedger, attOrder, order + 1, n)
  {
    ScanNext(c, events, e);
    var p := Placed(e.memo.d, e.ledger);
    assert Bare(dels + [Ordered(p, order + 1)]) == Bare(dels) + [p];
    assert (Bare(dels) + [p])[..n] == Bare(dels)[..n];
  }

  lemma TracksAttestation(c: Checks, events: seq<Event>, e: Event, dels: seq<Ordered>, att: Option<Event>, attLedger: nat,
                          attOrder: nat, order: nat, n: nat)
    requires Tracks(c, events, dels, att, attLedger, attOrder, order, n) && e.memo.AttestationMemo? && e.ledger >= attLedger
    ensures Tracks(c, events + [e], dels, Some(e), e.ledger, order + 1, order + 1, |dels|)
  {
    ScanNext(c, events, e);
    assert Bare(dels)[..|dels|] == Bare(dels);
  }

  lemma EventsNext(txs: seq<TxRec>, i: nat)
    requires i < |txs|
    ensures Events(txs[..i + 1]) == Events(txs[..i]) + MemoEvents(txs[i])
  {
    assert txs[..i + 1][..i] == txs[..i];
  }

  lemma MemosNext(done: seq<Event>, memos: seq<Event>, j: nat)
    requires j < |memos|
    ensures done + memos[..j + 1] == done + memos[..j] + [memos[j]]
  {
  }

  /**
    Evaluate. In a history that comes oldest first, as the client returns it, a delegated attestation is
    valid exactly when it is vouched for.
   */
  method Evaluate(c: Checks, txs: seq<TxRec>) returns (f: Finding)
    ensures f == Verdict(c, Events(txs))
    ensures InLedgerOrder(txs) ==> forall k: nat | Newest(Events(txs), k) && Events(txs)[k].memo.r.version == DELEGATED ::
                !f.NoAttestation? && f.record == Events(txs)[k].memo.r && (f.ValidDelegated? <==> Vouched(c, Events(txs), k, f.record))
    ensures InLedgerOrder(txs) ==> forall k: nat | Newest(Events(txs), k) :: Explained(c, Events(txs), k, f)
    ensures InLedgerOrder(txs) ==> (f.NoAttestation? <==> forall k: nat :: !Newest(Events(txs), k))
  {
    var dels: seq<Ordered> := [];
    var att: Option<Event> := None;
    var attLedger: nat, attOrder: nat, order: nat := 0, 0, 0;
    ghost var n: nat := 0;
    assert Tracks(c, Events(txs[..0]), dels, att, attLedger, attOrder, order, n);
    hide Tracks, Events, Scanned, Split;
    for i := 0 to |txs|
      invariant Tracks(c, Events(txs[..i]), dels, att, attLedger, attOrder, order, n)
    {
      EventsNext(txs, i);
      var t := txs[i];
      ghost var done, memos := Events(txs[..i]), MemoEvents(t);
      assert done + memos[..0] == done;
      if !t.mine {
        continue;
      }
      for j := 0 to |t.memos|
        invariant Tracks(c, done + memos[..j], dels, att, attLedger, attOrder, order, n)
      {
        MemosNext(done, memos, j);
        var m := t.memos[j];
        ghost var read, e := done + memos[..j], memos[j];
        order := order + 1;
        if m.DelegationMemo? {
          if c.delegation(m.d) {
            TracksDelegation(c, read, e, dels, att, attLedger, attOrder, order - 1, n);
            dels := dels + [Ordered(Placed(m.d, t.ledger), order)];
          } else {
            TracksOther(c, read, e, dels, att, attLedger, attOrder, order - 1, n);
          }
          continue;
        }
        if m.AttestationMemo? && t.ledger >= attLedger {
          TracksAttestation(c, read, e, dels, att, attLedger, attOrder, order - 1, n);
          att, attLedger, attOrder := Some(Event(t.ledger, m)), t.ledger, order;
          n := |dels|;
        } else {
          OlderIsPassed(c, read, e, dels, att, attLedger, attOrder, order - 1, n);
          TracksOther(c, read, e, dels, att, attLedger, attOrder, order - 1, n);
        }
      }
      assert memos[..|t.memos|] == memos;
    }
    assert txs[..|txs|] == txs;
    TracksVerdict(c, Events(txs), dels, att, attLedger, attOrder, order, n);
    if InLedgerOrder(txs) {
      HistoryIsJudged(c, txs);
    }
    if att.None? {
      return NoAttestation;
    }
    f := JudgeNewest(c, att.value, attOrder, order, dels, n);
  }

  lemma OlderIsPassed(c: Checks, events: seq<Event>, e: Event, dels: seq<Ordered>, att: Option<Event>, attLedger: nat,
                      attOrder: nat, order: nat, n: nat)
    requires Tracks(c, events, dels, att, attLedger, attOrder, order, n)
    requires e.memo.OtherMemo? || (e.memo.AttestationMemo? && e.ledger < attLedger)
    ensures Step(c, Scanned(c, events), e) == Scanned(c, events)
  {
    hide Scanned;
  }

  lemma TracksVerdict(c: Checks, events: seq<Event>, dels: seq<Ordered>, att: Option<Event>, attLedger: nat,
                      attOrder: nat, order: nat, n: nat)
    requires Tracks(c, events, dels, att, attLedger, attOrder, order, n)
    ensures n <= |dels| && Split(dels, n, attOrder, order) && (att.Some? ==> att.value.memo.AttestationMemo?)
    ensures Verdict(c, events) == Judged(c, att, Bare(dels)[..n])
  {
  }

  method JudgeNewest(c: Checks, att: Event, attOrder: nat, ghost order: nat, dels: seq<Ordered>, ghost n: nat) returns (f: Finding)
    requires att.memo.AttestationMemo? && n <= |dels| && Split(dels, n, attOrder, order)
    ensures f == Judged(c, Some(att), Bare(dels)[..n])
  {
    var r := att.memo.r;
    if r.version != DELEGATED {
      return if c.master(r) then ValidMaster(r, att.ledger) else Invalid(r, att.ledger, BadMaster);
    }
    ghost var ahead := Bare(dels)[..n];
    var mine: Option<Placed> := None;
    for i := 0 to |dels|
      invariant var k := if i < n then i else n; mine == LastMatch(ahead[..k], r) && FirstHigher(ahead[..k], r) == None
    {
      var p := dels[i].p;
      if p.d.vpk != r.vpk || dels[i].order > attOrder {
        if i < n {
          assert ahead[..i + 1][..i] == ahead[..i];
        }
        continue;
      }
      assert ahead[..i + 1][..i] == ahead[..i] && ahead[i] == p;
      if p.d.dseq == r.dseq {
        mine := Some(p);
      }
      if p.d.dseq > r.dseq && dels[i].order < attOrder {
        HigherStays(ahead, r, i + 1);
        return Invalid(r, att.ledger, Replaced(p.d.dseq, p.ledger));
      }
    }
    assert ahead[..n] == ahead;
    if mine.None? {
      return Invalid(r, att.ledger, NoDelegation);
    }
    if !c.delegated(mine.value.d.attestPub, r) {
      return Invalid(r, att.ledger, BadDelegated);
    }
    return ValidDelegated(r, att.ledger, mine.value.d, mine.value.ledger);
  }

  lemma {:induction false} HigherStays(dels: seq<Placed>, r: Record, k: nat)
    requires k <= |dels| && FirstHigher(dels[..k], r).Some?
    ensures FirstHigher(dels, r) == FirstHigher(dels[..k], r)
    decreases |dels|
  {
    if k < |dels| {
      assert dels[..|dels| - 1][..k] == dels[..k];
      HigherStays(dels[..|dels| - 1], r, k);
    } else {
      assert dels[..k] == dels;
    }
  }

  lemma ScanNext(c: Checks, events: seq<Event>, e: Event)
    ensures Scanned(c, events + [e]) == Step(c, Scanned(c, events), e)
  {
    assert (events + [e])[..|events|] == events;
  }

  // ----- what the judgement means -----

  // The verified delegations among the events, in order.
  function Dels(c: Checks, events: seq<Event>): seq<Placed> {
    if events == [] then []
    else
      var last := events[|events| - 1];
      Dels(c, events[..|events| - 1]) + if Verified(c, last) then [Placed(last.memo.d, last.ledger)] else []
  }

  // Oldest first, as the client returns them.
  ghost predicate OldestFirst(events: seq<Event>) {
    forall i, j | 0 <= i < j < |events| :: events[i].ledger <= events[j].ledger
  }

  ghost predicate Newest(events: seq<Event>, k: nat) {
    k < |events| && events[k].memo.AttestationMemo? && forall j | k < j < |events| :: !events[j].memo.AttestationMemo?
  }

  // Event j delegates to the key and dseq that record r names.
  ghost predicate Delegates(c: Checks, e: Event, r: Record) {
    Verified(c, e) && e.memo.d.vpk == r.vpk && e.memo.d.dseq == r.dseq
  }

  // The delegation that r is signed under: the last one ahead of it.
  ghost predicate SignedUnder(c: Checks, events: seq<Event>, k: nat, j: nat, r: Record) {
    j < k <= |events| && Delegates(c, events[j], r) && forall i | j < i < k :: !Delegates(c, events[i], r)
  }

  ghost predicate Retired(c: Checks, events: seq<Event>, k: nat, r: Record) {
    exists i :: 0 <= i < k && i < |events| && Verified(c, events[i]) && events[i].memo.d.vpk == r.vpk && events[i].memo.d.dseq > r.dseq
  }

  lemma {:induction false} ScannedDels(c: Checks, events: seq<Event>)
    ensures Scanned(c, events).dels == Dels(c, events)
    ensures Scanned(c, events).att.None? <==> forall i | 0 <= i < |events| :: !events[i].memo.AttestationMemo?
    ensures Scanned(c, events).att.Some? ==> Scanned(c, events).att.value in events
  {
    if events != [] {
      var front, last := events[..|events| - 1], events[|events| - 1];
      ScannedDels(c, front);
      assert Dels(c, front) + [] == Dels(c, front);
      assert events == front + [last];
      forall i | 0 <= i < |front|
        ensures events[i] == front[i]
      {
      }
    }
  }

  // In an oldest-first history the scan keeps the last attestation, and what came before it.
  lemma {:induction false} ScanKeepsNewest(c: Checks, events: seq<Event>, k: nat)
    requires OldestFirst(events) && Newest(events, k)
    ensures Scanned(c, events).att == Some(events[k]) && Scanned(c, events).ahead == Dels(c, events[..k])
  {
    var front, last := events[..|events| - 1], events[|events| - 1];
    ScannedDels(c, front);
    if k == |events| - 1 {
      assert front == events[..k];
      var s := Scanned(c, front);
      if s.att.Some? {
        var i :| 0 <= i < |front| && front[i] == s.att.value;
        assert events[i] == s.att.value;
      }
    } else {
      assert forall i | 0 <= i < |front| :: front[i] == events[i];
      ScanKeepsNewest(c, front, k);
      assert front[..k] == events[..k];
    }
  }

  lemma {:induction false} LastMatchAt(c: Checks, events: seq<Event>, k: nat, r: Record)
    requires k <= |events|
    ensures match LastMatch(Dels(c, events[..k]), r)
            case None => forall j | 0 <= j < k :: !Delegates(c, events[j], r)
            case Some(p) => exists j: nat :: SignedUnder(c, events, k, j, r) && p == Placed(events[j].memo.d, events[j].ledger)
  {
    if k > 0 {
      var last := events[k - 1];
      var before := Dels(c, events[..k - 1]);
      assert events[..k][..k - 1] == events[..k - 1];
      LastMatchAt(c, events, k - 1, r);
      if Verified(c, last) {
        assert (before + [Placed(last.memo.d, last.ledger)])[..|before|] == before;
      } else {
        assert before + [] == before;
      }
      if Delegates(c, last, r) {
        assert SignedUnder(c, events, k, k - 1, r);
      } else if LastMatch(before, r).Some? {
        var j: nat :| SignedUnder(c, events, k - 1, j, r) && LastMatch(before, r).value == Placed(events[j].memo.d, events[j].ledger);
        assert SignedUnder(c, events, k, j, r);
      }
    }
  }

  // Event i is the first of r's key with a higher dseq.
  ghost predicate RetiredAt(c: Checks, events: seq<Event>, k: nat, i: nat, r: Record) {
    && i < k && i < |events| && Verified(c, events[i]) && events[i].memo.d.vpk == r.vpk && events[i].memo.d.dseq > r.dseq
    && forall j | 0 <= j < i :: Verified(c, events[j]) && events[j].memo.d.vpk == r.vpk ==> events[j].memo.d.dseq <= r.dseq
  }

  lemma {:induction false} FirstHigherAt(c: Checks, events: seq<Event>, k: nat, r: Record)
    requires k <= |events|
    ensures FirstHigher(Dels(c, events[..k]), r).Some? <==> Retired(c, events, k, r)
    ensures FirstHigher(Dels(c, events[..k]), r).Some? ==>
              exists i: nat :: RetiredAt(c, events, k, i, r)
                               && FirstHigher(Dels(c, events[..k]), r).value == Placed(events[i].memo.d, events[i].ledger)
  {
    if k > 0 {
      var last := events[k - 1];
      var before := Dels(c, events[..k - 1]);
      assert events[..k][..k - 1] == events[..k - 1];
      FirstHigherAt(c, events, k - 1, r);
      if Verified(c, last) {
        assert (before + [Placed(last.memo.d, last.ledger)])[..|before|] == before;
      } else {
        assert before + [] == before;
      }
      if Retired(c, events, k - 1, r) {
        var i: nat :| RetiredAt(c, events, k - 1, i, r) && FirstHigher(before, r).value == Placed(events[i].memo.d, events[i].ledger);
        assert RetiredAt(c, events, k, i, r);
      } else if Retired(c, events, k, r) {
        assert RetiredAt(c, events, k, k - 1, r);
      }
    }
  }

  // The delegation it is signed under verifies it, and none ahead of it has a higher dseq.
  ghost predicate Vouched(c: Checks, events: seq<Event>, k: nat, r: Record) {
    && !Retired(c, events, k, r)
    && exists j: nat :: SignedUnder(c, events, k, j, r) && c.delegated(events[j].memo.d.attestPub, r)
  }

  /**
    A delegated attestation is valid exactly when the last earlier verified delegation with its key and
    dseq verifies its signature, and no earlier verified delegation of that key has a higher dseq.
   */
  lemma ValidExactly(c: Checks, events: seq<Event>, k: nat)
    requires OldestFirst(events) && Newest(events, k) && events[k].memo.r.version == DELEGATED
    ensures var r := events[k].memo.r;
            && (Verdict(c, events).ValidDelegated? <==> Vouched(c, events, k, r))
            && (Verdict(c, events).ValidDelegated? || Verdict(c, events).Invalid?)
            && Verdict(c, events).record == r
  {
    var r := events[k].memo.r;
    ScanKeepsNewest(c, events, k);
    LastMatchAt(c, events, k, r);
    FirstHigherAt(c, events, k, r);
    hide Scanned, Dels, LastMatch, FirstHigher, Retired, SignedUnder, OldestFirst;
    var mine := LastMatch(Dels(c, events[..k]), r);
    forall j: nat | SignedUnder(c, events, k, j, r)
      ensures mine.Some? && mine.value == Placed(events[j].memo.d, events[j].ledger)
    {
      SignerIsMatch(c, events, k, j, r);
    }
  }

  // The finding names the events that it comes from.
  ghost predicate Explained(c: Checks, events: seq<Event>, k: nat, f: Finding)
    requires k < |events| && events[k].memo.AttestationMemo?
  {
    var r, ledger := events[k].memo.r, events[k].ledger;
    match f
    case NoAttestation => false
    case ValidMaster(r', l) => r' == r && l == ledger && r.version != 2 && c.master(r)
    case ValidDelegated(r', l, d, dl) =>
      && r' == r && l == ledger && r.version == 2 && !Retired(c, events, k, r)
      && exists j: nat :: SignedUnder(c, events, k, j, r) && d == events[j].memo.d && dl == events[j].ledger && c.delegated(d.attestPub, r)
    case Invalid(r', l, why) =>
      && r' == r && l == ledger
      && match why
         case BadMaster => r.version != 2 && !c.master(r)
         case Replaced(dseq, at) =>
           && r.version == 2
           && exists i: nat :: RetiredAt(c, events, k, i, r) && dseq == events[i].memo.d.dseq && at == events[i].ledger
         case NoDelegation => r.version == 2 && !Retired(c, events, k, r) && forall j | 0 <= j < k :: !Delegates(c, events[j], r)
         case BadDelegated =>
           && r.version == 2 && !Retired(c, events, k, r)
           && exists j: nat :: SignedUnder(c, events, k, j, r) && !c.delegated(events[j].memo.d.attestPub, r)
  }

  /**
    What is found of the newest attestation: which delegation vouches for it, which one replaced the key it was
    signed under, or what else is wrong with it.
   */
  lemma FindingIsExplained(c: Checks, events: seq<Event>, k: nat)
    requires OldestFirst(events) && Newest(events, k)
    ensures Explained(c, events, k, Verdict(c, events))
  {
    var r := events[k].memo.r;
    ScanKeepsNewest(c, events, k);
    LastMatchAt(c, events, k, r);
    FirstHigherAt(c, events, k, r);
    hide Scanned, Dels, LastMatch, FirstHigher, Retired, RetiredAt, SignedUnder, OldestFirst;
    var ahead := Dels(c, events[..k]);
    if r.version == DELEGATED && FirstHigher(ahead, r).None? && LastMatch(ahead, r).Some? {
      var j: nat :| SignedUnder(c, events, k, j, r) && LastMatch(ahead, r).value == Placed(events[j].memo.d, events[j].ledger);
    }
  }

  // A memo of a transaction that the account sent and that succeeded.
  ghost predicate IsSent(txs: seq<TxRec>, e: Event, i: nat, j: nat) {
    i < |txs| && txs[i].mine && j < |txs[i].memos| && e == Event(txs[i].ledger, txs[i].memos[j])
  }

  /** The memos that count are exactly those of the account's own successful transactions. */
  lemma {:induction false} EventsExactly(txs: seq<TxRec>, e: Event)
    ensures e in Events(txs) <==> exists i: nat, j: nat :: IsSent(txs, e, i, j)
  {
    if txs != [] {
      var front, last := txs[..|txs| - 1], |txs| - 1;
      EventsExactly(front, e);
      if e in Events(front) {
        var i: nat, j: nat :| IsSent(front, e, i, j);
        assert IsSent(txs, e, i, j);
      }
      if e in MemoEvents(txs[last]) {
        var j :| 0 <= j < |MemoEvents(txs[last])| && MemoEvents(txs[last])[j] == e;
        assert IsSent(txs, e, last, j);
      }
      if i: nat, j: nat :| IsSent(txs, e, i, j) {
        if i < last {
          assert IsSent(front, e, i, j);
        } else {
          assert MemoEvents(txs[last])[j] == e;
        }
      }
    }
  }

  lemma SignerIsMatch(c: Checks, events: seq<Event>, k: nat, j: nat, r: Record)
    requires SignedUnder(c, events, k, j, r)
    ensures LastMatch(Dels(c, events[..k]), r) == Some(Placed(events[j].memo.d, events[j].ledger))
  {
    LastMatchAt(c, events, k, r);
    hide Dels, LastMatch;
  }

  /** A master-key attestation is judged by its own signature alone. */
  lemma MasterExactly(c: Checks, events: seq<Event>, k: nat)
    requires OldestFirst(events) && Newest(events, k) && events[k].memo.r.version != DELEGATED
    ensures var r, ledger := events[k].memo.r, events[k].ledger;
            Verdict(c, events) == if c.master(r) then ValidMaster(r, ledger) else Invalid(r, ledger, BadMaster)
  {
    ScanKeepsNewest(c, events, k);
  }

  /** Delegations and junk appended behind it never change a finding. */
  lemma {:induction false} AppendedDelegations(c: Checks, events: seq<Event>, more: seq<Event>)
    requires forall i | 0 <= i < |more| :: !more[i].memo.AttestationMemo?
    ensures Scanned(c, events + more).att == Scanned(c, events).att && Scanned(c, events + more).ahead == Scanned(c, events).ahead
    ensures Verdict(c, events + more) == Verdict(c, events)
  {
    if more == [] {
      assert events + more == events;
    } else {
      var front := more[..|more| - 1];
      AppendedDelegations(c, events, front);
      ScanNext(c, events + front, more[|more| - 1]);
      assert events + more == events + front + [more[|more| - 1]];
    }
  }

  lemma {:induction false} ScanSplits(c: Checks, s: Scan, a: seq<Event>, b: seq<Event>)
    ensures ScanFrom(c, s, a + b) == ScanFrom(c, ScanFrom(c, s, a), b)
  {
    if b == [] {
      assert a + b == a;
    } else {
      var last := |b| - 1;
      ScanSplits(c, s, a, b[..last]);
      assert (a + b)[..|a + b| - 1] == a + b[..last];
    }
  }

  /** A delegation that does not verify may as well not be there, wherever it stands. */
  lemma DroppedUnverified(c: Checks, before: seq<Event>, e: Event, after: seq<Event>)
    requires !Verified(c, e) && !e.memo.AttestationMemo?
    ensures Verdict(c, before + [e] + after) == Verdict(c, before + after)
  {
    ScanNext(c, before, e);
    hide Step;
    ScanSplits(c, EMPTY, before + [e], after);
    ScanSplits(c, EMPTY, before, after);
    assert Step(c, Scanned(c, before), e) == Scanned(c, before) by {
      NoStep(c, Scanned(c, before), e);
    }
  }

  lemma NoStep(c: Checks, s: Scan, e: Event)
    requires !Verified(c, e) && !e.memo.AttestationMemo?
    ensures Step(c, s, e) == s
  {
  }

  /** Once a higher delegation of its key has landed, no later attestation under the old one is valid again. */
  lemma RetiredStaysRetired(c: Checks, events: seq<Event>, more: seq<Event>, i: nat, k: nat)
    requires OldestFirst(events + more) && i < |events| <= k && Newest(events + more, k) && Verified(c, events[i])
    requires var r, d := (events + more)[k].memo.r, events[i].memo.d;
             r.version == DELEGATED && d.vpk == r.vpk && d.dseq > r.dseq
    ensures Verdict(c, events + more).Invalid?
  {
    var all := events + more;
    ValidExactly(c, all, k);
    assert all[i] == events[i];
    assert Retired(c, all, k, all[k].memo.r);
    hide Verdict;
  }

  // The client returns the transactions oldest first.
  ghost predicate InLedgerOrder(txs: seq<TxRec>) {
    forall i, j | 0 <= i < j < |txs| :: txs[i].ledger <= txs[j].ledger
  }

  // Transactions that come oldest first give their memos oldest first.
  lemma {:induction false} EventsAreOldestFirst(txs: seq<TxRec>)
    requires InLedgerOrder(txs)
    ensures OldestFirst(Events(txs))
    ensures forall e | e in Events(txs) :: e.ledger <= txs[|txs| - 1].ledger
  {
    if txs != [] {
      var front, last := txs[..|txs| - 1], txs[|txs| - 1];
      EventsAreOldestFirst(front);
      assert forall e | e in MemoEvents(last) :: e.ledger == last.ledger;
      var a: seq<Event>, b: seq<Event> := Events(front), MemoEvents(last);
      forall i, j | 0 <= i < j < |a + b|
        ensures (a + b)[i].ledger <= (a + b)[j].ledger
      {
        if i < |a| <= j {
          assert a[i] in a && b[j - |a|] in b;
        }
      }
    }
  }

  lemma {:induction false} SomeNewest(events: seq<Event>)
    ensures (forall k: nat :: !Newest(events, k)) ==> forall i | 0 <= i < |events| :: !events[i].memo.AttestationMemo?
  {
    if events != [] {
      var front, last := events[..|events| - 1], |events| - 1;
      SomeNewest(front);
      if events[last].memo.AttestationMemo? {
        assert Newest(events, last);
      } else {
        forall k: nat | Newest(front, k)
          ensures Newest(events, k)
        {
          assert forall j | 0 <= j < last :: events[j] == front[j];
        }
        assert forall j | 0 <= j < last :: events[j] == front[j];
      }
    }
  }

  // The judgement of a whole history of transactions.
  lemma HistoryIsJudged(c: Checks, txs: seq<TxRec>)
    requires InLedgerOrder(txs)
    ensures var events, f := Events(txs), Verdict(c, Events(txs));
            && (forall k: nat | Newest(events, k) && events[k].memo.r.version == DELEGATED ::
                  !f.NoAttestation? && f.record == events[k].memo.r && (f.ValidDelegated? <==> Vouched(c, events, k, f.record)))
            && (forall k: nat | Newest(events, k) :: Explained(c, events, k, f))
            && (f.NoAttestation? <==> forall k: nat :: !Newest(events, k))
  {
    var events := Events(txs);
    EventsAreOldestFirst(txs);
    SomeNewest(events);
    ScannedDels(c, events);
    hide Events, Scanned, Vouched, OldestFirst, Explained;
    forall k: nat | Newest(events, k)
      ensures !Verdict(c, events).NoAttestation? && Explained(c, events, k, Verdict(c, events))
      ensures events[k].memo.r.version == DELEGATED ==>
                var f := Verdict(c, events);
                !f.NoAttestation? && f.record == events[k].memo.r && (f.ValidDelegated? <==> Vouched(c, events, k, f.record))
    {
      FindingIsExplained(c, events, k);
      if events[k].memo.r.version == DELEGATED {
        ValidExactly(c, events, k);
      } else {
        MasterExactly(c, events, k);
      }
    }
  }
}
