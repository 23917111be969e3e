/**
  The ledger as its clients reach it: internal/xrpl/fake/fake.go:53-161 and the client calls of
  internal/backup. Every call lets any number of ledger steps happen first, and may fail.
 */
module LedgerClient {
  import opened Common
  import opened LedgerModel

  datatype CallError = NotFound | Unreachable

  datatype Code = Success | Queued | PastSeq | PreSeq | OtherCode

  datatype ServerState = ServerState(validated: nat, baseFee: nat, openFee: nat)

  datatype AccountState = AccountState(sequence: nat, balance: nat)

  // One call to the ledger, and what came of it.
  datatype Answer =
    | Looked(asked: Tx, found: Result<Rec, CallError>)
    | Served(state: Result<ServerState, CallError>)
    | Held(account: Result<AccountState, CallError>)
    | Took(sent: Tx, code: Result<Code, CallError>)
    | Entry(did: Result<Body, CallError>)

  const MAX_INNER := 8

  // What rippled asks of a Batch before it applies anything.
  predicate WellFormed(t: Tx) {
    t.body.Batch? ==>
      && 2 <= |t.body.inner| <= MAX_INNER
      && t.fee >= 10 * (|t.body.inner| + 2)
      && forall i | 0 <= i < |t.body.inner| ::
           var inner := t.body.inner[i];
           inner.isInner && !inner.body.Batch? && inner.fee == 0 && inner.sequence == t.sequence + 1 + i
  }

  // What another holder of the writer key may write: anything that it cannot seal itself.
  predicate Junk(b: Body) {
    b.Foreign? || b.JunkPart? || b.ChunkMemo?
  }

  // What the account's DID entry holds.
  function LastAnchor(txs: seq<Rec>): Option<Body> {
    if txs == [] then None
    else
      var last := txs[|txs| - 1];
      if last.ok && last.tx.body.Anchor? then Some(last.tx.body) else LastAnchor(txs[..|txs| - 1])
  }

  class Ledger {
    // Every transaction in a validated ledger, oldest first.
    var txs: seq<Rec>
    var index: LedgerIndex
    var sequence: nat
    // Submitted, not yet in a validated ledger.
    var pending: set<Tx>
    // The manifests sealed so far. A nonce is a position here, so no two seals share one.
    var sealed: seq<Manifest>
    // Every call made so far, with its answer.
    ghost var answers: seq<Answer>

    constructor ()
      ensures Valid() && txs == [] && sealed == [] && answers == []
    {
      txs, index, sequence, pending, sealed, answers := [], 1000, 1, {}, [], [];
    }

    ghost predicate Valid()
      reads this
    {
      && Safe(txs, sealed)
      && forall t | t in pending :: TxSafe(Landed(txs), sealed, t)
    }

    // Nothing that was on the ledger is gone or changed.
    twostate predicate Grew()
      reads this
    {
      && old(txs) <= txs
      && old(Landed(txs)) <= Landed(txs)
      && old(sequence) <= sequence
      && old(answers) <= answers
    }

    // Another client may have been at work, but nothing was sealed.
    twostate predicate Moved()
      reads this
    {
      Valid() && Grew() && sealed == old(sealed)
    }

    twostate predicate Progressed()
      reads this
    {
      Valid() && Grew() && old(sealed) <= sealed
    }

    method Record(t: Tx, ok: bool)
      requires Valid() && (ok ==> BodySafe(Landed(txs), sealed, t.body))
      modifies `txs
      ensures Moved() && txs == old(txs) + [Rec(t, index, ok)]
    {
      hide Safe, BodySafe, TxSafe, Landed;
      ghost var before := txs;
      SafeAppend(txs, sealed, Rec(t, index, ok));
      LandedPlus(txs, Rec(t, index, ok));
      txs := txs + [Rec(t, index, ok)];
      PendingStaysSafe(pending, before, txs, sealed);
    }

    method RecordAll(inner: seq<Tx>)
      requires Valid() && BatchSafe(Landed(txs), sealed, inner)
      modifies `txs
      ensures Moved() && txs == old(txs) + Applied(inner, index)
    {
      hide Safe, BodySafe, TxSafe, BatchSafe, Landed;
      ghost var before := txs;
      SafeBatch(txs, sealed, inner, index);
      txs := txs + Applied(inner, index);
      LandedPrefix(before, txs);
      PendingStaysSafe(pending, before, txs, sealed);
    }

    // One submitted transaction is applied, or is charged its fee and does nothing.
    method Apply(t: Tx)
      requires Valid() && TxSafe(Landed(txs), sealed, t) && WellFormed(t)
      modifies `txs, `sequence
      ensures Moved() && sequence == old(sequence) + |txs| - |old(txs)|
      ensures !t.body.Batch? ==> txs == old(txs) + [Rec(t, index, true)] || txs == old(txs) + [Rec(t, index, false)]
      ensures t.body.Batch? ==>
                || txs == old(txs) + [Rec(t, index, true)]
                || txs == old(txs) + [Rec(t, index, true)] + Applied(t.body.inner, index)
    {
      hide Safe, BodySafe, BatchSafe, Landed, WellFormed;
      var works: bool := *;
      sequence := sequence + 1;
      ghost var before := txs;
      ghost var seals := sealed;
      if t.body.Batch? {
        UnsealedIsSafe(Landed(txs), sealed, t.body);
        Record(t, true);
        LandedPrefix(before, txs);
        if works {
          BatchStaysSafe(Landed(before), Landed(txs), seals, seals, t.body.inner);
          RecordAll(t.body.inner);
          LandedPrefix(before, txs);
          sequence := sequence + |t.body.inner|;
        }
      } else {
        Record(t, works);
      }
    }

    // Anything that can happen to the ledger next.
    method Step()
      requires Valid()
      modifies this
      ensures Moved() && answers == old(answers)
    {
      hide Safe, BodySafe, BatchSafe, Landed, TxSafe;
      if
      case index < MAX_LEDGER =>
        index := index + 1;
      case pending != {} =>
        var t :| t in pending;
        pending := pending - {t};
        if t.sequence == sequence && index <= t.lastLedger && WellFormed(t) {
          Apply(t);
        }
      case true =>
        // Another holder of the writer key writes junk.
        var t: Tx := *;
        if Junk(t.body) {
          UnsealedIsSafe(Landed(txs), sealed, t.body);
          sequence := sequence + 1;
          Record(t, true);
        }
      case txs != [] =>
        // Another holder of the writer key repeats what is already public.
        var i: int := *;
        if 0 <= i < |txs| && txs[i].ok {
          var t: Tx := *;
          ReplayIsSafe(txs, sealed, i);
          sequence := sequence + 1;
          Record(t.(body := txs[i].tx.body), true);
        }
    }

    method Steps()
      requires Valid()
      modifies this
      ensures Moved() && answers == old(answers)
    {
      hide Safe, BodySafe, Landed, TxSafe;
      var n: int := *;
      while n > 0
        invariant Moved() && answers == old(answers)
      {
        Step();
        n := n - 1;
      }
    }

    /**
      Submission. The answer is about the moment it was given: a transaction may be applied later, or
      never, whatever it was. Success is said only of a transaction that has the account's sequence and
      that rippled would take; a sequence code only of one that has another.
     */
    method Submit(t: Tx) returns (r: Result<Code, CallError>)
      requires Valid() && TxSafe(Landed(txs), sealed, t)
      modifies this
      ensures Moved() && answers == old(answers) + [Took(t, r)]
      ensures r == Ok(Success) ==> WellFormed(t) && old(sequence) <= t.sequence <= sequence
      ensures r == Ok(PastSeq) || r == Ok(PreSeq) ==> t.sequence < sequence || old(sequence) < t.sequence
    {
      hide Safe, BodySafe, Landed, TxSafe, WellFormed;
      ghost var before, seals := txs, sealed;
      Steps();
      TxStaysSafe(Landed(before), Landed(txs), seals, sealed, t);
      var code: Code := *;
      if t.sequence < sequence {
        code := PastSeq;
      } else {
        var arrives: bool := *;
        if arrives {
          pending := pending + {t};
        }
        if t.sequence == sequence && (code.PastSeq? || code.PreSeq?) {
          code := Queued;
        }
        if code.Success? && (t.sequence != sequence || !WellFormed(t)) {
          code := OtherCode;
        }
      }
      Steps();
      var heard: bool := *;
      r := if heard then Ok(code) else Err(Unreachable);
      answers := answers + [Took(t, r)];
    }

    // A server that has not the whole history may answer not found of a transaction that has landed.
    method Lookup(t: Tx) returns (r: Result<Rec, CallError>)
      requires Valid()
      modifies this
      ensures Moved() && answers == old(answers) + [Looked(t, r)]
      ensures r.Ok? ==> r.value in txs && r.value.tx == t && (r.value.ok ==> t in Landed(txs))
    {
      Steps();
      var why: CallError := *;
      r := Err(why);
      var heard: bool := *;
      for i := 0 to |txs|
        invariant r.Ok? ==> r.value in txs && r.value.tx == t
      {
        if heard && txs[i].tx == t {
          r := Ok(txs[i]);
        }
      }
      answers := answers + [Looked(t, r)];
    }

    method ServerInfo() returns (r: Result<ServerState, CallError>)
      requires Valid()
      modifies this
      ensures Moved() && answers == old(answers) + [Served(r)]
    {
      Steps();
      r := *;
      answers := answers + [Served(r)];
    }

    method AccountInfo() returns (r: Result<AccountState, CallError>)
      requires Valid()
      modifies this
      ensures Moved() && answers == old(answers) + [Held(r)]
    {
      Steps();
      r := *;
      answers := answers + [Held(r)];
    }

    // The entry holds the anchor that landed last.
    method LedgerEntryDID() returns (r: Result<Body, CallError>)
      requires Valid()
      modifies this
      ensures Moved() && answers == old(answers) + [Entry(r)]
      ensures r.Ok? ==> LastAnchor(txs) == Some(r.value)
      ensures r == Err(NotFound) ==> LastAnchor(txs) == None
    {
      Steps();
      var heard: bool := *;
      var anchor := LastAnchor(txs);
      r := if !heard then Err(Unreachable) else if anchor.None? then Err(NotFound) else Ok(anchor.value);
      answers := answers + [Entry(r)];
    }

    // A fresh nonce for one manifest.
    method Seal(m: Manifest) returns (nonce: nat)
      requires Valid()
      modifies `sealed
      ensures Valid() && nonce == old(|sealed|) && sealed == old(sealed) + [m]
    {
      hide Safe, BodySafe, Landed, TxSafe;
      nonce := |sealed|;
      ghost var before := sealed;
      sealed := sealed + [m];
      SafeWithMoreSealed(txs, before, sealed);
      forall t | t in pending
        ensures TxSafe(Landed(txs), sealed, t)
      {
        TxStaysSafe(Landed(txs), Landed(txs), before, sealed, t);
      }
    }
  }

  lemma LandedPrefix(before: seq<Rec>, txs: seq<Rec>)
    requires before <= txs
    ensures Landed(before) <= Landed(txs)
  {
    LandedGrows(txs, |before|, |txs|);
    assert txs[..|txs|] == txs && txs[..|before|] == before;
  }

  lemma PendingStaysSafe(pending: set<Tx>, before: seq<Rec>, txs: seq<Rec>, sealed: seq<Manifest>)
    requires forall t | t in pending :: TxSafe(Landed(before), sealed, t)
    requires before <= txs
    ensures forall t | t in pending :: TxSafe(Landed(txs), sealed, t)
  {
    hide TxSafe, Landed;
    LandedPrefix(before, txs);
    forall t | t in pending
      ensures TxSafe(Landed(txs), sealed, t)
    {
      TxStaysSafe(Landed(before), Landed(txs), sealed, sealed, t);
    }
  }

  lemma UnsealedIsSafe(landed: set<Tx>, sealed: seq<Manifest>, b: Body)
    requires Junk(b) || b.Batch?
    ensures BodySafe(landed, sealed, b)
  {
  }

  lemma ReplayIsSafe(txs: seq<Rec>, sealed: seq<Manifest>, i: nat)
    requires Safe(txs, sealed) && i < |txs| && txs[i].ok
    ensures BodySafe(Landed(txs), sealed, txs[i].tx.body)
  {
    LandedGrows(txs, i, |txs|);
    assert txs[..|txs|] == txs;
    MoreLandsStillSafe(Landed(txs[..i]), Landed(txs), sealed, sealed, txs[i].tx.body);
  }
}
