/**
  What the ledger told a run, and what the run makes of it: internal/backup/backup.go:386-449.
 */
module RunLog {
  import opened Common
  import opened LedgerModel
  import opened LedgerClient
  import opened BackupSteps
  import opened FeeCeiling

  datatype SubmitError =
    | Network
    | NoAccount
    | FeeAboveCap
    | LowBalance
    | SubmitRefused
    | FailedOnLedger
    | InnerNotApplied
    | NotValidated
    | TooManyParts
    | ChunksUnknown

  const RESERVE := 1_200_000

  // ----- why a run ends in an error -----

  // An answer that can end a run in this error. A batch of 8 pays ten base fees.
  predicate Blames(e: SubmitError, a: Answer, maxFee: nat) {
    match e
    case Network =>
      (a.Served? && a.state.Err?) || a == Held(Err(Unreachable)) ||
      (a.Looked? && a.found == Err(Unreachable)) || (a.Took? && a.code.Err?) || (a.Entry? && a.did.Err?)
    case NoAccount => a == Held(Err(NotFound))
    case FeeAboveCap => a.Served? && a.state.Ok? && (a.state.value.openFee > maxFee || a.state.value.baseFee > maxFee)
    case LowBalance => a.Held? && a.account.Ok? && a.account.value.balance < RESERVE + maxFee * 10
    case SubmitRefused => a.Took? && a.code == Ok(OtherCode)
    case FailedOnLedger => a.Looked? && a.found.Ok? && !a.found.value.ok
    case InnerNotApplied => a.Looked? && (a.found.Ok? ==> !a.found.value.ok)
    case NotValidated => (a.Took? && (a.code == Ok(PastSeq) || a.code == Ok(PreSeq))) || (a.Looked? && a.found.Err?)
    case TooManyParts | ChunksUnknown => false
  }

  // One of the answers from n on is to blame.
  ghost predicate Blamed(e: SubmitError, answers: seq<Answer>, n: nat, maxFee: nat) {
    exists i :: n <= i < |answers| && Blames(e, answers[i], maxFee)
  }

  lemma BlameStays(e: SubmitError, answers: seq<Answer>, n: nat, later: seq<Answer>, m: nat, maxFee: nat)
    requires Blamed(e, answers, n, maxFee) && answers <= later && m <= n
    ensures Blamed(e, later, m, maxFee) && e != TooManyParts && e != ChunksUnknown
  {
    var i :| n <= i < |answers| && Blames(e, answers[i], maxFee);
    assert later[i] == answers[i];
  }

  lemma BlameLast(e: SubmitError, answers: seq<Answer>, n: nat, maxFee: nat)
    requires n < |answers| && Blames(e, answers[|answers| - 1], maxFee)
    ensures Blamed(e, answers, n, maxFee)
  {
  }

  // What one base fee costs: the open ledger's fee, and never less than the server's base fee.
  function Rate(st: ServerState): (rate: nat)
    ensures st.baseFee <= rate && st.openFee <= rate && (rate == st.baseFee || rate == st.openFee)
  {
    if st.openFee < st.baseFee then st.baseFee else st.openFee
  }

  // Drawn up from what the server and the account said last: the next sequence, twenty ledgers, and the higher fee for each unit.
  predicate DrawnFrom(t: Tx, units: nat, server: Answer, account: Answer) {
    && server.Served? && server.state.Ok? && account.Held? && account.account.Ok?
    && var st, acct := server.state.value, account.account.value;
       && t.sequence == acct.sequence && t.lastLedger == st.validated + 20
       && t.fee == units * Rate(st)
       && acct.balance >= RESERVE + t.fee
  }

  ghost predicate Drawn(t: Tx, units: nat, answers: seq<Answer>, n: nat) {
    exists i :: n < i < |answers| && DrawnFrom(t, units, answers[i - 1], answers[i])
  }

  lemma DrawnStays(t: Tx, units: nat, answers: seq<Answer>, n: nat, later: seq<Answer>, m: nat)
    requires Drawn(t, units, answers, n) && answers <= later && m <= n
    ensures Drawn(t, units, later, m)
  {
    hide DrawnFrom;
    var i :| n < i < |answers| && DrawnFrom(t, units, answers[i - 1], answers[i]);
    assert later[i - 1] == answers[i - 1] && later[i] == answers[i];
  }

  // How many transactions were submitted, and how many looked up.
  function Tries(answers: seq<Answer>): nat {
    if answers == [] then 0 else Tries(answers[..|answers| - 1]) + if answers[|answers| - 1].Took? then 1 else 0
  }

  function Polls(answers: seq<Answer>): nat {
    if answers == [] then 0 else Polls(answers[..|answers| - 1]) + if answers[|answers| - 1].Looked? then 1 else 0
  }

  lemma OneAnswer(answers: seq<Answer>, a: Answer)
    ensures Tries(answers + [a]) == Tries(answers) + if a.Took? then 1 else 0
    ensures Polls(answers + [a]) == Polls(answers) + if a.Looked? then 1 else 0
  {
    assert (answers + [a])[..|answers|] == answers;
  }

  lemma StateIsNoTry(answers: seq<Answer>, a: Answer, b: Answer)
    requires !a.Took? && !a.Looked? && !b.Took? && !b.Looked?
    ensures Tries(answers + [a, b]) == Tries(answers) && Polls(answers + [a, b]) == Polls(answers)
  {
    OneAnswer(answers, a);
    OneAnswer(answers + [a], b);
    assert answers + [a, b] == answers + [a] + [b];
  }

  // The server is past the last ledger that the transaction could apply in.
  ghost predicate Expired(t: Tx, answers: seq<Answer>) {
    answers != [] && var a := answers[|answers| - 1]; a.Served? && a.state.Ok? && a.state.value.validated > t.lastLedger
  }

  // ----- what the dump's entries are asked for -----

  predicate OfBackup(b: Body, id: BackupId) {
    (b.ChunkMemo? || b.PartMemo?) && b.id == id
  }

  // The dump's entries of one backup, in order.
  function Mine(dump: seq<DumpTx>, id: BackupId): (mine: seq<DumpTx>)
    ensures |mine| <= |dump|
    ensures forall t :: t in mine <==> t in dump && OfBackup(t.tx.body, id)
  {
    if dump == [] then []
    else
      var last := |dump| - 1;
      Mine(dump[..last], id) + if OfBackup(dump[last].tx.body, id) then [dump[last]] else []
  }

  // Each entry was looked up in turn, and the ledger said yes or no of it.
  predicate Asked(mine: seq<DumpTx>, answers: seq<Answer>) {
    && |answers| == |mine|
    && forall i | 0 <= i < |mine| ::
         answers[i].Looked? && answers[i].asked == mine[i].tx && answers[i].found != Err(Unreachable)
  }

  predicate Yes(a: Answer) {
    a.Looked? && a.found.Ok? && a.found.value.ok
  }

  // The entries that the ledger said have landed.
  function Confirmed(mine: seq<DumpTx>, answers: seq<Answer>): (conf: seq<DumpTx>)
    requires |answers| == |mine|
    ensures forall t :: t in conf <==> exists i :: 0 <= i < |mine| && mine[i] == t && Yes(answers[i])
  {
    if mine == [] then []
    else
      var last := |mine| - 1;
      assert forall i | 0 <= i < last :: mine[..last][i] == mine[i] && answers[..last][i] == answers[i];
      Confirmed(mine[..last], answers[..last]) + if Yes(answers[last]) then [mine[last]] else []
  }

  lemma MineOf(dump: seq<DumpTx>, id: BackupId, i: nat)
    requires i < |dump|
    ensures Mine(dump[..i + 1], id) == Mine(dump[..i], id) + if OfBackup(dump[i].tx.body, id) then [dump[i]] else []
  {
    assert dump[..i + 1][..i] == dump[..i];
  }

  lemma {:induction false} MineGrows(dump: seq<DumpTx>, id: BackupId, i: nat)
    requires i <= |dump|
    ensures |Mine(dump[..i], id)| <= |Mine(dump, id)|
    decreases |dump| - i
  {
    if i < |dump| {
      MineOf(dump, id, i);
      MineGrows(dump, id, i + 1);
    } else {
      assert dump[..i] == dump;
    }
  }

  lemma ConfirmedMore(mine: seq<DumpTx>, answers: seq<Answer>, t: DumpTx, a: Answer)
    requires |answers| == |mine|
    ensures Confirmed(mine + [t], answers + [a]) == Confirmed(mine, answers) + if Yes(a) then [t] else []
  {
    assert (mine + [t])[..|mine|] == mine && (answers + [a])[..|mine|] == answers;
  }

  // ----- what is taken from them -----

  predicate IsChunk(t: DumpTx, c: string) {
    t.tx.body.ChunkMemo? && t.tx.body.ciphertext == c
  }

  predicate IsPart(t: DumpTx, nonce: nat, index: nat) {
    t.tx.body.PartMemo? && t.tx.body.nonce == nonce && t.tx.body.index == index
  }

  // Entry i is the last of them for this chunk.
  ghost predicate LastChunk(conf: seq<DumpTx>, c: string, i: nat) {
    i < |conf| && IsChunk(conf[i], c) && forall j | i < j < |conf| :: !IsChunk(conf[j], c)
  }

  ghost predicate LastPart(conf: seq<DumpTx>, nonce: nat, index: nat, i: nat) {
    i < |conf| && IsPart(conf[i], nonce, index) && forall j | i < j < |conf| :: !IsPart(conf[j], nonce, index)
  }

  // Each confirmed chunk under its ciphertext, the later entry first.
  ghost predicate GatheredChunks(conf: seq<DumpTx>, recorded: map<string, DumpTx>) {
    && (forall c | c in recorded :: exists i: nat :: LastChunk(conf, c, i) && conf[i] == recorded[c])
    && forall i | 0 <= i < |conf| && conf[i].tx.body.ChunkMemo? :: conf[i].tx.body.ciphertext in recorded
  }

  // Each confirmed part under its nonce and index, the later entry first.
  ghost predicate GatheredParts(conf: seq<DumpTx>, parts: map<nat, map<nat, DumpTx>>) {
    && (forall n, x | n in parts && x in parts[n] :: exists i: nat :: LastPart(conf, n, x, i) && conf[i] == parts[n][x])
    && forall i | 0 <= i < |conf| && conf[i].tx.body.PartMemo? ::
         conf[i].tx.body.nonce in parts && conf[i].tx.body.index in parts[conf[i].tx.body.nonce]
  }

  lemma NothingGathered(conf: seq<DumpTx>, recorded: map<string, DumpTx>, parts: map<nat, map<nat, DumpTx>>)
    requires |conf| == |recorded| == |parts| == 0
    ensures GatheredChunks(conf, recorded) && GatheredParts(conf, parts)
  {
  }

  lemma ChunkGathered(conf: seq<DumpTx>, recorded: map<string, DumpTx>, t: DumpTx)
    requires GatheredChunks(conf, recorded)
    ensures t.tx.body.ChunkMemo? ==> GatheredChunks(conf + [t], recorded[t.tx.body.ciphertext := t])
    ensures !t.tx.body.ChunkMemo? ==> GatheredChunks(conf + [t], recorded)
  {
    var more := conf + [t];
    var now := if t.tx.body.ChunkMemo? then recorded[t.tx.body.ciphertext := t] else recorded;
    forall c | c in now
      ensures exists i: nat :: LastChunk(more, c, i) && more[i] == now[c]
    {
      if IsChunk(t, c) {
        assert LastChunk(more, c, |conf|);
      } else {
        var i: nat :| LastChunk(conf, c, i) && conf[i] == recorded[c];
        assert LastChunk(more, c, i) && more[i] == now[c];
      }
    }
  }

  lemma PartGathered(conf: seq<DumpTx>, parts: map<nat, map<nat, DumpTx>>, t: DumpTx)
    requires GatheredParts(conf, parts)
    ensures t.tx.body.PartMemo? ==>
              var b := t.tx.body;
              GatheredParts(conf + [t], parts[b.nonce := (if b.nonce in parts then parts[b.nonce] else map[])[b.index := t]])
    ensures !t.tx.body.PartMemo? ==> GatheredParts(conf + [t], parts)
  {
    var more, b := conf + [t], t.tx.body;
    var now := if b.PartMemo? then parts[b.nonce := (if b.nonce in parts then parts[b.nonce] else map[])[b.index := t]] else parts;
    forall n, x | n in now && x in now[n]
      ensures exists i: nat :: LastPart(more, n, x, i) && more[i] == now[n][x]
    {
      if IsPart(t, n, x) {
        assert LastPart(more, n, x, |conf|);
      } else {
        var i: nat :| LastPart(conf, n, x, i) && conf[i] == parts[n][x];
        assert LastPart(more, n, x, i) && more[i] == now[n][x];
      }
    }
  }

  lemma GatheredHaveLanded(landed: set<Tx>, id: BackupId, conf: seq<DumpTx>, recorded: map<string, DumpTx>,
                           parts: map<nat, map<nat, DumpTx>>)
    requires GatheredChunks(conf, recorded) && GatheredParts(conf, parts)
    requires forall t | t in conf :: t.tx in landed && OfBackup(t.tx.body, id) && Genuine(t.tx.body)
    ensures RecordedOn(landed, id, recorded) && PartsOn(landed, id, parts)
  {
    forall c | c in recorded
      ensures recorded[c] in conf && IsChunk(recorded[c], c)
    {
      var i: nat :| LastChunk(conf, c, i) && conf[i] == recorded[c];
    }
    forall n, x | n in parts && x in parts[n]
      ensures parts[n][x] in conf && IsPart(parts[n][x], n, x)
    {
      var i: nat :| LastPart(conf, n, x, i) && conf[i] == parts[n][x];
    }
  }

  /**
    What reading the dump amounts to: every entry of the backup was looked up, and recorded and parts hold those
    that the ledger said have landed.
   */
  ghost predicate DumpRead(dump: seq<DumpTx>, id: BackupId, answers: seq<Answer>, landed: set<Tx>,
                           recorded: map<string, DumpTx>, parts: map<nat, map<nat, DumpTx>>) {
    && Asked(Mine(dump, id), answers)
    && var conf := Confirmed(Mine(dump, id), answers);
       && GatheredChunks(conf, recorded) && GatheredParts(conf, parts)
       && forall t | t in conf :: t.tx in landed
  }

  lemma NothingRead(dump: seq<DumpTx>, id: BackupId, landed: set<Tx>)
    requires dump == []
    ensures DumpRead(dump, id, [], landed, map[], map[])
  {
    NothingGathered([], map[], map[]);
  }

  lemma EntryPassed(dump: seq<DumpTx>, id: BackupId, i: nat, answers: seq<Answer>, landed: set<Tx>,
                    recorded: map<string, DumpTx>, parts: map<nat, map<nat, DumpTx>>)
    requires i < |dump| && DumpRead(dump[..i], id, answers, landed, recorded, parts) && !OfBackup(dump[i].tx.body, id)
    ensures DumpRead(dump[..i + 1], id, answers, landed, recorded, parts)
  {
    hide Asked, GatheredChunks, GatheredParts;
    MineOf(dump, id, i);
    assert Mine(dump[..i + 1], id) == Mine(dump[..i], id);
  }

  lemma EntryRead(dump: seq<DumpTx>, id: BackupId, i: nat, answers: seq<Answer>, a: Answer, landed: set<Tx>, more: set<Tx>,
                  recorded: map<string, DumpTx>, parts: map<nat, map<nat, DumpTx>>)
    requires i < |dump| && DumpRead(dump[..i], id, answers, landed, recorded, parts) && OfBackup(dump[i].tx.body, id)
    requires a.Looked? && a.asked == dump[i].tx && a.found != Err(Unreachable)
    requires landed <= more && (Yes(a) ==> dump[i].tx in more)
    ensures !Yes(a) ==> DumpRead(dump[..i + 1], id, answers + [a], more, recorded, parts)
    ensures var t, b := dump[i], dump[i].tx.body;
            && (Yes(a) && b.ChunkMemo? ==> DumpRead(dump[..i + 1], id, answers + [a], more, recorded[b.ciphertext := t], parts))
            && (Yes(a) && b.PartMemo? ==>
                  DumpRead(dump[..i + 1], id, answers + [a], more, recorded,
                           parts[b.nonce := (if b.nonce in parts then parts[b.nonce] else map[])[b.index := t]]))
  {
    hide GatheredChunks, GatheredParts, Mine, Confirmed;
    var mine, t := Mine(dump[..i], id), dump[i];
    var conf := Confirmed(mine, answers);
    MineOf(dump, id, i);
    ConfirmedMore(mine, answers, t, a);
    AskedMore(mine, answers, t, a);
    hide Asked;
    ChunkGathered(conf, recorded, t);
    PartGathered(conf, parts, t);
    assert conf + [] == conf;
  }

  lemma AskedMore(mine: seq<DumpTx>, answers: seq<Answer>, t: DumpTx, a: Answer)
    requires Asked(mine, answers) && a.Looked? && a.asked == t.tx && a.found != Err(Unreachable)
    ensures Asked(mine + [t], answers + [a])
  {
  }

  // A lookup that got no answer ends the reading.
  lemma EntryUnknown(dump: seq<DumpTx>, id: BackupId, i: nat, answers: seq<Answer>, a: Answer, landed: set<Tx>,
                     recorded: map<string, DumpTx>, parts: map<nat, map<nat, DumpTx>>)
    requires i < |dump| && OfBackup(dump[i].tx.body, id) && DumpRead(dump[..i], id, answers, landed, recorded, parts)
    requires a.Looked? && a.found == Err(Unreachable)
    ensures !FirstAsked(dump, id, answers + [a])
  {
    hide GatheredChunks, GatheredParts, Confirmed;
    MineOf(dump, id, i);
    MineGrows(dump, id, i + 1);
    assert (answers + [a])[|answers|] == a;
    var mine := Mine(dump, id);
    if |mine| <= |answers + [a]| {
      assert (answers + [a])[..|mine|][|answers|] == a;
    }
  }

  lemma ReadHaveLanded(dump: seq<DumpTx>, id: BackupId, answers: seq<Answer>, landed: set<Tx>,
                       recorded: map<string, DumpTx>, parts: map<nat, map<nat, DumpTx>>)
    requires DumpRead(dump, id, answers, landed, recorded, parts) && GenuineDump(dump)
    ensures RecordedOn(landed, id, recorded) && PartsOn(landed, id, parts)
  {
    hide GatheredChunks, GatheredParts, RecordedOn, PartsOn;
    GatheredHaveLanded(landed, id, Confirmed(Mine(dump, id), answers), recorded, parts);
  }

  // ----- what is left to do -----

  // The chunks that no confirmed entry carries.
  ghost function Unconfirmed(id: BackupId, conf: seq<DumpTx>): set<nat> {
    set k: nat | k < |id.chunks| && forall i | 0 <= i < |conf| :: !IsChunk(conf[i], id.chunks[k])
  }

  // The chunks that recorded does not name.
  function Missing(id: BackupId, recorded: map<string, DumpTx>): set<nat> {
    set k: nat | k < |id.chunks| && id.chunks[k] !in recorded
  }

  lemma MissingIsUnconfirmed(id: BackupId, conf: seq<DumpTx>, recorded: map<string, DumpTx>)
    requires GatheredChunks(conf, recorded)
    ensures Missing(id, recorded) == Unconfirmed(id, conf)
  {
    forall k: nat | k < |id.chunks|
      ensures id.chunks[k] in recorded <==> exists i :: 0 <= i < |conf| && IsChunk(conf[i], id.chunks[k])
    {
      if id.chunks[k] in recorded {
        var i: nat :| LastChunk(conf, id.chunks[k], i) && conf[i] == recorded[id.chunks[k]];
      }
    }
  }

  // Every part of one sealed manifest is among the confirmed entries.
  ghost predicate HoldsManifest(conf: seq<DumpTx>) {
    exists i :: 0 <= i < |conf| && conf[i].tx.body.PartMemo? && conf[i].tx.body.index == 0 && AllParts(conf, conf[i].tx.body)
  }

  ghost predicate AllParts(conf: seq<DumpTx>, b: Body)
    requires b.PartMemo?
  {
    forall j: nat | j < b.total :: PartAmong(conf, b.nonce, j)
  }

  ghost predicate PartAmong(conf: seq<DumpTx>, nonce: nat, j: nat) {
    exists i :: 0 <= i < |conf| && IsPart(conf[i], nonce, j)
  }

  // The answers to the lookups of these entries: the first ones of the run.
  ghost predicate FirstAsked(dump: seq<DumpTx>, id: BackupId, answers: seq<Answer>) {
    var mine := Mine(dump, id);
    |mine| <= |answers| && Asked(mine, answers[..|mine|])
  }

  // What the ledger confirmed of the dump before anything was sent.
  ghost function Landings(dump: seq<DumpTx>, id: BackupId, answers: seq<Answer>): seq<DumpTx>
    requires FirstAsked(dump, id, answers)
  {
    Confirmed(Mine(dump, id), answers[..|Mine(dump, id)|])
  }

  /**
    The run sent what no confirmed entry of the dump carries: those chunks, and the manifest unless every part
    of one was confirmed.
   */
  ghost predicate Resumes(dump: seq<DumpTx>, id: BackupId, answers: seq<Answer>, o: Outcome) {
    && FirstAsked(dump, id, answers)
    && var conf := Landings(dump, id, answers);
       o.chunks == |Unconfirmed(id, conf)| && (o.reused <==> HoldsManifest(conf))
  }

  // A whole manifest was confirmed, and not every chunk.
  ghost predicate Stranded(dump: seq<DumpTx>, id: BackupId, answers: seq<Answer>) {
    && FirstAsked(dump, id, answers)
    && var conf := Landings(dump, id, answers);
       HoldsManifest(conf) && Unconfirmed(id, conf) != {}
  }

  predicate Reusable(parts: map<nat, map<nat, DumpTx>>) {
    exists n :: n in parts && Complete(parts[n])
  }

  lemma {:induction false} AsManyAs(pending: seq<nat>, s: set<nat>)
    requires forall i, j | 0 <= i < j < |pending| :: pending[i] < pending[j]
    requires forall x: nat :: x in s <==> x in pending
    ensures |s| == |pending|
  {
    if pending == [] {
      assert s == {};
    } else {
      var last := |pending| - 1;
      var rest := pending[..last];
      forall x | x in pending && x != pending[last]
        ensures x in rest
      {
        var i :| 0 <= i < |pending| && pending[i] == x;
        assert rest[i] == x;
      }
      forall x | x in rest
        ensures x in pending && x != pending[last]
      {
        var i :| 0 <= i < last && rest[i] == x;
        assert pending[i] == x;
      }
      AsManyAs(rest, s - {pending[last]});
    }
  }

  lemma {:induction false} CountUp(s: set<nat>, n: nat)
    requires forall x: nat :: x in s <==> x < n
    ensures |s| == n
  {
    if n == 0 {
      assert s == {};
    } else {
      CountUp(s - {n - 1}, n - 1);
    }
  }

  // What is known of parts that have landed: those of one nonce agree on their number.
  lemma PartsAgree(txs: seq<Rec>, sealed: seq<Manifest>, id: BackupId, parts: map<nat, map<nat, DumpTx>>, n: nat, x: nat)
    requires Safe(txs, sealed) && PartsOn(Landed(txs), id, parts) && n in parts && x in parts[n]
    ensures n < |sealed| && parts[n][x].tx.body.total == PartCount(sealed[n]) && x < PartCount(sealed[n])
  {
    hide Safe, Landed, PartCount, NamesLanded;
    LandedPartSafe(txs, sealed, parts[n][x].tx);
  }

  lemma WholeIsComplete(txs: seq<Rec>, sealed: seq<Manifest>, id: BackupId, conf: seq<DumpTx>, parts: map<nat, map<nat, DumpTx>>, i: nat)
    requires Safe(txs, sealed) && PartsOn(Landed(txs), id, parts) && GatheredParts(conf, parts)
    requires i < |conf| && conf[i].tx.body.PartMemo? && conf[i].tx.body.index == 0 && AllParts(conf, conf[i].tx.body)
    requires parts[conf[i].tx.body.nonce][0].tx.body.total == conf[i].tx.body.total
    ensures Complete(parts[conf[i].tx.body.nonce])
  {
    hide Safe, Landed, PartCount, NamesLanded;
    var b := conf[i].tx.body;
    var n := b.nonce;
    forall x | x in parts[n]
      ensures x < b.total
    {
      PartsAgree(txs, sealed, id, parts, n, x);
      PartsAgree(txs, sealed, id, parts, n, 0);
    }
    forall x: nat | x < b.total
      ensures x in parts[n]
    {
      assert PartAmong(conf, n, x);
    }
    CountUp(parts[n].Keys, b.total);
  }

  lemma CompleteIsWhole(txs: seq<Rec>, sealed: seq<Manifest>, id: BackupId, conf: seq<DumpTx>, parts: map<nat, map<nat, DumpTx>>, n: nat)
    requires Safe(txs, sealed) && PartsOn(Landed(txs), id, parts) && GatheredParts(conf, parts)
    requires n in parts && Complete(parts[n])
    ensures HoldsManifest(conf)
  {
    hide Safe, Landed, PartCount, NamesLanded;
    var total := parts[n][0].tx.body.total;
    forall x | x in parts[n]
      ensures x < total
    {
      PartsAgree(txs, sealed, id, parts, n, x);
      PartsAgree(txs, sealed, id, parts, n, 0);
    }
    FullSet(parts[n].Keys, total);
    forall j: nat | j < total
      ensures PartAmong(conf, n, j)
    {
      assert j in parts[n].Keys;
      var i: nat :| LastPart(conf, n, j, i) && conf[i] == parts[n][j];
    }
    var i: nat :| LastPart(conf, n, 0, i) && conf[i] == parts[n][0];
    assert AllParts(conf, conf[i].tx.body);
  }

  /** A manifest is used again exactly when every part of it was confirmed. */
  lemma ReusedExactly(txs: seq<Rec>, sealed: seq<Manifest>, id: BackupId, conf: seq<DumpTx>, parts: map<nat, map<nat, DumpTx>>)
    requires Safe(txs, sealed) && PartsOn(Landed(txs), id, parts) && GatheredParts(conf, parts)
    requires forall i | 0 <= i < |conf| :: conf[i].tx in Landed(txs)
    ensures Reusable(parts) <==> HoldsManifest(conf)
  {
    hide Safe, Landed, PartCount, NamesLanded;
    if Reusable(parts) {
      var n :| n in parts && Complete(parts[n]);
      CompleteIsWhole(txs, sealed, id, conf, parts, n);
    }
    if HoldsManifest(conf) {
      var i :| 0 <= i < |conf| && conf[i].tx.body.PartMemo? && conf[i].tx.body.index == 0 && AllParts(conf, conf[i].tx.body);
      LandedPartSafe(txs, sealed, conf[i].tx);
      PartsAgree(txs, sealed, id, parts, conf[i].tx.body.nonce, 0);
      WholeIsComplete(txs, sealed, id, conf, parts, i);
    }
  }
}
