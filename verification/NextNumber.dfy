/** The number of the next backup: internal/backup/backup.go:616-646. */
module NextNumber {
  import opened Common
  import opened Discovery
  import opened Judgement
  import opened SearchReach

  // LastNumber: the next number would wrap to 0 and sort below every older backup.
  datatype NumberError = ReadFailed | LastNumber

  // supersedes: the id of the backup that the new one replaces.
  datatype Next = Next(number: Number, supersedes: Option<string>)

  // A key file derives the keys of its own epoch alone.
  ghost predicate KeyFile(c: Crypto, epoch: nat) {
    forall e :: c.knows(e) <==> e == epoch
  }

  // Every candidate is of the key file's epoch, and its number is below n.
  ghost predicate Above(v: Verdict, epoch: nat, n: int) {
    forall c | c in v.candidates :: c.manifest.epoch == epoch && c.manifest.number < n
  }

  /**
    NextSeq: one above the highest number among the backups of the key file's epoch that authenticate, in
    conflict or not; refused exactly when that number is the last one.
   */
  method NextSeq(c: Crypto, epoch: nat, did: DidReply, history: Option<seq<Seen>>) returns (r: Result<Next, NumberError>)
    requires epoch <= MAX_EPOCH && KeyFile(c, epoch) && (did.AnchorEntry? ==> did.anchor.epoch <= MAX_EPOCH)
    requires history.Some? ==> forall i | 0 <= i < |history.value| :: Decodable(history.value[i])
    ensures r == Err(ReadFailed) <==> did.DidFailed? || history.None?
    ensures !(did.DidFailed? || history.None?) ==>
              && Known(Grouped(history.value).sets, Grouped(history.value).order)
              && var v := VerdictOf(c, did, epoch, history.value);
                 && (r == Err(LastNumber) <==> exists b :: b in v.candidates && b.manifest.number == MAX_NUMBER)
                 && (r.Ok? ==> Above(v, epoch, r.value.number))
                 && (r.Ok? ==> r.value.number == 1 || exists b :: b in v.candidates && b.manifest.number == r.value.number - 1)
                 && (r.Ok? && v.candidates == [] ==> r.value == Next(1, None))
                 && (r.Ok? ==> r.value.supersedes == if v.latest.Some? then Some(v.latest.value.id) else None)
  {
    var run, report := Run(c, did, epoch, history);
    if run.None? {
      return Err(ReadFailed);
    }
    var v := run.value;
    AllOfEpoch(c, did, epoch, history.value);
    NewestFirstNumbers(c, did, epoch, history.value);
    hide VerdictOf, KeyFile, Known, Grouped;
    if v.conflict {
      if v.candidates[0].manifest.number == MAX_NUMBER {
        return Err(LastNumber);
      }
      return Ok(Next(v.candidates[0].manifest.number + 1, None));
    }
    if v.latest.None? {
      return Ok(Next(1, None));
    }
    if v.latest.value.manifest.number == MAX_NUMBER {
      return Err(LastNumber);
    }
    return Ok(Next(v.latest.value.manifest.number + 1, Some(v.latest.value.id)));
  }

  // The verdict's candidates come from the search, and the search opens nothing but the key's epoch.
  lemma AllOfEpoch(c: Crypto, did: DidReply, epoch: nat, history: seq<Seen>)
    requires KeyFile(c, epoch) && Known(Grouped(history).sets, Grouped(history).order)
    ensures forall b | b in VerdictOf(c, did, epoch, history).candidates :: b.manifest.epoch == epoch
  {
    var g := Grouped(history);
    var found := Search(c, g, StartEpoch(c, did, epoch), epoch).0;
    SearchIsAuthentic(c, g, StartEpoch(c, did, epoch), epoch);
    UniqIsSorted(found);
    assert VerdictOf(c, did, epoch, history).candidates == Uniq(found);
    hide Search, Uniq, VerdictOf, PlainUpTo, FirstOpen;
    forall b | b in Uniq(found)
      ensures b.manifest.epoch == epoch
    {
      var k, e :| k in g.sets && g.sets[k].total > 0 && OpensAt(c, e, k, g.sets[k]) == Some(b);
    }
  }

  // The first candidate has the highest number; it is the newest one unless there is a conflict.
  lemma NewestFirstNumbers(c: Crypto, did: DidReply, epoch: nat, history: seq<Seen>)
    requires Known(Grouped(history).sets, Grouped(history).order)
    requires forall b | b in VerdictOf(c, did, epoch, history).candidates :: b.manifest.epoch == epoch
    ensures var v := VerdictOf(c, did, epoch, history);
            && (v.candidates != [] ==> v.candidates[0] in v.candidates)
            && (v.candidates != [] ==> forall b | b in v.candidates :: b.manifest.number <= v.candidates[0].manifest.number)
            && (v.conflict ==> v.candidates != [] && v.latest.None?)
            && (!v.conflict ==> v.latest == if v.candidates == [] then None else Some(v.candidates[0]))
  {
    var found := Search(c, Grouped(history), StartEpoch(c, did, epoch), epoch).0;
    UniqIsSorted(found);
    if Uniq(found) != [] {
      NoneNewer(Uniq(found));
    }
    hide Uniq, Search;
  }
}
