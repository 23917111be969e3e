/**
  Submitting a backup: internal/backup/backup.go:387-614 and internal/backup/batch.go:53-458. A crash is an error
  return from any call on the ledger: what is lost is what the Submitter holds, and the next run
  starts from a dump that may lag the ledger.
 */
module Submission {
  import opened Common
  import opened LedgerModel
  import opened LedgerClient
  import opened BackupSteps
  import opened FeeCeiling
  import opened RunLog
  import BatchLayout

  const MAX_CHUNKS := 8

  class Plan {
    const id: BackupId
    // The length of the manifest's fields that do not change from here on.
    const rest: nat
    // The number of manifest parts that the report tells the operator of.
    const parts: nat
    var manifest: Manifest

    constructor (id: BackupId, rest: nat)
      requires |id.chunks| <= MAX_CHUNKS && DistinctChunks(id)
      ensures Valid() && this.id == id && this.rest == rest && manifest == Manifest(id, seq(|id.chunks|, _ => NamedChunk(Unset, 0)), rest)
    {
      var m := Manifest(id, seq(|id.chunks|, _ => NamedChunk(Unset, 0)), rest);
      var n := ProjectedParts(m);
      this.id, this.rest, this.parts, manifest := id, rest, n, m;
    }

    predicate Valid()
      reads this
    {
      && manifest.id == id && manifest.rest == rest && |manifest.chunks| == |id.chunks| <= MAX_CHUNKS
      && DistinctChunks(id) && parts == PartCount(Projected(manifest))
    }

    method NameChunk(i: nat, t: Tx, ledger: LedgerIndex)
      requires Valid() && i < |id.chunks|
      modifies this
      ensures Valid() && manifest == old(manifest).(chunks := old(manifest.chunks)[i := NamedChunk(Named(t), ledger)])
    {
      SameProjection(manifest, i, NamedChunk(Named(t), ledger));
      manifest := manifest.(chunks := manifest.chunks[i := NamedChunk(Named(t), ledger)]);
    }
  }

  lemma SameProjection(m: Manifest, i: nat, c: NamedChunk)
    requires i < |m.chunks|
    ensures Projected(m.(chunks := m.chunks[i := c])) == Projected(m)
  {
  }

  // Build refuses a plan that discovery would never find.
  method MakePlan(id: BackupId, rest: nat) returns (r: Result<Plan, SubmitError>)
    requires |id.chunks| <= MAX_CHUNKS && DistinctChunks(id)
    ensures r.Ok? ==> fresh(r.value) && r.value.Valid() && r.value.id == id && r.value.rest == rest && r.value.parts <= MAX_PARTS
    ensures r.Err? ==> r.error == TooManyParts
    ensures r.Err? <==> PartCount(Projected(Manifest(id, seq(|id.chunks|, _ => NamedChunk(Unset, 0)), rest))) > MAX_PARTS
  {
    var p := new Plan(id, rest);
    return if p.parts > MAX_PARTS then Err(TooManyParts) else Ok(p);
  }

  // Chunk i is named by a landed transaction that carries it.
  ghost predicate ChunkNamed(m: Manifest, landed: set<Tx>, i: nat)
    requires i < |m.chunks| == |m.id.chunks|
  {
    var ref := m.chunks[i].ref;
    ref.Named? && ref.tx in landed && ref.tx.body == ChunkBody(m.id, i)
  }

  // What one batch is built from.
  datatype Recipe =
    | Whole(pending: seq<nat>, parts: nat)
    | ChunksOnly(pending: seq<nat>)
    | Tail(m: Manifest, nonce: nat, first: nat, count: nat, part0: Option<DumpTx>)

  predicate EndsWithAnchor(recipe: Recipe) {
    match recipe
    case Whole(_, _) => true
    case ChunksOnly(_) => false
    case Tail(m, _, first, count, _) => first + count == PartCount(m) + 1
  }

  // How many parts the manifest has that the recipe's anchor names.
  function PartsOf(recipe: Recipe): nat {
    match recipe
    case Whole(_, parts) => parts
    case ChunksOnly(_) => 0
    case Tail(m, _, _, _, _) => PartCount(m)
  }

  // An anchor of this backup that names part 0 of k.
  predicate AnchorsParts(b: Body, id: BackupId, k: nat) {
    b.Anchor? && b.id == id && b.part0.body.PartMemo? && b.part0.body.total == k
  }

  // The bodies a batch carries. The anchor's part 0 and the whole batch's manifest depend on the
  // sequence that the batch is built with.
  ghost predicate Carries(recipe: Recipe, id: BackupId, bodies: seq<Body>) {
    && (EndsWithAnchor(recipe) ==> bodies != [] && AnchorsParts(bodies[|bodies| - 1], id, PartsOf(recipe)))
    && match recipe
       case Whole(pending, parts) => |bodies| == |pending| + parts + 1
       case ChunksOnly(pending) =>
         && |bodies| == |pending|
         && forall j | 0 <= j < |pending| :: pending[j] < |id.chunks| && bodies[j] == ChunkBody(id, pending[j])
       case Tail(m, nonce, first, count, _) =>
         && |bodies| == count
         && forall j | 0 <= j < count && first + j < PartCount(m) :: bodies[j] == PartBody(m, nonce, first + j)
  }

  function Bodies(items: seq<Tx>): (bodies: seq<Body>)
    ensures |bodies| == |items|
  {
    seq(|items|, i requires 0 <= i < |items| => items[i].body)
  }

  // The batch has landed whole: entries are its inner transactions, in order.
  ghost predicate Carried(recipe: Recipe, id: BackupId, entries: seq<DumpTx>, landed: set<Tx>) {
    && (forall i | 0 <= i < |entries| :: entries[i].tx in landed)
    && Carries(recipe, id, EntryBodies(entries))
  }

  function EntryBodies(entries: seq<DumpTx>): (bodies: seq<Body>)
    ensures |bodies| == |entries|
  {
    seq(|entries|, i requires 0 <= i < |entries| => entries[i].tx.body)
  }

  // Strictly ascending chunk indexes.
  predicate Ascending(pending: seq<nat>, bound: nat) {
    && (forall i | 0 <= i < |pending| :: pending[i] < bound)
    && (forall i, j | 0 <= i < j < |pending| :: pending[i] < pending[j])
  }

  function Draft(m: Manifest, pending: seq<nat>): Manifest {
    m.(chunks := DraftChunks(m.chunks, pending))
  }

  // What must hold for a batch to be built and sent.
  ghost predicate Ready(landed: set<Tx>, sealed: seq<Manifest>, p: Plan, recipe: Recipe)
    requires p.Valid()
    reads p
  {
    match recipe
    case Whole(pending, parts) =>
      && parts == PartCount(Draft(p.manifest, pending))
      && Ascending(pending, |p.id.chunks|)
      && (forall i | 0 <= i < |p.id.chunks| && i !in pending :: ChunkNamed(p.manifest, landed, i))
      && |pending| + PartCount(Draft(p.manifest, pending)) + 1 <= MAX_INNER
    case ChunksOnly(pending) =>
      2 <= |pending| <= MAX_INNER && Ascending(pending, |p.id.chunks|)
    case Tail(m, nonce, first, count, part0) =>
      && m.id == p.id && nonce < |sealed| && sealed[nonce] == m && NamesLanded(landed, m) && PartCount(m) <= MAX_PARTS
      && first + count <= PartCount(m) + 1 && 2 <= count <= MAX_INNER
      && (forall j | 0 <= j < first :: HasPart(landed, m, nonce, j))
      && (first > 0 ==> part0.Some? && part0.value.tx in landed && part0.value.tx.body == PartBody(m, nonce, 0))
  }

  // A batch that rippled accepts and whose inner transactions are safe in order.
  ghost predicate Fits(recipe: Recipe, id: BackupId, items: seq<Tx>, outer: nat, landed: set<Tx>, sealed: seq<Manifest>) {
    && 2 <= |items| <= MAX_INNER
    && items == Inners(Bodies(items), outer)
    && (forall i | 0 <= i < |items| :: !items[i].body.Batch? && Genuine(items[i].body))
    && BatchSafe(landed, sealed, items)
    && Carries(recipe, id, Bodies(items))
  }

  lemma InnersJoin(a: seq<Tx>, b: seq<Tx>, outer: nat)
    requires a == Inners(Bodies(a), outer) && b == Inners(Bodies(b), outer + |a|)
    ensures a + b == Inners(Bodies(a + b), outer)
  {
    forall i | 0 <= i < |a + b|
      ensures (a + b)[i] == Inners(Bodies(a + b), outer)[i]
    {
      if i >= |a| {
        assert b[i - |a|] == Inner(b[i - |a|].body, outer + |a|, i - |a|);
      }
    }
  }

  lemma WholeNames(landed: set<Tx>, p: Plan, pending: seq<nat>, chunks: seq<Tx>, outer: nat)
    requires p.Valid() && Ascending(pending, |p.id.chunks|)
    requires chunks == Inners(ChunkBodies(p.id, pending), outer)
    requires forall k | 0 <= k < |pending| :: p.manifest.chunks[pending[k]] == NamedChunk(Named(chunks[k]), 0)
    requires forall i | 0 <= i < |p.id.chunks| && i !in pending :: ChunkNamed(p.manifest, landed, i)
    ensures NamesLanded(landed + Elems(chunks), p.manifest)
  {
    var more := landed + Elems(chunks);
    forall i | 0 <= i < |p.manifest.chunks|
      ensures var ref := p.manifest.chunks[i].ref; ref.Named? && ref.tx in more && ref.tx.body == ChunkBody(p.id, i)
    {
      if i in pending {
        var k :| 0 <= k < |pending| && pending[k] == i;
        assert chunks[k] in chunks;
      } else {
        assert ChunkNamed(p.manifest, landed, i);
      }
    }
  }

  // What BuildWhole has when its tail is built.
  ghost predicate WholeBuilt(landed: set<Tx>, sealed: seq<Manifest>, p: Plan, nonce: nat, pending: seq<nat>,
                             chunks: seq<Tx>, tail: seq<Tx>, outer: nat)
    requires p.Valid()
    reads p
  {
    var m := p.manifest;
    && Ascending(pending, |p.id.chunks|) && chunks == Inners(ChunkBodies(p.id, pending), outer)
    && (forall k | 0 <= k < |pending| :: m.chunks[pending[k]] == NamedChunk(Named(chunks[k]), 0))
    && (forall i | 0 <= i < |p.id.chunks| && i !in pending :: ChunkNamed(p.manifest, landed, i))
    && nonce < |sealed| && sealed[nonce] == m
    && |pending| + PartCount(m) + 1 <= MAX_INNER
    && tail == Inners(Bodies(tail), outer + |pending|) && TailBuilt(Tail(m, nonce, 0, PartCount(m) + 1, None), tail)
  }

  lemma WholeIsSafe(landed: set<Tx>, sealed: seq<Manifest>, p: Plan, nonce: nat, pending: seq<nat>,
                    chunks: seq<Tx>, tail: seq<Tx>, outer: nat)
    requires p.Valid() && WholeBuilt(landed, sealed, p, nonce, pending, chunks, tail, outer)
    ensures BatchSafe(landed, sealed, chunks + tail)
  {
    hide BodySafe, BatchSafe, NamesLanded, PartCount, SafeInOrder, PartBody, AnchorBody, HasPart;
    var n := PartCount(p.manifest);
    var parts, anchor := tail[..n], tail[n..];
    WholeNames(landed, p, pending, chunks, outer);
    ChunksInOrder(landed, sealed, chunks);
    TailInOrder(landed, sealed, chunks, p.manifest, nonce, 0, parts, tail[0], 0, anchor);
    assert chunks + parts + anchor == chunks + tail;
    InOrderIsBatchSafe(landed, sealed, chunks + tail);
  }

  lemma WholeIsGenuine(landed: set<Tx>, sealed: seq<Manifest>, p: Plan, nonce: nat, pending: seq<nat>,
                       chunks: seq<Tx>, tail: seq<Tx>, outer: nat)
    requires p.Valid() && WholeBuilt(landed, sealed, p, nonce, pending, chunks, tail, outer)
    ensures forall i | 0 <= i < |chunks + tail| :: !(chunks + tail)[i].body.Batch? && Genuine((chunks + tail)[i].body)
    ensures AnchorsParts((chunks + tail)[|chunks + tail| - 1].body, p.id, PartCount(p.manifest))
  {
    hide PartCount;
    forall i | 0 <= i < |chunks|
      ensures Genuine(chunks[i].body) && !chunks[i].body.Batch?
    {
      assert chunks[i].body == ChunkBody(p.id, pending[i]);
    }
  }

  lemma WholeIsInner(id: BackupId, pending: seq<nat>, chunks: seq<Tx>, tail: seq<Tx>, outer: nat)
    requires Ascending(pending, |id.chunks|) && chunks == Inners(ChunkBodies(id, pending), outer)
    requires tail == Inners(Bodies(tail), outer + |pending|)
    ensures chunks + tail == Inners(Bodies(chunks + tail), outer)
  {
    assert Bodies(chunks) == ChunkBodies(id, pending);
    InnersJoin(chunks, tail, outer);
  }

  lemma WholeFits(landed: set<Tx>, sealed: seq<Manifest>, p: Plan, nonce: nat, pending: seq<nat>,
                  chunks: seq<Tx>, tail: seq<Tx>, outer: nat)
    requires p.Valid() && WholeBuilt(landed, sealed, p, nonce, pending, chunks, tail, outer)
    ensures Fits(Whole(pending, PartCount(p.manifest)), p.id, chunks + tail, outer, landed, sealed)
  {
    WholeIsSafe(landed, sealed, p, nonce, pending, chunks, tail, outer);
    WholeIsGenuine(landed, sealed, p, nonce, pending, chunks, tail, outer);
    WholeIsInner(p.id, pending, chunks, tail, outer);
    hide BatchSafe, PartCount, Genuine, Inners;
  }

  lemma FitsIsSafe(recipe: Recipe, id: BackupId, outer: Tx, landed: set<Tx>, sealed: seq<Manifest>)
    requires outer.body.Batch? && Fits(recipe, id, outer.body.inner, outer.sequence, landed, sealed)
    ensures TxSafe(landed, sealed, outer) && Size(outer) == |outer.body.inner| && Carries(recipe, id, Bodies(outer.body.inner))
    ensures forall i | 0 <= i < |outer.body.inner| :: Genuine(outer.body.inner[i].body)
  {
    hide Carries, BatchSafe, Inners, Genuine;
  }

  lemma ChunksFit(landed: set<Tx>, sealed: seq<Manifest>, id: BackupId, pending: seq<nat>, items: seq<Tx>, outer: nat)
    requires 2 <= |pending| <= MAX_INNER && Ascending(pending, |id.chunks|)
    requires items == Inners(ChunkBodies(id, pending), outer)
    ensures Fits(ChunksOnly(pending), id, items, outer, landed, sealed)
  {
    hide BodySafe, BatchSafe, SafeInOrder;
    ChunksInOrder(landed, sealed, items);
    InOrderIsBatchSafe(landed, sealed, items);
    assert Bodies(items) == ChunkBodies(id, pending);
  }

  // What TailItems promises of the items that it builds.
  predicate TailBuilt(recipe: Recipe, items: seq<Tx>)
    requires recipe.Tail? && recipe.count >= 1 && (recipe.first > 0 ==> recipe.part0.Some?)
  {
    var Tail(m, nonce, first, count, part0) := recipe;
    && |items| == count
    && (forall j | 0 <= j < count && first + j < PartCount(m) :: items[j].body == PartBody(m, nonce, first + j))
    && (first + count == PartCount(m) + 1 ==>
          items[count - 1].body ==
          if first == 0 then AnchorBody(m, items[0], 0) else AnchorBody(m, part0.value.tx, part0.value.ledger))
  }

  lemma TailIsSafe(landed: set<Tx>, sealed: seq<Manifest>, p: Plan, recipe: Recipe, items: seq<Tx>)
    requires p.Valid() && recipe.Tail? && Ready(landed, sealed, p, recipe) && TailBuilt(recipe, items)
    ensures BatchSafe(landed, sealed, items)
  {
    hide BodySafe, BatchSafe, NamesLanded, PartCount, SafeInOrder, PartBody, AnchorBody, HasPart;
    var Tail(m, nonce, first, count, given) := recipe;
    var part0 := if first == 0 then items[0] else given.value.tx;
    var ledger := if first == 0 then 0 else given.value.ledger;
    var n := if EndsWithAnchor(recipe) then count - 1 else count;
    var parts, anchor := items[..n], items[n..];
    assert landed + Elems([]) == landed;
    ChunksInOrder(landed, sealed, []);
    TailInOrder(landed, sealed, [], m, nonce, first, parts, part0, ledger, anchor);
    assert [] + parts + anchor == items;
    InOrderIsBatchSafe(landed, sealed, items);
  }

  lemma TailFits(landed: set<Tx>, sealed: seq<Manifest>, p: Plan, recipe: Recipe, items: seq<Tx>, outer: nat)
    requires p.Valid() && recipe.Tail? && Ready(landed, sealed, p, recipe) && TailBuilt(recipe, items)
    requires items == Inners(Bodies(items), outer)
    ensures Fits(recipe, p.id, items, outer, landed, sealed)
  {
    TailIsSafe(landed, sealed, p, recipe, items);
    TailIsGenuine(landed, sealed, p, recipe, items);
    hide BatchSafe, NamesLanded, PartCount, HasPart, Genuine, TailBuilt, Inners, Carries;
  }

  lemma TailIsGenuine(landed: set<Tx>, sealed: seq<Manifest>, p: Plan, recipe: Recipe, items: seq<Tx>)
    requires p.Valid() && recipe.Tail? && Ready(landed, sealed, p, recipe) && TailBuilt(recipe, items)
    ensures forall i | 0 <= i < |items| :: !items[i].body.Batch? && Genuine(items[i].body)
    ensures Carries(recipe, p.id, Bodies(items)) && 2 <= |items| <= MAX_INNER
  {
    hide NamesLanded, PartCount, HasPart;
  }

  lemma InnersAreConsecutive(items: seq<Tx>, outer: nat)
    requires items == Inners(Bodies(items), outer)
    ensures forall i | 0 <= i < |items| :: items[i].sequence == outer + 1 + i && items[i].isInner && items[i].fee == 0
  {
  }

  lemma CarriedByItems(recipe: Recipe, id: BackupId, items: seq<Tx>, entries: seq<DumpTx>, landed: set<Tx>)
    requires Carries(recipe, id, Bodies(items)) && |entries| == |items|
    requires forall i | 0 <= i < |items| :: entries[i].tx == items[i] && items[i] in landed
    ensures Carried(recipe, id, entries, landed)
  {
    hide Carries;
    assert EntryBodies(entries) == Bodies(items);
  }

  // An anchor of the backup has landed that names part 0 of k.
  ghost predicate Anchored(id: BackupId, k: nat, landed: set<Tx>) {
    exists t :: t in landed && AnchorsParts(t.body, id, k)
  }

  lemma StaysAnchored(id: BackupId, k: nat, landed: set<Tx>, more: set<Tx>)
    requires Anchored(id, k, landed) && landed <= more
    ensures Anchored(id, k, more)
  {
  }

  lemma NamesOneMore(before: Manifest, m: Manifest, landed: set<Tx>, more: set<Tx>, i: nat)
    requires i < |before.chunks| == |m.chunks| == |before.id.chunks| && m.id == before.id && landed <= more
    requires forall k | 0 <= k < i :: ChunkNamed(before, landed, k)
    requires m == before.(chunks := before.chunks[i := m.chunks[i]]) && ChunkNamed(m, more, i)
    ensures forall k | 0 <= k <= i :: ChunkNamed(m, more, k)
  {
    forall k | 0 <= k < i
      ensures ChunkNamed(m, more, k)
    {
      assert ChunkNamed(before, landed, k);
      assert m.chunks[k] == before.chunks[k];
    }
  }

  lemma AllNamed(landed: set<Tx>, more: set<Tx>, p: Plan, pending: seq<nat>)
    requires p.Valid() && landed <= more
    requires forall i | 0 <= i < |p.id.chunks| && i !in pending :: ChunkNamed(p.manifest, landed, i)
    requires forall k | 0 <= k < |pending| && pending[k] < |p.id.chunks| :: ChunkNamed(p.manifest, more, pending[k])
    ensures NamesLanded(more, p.manifest)
  {
    forall i | 0 <= i < |p.manifest.chunks|
      ensures var ref := p.manifest.chunks[i].ref; ref.Named? && ref.tx in more && ref.tx.body == ChunkBody(p.id, i)
    {
      if i in pending {
        assert ChunkNamed(p.manifest, more, i);
      } else {
        assert ChunkNamed(p.manifest, landed, i);
      }
    }
  }

  lemma {:induction false} ShortList(pending: seq<nat>, bound: nat)
    requires Ascending(pending, bound)
    ensures |pending| <= bound
  {
    if pending != [] {
      var last := |pending| - 1;
      ShortList(pending[..last], pending[last]);
    }
  }

  // What a tail batch adds to the ledger.
  lemma TailLanded(landed: set<Tx>, more: set<Tx>, id: BackupId, recipe: Recipe, entries: seq<DumpTx>)
    requires recipe.Tail? && landed <= more && Carried(recipe, id, entries, more)
    requires recipe.count >= 1 && recipe.first < PartCount(recipe.m)
    requires forall j | 0 <= j < recipe.first :: HasPart(landed, recipe.m, recipe.nonce, j)
    ensures |entries| == recipe.count
    ensures forall j | 0 <= j < recipe.first + recipe.count && j < PartCount(recipe.m) :: HasPart(more, recipe.m, recipe.nonce, j)
    ensures entries[0].tx in more && entries[0].tx.body == PartBody(recipe.m, recipe.nonce, recipe.first)
    ensures EndsWithAnchor(recipe) ==>
              var last := entries[|entries| - 1].tx; last in more && AnchorsParts(last.body, id, PartCount(recipe.m))
  {
    var Tail(m, nonce, first, count, _) := recipe;
    hide PartCount, PartBody;
    assert EntryBodies(entries)[0] == PartBody(m, nonce, first);
    forall j | 0 <= j < first + count && j < PartCount(m)
      ensures HasPart(more, m, nonce, j)
    {
      if j < first {
        assert HasPart(landed, m, nonce, j);
      } else {
        assert EntryBodies(entries)[j - first] == PartBody(m, nonce, j);
        assert entries[j - first].tx in more;
      }
    }
  }

  lemma PartsStay(landed: set<Tx>, more: set<Tx>, m: Manifest, nonce: nat, n: nat, t: Tx)
    requires landed <= more && t in more && t.body == PartBody(m, nonce, n)
    requires forall j | 0 <= j < n :: HasPart(landed, m, nonce, j)
    ensures forall j | 0 <= j <= n :: HasPart(more, m, nonce, j)
  {
    forall j | 0 <= j < n
      ensures HasPart(more, m, nonce, j)
    {
      assert HasPart(landed, m, nonce, j);
    }
  }

  lemma PartsStayRecorded(landed: set<Tx>, more: set<Tx>, id: BackupId, parts: map<nat, map<nat, DumpTx>>)
    requires PartsOn(landed, id, parts) && landed <= more
    ensures PartsOn(more, id, parts)
  {
  }

  lemma StillReady(landed: set<Tx>, more: set<Tx>, sealed: seq<Manifest>, later: seq<Manifest>, p: Plan, recipe: Recipe)
    requires p.Valid() && Ready(landed, sealed, p, recipe) && landed <= more && sealed <= later
    ensures Ready(more, later, p, recipe)
  {
    if recipe.Tail? {
      forall j | 0 <= j < recipe.first
        ensures HasPart(more, recipe.m, recipe.nonce, j)
      {
        assert HasPart(landed, recipe.m, recipe.nonce, j);
      }
    }
  }

  // The DID entry as the dump keeps it: the ledger it was written in, and the anchor it holds.
  datatype DidEntry = DidEntry(ledger: LedgerIndex, data: Body)

  // A run sends no more than the plan.
  predicate WithinPlan(p: Plan, o: Outcome) {
    o.chunks <= |p.id.chunks| && (!o.reused ==> o.parts <= p.parts)
  }

  lemma DraftWithinPlan(p: Plan, m: Manifest)
    requires p.Valid() && |m.chunks| == |p.id.chunks| && m == p.manifest.(chunks := m.chunks)
    ensures PartCount(m) <= p.parts
  {
    ProjectionIsCeiling(m);
    hide PartCount;
    assert Projected(m) == Projected(p.manifest);
  }

  // n transactions on their own.
  function Singles(n: nat): (sizes: seq<nat>)
    ensures |sizes| == n
  {
    seq(n, _ => 1)
  }

  lemma OneMore(n: nat)
    ensures Singles(n + 1) == Singles(n) + [1]
  {
  }

  lemma AllAreNamed(landed: set<Tx>, m: Manifest)
    requires NamesLanded(landed, m)
    ensures forall i | 0 <= i < |m.chunks| :: m.chunks[i].ref.Named?
  {
  }

  lemma BatchesJoin(before: seq<nat>, c: nat, k: nat)
    requires c + k + 1 > MAX_INNER && k >= 1
    ensures before + (if c == 0 then [] else [c]) + BatchLayout.SplitSizes(k + 1) == before + LayoutOf(Outcome(c, k, false), true)
  {
    hide BatchLayout.SplitSizes;
    assert before + (if c == 0 then [] else [c]) + BatchLayout.SplitSizes(k + 1) ==
           before + ((if c == 0 then [] else [c]) + BatchLayout.SplitSizes(k + 1));
  }

  lemma WholeAnchored(id: BackupId, pending: seq<nat>, k: nat, entries: seq<DumpTx>, landed: set<Tx>)
    requires Carried(Whole(pending, k), id, entries, landed)
    ensures |entries| == |pending| + k + 1
    ensures var last := entries[|entries| - 1].tx; last in landed && AnchorsParts(last.body, id, k)
  {
  }

  // A submission that did not go well is to blame for what comes of it.
  lemma TookBlamed(t: Tx, code: Result<Code, CallError>, answers: seq<Answer>, n: nat, maxFee: nat)
    requires n < |answers| && answers[|answers| - 1] == Took(t, code)
    ensures code.Err? ==> Blamed(Network, answers, n, maxFee)
    ensures code == Ok(PastSeq) || code == Ok(PreSeq) ==> Blamed(NotValidated, answers, n, maxFee)
    ensures code == Ok(OtherCode) ==> Blamed(SubmitRefused, answers, n, maxFee)
  {
    var a := answers[|answers| - 1];
    if code.Err? {
      assert Blames(Network, a, maxFee);
    } else if code.value.PastSeq? || code.value.PreSeq? {
      assert Blames(NotValidated, a, maxFee);
    } else if code.value.OtherCode? {
      assert Blames(SubmitRefused, a, maxFee);
    }
  }

  lemma LookedBlamed(t: Tx, found: Result<Rec, CallError>, answers: seq<Answer>, n: nat, maxFee: nat)
    requires n < |answers| && answers[|answers| - 1] == Looked(t, found)
    ensures found == Err(Unreachable) ==> Blamed(Network, answers, n, maxFee)
    ensures found.Err? ==> Blamed(NotValidated, answers, n, maxFee)
    ensures found.Ok? && !found.value.ok ==> Blamed(FailedOnLedger, answers, n, maxFee)
    ensures found.Err? || !found.value.ok ==> Blamed(InnerNotApplied, answers, n, maxFee)
  {
    var a := answers[|answers| - 1];
    if found.Err? {
      assert Blames(NotValidated, a, maxFee) && Blames(InnerNotApplied, a, maxFee);
      if found.error.Unreachable? {
        assert Blames(Network, a, maxFee);
      }
    } else if !found.value.ok {
      assert Blames(FailedOnLedger, a, maxFee) && Blames(InnerNotApplied, a, maxFee);
    }
  }

  lemma ChargeBlamed(before: seq<Answer>, n: nat, st: ServerState, acct: AccountState, units: nat, maxFee: nat, fee: Result<nat, SubmitError>)
    requires n <= |before| && units <= 10
    requires fee.Ok? <==> Rate(st) <= maxFee && acct.balance >= RESERVE + units * Rate(st)
    requires fee.Err? ==> fee.error == if Rate(st) > maxFee then FeeAboveCap else LowBalance
    ensures fee.Err? ==> Blamed(fee.error, before + [Served(Ok(st)), Held(Ok(acct))], n, maxFee)
  {
    var answers := before + [Served(Ok(st)), Held(Ok(acct))];
    if fee == Err(FeeAboveCap) {
      assert Blames(FeeAboveCap, answers[|before|], maxFee);
    } else if fee == Err(LowBalance) {
      AtMost(Rate(st), units, maxFee);
      BlameLast(LowBalance, answers, n, maxFee);
    }
  }

  lemma AtMost(rate: nat, units: nat, maxFee: nat)
    requires rate <= maxFee && units <= 10
    ensures units * rate <= maxFee * 10
  {
  }

  lemma IsDrawn(t: Tx, units: nat, before: seq<Answer>, n: nat, st: ServerState, acct: AccountState)
    requires n <= |before| && DrawnFrom(t, units, Served(Ok(st)), Held(Ok(acct)))
    ensures Drawn(t, units, before + [Served(Ok(st)), Held(Ok(acct))], n)
  {
    var answers := before + [Served(Ok(st)), Held(Ok(acct))];
    assert DrawnFrom(t, units, answers[|before|], answers[|before| + 1]);
  }

  lemma AnchorTells(plan: Manifest, m: Manifest, nonce: nat, part0: Tx, ledger: LedgerIndex)
    requires part0.body == PartBody(m, nonce, 0) && plan.id == m.id
    ensures var b := AnchorBody(plan, part0, ledger);
            && b == Anchor(m.id, part0, ledger, m.id.epoch, m.id.number) && Genuine(b) && AnchorsParts(b, m.id, PartCount(m))
  {
    hide PartCount;
  }

  class Submitter {
    const ledger: Ledger
    const maxFee: nat
    const batch: bool
    // What the run has seen validated. It is all that outlives the run.
    var dump: seq<DumpTx>
    var did: Option<DidEntry>
    // The transactions, Batches whole, that this run paid for and saw land.
    ghost var paid: seq<Tx>

    constructor (ledger: Ledger, maxFee: nat, batch: bool, dump: seq<DumpTx>)
      requires GenuineDump(dump)
      ensures this.ledger == ledger && this.maxFee == maxFee && this.batch == batch && this.dump == dump && Sound()
    {
      this.ledger, this.maxFee, this.batch, this.dump, did, paid := ledger, maxFee, batch, dump, None, [];
    }

    // Every transaction paid for is on the ledger, at no more than the cap for each base fee.
    ghost predicate Sound()
      reads this, ledger
    {
      GenuineDump(dump) && forall i | 0 <= i < |paid| :: paid[i] in Landed(ledger.txs) && Capped(paid[i], maxFee)
    }

    // A transaction that is not found is not there; any other failure is unknown, and an error.
    method OnLedger(t: Tx) returns (r: Result<bool, SubmitError>)
      requires ledger.Valid()
      modifies ledger
      ensures ledger.Moved()
      ensures r == Ok(true) ==> t in Landed(ledger.txs)
      ensures |ledger.answers| == |old(ledger.answers)| + 1
      ensures var a := ledger.answers[|old(ledger.answers)|];
              && a.Looked? && a.asked == t
              && (r == Ok(true) <==> a.found.Ok? && a.found.value.ok)
              && (r == Ok(false) <==> a.found == Err(NotFound) || (a.found.Ok? && !a.found.value.ok))
              && (r == Err(Network) <==> r.Err?) && (r.Err? <==> a.found == Err(Unreachable))
      ensures r.Err? ==> Blamed(r.error, ledger.answers, |old(ledger.answers)|, maxFee)
    {
      ghost var n := |ledger.answers|;
      var rec := ledger.Lookup(t);
      LookedBlamed(t, rec, ledger.answers, n, maxFee);
      match rec
      case Ok(found) => return Ok(found.ok);
      case Err(NotFound) => return Ok(false);
      case Err(Unreachable) => return Err(Network);
    }

    method ReadState() returns (r: Result<(ServerState, AccountState), SubmitError>)
      requires ledger.Valid()
      modifies ledger
      ensures ledger.Moved()
      ensures r.Ok? ==> ledger.answers == old(ledger.answers) + [Served(Ok(r.value.0)), Held(Ok(r.value.1))]
      ensures r.Err? ==> r.error == Network || r.error == NoAccount
      ensures r.Err? ==> Blamed(r.error, ledger.answers, |old(ledger.answers)|, maxFee)
    {
      ghost var n := |ledger.answers|;
      var st := ledger.ServerInfo();
      if st.Err? {
        BlameLast(Network, ledger.answers, n, maxFee);
        return Err(Network);
      }
      var acct := ledger.AccountInfo();
      if acct.Err? {
        BlameLast(if acct.error.NotFound? then NoAccount else Network, ledger.answers, n, maxFee);
        return Err(if acct.error.NotFound? then NoAccount else Network);
      }
      return Ok((st.value, acct.value));
    }

    // The rate is what the cap limits; a batch pays it once per unit.
    method Charge(st: ServerState, acct: AccountState, units: nat) returns (r: Result<nat, SubmitError>)
      ensures r.Ok? <==> Rate(st) <= maxFee && acct.balance >= RESERVE + units * Rate(st)
      ensures r.Ok? ==> r.value == units * Rate(st) <= maxFee * units
      ensures r.Err? ==> r.error == if Rate(st) > maxFee then FeeAboveCap else LowBalance
    {
      var rate := st.openFee;
      if rate < st.baseFee {
        rate := st.baseFee;
      }
      if rate > maxFee {
        return Err(FeeAboveCap);
      }
      assert rate == Rate(st) && rate * units == units * Rate(st) && rate * units <= maxFee * units;
      if acct.balance < RESERVE + rate * units {
        return Err(LowBalance);
      }
      return Ok(rate * units);
    }

    // One attempt's transaction, from the state that the server and the account are in.
    method Draw(body: Body) returns (r: Result<Tx, SubmitError>)
      requires ledger.Valid()
      modifies ledger
      ensures ledger.Moved()
      ensures r.Ok? ==> r.value.body == body && !r.value.isInner && r.value.fee <= maxFee
      ensures r.Ok? ==> Drawn(r.value, 1, ledger.answers, |old(ledger.answers)|)
      ensures r.Ok? ==> Tries(ledger.answers) == Tries(old(ledger.answers))
      ensures r != Err(NotValidated)
      ensures r.Err? ==> Blamed(r.error, ledger.answers, |old(ledger.answers)|, maxFee)
    {
      hide Safe, Landed, Blames, Blamed, Drawn, Rate, Tries, Polls;
      ghost var start := ledger.answers;
      var state := ReadState();
      if state.Err? {
        return Err(state.error);
      }
      var (st, acct) := state.value;
      var fee := Charge(st, acct, 1);
      ChargeBlamed(start, |start|, st, acct, 1, maxFee, fee);
      if fee.Err? {
        return Err(fee.error);
      }
      r := Ok(Tx(acct.sequence, st.validated + 20, fee.value, false, body));
      IsDrawn(r.value, 1, start, |start|, st, acct);
      StateIsNoTry(start, Served(Ok(st)), Held(Ok(acct)));
    }

    // The submission of one attempt; not sent when the sequence was not the account's.
    method Post(tx: Tx) returns (sent: bool, refused: Option<SubmitError>)
      requires ledger.Valid() && TxSafe(Landed(ledger.txs), ledger.sealed, tx)
      modifies ledger
      ensures ledger.Moved() && Tries(ledger.answers) == Tries(old(ledger.answers)) + 1
      ensures refused.Some? ==> refused != Some(NotValidated) && Blamed(refused.value, ledger.answers, |old(ledger.answers)|, maxFee)
      ensures refused.None? && !sent ==> Blamed(NotValidated, ledger.answers, |old(ledger.answers)|, maxFee)
    {
      hide Safe, Landed, TxSafe, Blames, Blamed, Tries, Polls;
      ghost var before := ledger.answers;
      var code := ledger.Submit(tx);
      OneAnswer(before, Took(tx, code));
      TookBlamed(tx, code, ledger.answers, |before|, maxFee);
      if code.Err? {
        return false, Some(Network);
      }
      if code.value.PastSeq? || code.value.PreSeq? {
        return false, None;
      }
      if !code.value.Success? && !code.value.Queued? {
        return false, Some(SubmitRefused);
      }
      return true, None;
    }

    // The polling of one attempt; not done when the attempt expired.
    method Await(tx: Tx) returns (done: bool, r: Result<DumpTx, SubmitError>)
      requires ledger.Valid() && Sound() && tx.fee <= maxFee && !tx.body.Batch? && Genuine(tx.body)
      modifies ledger, `dump, `paid
      ensures ledger.Moved() && Sound()
      ensures done <==> r != Err(NotValidated)
      ensures r == Err(NotValidated) ==> Tries(ledger.answers) == Tries(old(ledger.answers))
      ensures r == Err(NotValidated) ==> Expired(tx, ledger.answers) || Polls(ledger.answers) == Polls(old(ledger.answers)) + 45
      ensures r.Ok? ==> r.value.tx == tx && tx in Landed(ledger.txs) && dump == old(dump) + [r.value] && paid == old(paid) + [tx]
      ensures r.Err? ==> dump == old(dump) && paid == old(paid)
      ensures r.Err? ==> Blamed(r.error, ledger.answers, |old(ledger.answers)|, maxFee)
    {
      hide Safe, Landed, BodySafe, Blames, Blamed, Tries, Polls;
      ghost var n := |ledger.answers|;
      for i := 0 to 45
        invariant ledger.Moved() && dump == old(dump) && paid == old(paid)
        invariant i > 0 ==> Blamed(NotValidated, ledger.answers, n, maxFee)
        invariant Tries(ledger.answers) == Tries(old(ledger.answers)) && Polls(ledger.answers) == Polls(old(ledger.answers)) + i
      {
        ghost var before := ledger.answers;
        var rec := ledger.Lookup(tx);
        ghost var looked := ledger.answers;
        OneAnswer(before, Looked(tx, rec));
        LookedBlamed(tx, rec, looked, n, maxFee);
        if rec.Ok? {
          if !rec.value.ok {
            return true, Err(FailedOnLedger);
          }
          r := Ok(DumpTx(tx, rec.value.index));
          dump := dump + [r.value];
          paid := paid + [tx];
          return true, r;
        }
        var cur := ledger.ServerInfo();
        OneAnswer(looked, Served(cur));
        BlameStays(NotValidated, looked, n, ledger.answers, n, maxFee);
        if cur.Ok? && cur.value.validated > tx.lastLedger {
          break;
        }
      }
      return false, Err(NotValidated);
    }

    /** send: an Ok result means that the body has landed, at no more than the fee cap. */
    method Send(body: Body) returns (r: Result<DumpTx, SubmitError>)
      requires ledger.Valid() && Sound()
      requires !body.Batch? && Genuine(body) && BodySafe(Landed(ledger.txs), ledger.sealed, body)
      modifies ledger, `dump, `paid
      ensures ledger.Moved() && Sound()
      ensures r.Ok? ==>
                && r.value.tx in Landed(ledger.txs) && r.value.tx.body == body && r.value.tx.fee <= maxFee
                && dump == old(dump) + [r.value] && paid == old(paid) + [r.value.tx] && Sizes(paid) == Sizes(old(paid)) + [1]
      ensures r.Ok? ==> Drawn(r.value.tx, 1, ledger.answers, |old(ledger.answers)|) && !r.value.tx.isInner
      ensures r.Err? ==> dump == old(dump) && paid == old(paid)
      ensures r == Err(NotValidated) ==> Tries(ledger.answers) == Tries(old(ledger.answers)) + 3
      ensures r.Err? ==> Blamed(r.error, ledger.answers, |old(ledger.answers)|, maxFee)
    {
      hide Safe, Landed, BodySafe, Blames, Blamed, Drawn, Sizes, Genuine, Tries, Polls;
      ghost var n := |ledger.answers|;
      for attempt := 0 to 3
        invariant ledger.Moved() && Sound() && dump == old(dump) && paid == old(paid)
        invariant Tries(ledger.answers) == Tries(old(ledger.answers)) + attempt
        invariant attempt > 0 ==> Blamed(NotValidated, ledger.answers, n, maxFee)
      {
        ghost var start := |ledger.answers|;
        var drawn := Draw(body);
        ghost var read := ledger.answers;
        if drawn.Err? {
          BlameStays(drawn.error, read, start, read, n, maxFee);
          return Err(drawn.error);
        }
        var tx := drawn.value;
        MoreLandsStillSafe(old(Landed(ledger.txs)), Landed(ledger.txs), ledger.sealed, ledger.sealed, body);
        var sent, refused := Post(tx);
        ghost var told := |ledger.answers|;
        if refused.Some? {
          BlameStays(refused.value, ledger.answers, |read|, ledger.answers, n, maxFee);
          return Err(refused.value);
        }
        if !sent {
          BlameStays(NotValidated, ledger.answers, |read|, ledger.answers, n, maxFee);
          continue;
        }
        var done;
        done, r := Await(tx);
        if r.Err? {
          BlameStays(r.error, ledger.answers, told, ledger.answers, n, maxFee);
        }
        if done {
          if r.Ok? {
            DrawnStays(tx, 1, read, start, ledger.answers, n);
            SizesMore(old(paid), tx);
          }
          return;
        }
      }
      return Err(NotValidated);
    }

    // A fresh nonce, and the parts sealed under it.
    method ManifestMemos(m: Manifest) returns (r: Result<nat, SubmitError>)
      requires ledger.Valid()
      modifies ledger`sealed
      ensures ledger.Progressed()
      ensures r.Ok? ==> r.value == old(|ledger.sealed|) && ledger.sealed == old(ledger.sealed) + [m] && PartCount(m) <= MAX_PARTS
      ensures r.Err? ==> r.error == TooManyParts && PartCount(m) > MAX_PARTS
    {
      var nonce := ledger.Seal(m);
      return if PartCount(m) > MAX_PARTS then Err(TooManyParts) else Ok(nonce);
    }

    // assignInner: consecutive sequences after the outer one.
    method AssignInner(bodies: seq<Body>, outer: nat) returns (items: seq<Tx>)
      ensures items == Inners(bodies, outer)
    {
      items := [];
      for i := 0 to |bodies|
        invariant |items| == i
        invariant forall k | 0 <= k < i :: items[k] == Inner(bodies[k], outer, k)
      {
        items := items + [Inner(bodies[i], outer, i)];
      }
    }

    // Manifest parts first, first + 1, ... and, behind the last part, the anchor: count items in all.
    method TailItems(m: Manifest, nonce: nat, first: nat, count: nat, part0: Option<DumpTx>, outer: nat) returns (items: seq<Tx>)
      requires 2 <= count && first + count <= PartCount(m) + 1 && (first > 0 ==> part0.Some?)
      ensures items == Inners(Bodies(items), outer) && TailBuilt(Tail(m, nonce, first, count, part0), items)
    {
      hide PartCount;
      var n := if first + count <= PartCount(m) then count else count - 1;
      items := AssignInner(seq(n, j requires 0 <= j < n => PartBody(m, nonce, first + j)), outer);
      if first + count == PartCount(m) + 1 {
        var anchor := if first == 0 then AnchorBody(m, items[0], 0) else AnchorBody(m, part0.value.tx, part0.value.ledger);
        items := items + [Inner(anchor, outer, n)];
      }
    }

    // The pending chunks, named inside the batch that carries them.
    method NameInside(p: Plan, pending: seq<nat>, chunks: seq<Tx>)
      requires p.Valid() && Ascending(pending, |p.id.chunks|) && |chunks| == |pending|
      modifies p
      ensures p.Valid()
      ensures forall k | 0 <= k < |pending| :: p.manifest.chunks[pending[k]] == NamedChunk(Named(chunks[k]), 0)
      ensures forall i | 0 <= i < |p.id.chunks| && i !in pending :: p.manifest.chunks[i] == old(p.manifest.chunks)[i]
    {
      for j := 0 to |pending|
        invariant p.Valid()
        invariant forall k | 0 <= k < j :: p.manifest.chunks[pending[k]] == NamedChunk(Named(chunks[k]), 0)
        invariant forall i | 0 <= i < |p.id.chunks| && i !in pending :: p.manifest.chunks[i] == old(p.manifest.chunks)[i]
      {
        p.NameChunk(pending[j], chunks[j], 0);
      }
    }

    method BuildWhole(p: Plan, pending: seq<nat>, ghost parts: nat, outer: nat) returns (items: seq<Tx>)
      requires ledger.Valid() && p.Valid() && Ready(Landed(ledger.txs), ledger.sealed, p, Whole(pending, parts))
      modifies p, ledger`sealed
      ensures p.Valid() && ledger.Progressed()
      ensures Ready(Landed(ledger.txs), ledger.sealed, p, Whole(pending, parts))
      ensures Fits(Whole(pending, parts), p.id, items, outer, Landed(ledger.txs), ledger.sealed)
    {
      hide Safe, BodySafe, BatchSafe, NamesLanded, PartCount, SafeInOrder, Landed, TailBuilt, Fits;
      ghost var landed := Landed(ledger.txs);
      ghost var before := p.manifest;
      var chunks := AssignInner(ChunkBodies(p.id, pending), outer);
      NameInside(p, pending, chunks);
      var m := p.manifest;
      assert Draft(m, pending) == Draft(before, pending);
      DraftHasRealPartCount(m, pending);
      var nonce := ManifestMemos(m);
      forall i | 0 <= i < |p.id.chunks| && i !in pending
        ensures ChunkNamed(p.manifest, landed, i)
      {
        assert p.manifest.chunks[i] == before.chunks[i];
      }
      // At most 7 parts fit beside the anchor, so the part limit cannot stop this seal.
      assert nonce.Ok?;
      var tail := TailItems(m, nonce.value, 0, PartCount(m) + 1, None, outer + |pending|);
      WholeFits(landed, ledger.sealed, p, nonce.value, pending, chunks, tail, outer);
      items := chunks + tail;
    }

    method Build(p: Plan, recipe: Recipe, outer: nat) returns (items: seq<Tx>)
      requires ledger.Valid() && p.Valid() && Ready(Landed(ledger.txs), ledger.sealed, p, recipe)
      modifies p, ledger`sealed
      ensures p.Valid() && ledger.Progressed()
      ensures !recipe.Whole? ==> p.manifest == old(p.manifest) && ledger.sealed == old(ledger.sealed)
      ensures Ready(Landed(ledger.txs), ledger.sealed, p, recipe)
      ensures Fits(recipe, p.id, items, outer, Landed(ledger.txs), ledger.sealed)
    {
      hide Safe, BodySafe, BatchSafe, NamesLanded, PartCount, SafeInOrder, Landed;
      match recipe
      case Whole(pending, parts) =>
        items := BuildWhole(p, pending, parts, outer);
      case ChunksOnly(pending) =>
        items := AssignInner(ChunkBodies(p.id, pending), outer);
        ChunksFit(Landed(ledger.txs), ledger.sealed, p.id, pending, items, outer);
      case Tail(m, nonce, first, count, part0) =>
        items := TailItems(m, nonce, first, count, part0, outer);
        TailFits(Landed(ledger.txs), ledger.sealed, p, recipe, items, outer);
    }

    // Whether every inner transaction of a validated batch applied: the ledger is the only witness.
    method ReadInner(items: seq<Tx>) returns (r: Result<seq<DumpTx>, SubmitError>)
      requires ledger.Valid()
      modifies ledger
      ensures ledger.Moved()
      ensures r.Ok? ==> |r.value| == |items| && forall i | 0 <= i < |items| :: r.value[i].tx == items[i] && items[i] in Landed(ledger.txs)
      ensures r.Err? ==> r.error == InnerNotApplied
      ensures r.Err? ==> Blamed(r.error, ledger.answers, |old(ledger.answers)|, maxFee)
    {
      hide Safe, Landed, Blamed;
      ghost var n := |ledger.answers|;
      var recs: seq<DumpTx> := [];
      for j := 0 to |items|
        invariant ledger.Moved() && |recs| == j
        invariant forall i | 0 <= i < j :: recs[i].tx == items[i] && items[i] in Landed(ledger.txs)
      {
        var rec := ledger.Lookup(items[j]);
        LookedBlamed(items[j], rec, ledger.answers, n, maxFee);
        if rec.Err? || !rec.value.ok {
          return Err(InnerNotApplied);
        }
        recs := recs + [DumpTx(rec.value.tx, rec.value.index)];
      }
      return Ok(recs);
    }

    // The polling of one attempt; not done when the attempt expired.
    method AwaitBatch(recipe: Recipe, ghost id: BackupId, items: seq<Tx>, outer: Tx)
      returns (done: bool, r: Result<seq<DumpTx>, SubmitError>, index: LedgerIndex)
      requires ledger.Valid() && Sound() && Carries(recipe, id, Bodies(items))
      requires Capped(outer, maxFee) && Size(outer) == |items| && forall i | 0 <= i < |items| :: Genuine(items[i].body)
      modifies ledger, `dump, `paid
      ensures ledger.Moved() && Sound()
      ensures r.Ok? ==> Carried(recipe, id, r.value, Landed(ledger.txs)) && dump == old(dump) + r.value
      ensures r.Ok? ==> |r.value| == |items| && paid == old(paid) + [outer] && Sizes(paid) == Sizes(old(paid)) + [|r.value|]
      ensures done <==> r != Err(NotValidated)
      ensures !done ==> Tries(ledger.answers) == Tries(old(ledger.answers))
      ensures !done ==> Expired(outer, ledger.answers) || Polls(ledger.answers) == Polls(old(ledger.answers)) + 45
      ensures r.Err? ==> dump == old(dump) && paid == old(paid)
      ensures r.Err? ==> Blamed(r.error, ledger.answers, |old(ledger.answers)|, maxFee)
    {
      hide Safe, Landed, BodySafe, Carries, Sizes, Genuine, Capped, Blames, Blamed, Tries, Polls;
      ghost var n := |ledger.answers|;
      for i := 0 to 45
        invariant ledger.Moved() && dump == old(dump) && paid == old(paid)
        invariant i > 0 ==> Blamed(NotValidated, ledger.answers, n, maxFee)
        invariant Tries(ledger.answers) == Tries(old(ledger.answers)) && Polls(ledger.answers) == Polls(old(ledger.answers)) + i
      {
        ghost var before := ledger.answers;
        var rec := ledger.Lookup(outer);
        ghost var looked := ledger.answers;
        OneAnswer(before, Looked(outer, rec));
        LookedBlamed(outer, rec, looked, n, maxFee);
        if rec.Ok? {
          if !rec.value.ok {
            return true, Err(FailedOnLedger), 0;
          }
          r := ReadInner(items);
          if r.Ok? {
            CarriedByItems(recipe, id, items, r.value, Landed(ledger.txs));
            dump := dump + r.value;
            SizesMore(paid, outer);
            paid := paid + [outer];
          } else {
            BlameStays(r.error, ledger.answers, |looked|, ledger.answers, n, maxFee);
          }
          return true, r, rec.value.index;
        }
        var cur := ledger.ServerInfo();
        OneAnswer(looked, Served(cur));
        BlameStays(NotValidated, looked, n, ledger.answers, n, maxFee);
        if cur.Ok? && cur.value.validated > outer.lastLedger {
          break;
        }
      }
      return false, Err(NotValidated), 0;
    }

    // The outer transaction of one attempt, built anew with fresh sequences.
    method DrawBatch(p: Plan, recipe: Recipe) returns (r: Result<Tx, SubmitError>)
      requires ledger.Valid() && p.Valid() && Ready(Landed(ledger.txs), ledger.sealed, p, recipe)
      modifies ledger, p
      ensures p.Valid() && ledger.Progressed()
      ensures !recipe.Whole? ==> p.manifest == old(p.manifest) && ledger.sealed == old(ledger.sealed)
      ensures Ready(Landed(ledger.txs), ledger.sealed, p, recipe)
      ensures r.Ok? ==> r.value.body.Batch? && !r.value.isInner && Capped(r.value, maxFee)
      ensures r.Ok? ==> Fits(recipe, p.id, r.value.body.inner, r.value.sequence, Landed(ledger.txs), ledger.sealed)
      ensures r.Ok? ==> Drawn(r.value, |r.value.body.inner| + 2, ledger.answers, |old(ledger.answers)|)
      ensures r.Ok? ==> Tries(ledger.answers) == Tries(old(ledger.answers))
      ensures r != Err(NotValidated)
      ensures r.Err? ==> Blamed(r.error, ledger.answers, |old(ledger.answers)|, maxFee)
    {
      hide Safe, Landed, BodySafe, BatchSafe, Ready, Carries, Inners, Genuine, Blames, Blamed, Drawn, Rate, Tries, Polls;
      ghost var start, landed, seals := ledger.answers, Landed(ledger.txs), ledger.sealed;
      var state := ReadState();
      StillReady(landed, Landed(ledger.txs), seals, ledger.sealed, p, recipe);
      if state.Err? {
        return Err(state.error);
      }
      var (st, acct) := state.value;
      var items := Build(p, recipe, acct.sequence);
      // The checks of size and sequences cannot fail.
      assert 2 <= |items| <= MAX_INNER && forall i | 0 <= i < |items| :: items[i].sequence == acct.sequence + 1 + i by {
        InnersAreConsecutive(items, acct.sequence);
      }
      var fee := Charge(st, acct, |items| + 2);
      ChargeBlamed(start, |start|, st, acct, |items| + 2, maxFee, fee);
      if fee.Err? {
        return Err(fee.error);
      }
      r := Ok(Tx(acct.sequence, st.validated + 20, fee.value, false, Batch(items)));
      IsDrawn(r.value, |items| + 2, start, |start|, st, acct);
      StateIsNoTry(start, Served(Ok(st)), Held(Ok(acct)));
    }

    // One attempt; not done when it is to be tried again.
    method TryBatch(p: Plan, recipe: Recipe) returns (done: bool, r: Result<seq<DumpTx>, SubmitError>, index: LedgerIndex)
      requires ledger.Valid() && p.Valid() && Sound()
      requires Ready(Landed(ledger.txs), ledger.sealed, p, recipe)
      modifies ledger, p, `dump, `paid
      ensures p.Valid() && ledger.Progressed() && Sound()
      ensures !recipe.Whole? ==> p.manifest == old(p.manifest) && ledger.sealed == old(ledger.sealed)
      ensures done <==> r != Err(NotValidated)
      ensures !done ==> Ready(Landed(ledger.txs), ledger.sealed, p, recipe)
      ensures !done ==> Tries(ledger.answers) == Tries(old(ledger.answers)) + 1
      ensures r.Ok? ==> Carried(recipe, p.id, r.value, Landed(ledger.txs)) && dump == old(dump) + r.value
      ensures r.Ok? ==> Sizes(paid) == Sizes(old(paid)) + [|r.value|]
      ensures r.Ok? ==> |paid| == |old(paid)| + 1 && Drawn(paid[|old(paid)|], |r.value| + 2, ledger.answers, |old(ledger.answers)|)
      ensures r.Err? ==> dump == old(dump) && paid == old(paid)
      ensures r.Err? ==> Blamed(r.error, ledger.answers, |old(ledger.answers)|, maxFee)
    {
      hide Safe, Landed, BodySafe, BatchSafe, Ready, Carries, Inners, Sizes, Genuine, Blames, Blamed, Drawn, Capped, Tries, Polls;
      index := 0;
      ghost var start := |ledger.answers|;
      var drawn := DrawBatch(p, recipe);
      if drawn.Err? {
        return true, Err(drawn.error), 0;
      }
      var outer := drawn.value;
      var items := outer.body.inner;
      FitsIsSafe(recipe, p.id, outer, Landed(ledger.txs), ledger.sealed);
      hide Fits, TxSafe, Carried;
      ghost var read, landed, seals := ledger.answers, Landed(ledger.txs), ledger.sealed;
      var sent, refused := Post(outer);
      ghost var told := |ledger.answers|;
      if refused.Some? {
        BlameStays(refused.value, ledger.answers, |read|, ledger.answers, start, maxFee);
        return true, Err(refused.value), 0;
      }
      done, r := false, Err(NotValidated);
      if sent {
        done, r, index := AwaitBatch(recipe, p.id, items, outer);
        if r.Err? {
          BlameStays(r.error, ledger.answers, told, ledger.answers, start, maxFee);
        } else {
          DrawnStays(outer, |items| + 2, read, start, ledger.answers, start);
        }
      } else {
        BlameStays(NotValidated, ledger.answers, |read|, ledger.answers, start, maxFee);
      }
      StillReady(landed, Landed(ledger.txs), seals, ledger.sealed, p, recipe);
    }

    /**
      sendBatch: an Ok result means that every inner transaction has landed. Each attempt is built
      anew, with fresh sequences. Its size and sequence checks cannot fail.
     */
    method SendBatch(p: Plan, recipe: Recipe) returns (r: Result<seq<DumpTx>, SubmitError>, index: LedgerIndex)
      requires ledger.Valid() && p.Valid() && Sound()
      requires Ready(Landed(ledger.txs), ledger.sealed, p, recipe)
      modifies ledger, p, `dump, `paid
      ensures p.Valid() && ledger.Progressed() && Sound()
      ensures !recipe.Whole? ==> p.manifest == old(p.manifest) && ledger.sealed == old(ledger.sealed)
      ensures r.Ok? ==> Carried(recipe, p.id, r.value, Landed(ledger.txs)) && dump == old(dump) + r.value
      ensures r.Ok? ==> Sizes(paid) == Sizes(old(paid)) + [|r.value|]
      ensures r.Ok? ==> |paid| == |old(paid)| + 1 && Drawn(paid[|old(paid)|], |r.value| + 2, ledger.answers, |old(ledger.answers)|)
      ensures r.Err? ==> dump == old(dump) && paid == old(paid)
      ensures r == Err(NotValidated) ==> Tries(ledger.answers) == Tries(old(ledger.answers)) + 3
      ensures r.Err? ==> Blamed(r.error, ledger.answers, |old(ledger.answers)|, maxFee)
    {
      hide Safe, Landed, BodySafe, BatchSafe, Ready, Carries, Inners, Sizes, Genuine, Carried, Blames, Blamed, Drawn, Tries;
      ghost var n := |ledger.answers|;
      for attempt := 0 to 3
        invariant Tries(ledger.answers) == Tries(old(ledger.answers)) + attempt
        invariant attempt > 0 ==> Blamed(NotValidated, ledger.answers, n, maxFee)
        invariant p.Valid() && ledger.Progressed() && Sound() && dump == old(dump) && paid == old(paid)
        invariant !recipe.Whole? ==> p.manifest == old(p.manifest) && ledger.sealed == old(ledger.sealed)
        invariant Ready(Landed(ledger.txs), ledger.sealed, p, recipe)
      {
        var done;
        ghost var start := |ledger.answers|;
        done, r, index := TryBatch(p, recipe);
        if r.Err? {
          BlameStays(r.error, ledger.answers, start, ledger.answers, n, maxFee);
        } else {
          DrawnStays(paid[|old(paid)|], |r.value| + 2, ledger.answers, start, ledger.answers, n);
        }
        if done {
          return;
        }
      }
      return Err(NotValidated), 0;
    }

    /**
      What the dump recorded of this backup and the ledger confirms. Every entry of the backup is
      looked up; an answer other than yes or no ends the run.
     */
    method ReadDump(p: Plan)
      returns (err: Option<SubmitError>, recorded: map<string, DumpTx>, parts: map<nat, map<nat, DumpTx>>)
      requires ledger.Valid() && Sound()
      modifies ledger
      ensures ledger.Moved()
      ensures err.None? ==>
                DumpRead(dump, p.id, ledger.answers[|old(ledger.answers)|..], Landed(ledger.txs), recorded, parts)
      ensures err.Some? ==>
                && !FirstAsked(dump, p.id, ledger.answers[|old(ledger.answers)|..])
                && err == Some(Network) && Blamed(Network, ledger.answers, |old(ledger.answers)|, maxFee)
    {
      hide Safe, Landed, Blames, Blamed, DumpRead, FirstAsked, Mine, Genuine;
      err, recorded, parts := None, map[], map[];
      ghost var n, got: seq<Answer> := |ledger.answers|, [];
      NothingRead(dump[..0], p.id, Landed(ledger.txs));
      for i := 0 to |dump|
        invariant ledger.Moved() && ledger.answers == old(ledger.answers) + got
        invariant DumpRead(dump[..i], p.id, got, Landed(ledger.txs), recorded, parts)
      {
        var t := dump[i];
        var b := t.tx.body;
        if !((b.ChunkMemo? || b.PartMemo?) && b.id == p.id) {
          EntryPassed(dump, p.id, i, got, Landed(ledger.txs), recorded, parts);
          continue;
        }
        ghost var landed, before := Landed(ledger.txs), got;
        var confirmed := OnLedger(t.tx);
        ghost var a := ledger.answers[n + |got|];
        got := got + [a];
        if confirmed.Err? {
          err := Some(confirmed.error);
          EntryUnknown(dump, p.id, i, before, a, landed, recorded, parts);
          BlameStays(Network, ledger.answers, n + |before|, ledger.answers, n, maxFee);
          assert ledger.answers[n..] == got;
          return;
        }
        EntryRead(dump, p.id, i, before, a, landed, Landed(ledger.txs), recorded, parts);
        if !confirmed.value {
          continue;
        }
        if b.ChunkMemo? {
          recorded := recorded[b.ciphertext := t];
        } else {
          var known := if b.nonce in parts then parts[b.nonce] else map[];
          parts := parts[b.nonce := known[b.index := t]];
        }
      }
      assert dump[..|dump|] == dump;
    }

    // Any complete manifest, in whatever order the map gives them.
    method FindComplete(parts: map<nat, map<nat, DumpTx>>) returns (nonce: Option<nat>)
      ensures nonce.Some? ==> nonce.value in parts && Complete(parts[nonce.value])
      ensures nonce.Some? <==> Reusable(parts)
    {
      var todo := parts.Keys;
      while todo != {}
        invariant todo <= parts.Keys
        invariant forall n | n in parts.Keys - todo :: !Complete(parts[n])
      {
        var n :| n in todo;
        if Complete(parts[n]) {
          return Some(n);
        }
        todo := todo - {n};
      }
      return None;
    }

    // The sequential anchor. An Ok result means that it has landed.
    method SendAnchor(p: Plan, part0: DumpTx, ghost m: Manifest, ghost nonce: nat) returns (r: Result<(), SubmitError>)
      requires ledger.Valid() && p.Valid() && Sound()
      requires m.id == p.id && ManifestLanded(Landed(ledger.txs), m, nonce, part0.tx)
      modifies ledger, `dump, `did, `paid
      ensures ledger.Moved() && Sound()
      ensures r.Ok? ==> Anchored(p.id, PartCount(m), Landed(ledger.txs)) && did.Some?
      ensures r.Ok? ==> did.value.data == Anchor(p.id, part0.tx, part0.ledger, p.id.epoch, p.id.number)
      ensures r.Ok? ==>
                && |dump| == |old(dump)| + 1 && dump[|old(dump)|].tx.body == did.value.data
                && dump[|old(dump)|].ledger == did.value.ledger
      ensures r.Ok? ==> Sizes(paid) == Sizes(old(paid)) + [1]
      ensures r.Err? ==> did == old(did)
      ensures r.Err? ==> Blamed(r.error, ledger.answers, |old(ledger.answers)|, maxFee)
    {
      hide Safe, Landed, BodySafe, PartCount, Blames, Blamed, Drawn, Sizes, HasPart, PartBody;
      var body := AnchorBody(p.manifest, part0.tx, part0.ledger);
      AnchorIsSafe(Landed(ledger.txs), ledger.sealed, m, nonce, part0.tx, part0.ledger);
      AnchorTells(p.manifest, m, nonce, part0.tx, part0.ledger);
      hide ManifestLanded, AnchorBody;
      var sent := Send(body);
      if sent.Err? {
        return Err(sent.error);
      }
      assert Anchored(p.id, PartCount(m), Landed(ledger.txs)) by {
        assert AnchorsParts(sent.value.tx.body, p.id, PartCount(m));
      }
      hide Anchored;
      did := Some(DidEntry(sent.value.ledger, body));
      return Ok(());
    }

    // finishBatched: the dump keeps the entry as the ledger holds it. The last record is always the anchor, so its type check cannot fail.
    method FinishBatched(recs: seq<DumpTx>, index: LedgerIndex, ghost id: BackupId, ghost k: nat) returns (r: Result<(), SubmitError>)
      requires ledger.Valid() && recs != []
      requires recs[|recs| - 1].tx in Landed(ledger.txs) && AnchorsParts(recs[|recs| - 1].tx.body, id, k)
      modifies ledger, `did
      ensures ledger.Moved() && Anchored(id, k, Landed(ledger.txs))
      ensures r.Ok? ==> did.Some? && did.value.ledger == index && LastAnchor(ledger.txs) == Some(did.value.data)
      ensures r.Err? ==> did == old(did)
      ensures r.Err? ==> Blamed(r.error, ledger.answers, |old(ledger.answers)|, maxFee)
    {
      hide Safe, Landed;
      assert Anchored(id, k, Landed(ledger.txs)) by {
        assert AnchorsParts(recs[|recs| - 1].tx.body, id, k);
      }
      ghost var landed := Landed(ledger.txs);
      ghost var n := |ledger.answers|;
      var entry := ledger.LedgerEntryDID();
      StaysAnchored(id, k, landed, Landed(ledger.txs));
      if entry.Err? {
        BlameLast(Network, ledger.answers, n, maxFee);
        return Err(Network);
      }
      did := Some(DidEntry(index, entry.value));
      return Ok(());
    }

    // Chunks already on the ledger keep their recorded transaction; the others are pending.
    method NameRecorded(p: Plan, recorded: map<string, DumpTx>, ghost landed: set<Tx>) returns (pending: seq<nat>)
      requires p.Valid() && RecordedOn(landed, p.id, recorded)
      modifies p
      ensures p.Valid() && Ascending(pending, |p.id.chunks|)
      ensures forall i | 0 <= i < |p.id.chunks| && i !in pending :: ChunkNamed(p.manifest, landed, i)
      ensures forall i :: i in pending <==> i in Missing(p.id, recorded)
      ensures |pending| == |Missing(p.id, recorded)|
    {
      pending := [];
      for i := 0 to |p.id.chunks|
        invariant p.Valid() && Ascending(pending, i)
        invariant forall k :: k in pending <==> 0 <= k < i && p.id.chunks[k] !in recorded
        invariant forall k | 0 <= k < i && k !in pending :: ChunkNamed(p.manifest, landed, k)
      {
        var c := p.id.chunks[i];
        if c in recorded {
          RecordedChunk(landed, p.id, recorded, i);
          p.NameChunk(i, recorded[c].tx, recorded[c].ledger);
        } else {
          pending := pending + [i];
        }
      }
      AsManyAs(pending, Missing(p.id, recorded));
    }

    // The draft names every pending chunk by a placeholder.
    method MakeDraft(m: Manifest, pending: seq<nat>) returns (draft: Manifest)
      requires Ascending(pending, |m.chunks|)
      ensures draft == Draft(m, pending)
    {
      var chunks := m.chunks;
      for j := 0 to |pending|
        invariant |chunks| == |m.chunks|
        invariant forall k | 0 <= k < j :: chunks[pending[k]] == NamedChunk(Placeholder, 0)
        invariant forall i | 0 <= i < |chunks| && i !in pending :: chunks[i] == m.chunks[i]
      {
        chunks := chunks[pending[j] := NamedChunk(Placeholder, 0)];
      }
      assert chunks == DraftChunks(m.chunks, pending);
      draft := m.(chunks := chunks);
    }

    // The chunks of a batch that has landed, named in turn.
    method NameAll(p: Plan, pending: seq<nat>, recs: seq<DumpTx>, index: LedgerIndex, ghost landed: set<Tx>)
      requires p.Valid() && Ascending(pending, |p.id.chunks|) && Carried(ChunksOnly(pending), p.id, recs, landed)
      modifies p
      ensures |recs| == |pending|
      ensures p.Valid() && forall k | 0 <= k < |pending| :: ChunkNamed(p.manifest, landed, pending[k])
      ensures forall i | 0 <= i < |p.id.chunks| && i !in pending :: p.manifest.chunks[i] == old(p.manifest.chunks)[i]
    {
      assert forall j | 0 <= j < |pending| :: recs[j].tx in landed && recs[j].tx.body == EntryBodies(recs)[j] == ChunkBody(p.id, pending[j]);
      for j := 0 to |pending|
        invariant p.Valid() && forall k | 0 <= k < j :: ChunkNamed(p.manifest, landed, pending[k])
        invariant forall i | 0 <= i < |p.id.chunks| && i !in pending :: p.manifest.chunks[i] == old(p.manifest.chunks)[i]
      {
        p.NameChunk(pending[j], recs[j].tx, index);
      }
    }

    // Chunks first: one batch, or one plain transaction when a single chunk is left.
    method SendChunks(p: Plan, pending: seq<nat>) returns (r: Result<(), SubmitError>)
      requires ledger.Valid() && p.Valid() && Sound() && Ascending(pending, |p.id.chunks|)
      requires |pending| <= MAX_INNER
      requires forall i | 0 <= i < |p.id.chunks| && i !in pending :: ChunkNamed(p.manifest, Landed(ledger.txs), i)
      modifies ledger, p, `dump, `paid
      ensures p.Valid() && ledger.Progressed() && Sound()
      ensures r.Ok? ==> NamesLanded(Landed(ledger.txs), p.manifest)
      ensures forall i | 0 <= i < |p.id.chunks| && i !in pending :: p.manifest.chunks[i] == old(p.manifest.chunks)[i]
      ensures r.Ok? ==> Sizes(paid) == Sizes(old(paid)) + if pending == [] then [] else [|pending|]
      ensures r.Err? ==> Blamed(r.error, ledger.answers, |old(ledger.answers)|, maxFee)
    {
      hide Safe, Landed, BodySafe, Sizes, Carried, PartCount;
      ghost var landed := Landed(ledger.txs);
      if |pending| == 1 {
        var i := pending[0];
        UnsealedIsSafe(Landed(ledger.txs), ledger.sealed, ChunkBody(p.id, i));
        var sent := Send(ChunkBody(p.id, i));
        if sent.Err? {
          return Err(sent.error);
        }
        p.NameChunk(i, sent.value.tx, sent.value.ledger);
      } else if |pending| > 1 {
        var recs, index := SendBatch(p, ChunksOnly(pending));
        if recs.Err? {
          return Err(recs.error);
        }
        NameAll(p, pending, recs.value, index, Landed(ledger.txs));
      }
      AllNamed(landed, Landed(ledger.txs), p, pending);
      return Ok(());
    }

    // The manifest parts and the anchor, which shares its batch with the last part.
    method SendTail(p: Plan, m: Manifest, nonce: nat) returns (r: Result<(), SubmitError>)
      requires ledger.Valid() && p.Valid() && Sound()
      requires m.id == p.id && nonce < |ledger.sealed| && ledger.sealed[nonce] == m && NamesLanded(Landed(ledger.txs), m)
      requires PartCount(m) <= MAX_PARTS
      modifies ledger, p, `dump, `did, `paid
      ensures p.Valid() && ledger.Progressed() && Sound()
      ensures r.Ok? ==> Anchored(p.id, PartCount(m), Landed(ledger.txs)) && did.Some?
      ensures r.Ok? ==> Sizes(paid) == Sizes(old(paid)) + BatchLayout.SplitSizes(PartCount(m) + 1)
      ensures r.Err? ==> Blamed(r.error, ledger.answers, |old(ledger.answers)|, maxFee)
    {
      hide Safe, Landed, BodySafe, PartCount, NamesLanded, BatchLayout.SplitSizes, BatchLayout.Sum, Sizes, Drawn, Blames, Blamed, Carried, PartBody;
      ghost var n := |ledger.answers|;
      var groups := BatchLayout.SplitBatches(PartCount(m) + 1);
      var part0: Option<DumpTx> := None;
      var next := 0;
      assert BatchLayout.Sum(groups[..0]) == 0 by {
        BatchLayout.SumOfNone(groups);
      }
      for g := 0 to |groups|
        invariant p.Valid() && ledger.Progressed() && Sound() && ledger.sealed == old(ledger.sealed)
        invariant NamesLanded(Landed(ledger.txs), m)
        invariant Sizes(paid) == Sizes(old(paid)) + groups[..g]
        invariant next == BatchLayout.Sum(groups[..g]) && (g == 0 <==> next == 0)
        invariant forall j | 0 <= j < next && j < PartCount(m) :: HasPart(Landed(ledger.txs), m, nonce, j)
        invariant next > 0 ==> part0.Some? && part0.value.tx in Landed(ledger.txs) && part0.value.tx.body == PartBody(m, nonce, 0)
        invariant g < |groups| && next < PartCount(m)
      {
        BatchLayout.SplitPosition(PartCount(m) + 1, g);
        var first, count := next, groups[g];
        next := next + count;
        // No group is a lone part, so the plain send of a single part is never taken.
        assert count != 1;
        var recipe := Tail(m, nonce, first, count, part0);
        ghost var landed := Landed(ledger.txs);
        ghost var before := |ledger.answers|;
        var recs, index := SendBatch(p, recipe);
        if recs.Err? {
          BlameStays(recs.error, ledger.answers, before, ledger.answers, n, maxFee);
          return Err(recs.error);
        }
        TailLanded(landed, Landed(ledger.txs), p.id, recipe, recs.value);
        NamesStayLanded(landed, Landed(ledger.txs), m);
        if first == 0 {
          part0 := Some(DumpTx(recs.value[0].tx, index));
        }
        if g == |groups| - 1 {
          assert groups[..g + 1] == groups;
          before := |ledger.answers|;
          r := FinishBatched(recs.value, index, p.id, PartCount(m));
          if r.Err? {
            BlameStays(r.error, ledger.answers, before, ledger.answers, n, maxFee);
          }
          return;
        }
      }
      // The last group returns.
      assert false;
    }

    // A backup that one batch does not hold: the chunks, then the manifest with the anchor.
    method SubmitGroups(p: Plan, pending: seq<nat>) returns (r: Result<(), SubmitError>, ghost k: nat)
      requires ledger.Valid() && p.Valid() && Sound() && Ascending(pending, |p.id.chunks|)
      requires |pending| <= MAX_INNER < |pending| + PartCount(Draft(p.manifest, pending)) + 1
      requires forall i | 0 <= i < |p.id.chunks| && i !in pending :: ChunkNamed(p.manifest, Landed(ledger.txs), i)
      modifies ledger, p, `dump, `did, `paid
      ensures p.Valid() && ledger.Progressed() && Sound() && 1 <= k <= p.parts
      ensures r.Ok? ==> Anchored(p.id, k, Landed(ledger.txs)) && did.Some?
      ensures r.Ok? ==> Sizes(paid) == Sizes(old(paid)) + LayoutOf(Outcome(|pending|, k, false), true)
      ensures r == Err(TooManyParts) ==> p.parts > MAX_PARTS
      ensures r.Err? ==> r.error == TooManyParts || Blamed(r.error, ledger.answers, |old(ledger.answers)|, maxFee)
    {
      hide Safe, Landed, BodySafe, PartCount, NamesLanded, BatchLayout.SplitSizes, Projected, Sizes, LayoutOf;
      ghost var drawn := p.manifest;
      DraftWithinPlan(p, drawn);
      k := PartCount(drawn);
      var chunks := SendChunks(p, pending);
      if chunks.Err? {
        return chunks, k;
      }
      var m := p.manifest;
      AllAreNamed(Landed(ledger.txs), m);
      DraftIsLeast(drawn, m, pending);
      DraftWithinPlan(p, m);
      k := PartCount(m);
      var nonce := ManifestMemos(m);
      if nonce.Err? {
        return Err(nonce.error), k;
      }
      BatchesJoin(Sizes(old(paid)), |pending|, k);
      r := SendTail(p, m, nonce.value);
    }

    // The whole backup as one batch.
    method SubmitWhole(p: Plan, pending: seq<nat>, k: nat) returns (r: Result<(), SubmitError>)
      requires ledger.Valid() && p.Valid() && Sound() && Ascending(pending, |p.id.chunks|)
      requires k == PartCount(Draft(p.manifest, pending)) && |pending| + k + 1 <= MAX_INNER
      requires forall i | 0 <= i < |p.id.chunks| && i !in pending :: ChunkNamed(p.manifest, Landed(ledger.txs), i)
      modifies ledger, p, `dump, `did, `paid
      ensures p.Valid() && ledger.Progressed() && Sound()
      ensures r.Ok? ==> Anchored(p.id, k, Landed(ledger.txs)) && did.Some?
      ensures r.Ok? ==> Sizes(paid) == Sizes(old(paid)) + LayoutOf(Outcome(|pending|, k, false), true)
      ensures r.Err? ==> Blamed(r.error, ledger.answers, |old(ledger.answers)|, maxFee)
    {
      hide Safe, Landed, BodySafe, PartCount, BatchLayout.SplitSizes, Projected, Sizes;
      var recs, index := SendBatch(p, Whole(pending, k));
      if recs.Err? {
        return Err(recs.error);
      }
      WholeAnchored(p.id, pending, k, recs.value, Landed(ledger.txs));
      r := FinishBatched(recs.value, index, p.id, k);
    }

    /**
      submitBatched. o says what was left to send: c chunks, and k manifest parts unless a complete
      manifest had landed.
     */
    method SubmitBatched(p: Plan, recorded: map<string, DumpTx>, parts: map<nat, map<nat, DumpTx>>)
      returns (r: Result<(), SubmitError>, ghost o: Outcome)
      requires ledger.Valid() && p.Valid() && Sound()
      requires RecordedOn(Landed(ledger.txs), p.id, recorded) && PartsOn(Landed(ledger.txs), p.id, parts)
      modifies ledger, p, `dump, `did, `paid
      ensures p.Valid() && ledger.Progressed() && Sound() && o.parts >= 1
      ensures r.Ok? ==> Anchored(p.id, o.parts, Landed(ledger.txs)) && did.Some?
      ensures r.Ok? ==> Sizes(paid) == Sizes(old(paid)) + LayoutOf(o, true) && WithinPlan(p, o)
      ensures r.Ok? ==> o.chunks == |Missing(p.id, recorded)| && (o.reused <==> Reusable(parts))
      ensures r == Err(ChunksUnknown) <==> Reusable(parts) && Missing(p.id, recorded) != {}
      ensures r == Err(TooManyParts) ==> p.parts > MAX_PARTS
      ensures r.Err? ==> r.error in {TooManyParts, ChunksUnknown} || Blamed(r.error, ledger.answers, |old(ledger.answers)|, maxFee)
    {
      hide Safe, Landed, BodySafe, PartCount, NamesLanded, ManifestLanded, BatchLayout.SplitSizes, Projected, Sizes, BatchLayout.Layout, Complete;
      ghost var landed := Landed(ledger.txs);
      var pending := NameRecorded(p, recorded, landed);
      assert Landed(ledger.txs) == landed;
      ShortList(pending, |p.id.chunks|);
      var complete := FindComplete(parts);
      if complete.Some? {
        o := Outcome(0, 1, true);
        if pending != [] {
          return Err(ChunksUnknown), o;
        }
        var n := complete.value;
        ReusedManifest(ledger.txs, ledger.sealed, p.id, parts, n);
        o := Outcome(0, PartCount(ledger.sealed[n]), true);
        assert LayoutOf(o, true) == [1];
        r := SendAnchor(p, parts[n][0], ledger.sealed[n], n);
        return;
      }
      var draft := MakeDraft(p.manifest, pending);
      DraftWithinPlan(p, draft);
      o := Outcome(|pending|, PartCount(draft), false);
      var drafted := ManifestMemos(draft);
      if drafted.Err? {
        return Err(drafted.error), o;
      }
      if |pending| + PartCount(draft) + 1 <= MAX_INNER {
        r := SubmitWhole(p, pending, PartCount(draft));
      } else {
        ghost var k;
        r, k := SubmitGroups(p, pending);
        o := o.(parts := k);
      }
    }

    // The chunks of the sequential path, one transaction each.
    method SendMissing(p: Plan, recorded: map<string, DumpTx>) returns (r: Result<(), SubmitError>, ghost n: nat)
      requires ledger.Valid() && p.Valid() && Sound() && RecordedOn(Landed(ledger.txs), p.id, recorded)
      modifies ledger, p, `dump, `paid
      ensures p.Valid() && ledger.Moved() && Sound()
      ensures r.Ok? ==> NamesLanded(Landed(ledger.txs), p.manifest)
      ensures r.Ok? ==> n == |Missing(p.id, recorded)| <= |p.id.chunks| && Sizes(paid) == Sizes(old(paid)) + Singles(n)
      ensures r.Err? ==> Blamed(r.error, ledger.answers, |old(ledger.answers)|, maxFee)
    {
      hide Safe, Landed, BodySafe, Sizes, Drawn, Blames, Blamed, Missing, Genuine;
      ghost var start := |ledger.answers|;
      ghost var landed := Landed(ledger.txs);
      ghost var pending: seq<nat> := [];
      n := 0;
      for i := 0 to |p.id.chunks|
        invariant p.Valid() && ledger.Moved() && Sound()
        invariant n == |pending| <= i && Sizes(paid) == Sizes(old(paid)) + Singles(n)
        invariant Ascending(pending, i) && forall k :: k in pending <==> 0 <= k < i && p.id.chunks[k] !in recorded
        invariant forall k | 0 <= k < i :: ChunkNamed(p.manifest, Landed(ledger.txs), k)
      {
        ghost var sofar, before := Landed(ledger.txs), p.manifest;
        var c := p.id.chunks[i];
        if c in recorded {
          RecordedChunk(landed, p.id, recorded, i);
          p.NameChunk(i, recorded[c].tx, recorded[c].ledger);
        } else {
          UnsealedIsSafe(Landed(ledger.txs), ledger.sealed, ChunkBody(p.id, i));
          ChunkIsGenuine(p.id, i);
          ghost var asked := |ledger.answers|;
          var sent := Send(ChunkBody(p.id, i));
          if sent.Err? {
            BlameStays(sent.error, ledger.answers, asked, ledger.answers, start, maxFee);
            return Err(sent.error), n;
          }
          p.NameChunk(i, sent.value.tx, sent.value.ledger);
          OneMore(n);
          n, pending := n + 1, pending + [i];
        }
        NamesOneMore(before, p.manifest, sofar, Landed(ledger.txs), i);
      }
      AllNamed(Landed(ledger.txs), Landed(ledger.txs), p, []);
      MissingAre(p.id, recorded, pending);
      AsManyAs(pending, Missing(p.id, recorded));
      return Ok(()), n;
    }

    // The manifest parts of the sequential path. An Ok result is part 0, with every part landed.
    method SendParts(m: Manifest, nonce: nat) returns (r: Result<DumpTx, SubmitError>)
      requires ledger.Valid() && Sound()
      requires nonce < |ledger.sealed| && ledger.sealed[nonce] == m && NamesLanded(Landed(ledger.txs), m)
      requires PartCount(m) <= MAX_PARTS
      modifies ledger, `dump, `paid
      ensures ledger.Moved() && Sound()
      ensures r.Ok? ==> ManifestLanded(Landed(ledger.txs), m, nonce, r.value.tx)
      ensures r.Ok? ==> Sizes(paid) == Sizes(old(paid)) + Singles(PartCount(m))
      ensures r.Err? ==> Blamed(r.error, ledger.answers, |old(ledger.answers)|, maxFee)
    {
      hide Safe, Landed, BodySafe, PartCount, NamesLanded;
      ghost var landed := Landed(ledger.txs);
      var part0: Option<DumpTx> := None;
      for i := 0 to PartCount(m)
        invariant ledger.Moved() && Sound() && Sizes(paid) == Sizes(old(paid)) + Singles(i)
        invariant forall j | 0 <= j < i :: HasPart(Landed(ledger.txs), m, nonce, j)
        invariant i > 0 ==> part0.Some? && part0.value.tx in Landed(ledger.txs) && part0.value.tx.body == PartBody(m, nonce, 0)
      {
        ghost var sofar := Landed(ledger.txs);
        NamesStayLanded(landed, sofar, m);
        SealedPartIsSafe(sofar, ledger.sealed, m, nonce, i);
        var sent := Send(PartBody(m, nonce, i));
        if sent.Err? {
          return Err(sent.error);
        }
        OneMore(i);
        PartsStay(sofar, Landed(ledger.txs), m, nonce, i, sent.value.tx);
        if i == 0 {
          part0 := Some(sent.value);
        }
      }
      return Ok(part0.value);
    }

    // The sequential path, after the dump is read.
    method SubmitSequential(p: Plan, recorded: map<string, DumpTx>, parts: map<nat, map<nat, DumpTx>>)
      returns (r: Result<(), SubmitError>, ghost o: Outcome)
      requires ledger.Valid() && p.Valid() && Sound()
      requires RecordedOn(Landed(ledger.txs), p.id, recorded) && PartsOn(Landed(ledger.txs), p.id, parts)
      modifies ledger, p, `dump, `did, `paid
      ensures p.Valid() && ledger.Progressed() && Sound() && o.parts >= 1
      ensures r.Ok? ==> Anchored(p.id, o.parts, Landed(ledger.txs)) && did.Some?
      ensures r.Ok? ==> Sizes(paid) == Sizes(old(paid)) + LayoutOf(o, false) && WithinPlan(p, o)
      ensures r.Ok? ==> o.chunks == |Missing(p.id, recorded)| && (o.reused <==> Reusable(parts))
      ensures r == Err(TooManyParts) ==> p.parts > MAX_PARTS
      ensures r.Err? ==> r.error == TooManyParts || Blamed(r.error, ledger.answers, |old(ledger.answers)|, maxFee)
    {
      hide Safe, Landed, BodySafe, PartCount, NamesLanded, ManifestLanded, Projected, Sizes, Blames, Blamed, Missing, Complete, RecordedOn;
      ghost var start := |ledger.answers|;
      ghost var landed := Landed(ledger.txs);
      o := Outcome(0, 1, true);
      ghost var c;
      r, c := SendMissing(p, recorded);
      if r.Err? {
        BlameStays(r.error, ledger.answers, start, ledger.answers, start, maxFee);
        return;
      }
      PartsStayRecorded(landed, Landed(ledger.txs), p.id, parts);
      // A complete manifest already on the ledger is used again; a partial one is abandoned.
      var complete := FindComplete(parts);
      if complete.Some? {
        var n := complete.value;
        ReusedManifest(ledger.txs, ledger.sealed, p.id, parts, n);
        o := Outcome(c, PartCount(ledger.sealed[n]), true);
        SinglesJoin(c, 0);
        ghost var asked := |ledger.answers|;
        r := SendAnchor(p, parts[n][0], ledger.sealed[n], n);
        if r.Err? {
          BlameStays(r.error, ledger.answers, asked, ledger.answers, start, maxFee);
        }
        return;
      }
      var m := p.manifest;
      DraftWithinPlan(p, m);
      o := Outcome(c, PartCount(m), false);
      var nonce := ManifestMemos(m);
      if nonce.Err? {
        return Err(nonce.error), o;
      }
      ghost var sealing := |ledger.answers|;
      var part0 := SendParts(m, nonce.value);
      if part0.Err? {
        BlameStays(part0.error, ledger.answers, sealing, ledger.answers, start, maxFee);
        return Err(part0.error), o;
      }
      SinglesJoin(c, PartCount(m));
      ghost var asked := |ledger.answers|;
      r := SendAnchor(p, part0.value, m, nonce.value);
      if r.Err? {
        BlameStays(r.error, ledger.answers, asked, ledger.answers, start, maxFee);
      }
    }

    /**
      Submit: whatever the dump says and whatever the ledger does meanwhile, the ledger stays safe; an
      Ok result means that an anchor of the backup has landed. The run sends exactly what the ledger did not
      confirm of the dump, and pays for that within the ceiling that the plan report gave. Whenever it fails, an
      answer of the ledger is to blame, or a dump that holds a manifest and not its chunks.
     */
    method Submit(p: Plan) returns (r: Result<(), SubmitError>, ghost o: Outcome)
      requires ledger.Valid() && p.Valid() && GenuineDump(dump)
      modifies ledger, p, `dump, `did, `paid
      ensures p.Valid() && ledger.Progressed() && Sound() && o.parts >= 1
      ensures r.Ok? ==> Anchored(p.id, o.parts, Landed(ledger.txs)) && did.Some?
      ensures r.Ok? ==> Resumes(old(dump), p.id, ledger.answers[|old(ledger.answers)|..], o)
      ensures r.Ok? ==> Sizes(paid) == LayoutOf(o, batch) && WithinPlan(p, o)
      ensures r.Ok? ==> Fees(paid) <= maxFee * BatchLayout.Units(BatchLayout.Layout(|p.id.chunks|, p.parts, batch))
      ensures r == Err(TooManyParts) ==> p.parts > MAX_PARTS
      ensures r == Err(ChunksUnknown) <==> batch && Stranded(old(dump), p.id, ledger.answers[|old(ledger.answers)|..])
      ensures r.Err? ==> r.error in {TooManyParts, ChunksUnknown} || Blamed(r.error, ledger.answers, |old(ledger.answers)|, maxFee)
    {
      hide Safe, Landed, BodySafe, PartCount, NamesLanded, ManifestLanded, LayoutOf, BatchLayout.Units, BatchLayout.Layout, Fees;
      hide GatheredChunks, GatheredParts, Unconfirmed, Missing, HoldsManifest, Reusable, RecordedOn, PartsOn;
      ghost var n, given := |ledger.answers|, dump;
      paid := [];
      o := Outcome(0, 1, true);
      assert Sizes(paid) == [];
      var err, recorded, parts := ReadDump(p);
      if err.Some? {
        return Err(err.value), o;
      }
      ghost var got := ledger.answers[n..];
      ReadHaveLanded(given, p.id, got, Landed(ledger.txs), recorded, parts);
      ghost var conf := Confirmed(Mine(given, p.id), got);
      MissingIsUnconfirmed(p.id, conf, recorded);
      ReusedExactly(ledger.txs, ledger.sealed, p.id, conf, parts);
      ghost var read := |ledger.answers|;
      if batch {
        r, o := SubmitBatched(p, recorded, parts);
      } else {
        r, o := SubmitSequential(p, recorded, parts);
      }
      assert ledger.answers[n..][..|got|] == got;
      if r.Ok? {
        assert [] + LayoutOf(o, batch) == LayoutOf(o, batch);
        FeesWithinPlan(paid, maxFee, o, batch, |p.id.chunks|, p.parts);
      } else if r.error != TooManyParts && r.error != ChunksUnknown {
        BlameStays(r.error, ledger.answers, read, ledger.answers, n, maxFee);
      }
    }
  }

  lemma MissingAre(id: BackupId, recorded: map<string, DumpTx>, pending: seq<nat>)
    requires forall k :: k in pending <==> 0 <= k < |id.chunks| && id.chunks[k] !in recorded
    ensures forall k: nat :: k in Missing(id, recorded) <==> k in pending
  {
  }

  lemma ChunkIsGenuine(id: BackupId, i: nat)
    requires i < |id.chunks|
    ensures Genuine(ChunkBody(id, i))
  {
  }

  lemma SinglesJoin(c: nat, k: nat)
    ensures Singles(c) + Singles(k) + [1] == Singles(c + k + 1)
    ensures k == 0 ==> Singles(c) + [1] == Singles(c + 1)
    ensures forall s: seq<nat> :: s + Singles(c) + Singles(k) + [1] == s + Singles(c + k + 1)
  {
  }

  // One run of the tool: a plan, a dump that may lag or be lost, a mode, and a fee cap.
  datatype Run = Run(id: BackupId, rest: nat, dump: seq<DumpTx>, batch: bool, maxFee: nat)

  /**
    Any number of runs, each cut short wherever it happens to fail, with the ledger moving in between.
   */
  method Runs(ledger: Ledger, runs: seq<Run>)
    requires ledger.Valid()
    requires forall i | 0 <= i < |runs| ::
               |runs[i].id.chunks| <= MAX_CHUNKS && DistinctChunks(runs[i].id) && GenuineDump(runs[i].dump)
    modifies ledger
    ensures ledger.Progressed()
    ensures forall i | 0 <= i < |ledger.txs| && ledger.txs[i].ok && ledger.txs[i].tx.body.Anchor? :: CompleteBehind(ledger.txs, i)
  {
    hide Safe, Landed, CompleteBehind;
    for i := 0 to |runs|
      invariant ledger.Progressed()
    {
      var Run(id, rest, dump, batch, maxFee) := runs[i];
      var p := MakePlan(id, rest);
      if p.Err? {
        continue;
      }
      var s := new Submitter(ledger, maxFee, batch, dump);
      ledger.Steps();
      var r, o := s.Submit(p.value);
      // The part limit is Build's to check; nothing that Submit seals can exceed it.
      assert r != Err(TooManyParts);
      ledger.Steps();
    }
    forall i | 0 <= i < |ledger.txs| && ledger.txs[i].ok && ledger.txs[i].tx.body.Anchor?
      ensures CompleteBehind(ledger.txs, i)
    {
      AnchorNamesCompleteBackup(ledger.txs, ledger.sealed, i);
    }
  }
}
