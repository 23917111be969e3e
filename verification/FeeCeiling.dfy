/**
  What a run pays, and the ceiling the plan report gives: internal/backup/backup.go:283-304 and
  internal/backup/batch.go:301-328.
 */
module FeeCeiling {
  import opened BackupSteps
  import opened BatchLayout
  import opened LedgerModel

  // ----- the projected manifest -----

  // The longest values that Submit can fill in.
  const LONGEST := NamedChunk(Placeholder, MAX_LEDGER)

  // projectedManifest: every chunk named by the longest values.
  function Projected(m: Manifest): Manifest {
    m.(chunks := seq(|m.chunks|, _ => LONGEST))
  }

  method ProjectedParts(m: Manifest) returns (n: nat)
    ensures n == PartCount(Projected(m))
  {
    var chunks := m.chunks;
    for i := 0 to |chunks|
      invariant |chunks| == |m.chunks| && forall k | 0 <= k < i :: chunks[k] == LONGEST
    {
      chunks := chunks[i := LONGEST];
    }
    assert chunks == Projected(m).chunks;
    n := (2 + m.rest + ChunksLength(chunks) + PART_LEN - 1) / PART_LEN;
  }

  /** Whatever Submit fills in, the manifest has at most the projected number of parts. */
  lemma ProjectionIsCeiling(m: Manifest)
    ensures PartCount(m) <= PartCount(Projected(m))
  {
    NoShorter(m.chunks, Projected(m).chunks);
  }

  // ----- what is paid -----

  // The transactions that one submission puts on the ledger, a Batch's outer one not counted.
  function Size(t: Tx): nat {
    if t.body.Batch? then |t.body.inner| else 1
  }

  function Sizes(paid: seq<Tx>): (sizes: seq<nat>)
    ensures |sizes| == |paid|
  {
    seq(|paid|, i requires 0 <= i < |paid| => Size(paid[i]))
  }

  function Fees(paid: seq<Tx>): nat {
    if paid == [] then 0 else paid[0].fee + Fees(paid[1..])
  }

  // No more than the cap for each base fee.
  predicate Capped(t: Tx, maxFee: nat) {
    t.fee <= maxFee * FeeUnits(Size(t))
  }

  lemma Distributes(f: nat, a: nat, b: nat)
    ensures f * (a + b) == f * a + f * b
  {
  }

  lemma {:induction false} FeesCapped(paid: seq<Tx>, maxFee: nat)
    requires forall i | 0 <= i < |paid| :: Capped(paid[i], maxFee)
    ensures Fees(paid) <= maxFee * Units(Sizes(paid))
  {
    if paid != [] {
      FeesCapped(paid[1..], maxFee);
      assert Sizes(paid)[1..] == Sizes(paid[1..]);
      assert Units(Sizes(paid)) == FeeUnits(Size(paid[0])) + Units(Sizes(paid[1..]));
      assert Fees(paid) == paid[0].fee + Fees(paid[1..]);
      hide *;
      Distributes(maxFee, FeeUnits(Size(paid[0])), Units(Sizes(paid[1..])));
      assert paid[0].fee <= maxFee * FeeUnits(Size(paid[0]));
    }
  }

  lemma SizesMore(paid: seq<Tx>, t: Tx)
    ensures Sizes(paid + [t]) == Sizes(paid) + [Size(t)]
  {
  }

  // What a run sent: c chunks and, unless it used a manifest that had landed, k parts; then the anchor.
  datatype Outcome = Outcome(chunks: nat, parts: nat, reused: bool)

  function LayoutOf(o: Outcome, batch: bool): seq<nat>
    requires o.parts >= 1
  {
    if o.reused then seq(o.chunks + 1, _ => 1) else Layout(o.chunks, o.parts, batch)
  }

  /** A run's base fees are within those of the plan, whatever a resumed run found done. */
  lemma RunIsWithinPlan(o: Outcome, batch: bool, c: nat, k: nat)
    requires 1 <= o.parts && 1 <= k && o.chunks <= c && (!o.reused ==> o.parts <= k)
    ensures Units(LayoutOf(o, batch)) <= Units(Layout(c, k, batch))
  {
    if o.reused {
      UnitsOfSingles(o.chunks + 1);
      UnitsWritten(c, k, batch);
    } else {
      FeesNeverFall(o.chunks, c, o.parts, k, batch);
    }
  }

  /** The fees of a run that saw these transactions land are within the plan's ceiling. */
  lemma FeesWithinPlan(paid: seq<Tx>, maxFee: nat, o: Outcome, batch: bool, c: nat, k: nat)
    requires 1 <= o.parts && 1 <= k && o.chunks <= c && (!o.reused ==> o.parts <= k)
    requires Sizes(paid) == LayoutOf(o, batch) && forall i | 0 <= i < |paid| :: Capped(paid[i], maxFee)
    ensures Fees(paid) <= maxFee * Units(Layout(c, k, batch))
  {
    FeesCapped(paid, maxFee);
    RunIsWithinPlan(o, batch, c, k);
    hide Units, Layout, LayoutOf;
    NoLess(maxFee, Units(LayoutOf(o, batch)), Units(Layout(c, k, batch)));
  }

  lemma NoLess(f: nat, a: nat, b: nat)
    requires a <= b
    ensures f * a <= f * b
  {
  }
}
