/** How a batched backup is cut into transactions and what it pays: internal/backup/batch.go:301-348. */
module BatchLayout {

  // rippled's limit on the inner transactions of one Batch.
  const MAX_INNER := 8

  function Sum(sizes: seq<nat>): nat {
    if sizes == [] then 0 else sizes[0] + Sum(sizes[1..])
  }

  // The least number of batches of at most MAX_INNER that hold n transactions.
  function GroupCount(n: nat): nat {
    (n + MAX_INNER - 1) / MAX_INNER
  }

  function SplitSizes(n: nat): (sizes: seq<nat>)
    ensures sizes != [] && (n >= 2 ==> |sizes| == GroupCount(n))
  {
    if n <= 1 then [n]
    else
      var groups := GroupCount(n);
      seq(groups, i requires 0 <= i < groups => n / groups + if i >= groups - n % groups then 1 else 0)
  }

  /** batch.go's splitBatches. */
  method SplitBatches(n: nat) returns (sizes: seq<nat>)
    ensures sizes == SplitSizes(n)
  {
    if n <= 1 {
      return [n];
    }
    var groups := (n + MAX_INNER - 1) / MAX_INNER;
    var base, extra := n / groups, n % groups;
    sizes := seq(groups, _ => 0);
    for i := 0 to groups
      invariant |sizes| == groups
      invariant forall k | 0 <= k < i :: sizes[k] == SplitSizes(n)[k]
    {
      sizes := sizes[i := base];
      if i >= groups - extra {
        sizes := sizes[i := sizes[i] + 1];
      }
    }
  }

  lemma {:induction false} SumOfTwoLevels(sizes: seq<nat>, base: nat, low: nat)
    requires low <= |sizes|
    requires forall i | 0 <= i < |sizes| :: sizes[i] == base + if i >= low then 1 else 0
    ensures Sum(sizes) == base * |sizes| + (|sizes| - low)
  {
    if sizes != [] {
      SumOfTwoLevels(sizes[1..], base, if low == 0 then 0 else low - 1);
      assert base * |sizes| == base + base * (|sizes| - 1);
    }
  }

  lemma {:induction false} SumBound(sizes: seq<nat>)
    requires forall i | 0 <= i < |sizes| :: sizes[i] <= MAX_INNER
    ensures Sum(sizes) <= MAX_INNER * |sizes|
  {
    if sizes != [] {
      SumBound(sizes[1..]);
    }
  }

  lemma GroupBounds(n: nat)
    requires n >= 2
    ensures var groups := GroupCount(n);
            groups <= n && n / groups >= 2 && (n / groups) * groups + n % groups == n
            && (n / groups < MAX_INNER || (n / groups == MAX_INNER && n % groups == 0))
  {
    var groups := GroupCount(n);
    var base, extra := n / groups, n % groups;
    assert n <= MAX_INNER * groups;
    assert base * groups + extra == n && extra < groups;
    if base < 2 {
      assert false;
    }
    if base > MAX_INNER {
      assert false;
    }
  }

  /** The sizes add up to n, never fall, stay within 2 and 8, and no cut into fewer batches exists. */
  lemma SplitIsBest(n: nat, other: seq<nat>)
    requires n >= 2
    ensures var sizes := SplitSizes(n);
            && Sum(sizes) == n
            && (forall i | 0 <= i < |sizes| :: 2 <= sizes[i] <= MAX_INNER)
            && (forall i, j | 0 <= i < j < |sizes| :: sizes[i] <= sizes[j])
    ensures Sum(other) == n && (forall i | 0 <= i < |other| :: other[i] <= MAX_INNER) ==> |SplitSizes(n)| <= |other|
  {
    var groups := GroupCount(n);
    GroupBounds(n);
    SumOfTwoLevels(SplitSizes(n), n / groups, groups - n % groups);
    if Sum(other) == n && forall i | 0 <= i < |other| :: other[i] <= MAX_INNER {
      SumBound(other);
    }
  }

  lemma {:induction false} SumUpTo(sizes: seq<nat>, g: nat)
    requires g < |sizes|
    ensures Sum(sizes[..g + 1]) == Sum(sizes[..g]) + sizes[g]
    decreases g
  {
    if g > 0 {
      SumUpTo(sizes[1..], g - 1);
      assert sizes[..g + 1][1..] == sizes[1..][..g] && sizes[..g][1..] == sizes[1..][..g - 1];
    }
  }

  lemma SumOfNone(sizes: seq<nat>)
    ensures Sum(sizes[..0]) == 0
  {
  }

  /** Where each batch of a split starts: only the last one reaches the end, and it leaves no gap. */
  lemma SplitPosition(n: nat, g: nat)
    requires n >= 2 && g < |SplitSizes(n)|
    ensures var sizes := SplitSizes(n);
            var next := Sum(sizes[..g]) + sizes[g];
            && 2 <= sizes[g] <= MAX_INNER && next == Sum(sizes[..g + 1])
            && if g == |sizes| - 1 then next == n else next + 2 <= n
    decreases |SplitSizes(n)| - g
  {
    var sizes := SplitSizes(n);
    SplitIsBest(n, []);
    hide SplitSizes;
    SumUpTo(sizes, g);
    if g == |sizes| - 1 {
      assert sizes[..g + 1] == sizes;
    } else {
      SplitPosition(n, g + 1);
    }
  }

  // ----- fees -----

  // Base fees for one submission: 1 for a plain transaction, size + 2 for a Batch.
  function FeeUnits(size: nat): nat {
    if size == 1 then 1 else size + 2
  }

  function Units(layout: seq<nat>): nat {
    if layout == [] then 0 else FeeUnits(layout[0]) + Units(layout[1..])
  }

  // The transactions that Submit sends for c chunks and k manifest parts, by size.
  function Layout(c: nat, k: nat, batch: bool): seq<nat>
    requires k >= 1
  {
    if !batch then seq(c + k + 1, _ => 1)
    else if c + k + 1 <= MAX_INNER then [c + k + 1]
    else (if c == 0 then [] else [c]) + SplitSizes(k + 1)
  }

  lemma {:induction false} UnitsOfSingles(n: nat)
    ensures Units(seq(n, _ => 1)) == n
  {
    if n > 0 {
      assert seq(n, _ => 1 as nat)[1..] == seq(n - 1, _ => 1 as nat);
      UnitsOfSingles(n - 1);
    }
  }

  lemma {:induction false} UnitsOfBatches(sizes: seq<nat>)
    requires forall i | 0 <= i < |sizes| :: sizes[i] >= 2
    ensures Units(sizes) == Sum(sizes) + 2 * |sizes|
  {
    if sizes != [] {
      UnitsOfBatches(sizes[1..]);
    }
  }

  /** batch.go's BaseFees: what the plan report says is what the layout pays. */
  method BaseFees(c: nat, k: nat, batch: bool) returns (fees: nat)
    requires k >= 1
    ensures fees == Units(Layout(c, k, batch))
  {
    LayoutUnits(c, k, batch);
    hide Layout, Units, SplitSizes, Sum, GroupCount;
    if !batch {
      return c + k + 1;
    }
    if c + k + 1 <= MAX_INNER {
      return c + k + 3;
    }
    fees := 0;
    if c == 1 {
      fees := 1;
    } else if c > 1 {
      fees := c + 2;
    }
    var sizes := SplitBatches(k + 1);
    fees := AddFees(fees, sizes);
  }

  method AddFees(before: nat, sizes: seq<nat>) returns (fees: nat)
    ensures fees == before + Units(sizes)
  {
    hide Units;
    fees := before;
    UnitsSplit(sizes, 0);
    for i := 0 to |sizes|
      invariant fees + Units(sizes[i..]) == before + Units(sizes)
    {
      UnitsSplit(sizes, i);
      if sizes[i] == 1 {
        fees := fees + 1;
      } else {
        fees := fees + sizes[i] + 2;
      }
    }
    UnitsSplit(sizes, |sizes|);
  }

  lemma UnitsSplit(sizes: seq<nat>, i: nat)
    requires i <= |sizes|
    ensures sizes[0..] == sizes
    ensures Units(sizes[i..]) == if i == |sizes| then 0 else FeeUnits(sizes[i]) + Units(sizes[i + 1..])
  {
    if i < |sizes| {
      assert sizes[i..][1..] == sizes[i + 1..];
    }
  }

  lemma LayoutUnits(c: nat, k: nat, batch: bool)
    requires k >= 1
    ensures Units(Layout(c, k, batch)) ==
            if !batch then c + k + 1
            else if c + k + 1 <= MAX_INNER then c + k + 3
            else (if c == 0 then 0 else FeeUnits(c)) + Units(SplitSizes(k + 1))
  {
    if !batch {
      UnitsOfSingles(c + k + 1);
    } else if c + k + 1 <= MAX_INNER {
      assert [c + k + 1][1..] == [];
    } else if c > 0 {
      assert ([c] + SplitSizes(k + 1))[1..] == SplitSizes(k + 1);
    } else {
      assert [] + SplitSizes(k + 1) == SplitSizes(k + 1);
    }
  }

  lemma UnitsWritten(c: nat, k: nat, batch: bool)
    requires k >= 1
    ensures Units(Layout(c, k, batch)) ==
            if !batch then c + k + 1
            else if c + k + 1 <= MAX_INNER then c + k + 3
            else (if c == 0 then 0 else FeeUnits(c)) + (k + 1) + 2 * GroupCount(k + 1)
  {
    LayoutUnits(c, k, batch);
    hide Layout, Units, SplitSizes;
    SplitIsBest(k + 1, []);
    UnitsOfBatches(SplitSizes(k + 1));
  }

  /** More chunks or more manifest parts never cost less. */
  lemma FeesNeverFall(c: nat, c': nat, k: nat, k': nat, batch: bool)
    requires c <= c' && 1 <= k <= k'
    ensures Units(Layout(c, k, batch)) <= Units(Layout(c', k', batch))
  {
    UnitsWritten(c, k, batch);
    UnitsWritten(c', k', batch);
    assert GroupCount(k + 1) <= GroupCount(k' + 1);
  }
}
