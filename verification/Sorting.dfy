/** Sorting by a strict order, and the order of strings. The library sorts are modelled by insertion. */
module Sorting {

  // A strict weak order: ties are those that neither precedes.
  ghost predicate IsOrder<T(!new)>(less: (T, T) -> bool) {
    && (forall a, b | less(a, b) :: !less(b, a))
    && forall a, b, c | less(a, b) && !less(c, b) :: less(a, c)
  }

  function Insert<T>(less: (T, T) -> bool, s: seq<T>, x: T): (r: seq<T>)
    ensures |r| == |s| + 1
  {
    if s == [] || !less(x, s[|s| - 1]) then s + [x] else Insert(less, s[..|s| - 1], x) + [s[|s| - 1]]
  }

  // sort.Slice and sort.SliceStable.
  function Sort<T>(less: (T, T) -> bool, s: seq<T>): (r: seq<T>)
    ensures |r| == |s|
  {
    if s == [] then [] else Insert(less, Sort(less, s[..|s| - 1]), s[|s| - 1])
  }

  ghost predicate InOrder<T>(less: (T, T) -> bool, s: seq<T>) {
    forall i, j | 0 <= i < j < |s| :: !less(s[j], s[i])
  }

  // The elements that tie with x, in order.
  function Ties<T>(less: (T, T) -> bool, s: seq<T>, x: T): seq<T> {
    if s == [] then [] else Ties(less, s[..|s| - 1], x) + Tie(less, s[|s| - 1], x)
  }

  function Tie<T>(less: (T, T) -> bool, c: T, x: T): seq<T> {
    if less(c, x) || less(x, c) then [] else [c]
  }

  lemma {:induction false} InsertPermutes<T>(less: (T, T) -> bool, s: seq<T>, x: T)
    ensures multiset(Insert(less, s, x)) == multiset(s) + multiset{x}
  {
    if s != [] && less(x, s[|s| - 1]) {
      InsertPermutes(less, s[..|s| - 1], x);
      assert s == s[..|s| - 1] + [s[|s| - 1]];
    }
  }

  lemma {:induction false} InsertOrders<T(!new)>(less: (T, T) -> bool, s: seq<T>, x: T)
    requires IsOrder(less) && InOrder(less, s)
    ensures InOrder(less, Insert(less, s, x))
  {
    if s != [] {
      var front, last := s[..|s| - 1], s[|s| - 1];
      if less(x, last) {
        var r := Insert(less, front, x);
        InsertOrders(less, front, x);
        InsertPermutes(less, front, x);
        forall i | 0 <= i < |r|
          ensures !less(last, r[i])
        {
          assert r[i] in multiset(r);
          assert r[i] == x || r[i] in front;
        }
      } else {
        forall i | 0 <= i < |front|
          ensures !less(x, s[i])
        {
          assert !less(last, s[i]);
        }
      }
    }
  }

  /** Sorted, nothing lost or added. */
  lemma {:induction false} SortOrders<T(!new)>(less: (T, T) -> bool, s: seq<T>)
    requires IsOrder(less)
    ensures InOrder(less, Sort(less, s)) && multiset(Sort(less, s)) == multiset(s)
  {
    hide IsOrder;
    if s != [] {
      var front, last := s[..|s| - 1], s[|s| - 1];
      SortOrders(less, front);
      InsertOrders(less, Sort(less, front), last);
      InsertPermutes(less, Sort(less, front), last);
      assert s == front + [last];
    }
  }

  lemma SortHolds<T(!new)>(less: (T, T) -> bool, s: seq<T>, x: T)
    requires IsOrder(less)
    ensures x in Sort(less, s) <==> x in s
  {
    SortOrders(less, s);
    hide Sort, IsOrder, InOrder;
    assert x in multiset(Sort(less, s)) <==> x in multiset(s);
  }

  // Sorting what is sorted changes nothing.
  lemma {:induction false} SortedStays<T>(less: (T, T) -> bool, s: seq<T>)
    requires InOrder(less, s)
    ensures Sort(less, s) == s
  {
    if s != [] {
      var front, last := s[..|s| - 1], s[|s| - 1];
      SortedStays(less, front);
      InsertBehind(less, front, last);
      hide Insert, InOrder;
      assert s == front + [last];
    }
  }

  lemma InsertBehind<T>(less: (T, T) -> bool, s: seq<T>, x: T)
    requires s == [] || !less(x, s[|s| - 1])
    ensures Insert(less, s, x) == s + [x]
  {
  }

  lemma TiesEnd<T>(less: (T, T) -> bool, s: seq<T>, last: T, x: T)
    ensures Ties(less, s + [last], x) == Ties(less, s, x) + Tie(less, last, x)
  {
    assert (s + [last])[..|s|] == s;
  }

  lemma OneTie<T(!new)>(less: (T, T) -> bool, c: T, last: T, x: T)
    requires IsOrder(less) && less(c, last)
    ensures Tie(less, c, x) + Tie(less, last, x) == Tie(less, last, x) + Tie(less, c, x)
  {
    assert Tie(less, c, x) == [] || Tie(less, last, x) == [];
  }

  lemma {:induction false} InsertTies<T(!new)>(less: (T, T) -> bool, s: seq<T>, c: T, x: T)
    requires IsOrder(less)
    ensures Ties(less, Insert(less, s, c), x) == Ties(less, s, x) + Tie(less, c, x)
  {
    hide IsOrder, Tie;
    if s == [] || !less(c, s[|s| - 1]) {
      TiesEnd(less, s, c, x);
    } else {
      var front, last := s[..|s| - 1], s[|s| - 1];
      InsertTies(less, front, c, x);
      OneTie(less, c, last, x);
      TiesEnd(less, Insert(less, front, c), last, x);
      assert Insert(less, s, c) == Insert(less, front, c) + [last];
      Swapped(Ties(less, front, x), Tie(less, c, x), Tie(less, last, x));
    }
  }

  lemma Swapped<T>(t: seq<T>, a: seq<T>, b: seq<T>)
    requires a + b == b + a
    ensures t + a + b == t + b + a
  {
    assert t + a + b == t + (a + b) && t + b + a == t + (b + a);
  }

  /** Ties keep the order they were found in. */
  lemma {:induction false} SortIsStable<T(!new)>(less: (T, T) -> bool, s: seq<T>, x: T)
    requires IsOrder(less)
    ensures Ties(less, Sort(less, s), x) == Ties(less, s, x)
  {
    hide IsOrder, Tie;
    if s != [] {
      SortIsStable(less, s[..|s| - 1], x);
      InsertTies(less, Sort(less, s[..|s| - 1]), s[|s| - 1], x);
    }
  }

  // ----- two places of one element -----

  lemma {:induction false} Twice<T>(s: seq<T>, x: T) returns (i: nat, j: nat)
    requires multiset(s)[x] >= 2
    ensures i < j < |s| && s[i] == s[j] == x
  {
    var front, last := s[..|s| - 1], |s| - 1;
    assert s == front + [s[last]];
    if s[last] == x {
      assert x in multiset(front);
      i :| 0 <= i < |front| && front[i] == x;
      j := last;
    } else {
      i, j := Twice(front, x);
    }
  }

  lemma CountsTwice<T>(s: seq<T>, i: nat, j: nat)
    requires i < j < |s| && s[i] == s[j]
    ensures multiset(s)[s[i]] >= 2
  {
    var x := s[i];
    assert s == s[..j] + s[j..] && x == s[..j][i] && x == s[j..][0];
    assert multiset(s) == multiset(s[..j]) + multiset(s[j..]);
    assert x in multiset(s[..j]) && x in multiset(s[j..]);
  }

  // ----- strings -----

  // Go's order on strings and bytes: by the codes of their characters.
  predicate Before(a: seq<int>, b: seq<int>) {
    b != [] && (a == [] || a[0] < b[0] || (a[0] == b[0] && Before(a[1..], b[1..])))
  }

  // The two agree up to k, where one ends or has the smaller code.
  ghost predicate FirstDifference(a: seq<int>, b: seq<int>, k: nat) {
    && k <= |a| && k < |b| && (forall i | 0 <= i < k :: a[i] == b[i])
    && (k == |a| || a[k] < b[k])
  }

  ghost predicate ComesFirst(a: seq<int>, b: seq<int>) {
    exists k: nat :: FirstDifference(a, b, k)
  }

  /** What the order is: the first difference decides, and a prefix comes first. */
  lemma {:induction false} BeforeExactly(a: seq<int>, b: seq<int>)
    ensures Before(a, b) <==> ComesFirst(a, b)
  {
    if b == [] {
    } else if a == [] {
      assert FirstDifference(a, b, 0);
    } else if a[0] != b[0] {
      assert FirstDifference(a, b, 0) <==> a[0] < b[0];
    } else {
      BeforeExactly(a[1..], b[1..]);
      if k: nat :| FirstDifference(a[1..], b[1..], k) {
        assert FirstDifference(a, b, k + 1);
      }
      if k: nat :| FirstDifference(a, b, k) {
        assert FirstDifference(a[1..], b[1..], k - 1);
      }
    }
  }

  lemma {:induction false} BeforeIsTotal(a: seq<int>, b: seq<int>)
    ensures Before(a, b) || Before(b, a) || a == b
    ensures !(Before(a, b) && Before(b, a)) && !Before(a, a)
    decreases |a|
  {
    if a != [] {
      BeforeIsTotal(a[1..], a[1..]);
      if b != [] {
        BeforeIsTotal(a[1..], b[1..]);
        if a[0] == b[0] && a[1..] == b[1..] {
          assert a == [a[0]] + a[1..] && b == [b[0]] + b[1..];
        }
      }
    }
  }

  lemma {:induction false} BeforeIsTransitive(a: seq<int>, b: seq<int>, c: seq<int>)
    requires Before(a, b) && Before(b, c)
    ensures Before(a, c)
    decreases |a|
  {
    if a != [] && a[0] == b[0] == c[0] {
      BeforeIsTransitive(a[1..], b[1..], c[1..]);
    }
  }

  lemma BeforeSteps(a: seq<int>, b: seq<int>, c: seq<int>)
    requires Before(a, b) && !Before(c, b)
    ensures Before(a, c)
  {
    hide Before;
    BeforeIsTotal(b, c);
    if b != c {
      BeforeIsTransitive(a, b, c);
    }
  }

  function Codes(s: string): (c: seq<int>)
    ensures |c| == |s|
  {
    seq(|s|, i requires 0 <= i < |s| => s[i] as int)
  }
}
