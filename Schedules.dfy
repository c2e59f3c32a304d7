/** Schedules: a schedule is one action code per price slot.
    The search keeps every schedule at exactly NUM_BUY_SELL buys and
    NUM_BUY_SELL sells, with NONE everywhere else. */
module Schedules {

  /** Action codes as the source stores them in its int32 arrays. */
  const NONE := 0
  const BUY := 1
  const SELL := 2

  /** Number of buys, and of sells, every schedule of the search carries. */
  const NUM_BUY_SELL: nat := 14

  /** Number of occurrences of `v` in `s` (the source's `np.sum(s == v)`). */
  function Count(s: seq<int>, v: int): (c: nat)
    ensures c <= |s|
  {
    if s == [] then 0
    else Count(s[..|s| - 1], v) + (if s[|s| - 1] == v then 1 else 0)
  }

  /** The ascending list of the indices holding `v`, as the list
      comprehension `[i for i, action in enumerate(s) if action == v]`. */
  function Positions(s: seq<int>, v: int): (r: seq<nat>)
    ensures |r| == Count(s, v)
    ensures forall k :: 0 <= k < |r| ==> r[k] < |s| && s[r[k]] == v
  {
    if s == [] then []
    else Positions(s[..|s| - 1], v) + (if s[|s| - 1] == v then [|s| - 1] else [])
  }

  datatype Option<T> = None | Some(value: T)

  /** Every entry is one of the three action codes. */
  predicate WellFormed(s: seq<int>)
  {
    forall i :: 0 <= i < |s| ==> s[i] == NONE || s[i] == BUY || s[i] == SELL
  }

  /** The count test the crossover loops retry on. */
  predicate Balanced(s: seq<int>)
  {
    Count(s, BUY) == NUM_BUY_SELL && Count(s, SELL) == NUM_BUY_SELL
  }

  /** "Exactly NUM_BUY_SELL ones, NUM_BUY_SELL twos, the rest zeros". */
  predicate Valid(s: seq<int>)
  {
    WellFormed(s) && Balanced(s)
  }

  /** `Positions` lists the indices holding `v` in increasing order and
      misses none of them. */
  lemma {:induction false} PositionsCorrect(s: seq<int>, v: int)
    ensures forall k, l :: 0 <= k < l < |Positions(s, v)| ==>
              Positions(s, v)[k] < Positions(s, v)[l]
    ensures forall i :: 0 <= i < |s| && s[i] == v ==> i in Positions(s, v)
  {
    if s != [] {
      var init := s[..|s| - 1];
      PositionsCorrect(init, v);
      forall i | 0 <= i < |s| - 1
        ensures s[i] == init[i]
      {
      }
    }
  }

  /** Overwriting one slot moves at most one occurrence in and one out. */
  lemma {:induction false} CountUpdate(s: seq<int>, i: nat, x: int, v: int)
    requires i < |s|
    ensures Count(s[i := x], v) ==
            Count(s, v) - (if s[i] == v then 1 else 0) + (if x == v then 1 else 0)
  {
    var t := s[i := x];
    if i < |s| - 1 {
      assert t[..|t| - 1] == s[..|s| - 1][i := x];
      CountUpdate(s[..|s| - 1], i, x, v);
    } else {
      assert t[..|t| - 1] == s[..|s| - 1];
    }
  }

  /** The count of a concatenation is the sum of the counts. */
  lemma {:induction false} CountAppend(s: seq<int>, t: seq<int>, v: int)
    ensures Count(s + t, v) == Count(s, v) + Count(t, v)
  {
    if t == [] {
      assert s + t == s;
    } else {
      assert (s + t)[..|s + t| - 1] == s + t[..|t| - 1];
      CountAppend(s, t[..|t| - 1], v);
    }
  }

  /** In a well-formed schedule the three codes account for every slot;
      so a valid schedule of length n has n - 2 * NUM_BUY_SELL NONE slots. */
  lemma {:induction false} CountsPartition(s: seq<int>)
    requires WellFormed(s)
    ensures Count(s, NONE) + Count(s, BUY) + Count(s, SELL) == |s|
  {
    if s != [] {
      var init := s[..|s| - 1];
      assert WellFormed(init) by {
        forall i | 0 <= i < |init| ensures init[i] == s[i] { }
      }
      CountsPartition(init);
    }
  }

  /** A valid schedule is at least 2 * NUM_BUY_SELL long and has exactly
      |s| - 2 * NUM_BUY_SELL free slots. */
  lemma ValidFreeSlots(s: seq<int>)
    requires Valid(s)
    ensures |s| >= 2 * NUM_BUY_SELL
    ensures Count(s, NONE) == |s| - 2 * NUM_BUY_SELL
  {
    CountsPartition(s);
  }

  /** Equal multisets give equal counts. */
  lemma {:induction false} CountMultiset(s: seq<int>, v: int)
    ensures Count(s, v) == multiset(s)[v]
  {
    if s != [] {
      var init := s[..|s| - 1];
      assert s == init + [s[|s| - 1]];
      CountMultiset(init, v);
    }
  }
}
