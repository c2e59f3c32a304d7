/** The genetic operators of the search: building a random schedule,
    mutating one in place and crossing two over.  Every random draw of the
    source is a value the caller supplies, constrained to the range the
    random call can return. */
module Operators {
  import opened Schedules

  /** Probability with which `mutate` acts at all. */
  const MUTATION_RATE := 0.1
  /** Threshold of the coin that picks a buy (below) or a sell (otherwise). */
  const COIN_SPLIT := 0.5

  // ---------------------------------------------------------------- create

  /** The two `random.sample` results of `create_individual`: the buy slots,
      then the sell slots drawn from the slots left over. */
  datatype PlacementDraw = PlacementDraw(buys: seq<int>, sells: seq<int>)

  predicate Distinct(s: seq<int>)
  {
    forall i, j :: 0 <= i < j < |s| ==> s[i] != s[j]
  }

  /** What `random.sample` can return for a schedule of length n. */
  predicate PlacementFits(d: PlacementDraw, n: nat)
  {
    |d.buys| == NUM_BUY_SELL && |d.sells| == NUM_BUY_SELL &&
    Distinct(d.buys) && Distinct(d.sells) &&
    (forall i :: 0 <= i < |d.buys| ==> 0 <= d.buys[i] < n) &&
    (forall i :: 0 <= i < |d.sells| ==> 0 <= d.sells[i] < n && d.sells[i] !in d.buys)
  }

  /** A zeroed schedule of length n with BUY at `buys` and SELL at `sells`. */
  function Layout(n: nat, buys: seq<int>, sells: seq<int>): seq<int>
  {
    seq(n, i => if i in buys then BUY else if i in sells then SELL else NONE)
  }

  /** `create_individual(n)`: a fresh zeroed array, written at the sampled
      buy slots and then at the sampled sell slots.  The samples cannot be
      drawn when n < 2 * NUM_BUY_SELL (`random.sample` raises), and then
      `ok` is false. */
  method CreateIndividual(n: nat, d: PlacementDraw) returns (ok: bool, a: array<int>)
    requires n >= 2 * NUM_BUY_SELL ==> PlacementFits(d, n)
    ensures fresh(a)
    ensures ok <==> n >= 2 * NUM_BUY_SELL
    ensures ok ==> a.Length == n && a[..] == Layout(n, d.buys, d.sells) && Valid(a[..])
  {
    if n < 2 * NUM_BUY_SELL {
      return false, new int[0];
    }
    a := new int[n](_ => NONE);
    assert a[..] == Layout(n, [], []);
    for j := 0 to |d.buys|
      invariant a[..] == Layout(n, d.buys[..j], [])
    {
      LayoutAddBuy(n, d.buys, j);
      a[d.buys[j]] := BUY;
    }
    assert d.buys[..|d.buys|] == d.buys;
    assert d.sells[..0] == [];
    for j := 0 to |d.sells|
      invariant a[..] == Layout(n, d.buys, d.sells[..j])
    {
      LayoutAddSell(n, d.buys, d.sells, j);
      a[d.sells[j]] := SELL;
    }
    assert d.sells[..|d.sells|] == d.sells;
    LayoutValid(n, d);
    ok := true;
  }

  lemma LayoutAddBuy(n: nat, buys: seq<int>, j: nat)
    requires j < |buys| && 0 <= buys[j] < n
    ensures Layout(n, buys[..j + 1], []) == Layout(n, buys[..j], [])[buys[j] := BUY]
  {
    assert buys[..j + 1] == buys[..j] + [buys[j]];
  }

  lemma LayoutAddSell(n: nat, buys: seq<int>, sells: seq<int>, j: nat)
    requires j < |sells| && 0 <= sells[j] < n && sells[j] !in buys
    ensures Layout(n, buys, sells[..j + 1]) == Layout(n, buys, sells[..j])[sells[j] := SELL]
  {
    assert sells[..j + 1] == sells[..j] + [sells[j]];
  }

  lemma {:induction false} CountAbsent(s: seq<int>, v: int)
    requires forall i :: 0 <= i < |s| ==> s[i] != v
    ensures Count(s, v) == 0
  {
    if s != [] {
      CountAbsent(s[..|s| - 1], v);
    }
  }

  lemma {:induction false} LayoutBuyCount(n: nat, d: PlacementDraw, j: nat)
    requires PlacementFits(d, n) && j <= |d.buys|
    ensures Count(Layout(n, d.buys[..j], []), BUY) == j
    ensures Count(Layout(n, d.buys[..j], []), SELL) == 0
  {
    if j == 0 {
      CountAbsent(Layout(n, [], []), BUY);
      CountAbsent(Layout(n, [], []), SELL);
    } else {
      var before := Layout(n, d.buys[..j - 1], []);
      LayoutBuyCount(n, d, j - 1);
      LayoutAddBuy(n, d.buys, j - 1);
      assert d.buys[j - 1] !in d.buys[..j - 1];
      CountUpdate(before, d.buys[j - 1], BUY, BUY);
      CountUpdate(before, d.buys[j - 1], BUY, SELL);
    }
  }

  lemma {:induction false} LayoutSellCount(n: nat, d: PlacementDraw, j: nat)
    requires PlacementFits(d, n) && j <= |d.sells|
    ensures Count(Layout(n, d.buys, d.sells[..j]), BUY) == NUM_BUY_SELL
    ensures Count(Layout(n, d.buys, d.sells[..j]), SELL) == j
  {
    if j == 0 {
      LayoutBuyCount(n, d, |d.buys|);
      assert d.buys[..|d.buys|] == d.buys;
      assert d.sells[..0] == [];
    } else {
      var before := Layout(n, d.buys, d.sells[..j - 1]);
      LayoutSellCount(n, d, j - 1);
      LayoutAddSell(n, d.buys, d.sells, j - 1);
      assert d.sells[j - 1] !in d.sells[..j - 1];
      CountUpdate(before, d.sells[j - 1], SELL, BUY);
      CountUpdate(before, d.sells[j - 1], SELL, SELL);
    }
  }

  /** Every sampled layout has exactly NUM_BUY_SELL buys, NUM_BUY_SELL
      sells and NONE elsewhere, at the sampled slots. */
  lemma LayoutValid(n: nat, d: PlacementDraw)
    requires PlacementFits(d, n)
    ensures Valid(Layout(n, d.buys, d.sells))
    ensures forall i :: 0 <= i < |d.buys| ==> Layout(n, d.buys, d.sells)[d.buys[i]] == BUY
    ensures forall i :: 0 <= i < |d.sells| ==> Layout(n, d.buys, d.sells)[d.sells[i]] == SELL
  {
    LayoutSellCount(n, d, |d.sells|);
    assert d.sells[..|d.sells|] == d.sells;
  }

  // ---------------------------------------------------------------- mutate

  /** The draws `mutate` makes: the rate roll, the buy/sell coin, the free
      slot chosen from the NONE indices and the action chosen from the BUY
      or SELL indices (both as positions in those index lists). */
  datatype MutationDraw = MutationDraw(roll: real, coin: real, slot: nat, victim: nat)

  /** Whether the coin sends `mutate` to its buy branch. */
  predicate BuyBranch(s: seq<int>, d: MutationDraw)
  {
    d.coin < COIN_SPLIT && |Positions(s, NONE)| > 0
  }

  /** What `random.choice` can return: a position inside each list it is
      applied to, whenever that list is not empty. */
  predicate MutationFits(s: seq<int>, d: MutationDraw)
  {
    d.roll < MUTATION_RATE ==>
      (|Positions(s, NONE)| > 0 ==> d.slot < |Positions(s, NONE)|) &&
      (BuyBranch(s, d) && |Positions(s, BUY)| > 0 ==> d.victim < |Positions(s, BUY)|) &&
      (!BuyBranch(s, d) && |Positions(s, SELL)| > 0 ==> d.victim < |Positions(s, SELL)|)
  }

  /** The outcome of `mutate`: `None` where `random.choice` is applied to an
      empty list, the new schedule otherwise. */
  function Mutation(s: seq<int>, d: MutationDraw): Option<seq<int>>
    requires MutationFits(s, d)
  {
    if d.roll >= MUTATION_RATE then Some(s)
    else
      var buys, sells, zeros := Positions(s, BUY), Positions(s, SELL), Positions(s, NONE);
      if BuyBranch(s, d) then
        if |buys| == 0 then None
        else Some(s[buys[d.victim] := NONE][zeros[d.slot] := BUY])
      else if |zeros| == 0 || |sells| == 0 then None
      else Some(s[sells[d.victim] := NONE][zeros[d.slot] := SELL])
  }

  /** `mutate(individual)`, in place.  When a `random.choice` would raise, it
      does so before any write: `ok` is false and the array is untouched. */
  method Mutate(a: array<int>, d: MutationDraw) returns (ok: bool)
    requires MutationFits(a[..], d)
    modifies a
    ensures ok == Mutation(old(a[..]), d).Some?
    ensures a[..] == if ok then Mutation(old(a[..]), d).value else old(a[..])
    ensures d.roll >= MUTATION_RATE ==> ok && a[..] == old(a[..])
  {
    ok := true;
    if d.roll < MUTATION_RATE {
      var buys := Positions(a[..], BUY);
      var sells := Positions(a[..], SELL);
      var zeros := Positions(a[..], NONE);
      if d.coin < COIN_SPLIT && |zeros| > 0 {
        var newBuy := zeros[d.slot];
        if |buys| == 0 {
          return false;
        }
        a[buys[d.victim]] := NONE;
        a[newBuy] := BUY;
      } else {
        if |zeros| == 0 {
          return false;
        }
        var newSell := zeros[d.slot];
        if |sells| == 0 {
          return false;
        }
        a[sells[d.victim]] := NONE;
        a[newSell] := SELL;
      }
    }
  }

  /** A mutation that acts is a swap: one slot holding an action becomes
      NONE and one NONE slot takes that action; nothing else changes. */
  lemma MutationIsSwap(s: seq<int>, d: MutationDraw)
    requires MutationFits(s, d) && Mutation(s, d).Some? && d.roll < MUTATION_RATE
    ensures exists p, q :: 0 <= p < |s| && 0 <= q < |s| &&
              (s[p] == BUY || s[p] == SELL) && s[q] == NONE &&
              Mutation(s, d).value == s[p := NONE][q := s[p]]
  {
    var buys, sells, zeros := Positions(s, BUY), Positions(s, SELL), Positions(s, NONE);
    var q := zeros[d.slot];
    var p := if BuyBranch(s, d) then buys[d.victim] else sells[d.victim];
    assert Mutation(s, d).value == s[p := NONE][q := s[p]];
  }

  /** A mutation keeps the length and the number of every code. */
  lemma MutationKeepsCounts(s: seq<int>, d: MutationDraw, v: int)
    requires MutationFits(s, d) && Mutation(s, d).Some?
    ensures |Mutation(s, d).value| == |s|
    ensures Count(Mutation(s, d).value, v) == Count(s, v)
  {
    if d.roll < MUTATION_RATE {
      MutationIsSwap(s, d);
      var p, q :| 0 <= p < |s| && 0 <= q < |s| && (s[p] == BUY || s[p] == SELL) && s[q] == NONE &&
                  Mutation(s, d).value == s[p := NONE][q := s[p]];
      CountUpdate(s, p, NONE, v);
      CountUpdate(s[p := NONE], q, s[p], v);
    }
  }

  /** Mutating a valid schedule yields a valid schedule of the same length. */
  lemma MutationKeepsValid(s: seq<int>, d: MutationDraw)
    requires MutationFits(s, d) && Mutation(s, d).Some? && Valid(s)
    ensures |Mutation(s, d).value| == |s| && Valid(Mutation(s, d).value)
  {
    MutationKeepsCounts(s, d, BUY);
    MutationKeepsCounts(s, d, SELL);
    if d.roll < MUTATION_RATE {
      MutationIsSwap(s, d);
    }
  }

  /** On a valid schedule `mutate` fails exactly when it acts and the
      schedule has no free slot (length 2 * NUM_BUY_SELL). */
  lemma MutationFailsExactly(s: seq<int>, d: MutationDraw)
    requires MutationFits(s, d) && Valid(s)
    ensures Mutation(s, d).None? <==> d.roll < MUTATION_RATE && |s| == 2 * NUM_BUY_SELL
  {
    ValidFreeSlots(s);
  }

  /** The constraint on mutation draws stated for any valid schedule of
      length n: then the index lists have NUM_BUY_SELL, NUM_BUY_SELL and
      n - 2 * NUM_BUY_SELL entries. */
  predicate MutationFitsValid(d: MutationDraw, n: nat)
  {
    d.roll < MUTATION_RATE ==>
      d.victim < NUM_BUY_SELL && (n > 2 * NUM_BUY_SELL ==> d.slot < n - 2 * NUM_BUY_SELL)
  }

  lemma MutationFitsOnValid(s: seq<int>, d: MutationDraw)
    requires Valid(s) && MutationFitsValid(d, |s|)
    ensures MutationFits(s, d)
  {
    ValidFreeSlots(s);
  }

  // ------------------------------------------------------------- crossover

  /** The draws of one retry in `crossover`: a fresh individual and its
      mutation. */
  datatype Regrowth = Regrowth(placement: PlacementDraw, mutation: MutationDraw)

  /** The draws of `crossover`: the cut point and one retry per child. */
  datatype CrossoverDraw = CrossoverDraw(cut: nat, retry1: Regrowth, retry2: Regrowth)

  predicate RegrowthFits(r: Regrowth, n: nat)
  {
    PlacementFits(r.placement, n) && MutationFitsValid(r.mutation, n)
  }

  /** What `random.randint(0, n - 1)` and the retries can draw. */
  predicate CrossoverFits(d: CrossoverDraw, n: nat)
  {
    (n > 0 ==> d.cut < n) &&
    (n >= 2 * NUM_BUY_SELL ==> RegrowthFits(d.retry1, n) && RegrowthFits(d.retry2, n))
  }

  /** `np.concatenate((s[:c], t[c:]))`, with Python's clamping of slices. */
  function Splice(s: seq<int>, t: seq<int>, c: nat): seq<int>
  {
    s[..if c <= |s| then c else |s|] + t[if c <= |t| then c else |t|..]
  }

  /** `mutate(create_individual(n))`; `None` where either raises. */
  function Regrown(n: nat, r: Regrowth): Option<seq<int>>
    requires n >= 2 * NUM_BUY_SELL ==> RegrowthFits(r, n)
  {
    if n < 2 * NUM_BUY_SELL then None
    else
      var s := Layout(n, r.placement.buys, r.placement.sells);
      LayoutValid(n, r.placement);
      MutationFitsOnValid(s, r.mutation);
      Mutation(s, r.mutation)
  }

  /** One child of `crossover`: the splice if it is balanced, else the
      regrown individual. */
  function Child(splice: seq<int>, n: nat, r: Regrowth): Option<seq<int>>
    requires n >= 2 * NUM_BUY_SELL ==> RegrowthFits(r, n)
  {
    if Balanced(splice) then Some(splice) else Regrown(n, r)
  }

  /** The outcome of `crossover(parent1, parent2)`: `None` where
      `random.randint(0, -1)` or a retry raises. */
  function Offspring(p1: seq<int>, p2: seq<int>, d: CrossoverDraw): Option<(seq<int>, seq<int>)>
    requires CrossoverFits(d, |p1|)
  {
    if |p1| == 0 then None
    else
      var first := Child(Splice(p1, p2, d.cut), |p1|, d.retry1);
      if first.None? then None
      else
        var second := Child(Splice(p2, p1, d.cut), |p1|, d.retry2);
        if second.None? then None else Some((first.value, second.value))
  }

  /** A fresh array holding `s` (the array `np.concatenate` allocates). */
  method FromSeq(s: seq<int>) returns (a: array<int>)
    ensures fresh(a) && a[..] == s
  {
    a := new int[|s|](i requires 0 <= i < |s| => s[i]);
  }

  /** `crossover(parent1, parent2)`: splice at the cut, then regenerate each
      child with `mutate(create_individual(n))` while its counts are off.
      The parents are only read. */
  method Crossover(parent1: array<int>, parent2: array<int>, d: CrossoverDraw)
    returns (ok: bool, child1: array<int>, child2: array<int>)
    requires CrossoverFits(d, parent1.Length)
    ensures fresh(child1) && fresh(child2) && child1 != child2
    ensures ok == Offspring(parent1[..], parent2[..], d).Some?
    ensures ok ==> (child1[..], child2[..]) == Offspring(parent1[..], parent2[..], d).value
  {
    var n := parent1.Length;
    if n == 0 {
      ok, child1, child2 := false, new int[0], new int[0];
      return;
    }
    var cut := d.cut;
    var splice1, splice2 := Splice(parent1[..], parent2[..], cut), Splice(parent2[..], parent1[..], cut);
    child1 := FromSeq(splice1);
    child2 := FromSeq(splice2);
    ok := true;
    while !Balanced(child1[..])
      invariant fresh(child1) && fresh(child2) && child1 != child2
      invariant child2[..] == splice2
      invariant child1[..] == splice1 || Child(splice1, n, d.retry1) == Some(child1[..])
      decreases if Balanced(child1[..]) then 0 else 1
    {
      var made, fresh1 := CreateIndividual(n, d.retry1.placement);
      if !made {
        ok := false;
        return;
      }
      MutationFitsOnValid(fresh1[..], d.retry1.mutation);
      var mutated := Mutate(fresh1, d.retry1.mutation);
      if !mutated {
        ok := false;
        return;
      }
      child1 := fresh1;
      RegrownValid(n, d.retry1);
    }
    while !Balanced(child2[..])
      invariant fresh(child1) && fresh(child2) && child1 != child2
      invariant Child(splice1, n, d.retry1) == Some(child1[..])
      invariant child2[..] == splice2 || Child(splice2, n, d.retry2) == Some(child2[..])
      decreases if Balanced(child2[..]) then 0 else 1
    {
      var made, fresh2 := CreateIndividual(n, d.retry2.placement);
      if !made {
        ok := false;
        return;
      }
      MutationFitsOnValid(fresh2[..], d.retry2.mutation);
      var mutated := Mutate(fresh2, d.retry2.mutation);
      if !mutated {
        ok := false;
        return;
      }
      child2 := fresh2;
      RegrownValid(n, d.retry2);
    }
  }

  /** A regrown individual is valid, so each retry loop of `crossover` runs
      its body at most once. */
  lemma RegrownValid(n: nat, r: Regrowth)
    requires n >= 2 * NUM_BUY_SELL ==> RegrowthFits(r, n)
    requires Regrown(n, r).Some?
    ensures |Regrown(n, r).value| == n && Valid(Regrown(n, r).value)
  {
    LayoutValid(n, r.placement);
    MutationFitsOnValid(Layout(n, r.placement.buys, r.placement.sells), r.mutation);
    MutationKeepsValid(Layout(n, r.placement.buys, r.placement.sells), r.mutation);
  }

  /** The retry fails only where its schedule has no free slot and its
      mutation acts, or where no schedule of length n can be sampled. */
  lemma RegrownSucceeds(n: nat, r: Regrowth)
    requires n >= 2 * NUM_BUY_SELL ==> RegrowthFits(r, n)
    ensures Regrown(n, r).Some? <==>
            n > 2 * NUM_BUY_SELL || (n == 2 * NUM_BUY_SELL && r.mutation.roll >= MUTATION_RATE)
  {
    if n >= 2 * NUM_BUY_SELL {
      var s := Layout(n, r.placement.buys, r.placement.sells);
      LayoutValid(n, r.placement);
      MutationFitsOnValid(s, r.mutation);
      MutationFailsExactly(s, r.mutation);
    }
  }

  /** Splicing two schedules of one length at a cut inside them keeps the
      length, takes slots before the cut from the first and the rest from
      the second, keeps well-formedness, and leaves the two children with
      as many entries of each code together as the two parents. */
  lemma SpliceFacts(s: seq<int>, t: seq<int>, c: nat, v: int)
    requires |s| == |t| && c <= |s|
    ensures |Splice(s, t, c)| == |s|
    ensures forall i :: 0 <= i < |s| ==> Splice(s, t, c)[i] == if i < c then s[i] else t[i]
    ensures WellFormed(s) && WellFormed(t) ==> WellFormed(Splice(s, t, c))
    ensures Count(Splice(s, t, c), v) + Count(Splice(t, s, c), v) == Count(s, v) + Count(t, v)
  {
    CountAppend(s[..c], t[c..], v);
    CountAppend(t[..c], s[c..], v);
    assert s == s[..c] + s[c..];
    assert t == t[..c] + t[c..];
    CountAppend(s[..c], s[c..], v);
    CountAppend(t[..c], t[c..], v);
  }

  /** Whatever the parents, a crossover that returns gives two balanced
      children; from well-formed parents of length n they are valid
      schedules of length n. */
  lemma OffspringValid(p1: seq<int>, p2: seq<int>, d: CrossoverDraw)
    requires CrossoverFits(d, |p1|) && Offspring(p1, p2, d).Some?
    ensures Balanced(Offspring(p1, p2, d).value.0) && Balanced(Offspring(p1, p2, d).value.1)
    ensures WellFormed(p1) && WellFormed(p2) && |p1| == |p2| ==>
              |Offspring(p1, p2, d).value.0| == |p1| && Valid(Offspring(p1, p2, d).value.0) &&
              |Offspring(p1, p2, d).value.1| == |p1| && Valid(Offspring(p1, p2, d).value.1)
  {
    var n := |p1|;
    var s1, s2 := Splice(p1, p2, d.cut), Splice(p2, p1, d.cut);
    if !Balanced(s1) {
      RegrownValid(n, d.retry1);
    }
    if !Balanced(s2) {
      RegrownValid(n, d.retry2);
    }
    if WellFormed(p1) && WellFormed(p2) && |p1| == |p2| {
      SpliceFacts(p1, p2, d.cut, BUY);
      SpliceFacts(p2, p1, d.cut, BUY);
    }
  }

  /** `crossover` raises exactly when the parents are empty or a child whose
      splice is unbalanced cannot be regrown; with parents longer than
      2 * NUM_BUY_SELL it never raises. */
  lemma OffspringSucceeds(p1: seq<int>, p2: seq<int>, d: CrossoverDraw)
    requires CrossoverFits(d, |p1|)
    ensures Offspring(p1, p2, d).Some? <==>
            |p1| > 0 &&
            (Balanced(Splice(p1, p2, d.cut)) || Regrown(|p1|, d.retry1).Some?) &&
            (Balanced(Splice(p2, p1, d.cut)) || Regrown(|p1|, d.retry2).Some?)
    ensures |p1| > 2 * NUM_BUY_SELL ==> Offspring(p1, p2, d).Some?
  {
    RegrownSucceeds(|p1|, d.retry1);
    RegrownSucceeds(|p1|, d.retry2);
  }
}
