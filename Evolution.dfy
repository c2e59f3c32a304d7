/** The search itself: evaluation, selection with elitism, reproduction,
    and the fixed number of generations.  A population is a sequence of
    schedule arrays; `Evolve` and its helpers state, on array contents,
    what the loops compute. */
module Evolution {
  import opened Schedules
  import opened Profit
  import opened Operators
  import opened Ranking

  const POPULATION_SIZE: nat := 100
  const GENERATIONS: nat := 500
  /** The top half, `POPULATION_SIZE // 2`, carried over unchanged. */
  const ELITE_SIZE: nat := 50
  /** Passes of the reproduction loop per generation: each appends two
      children until the population is full again. */
  const PAIRS: nat := 25

  // ----------------------------------------------------------------- draws

  /** The draws of one reproduction step: two distinct elite positions
      (`random.sample(elite, 2)`), the crossover's draws and one mutation
      draw per child. */
  datatype PairDraw = PairDraw(first: nat, second: nat, cross: CrossoverDraw,
                               mutation1: MutationDraw, mutation2: MutationDraw)

  predicate PairFits(d: PairDraw, n: nat)
  {
    d.first < ELITE_SIZE && d.second < ELITE_SIZE && d.first != d.second &&
    CrossoverFits(d.cross, n) && MutationFitsValid(d.mutation1, n) && MutationFitsValid(d.mutation2, n)
  }

  /** All draws of one run: one placement per initial individual and the
      reproduction draws of every generation. */
  datatype SearchDraws = SearchDraws(initial: seq<PlacementDraw>, generations: seq<seq<PairDraw>>)

  predicate GenerationDrawsFit(draws: seq<PairDraw>, n: nat)
  {
    |draws| == PAIRS && forall p :: 0 <= p < |draws| ==> PairFits(draws[p], n)
  }

  predicate SearchFits(d: SearchDraws, n: nat)
  {
    |d.initial| == POPULATION_SIZE && |d.generations| == GENERATIONS &&
    (forall g :: 0 <= g < |d.generations| ==> |d.generations[g]| == PAIRS) &&
    (n >= 2 * NUM_BUY_SELL ==>
       (forall i :: 0 <= i < |d.initial| ==> PlacementFits(d.initial[i], n)) &&
       (forall g :: 0 <= g < |d.generations| ==> GenerationDrawsFit(d.generations[g], n)))
  }

  // ----------------------------------------------- populations as values

  predicate AllValid(pop: seq<seq<int>>, n: nat)
  {
    forall i :: 0 <= i < |pop| ==> |pop[i]| == n && Valid(pop[i])
  }

  /** A population of the search over a window of n prices. */
  predicate Population(pop: seq<seq<int>>, n: nat)
  {
    |pop| == POPULATION_SIZE && AllValid(pop, n)
  }

  function Fitnesses(pop: seq<seq<int>>, prices: seq<real>): (r: seq<real>)
    requires forall i :: 0 <= i < |pop| ==> |pop[i]| <= |prices|
    ensures |r| == |pop|
    ensures forall i :: 0 <= i < |pop| ==> r[i] == Fitness(pop[i], prices)
  {
    seq(|pop|, i requires 0 <= i < |pop| => Fitness(pop[i], prices))
  }

  /** The population in the order of the stable descending sort by fitness. */
  function Ranked(pop: seq<seq<int>>, prices: seq<real>): seq<seq<int>>
    requires forall i :: 0 <= i < |pop| ==> |pop[i]| <= |prices|
  {
    Payloads(SortDescending(Zip(Fitnesses(pop, prices), pop)))
  }

  /** `x` is the first individual of `pop` of the highest fitness: what
      `max` with a key function returns. */
  predicate FirstFittest(pop: seq<seq<int>>, x: seq<int>, prices: seq<real>)
    requires forall i :: 0 <= i < |pop| ==> |pop[i]| <= |prices|
  {
    exists b :: 0 <= b < |pop| && pop[b] == x &&
      (forall i :: 0 <= i < b ==> Fitness(pop[i], prices) < Fitness(x, prices)) &&
      (forall i :: 0 <= i < |pop| ==> Fitness(pop[i], prices) <= Fitness(x, prices))
  }

  /** The highest fitness in a population, by a plain left to right scan. */
  function MaxFitness(pop: seq<seq<int>>, prices: seq<real>): real
    requires |pop| > 0 && forall i :: 0 <= i < |pop| ==> |pop[i]| <= |prices|
  {
    if |pop| == 1 then Fitness(pop[0], prices)
    else
      var m := MaxFitness(pop[..|pop| - 1], prices);
      var f := Fitness(pop[|pop| - 1], prices);
      if f > m then f else m
  }

  /** The children of one reproduction step:
      `mutate(c)` for each child `c` of `crossover(parent1, parent2)`. */
  function PairChildren(elite: seq<seq<int>>, d: PairDraw, n: nat): (r: Option<seq<seq<int>>>)
    requires |elite| == ELITE_SIZE && AllValid(elite, n) && PairFits(d, n)
    ensures r.Some? ==> |r.value| == 2 && AllValid(r.value, n)
  {
    var p1, p2 := elite[d.first], elite[d.second];
    var o := Offspring(p1, p2, d.cross);
    if o.None? then None
    else
      OffspringMutable(p1, p2, d, n);
      var m1 := Mutation(o.value.0, d.mutation1);
      var m2 := Mutation(o.value.1, d.mutation2);
      if m1.None? || m2.None? then None
      else
        MutationKeepsValid(o.value.0, d.mutation1);
        MutationKeepsValid(o.value.1, d.mutation2);
        Some([m1.value, m2.value])
  }

  /** Both children of a crossover of two valid parents are valid, so the
      mutation draws fit them. */
  lemma OffspringMutable(p1: seq<int>, p2: seq<int>, d: PairDraw, n: nat)
    requires |p1| == n && |p2| == n && Valid(p1) && Valid(p2) && PairFits(d, n)
    requires Offspring(p1, p2, d.cross).Some?
    ensures var o := Offspring(p1, p2, d.cross).value;
            |o.0| == n && Valid(o.0) && MutationFits(o.0, d.mutation1) &&
            |o.1| == n && Valid(o.1) && MutationFits(o.1, d.mutation2)
  {
    OffspringValid(p1, p2, d.cross);
    var o := Offspring(p1, p2, d.cross).value;
    MutationFitsOnValid(o.0, d.mutation1);
    MutationFitsOnValid(o.1, d.mutation2);
  }

  /** The outcome of every reproduction step of a generation, in order. */
  function Outcomes(elite: seq<seq<int>>, draws: seq<PairDraw>, n: nat): (r: seq<Option<seq<seq<int>>>>)
    requires |elite| == ELITE_SIZE && AllValid(elite, n)
    requires forall q :: 0 <= q < |draws| ==> PairFits(draws[q], n)
    ensures |r| == |draws|
    ensures forall q :: 0 <= q < |r| && r[q].Some? ==> |r[q].value| == 2 && AllValid(r[q].value, n)
  {
    if draws == [] then []
    else Outcomes(elite, draws[..|draws| - 1], n) + [PairChildren(elite, draws[|draws| - 1], n)]
  }

  /** Step `q` of a generation is the reproduction step of draw `q`. */
  lemma {:induction false} OutcomesAt(elite: seq<seq<int>>, draws: seq<PairDraw>, n: nat, q: nat)
    requires |elite| == ELITE_SIZE && AllValid(elite, n)
    requires forall k :: 0 <= k < |draws| ==> PairFits(draws[k], n)
    requires q < |draws|
    ensures Outcomes(elite, draws, n)[q] == PairChildren(elite, draws[q], n)
  {
    if q < |draws| - 1 {
      OutcomesAt(elite, draws[..|draws| - 1], n, q);
    }
  }

  /** The children of a run of steps, concatenated; the first step that
      raises ends it. */
  function Gather(parts: seq<Option<seq<seq<int>>>>): Option<seq<seq<int>>>
  {
    if parts == [] then Some([])
    else
      var before := Gather(parts[..|parts| - 1]);
      var last := parts[|parts| - 1];
      if before.None? || last.None? then None else Some(before.value + last.value)
  }

  /** All children one generation breeds from its elite. */
  function Brood(elite: seq<seq<int>>, draws: seq<PairDraw>, n: nat): (r: Option<seq<seq<int>>>)
    requires |elite| == ELITE_SIZE && AllValid(elite, n)
    requires forall q :: 0 <= q < |draws| ==> PairFits(draws[q], n)
    ensures r.Some? ==> |r.value| == 2 * |draws| && AllValid(r.value, n)
  {
    GatherValid(Outcomes(elite, draws, n), n);
    Gather(Outcomes(elite, draws, n))
  }

  /** One generation: rank, keep the top half verbatim, append the brood. */
  function Generation(pop: seq<seq<int>>, prices: seq<real>, draws: seq<PairDraw>): (r: Option<seq<seq<int>>>)
    requires Population(pop, |prices|) && GenerationDrawsFit(draws, |prices|)
    ensures r.Some? ==> Population(r.value, |prices|)
  {
    RankedFacts(pop, prices);
    var elite := Ranked(pop, prices)[..ELITE_SIZE];
    var brood := Brood(elite, draws, |prices|);
    if brood.None? then None else Some(elite + brood.value)
  }

  /** The population after running a generation per entry of `gens`. */
  function Evolve(pop: seq<seq<int>>, prices: seq<real>, gens: seq<seq<PairDraw>>): (r: Option<seq<seq<int>>>)
    requires Population(pop, |prices|)
    requires forall h :: 0 <= h < |gens| ==> GenerationDrawsFit(gens[h], |prices|)
    ensures r.Some? ==> Population(r.value, |prices|)
    decreases |gens|
  {
    if gens == [] then Some(pop)
    else
      var next := Generation(pop, prices, gens[0]);
      if next.None? then None else Evolve(next.value, prices, gens[1..])
  }

  /** The initial population, one sampled layout per individual. */
  function InitialPopulation(n: nat, initial: seq<PlacementDraw>): (r: seq<seq<int>>)
    ensures |r| == |initial|
  {
    seq(|initial|, i requires 0 <= i < |initial| => Layout(n, initial[i].buys, initial[i].sells))
  }

  /** The final population of `genetic_algorithm(prices)`; `None` where the
      source raises. */
  function Search(prices: seq<real>, draws: SearchDraws): (r: Option<seq<seq<int>>>)
    requires SearchFits(draws, |prices|)
    ensures r.Some? ==> Population(r.value, |prices|)
  {
    if |prices| < 2 * NUM_BUY_SELL then None
    else
      InitialPopulationValid(|prices|, draws.initial);
      Evolve(InitialPopulation(|prices|, draws.initial), prices, draws.generations)
  }

  // ------------------------------------------------- lemmas on the values

  lemma InitialPopulationValid(n: nat, initial: seq<PlacementDraw>)
    requires |initial| == POPULATION_SIZE
    requires forall i :: 0 <= i < |initial| ==> PlacementFits(initial[i], n)
    ensures Population(InitialPopulation(n, initial), n)
  {
    forall i | 0 <= i < |initial|
      ensures Valid(InitialPopulation(n, initial)[i])
    {
      LayoutValid(n, initial[i]);
    }
  }

  /** The scan finds a fitness some individual has and no individual
      exceeds. */
  lemma {:induction false} MaxFitnessIsMax(pop: seq<seq<int>>, prices: seq<real>)
    requires |pop| > 0 && forall i :: 0 <= i < |pop| ==> |pop[i]| <= |prices|
    ensures exists i :: 0 <= i < |pop| && Fitness(pop[i], prices) == MaxFitness(pop, prices)
    ensures forall i :: 0 <= i < |pop| ==> Fitness(pop[i], prices) <= MaxFitness(pop, prices)
  {
    if |pop| > 1 {
      var init := pop[..|pop| - 1];
      MaxFitnessIsMax(init, prices);
      var j :| 0 <= j < |init| && Fitness(init[j], prices) == MaxFitness(init, prices);
      assert pop[j] == init[j];
      if Fitness(pop[|pop| - 1], prices) > MaxFitness(init, prices) {
        assert Fitness(pop[|pop| - 1], prices) == MaxFitness(pop, prices);
      } else {
        assert Fitness(pop[j], prices) == MaxFitness(pop, prices);
      }
      forall i | 0 <= i < |pop| - 1 ensures Fitness(pop[i], prices) <= MaxFitness(pop, prices) {
        assert pop[i] == init[i];
      }
    } else {
      assert Fitness(pop[0], prices) == MaxFitness(pop, prices);
    }
  }

  /** Ranking reorders the population, puts fitness in non-increasing
      order, and puts an individual of the highest fitness first. */
  lemma RankedFacts(pop: seq<seq<int>>, prices: seq<real>)
    requires forall i :: 0 <= i < |pop| ==> |pop[i]| <= |prices|
    ensures |Ranked(pop, prices)| == |pop|
    ensures multiset(Ranked(pop, prices)) == multiset(pop)
    ensures forall i :: 0 <= i < |pop| ==> Ranked(pop, prices)[i] in pop
    ensures forall i, j :: 0 <= i < j < |pop| ==>
              |Ranked(pop, prices)[i]| <= |prices| && |Ranked(pop, prices)[j]| <= |prices| &&
              Fitness(Ranked(pop, prices)[i], prices) >= Fitness(Ranked(pop, prices)[j], prices)
    ensures |pop| > 0 ==> Fitness(Ranked(pop, prices)[0], prices) == MaxFitness(pop, prices)
  {
    var z := Zip(Fitnesses(pop, prices), pop);
    var sorted := SortDescending(z);
    SortDescendingCorrect(z);
    SortPayloads(z);
    assert Payloads(z) == pop;
    var r := Ranked(pop, prices);
    assert |sorted| == |z| by {
      assert |sorted| == |multiset(sorted)| == |multiset(z)| == |z|;
    }
    // Every sorted pair is a pair of the input, so it carries its own fitness.
    forall i | 0 <= i < |sorted|
      ensures r[i] in pop && sorted[i].0 == Fitness(r[i], prices)
    {
      assert sorted[i] in multiset(z);
      var m :| 0 <= m < |z| && z[m] == sorted[i];
      assert r[i] == pop[m];
    }
    if |pop| > 0 {
      MaxFitnessIsMax(pop, prices);
      SortedTop(z);
      var j :| 0 <= j < |pop| && Fitness(pop[j], prices) == MaxFitness(pop, prices);
      assert z[j].0 == MaxFitness(pop, prices);
      assert r[0] in pop;
    }
  }

  /** Elitism: one generation never lowers the highest fitness, because
      the best individual is carried over unchanged. */
  lemma GenerationKeepsBest(pop: seq<seq<int>>, prices: seq<real>, draws: seq<PairDraw>)
    requires Population(pop, |prices|) && GenerationDrawsFit(draws, |prices|)
    requires Generation(pop, prices, draws).Some?
    ensures Generation(pop, prices, draws).value[..ELITE_SIZE] == Ranked(pop, prices)[..ELITE_SIZE]
    ensures MaxFitness(Generation(pop, prices, draws).value, prices) >= MaxFitness(pop, prices)
  {
    var next := Generation(pop, prices, draws).value;
    RankedFacts(pop, prices);
    MaxFitnessIsMax(next, prices);
    assert next[0] == Ranked(pop, prices)[0];
  }

  /** Across generations the highest fitness never decreases. */
  lemma {:induction false} EvolveKeepsBest(pop: seq<seq<int>>, prices: seq<real>, gens: seq<seq<PairDraw>>)
    requires Population(pop, |prices|)
    requires forall k :: 0 <= k < |gens| ==> GenerationDrawsFit(gens[k], |prices|)
    requires Evolve(pop, prices, gens).Some?
    ensures MaxFitness(Evolve(pop, prices, gens).value, prices) >= MaxFitness(pop, prices)
    decreases |gens|
  {
    if gens != [] {
      GenerationKeepsBest(pop, prices, gens[0]);
      EvolveKeepsBest(Generation(pop, prices, gens[0]).value, prices, gens[1..]);
    }
  }

  /** Gathering steps that each give two valid children gives two valid
      children per step. */
  lemma {:induction false} GatherValid(parts: seq<Option<seq<seq<int>>>>, n: nat)
    requires forall q :: 0 <= q < |parts| && parts[q].Some? ==> |parts[q].value| == 2 && AllValid(parts[q].value, n)
    ensures Gather(parts).Some? ==> |Gather(parts).value| == 2 * |parts| && AllValid(Gather(parts).value, n)
  {
    if parts != [] {
      GatherValid(parts[..|parts| - 1], n);
    }
  }

  /** Extending a run of steps by one more. */
  lemma GatherStep(parts: seq<Option<seq<seq<int>>>>, p: nat)
    requires p < |parts|
    ensures Gather(parts[..p + 1]) ==
            if Gather(parts[..p]).None? || parts[p].None? then None
            else Some(Gather(parts[..p]).value + parts[p].value)
  {
    assert parts[..p + 1][..p] == parts[..p];
  }

  /** A step that raises ends the generation. */
  lemma {:induction false} GatherStaysFailed(parts: seq<Option<seq<seq<int>>>>, p: nat, q: nat)
    requires p <= q <= |parts| && Gather(parts[..p]).None?
    ensures Gather(parts[..q]).None?
  {
    if p < q {
      GatherStaysFailed(parts, p, q - 1);
      GatherStep(parts, q - 1);
    }
  }

  /** Steps none of which raises gather to children. */
  lemma {:induction false} GatherSucceeds(parts: seq<Option<seq<seq<int>>>>)
    requires forall q :: 0 <= q < |parts| ==> parts[q].Some?
    ensures Gather(parts).Some?
  {
    if parts != [] {
      GatherSucceeds(parts[..|parts| - 1]);
    }
  }

  /** A reproduction step raises exactly when its crossover or one of the
      two mutations does; over a window longer than 2 * NUM_BUY_SELL none
      of them can, since every schedule has a free slot. */
  lemma PairSucceeds(elite: seq<seq<int>>, d: PairDraw, n: nat)
    requires |elite| == ELITE_SIZE && AllValid(elite, n) && PairFits(d, n)
    ensures n > 2 * NUM_BUY_SELL ==> PairChildren(elite, d, n).Some?
  {
    var p1, p2 := elite[d.first], elite[d.second];
    OffspringSucceeds(p1, p2, d.cross);
    if n > 2 * NUM_BUY_SELL {
      OffspringValid(p1, p2, d.cross);
      var o := Offspring(p1, p2, d.cross).value;
      MutationFitsOnValid(o.0, d.mutation1);
      MutationFitsOnValid(o.1, d.mutation2);
      MutationFailsExactly(o.0, d.mutation1);
      MutationFailsExactly(o.1, d.mutation2);
    }
  }

  lemma BroodSucceeds(elite: seq<seq<int>>, draws: seq<PairDraw>, n: nat)
    requires |elite| == ELITE_SIZE && AllValid(elite, n) && n > 2 * NUM_BUY_SELL
    requires forall q :: 0 <= q < |draws| ==> PairFits(draws[q], n)
    ensures Brood(elite, draws, n).Some?
  {
    var parts := Outcomes(elite, draws, n);
    forall q | 0 <= q < |parts| ensures parts[q].Some? {
      PairSucceeds(elite, draws[q], n);
      OutcomesAt(elite, draws, n, q);
    }
    GatherSucceeds(parts);
  }

  /** Over a window longer than 2 * NUM_BUY_SELL no generation raises. */
  lemma GenerationSucceeds(pop: seq<seq<int>>, prices: seq<real>, draws: seq<PairDraw>)
    requires Population(pop, |prices|) && GenerationDrawsFit(draws, |prices|)
    ensures |prices| > 2 * NUM_BUY_SELL ==> Generation(pop, prices, draws).Some?
  {
    if |prices| > 2 * NUM_BUY_SELL {
      RankedFacts(pop, prices);
      BroodSucceeds(Ranked(pop, prices)[..ELITE_SIZE], draws, |prices|);
    }
  }

  lemma {:induction false} EvolveSucceeds(pop: seq<seq<int>>, prices: seq<real>, gens: seq<seq<PairDraw>>)
    requires Population(pop, |prices|) && |prices| > 2 * NUM_BUY_SELL
    requires forall k :: 0 <= k < |gens| ==> GenerationDrawsFit(gens[k], |prices|)
    ensures Evolve(pop, prices, gens).Some?
    decreases |gens|
  {
    if gens != [] {
      GenerationSucceeds(pop, prices, gens[0]);
      EvolveSucceeds(Generation(pop, prices, gens[0]).value, prices, gens[1..]);
    }
  }

  /** Running the first generation and then the rest is the whole run. */
  lemma EvolveStep(pop: seq<seq<int>>, prices: seq<real>, gens: seq<seq<PairDraw>>, g: nat)
    requires Population(pop, |prices|) && g < |gens|
    requires forall k :: 0 <= k < |gens| ==> GenerationDrawsFit(gens[k], |prices|)
    ensures Evolve(pop, prices, gens[g..]) ==
            var next := Generation(pop, prices, gens[g]);
            if next.None? then None else Evolve(next.value, prices, gens[g + 1..])
  {
    assert gens[g..][0] == gens[g] && gens[g..][1..] == gens[g + 1..];
  }

  /** The search raises on a window shorter than 2 * NUM_BUY_SELL and never
      on one longer; over exactly 2 * NUM_BUY_SELL prices it depends on the
      draws. */
  lemma SearchSucceeds(prices: seq<real>, draws: SearchDraws)
    requires SearchFits(draws, |prices|)
    ensures |prices| < 2 * NUM_BUY_SELL ==> Search(prices, draws).None?
    ensures |prices| > 2 * NUM_BUY_SELL ==> Search(prices, draws).Some?
  {
    if |prices| > 2 * NUM_BUY_SELL {
      InitialPopulationValid(|prices|, draws.initial);
      EvolveSucceeds(InitialPopulation(|prices|, draws.initial), prices, draws.generations);
    }
  }

  /** Elitism over the whole run: the result is at least as fit as the best
      individual of the initial population. */
  lemma SearchKeepsBest(prices: seq<real>, draws: SearchDraws)
    requires SearchFits(draws, |prices|) && Search(prices, draws).Some?
    ensures Population(InitialPopulation(|prices|, draws.initial), |prices|)
    ensures MaxFitness(Search(prices, draws).value, prices) >=
            MaxFitness(InitialPopulation(|prices|, draws.initial), prices)
  {
    InitialPopulationValid(|prices|, draws.initial);
    EvolveKeepsBest(InitialPopulation(|prices|, draws.initial), prices, draws.generations);
  }

  // ------------------------------------------------------------ the loops

  /** The contents of every array of a population. */
  function Contents(pop: seq<array<int>>): (r: seq<seq<int>>)
    reads pop
    ensures |r| == |pop|
    ensures forall i :: 0 <= i < |pop| ==> r[i] == pop[i][..]
  {
    seq(|pop|, i reads pop requires 0 <= i < |pop| => pop[i][..])
  }

  /** `evaluate_population`: one fitness per individual, index-aligned,
      written into a zeroed array slot by slot. */
  method EvaluatePopulation(population: seq<array<int>>, prices: seq<real>) returns (scores: seq<real>)
    requires forall i :: 0 <= i < |population| ==> population[i].Length <= |prices|
    ensures |scores| == |population|
    ensures forall i :: 0 <= i < |population| ==> scores[i] == Fitness(population[i][..], prices)
  {
    var fitnessScores := new real[|population|](_ => 0.0);
    for i := 0 to |population|
      invariant forall j :: 0 <= j < i ==> fitnessScores[j] == Fitness(population[j][..], prices)
    {
      var profit, _ := CalculateProfit(population[i][..], prices);
      fitnessScores[i] := profit;
    }
    scores := fitnessScores[..];
  }

  /** `max(population, key=fitness)`: the first individual of the highest
      fitness. */
  method BestIndex(population: seq<array<int>>, prices: seq<real>) returns (best: nat)
    requires |population| > 0
    requires forall i :: 0 <= i < |population| ==> population[i].Length <= |prices|
    ensures best < |population|
    ensures forall i :: 0 <= i < |population| ==>
              Fitness(population[i][..], prices) <= Fitness(population[best][..], prices)
    ensures forall i :: 0 <= i < best ==>
              Fitness(population[i][..], prices) < Fitness(population[best][..], prices)
  {
    best := 0;
    var bestScore, _ := CalculateProfit(population[0][..], prices);
    for i := 1 to |population|
      invariant best < i
      invariant bestScore == Fitness(population[best][..], prices)
      invariant forall j :: 0 <= j < i ==> Fitness(population[j][..], prices) <= bestScore
      invariant forall j :: 0 <= j < best ==> Fitness(population[j][..], prices) < bestScore
    {
      var score, _ := CalculateProfit(population[i][..], prices);
      if score > bestScore {
        best, bestScore := i, score;
      }
    }
  }

  /** One pass of the reproduction loop of `genetic_algorithm`: cross two
      distinct elite parents over and mutate both children in place.  The
      parents are only read; the children are fresh arrays. */
  method BreedPair(elite: seq<array<int>>, d: PairDraw, ghost n: nat)
    returns (ok: bool, child1: array<int>, child2: array<int>)
    requires |elite| == ELITE_SIZE && AllValid(Contents(elite), n) && PairFits(d, n)
    ensures fresh(child1) && fresh(child2) && child1 != child2
    ensures ok == PairChildren(Contents(elite), d, n).Some?
    ensures ok ==> PairChildren(Contents(elite), d, n).value == [child1[..], child2[..]]
  {
    var parent1, parent2 := elite[d.first], elite[d.second];
    var crossed;
    crossed, child1, child2 := Crossover(parent1, parent2, d.cross);
    if !crossed {
      return false, child1, child2;
    }
    OffspringValid(parent1[..], parent2[..], d.cross);
    MutationFitsOnValid(child1[..], d.mutation1);
    MutationFitsOnValid(child2[..], d.mutation2);
    var mutated1 := Mutate(child1, d.mutation1);
    if !mutated1 {
      return false, child1, child2;
    }
    var mutated2 := Mutate(child2, d.mutation2);
    ok := mutated2;
  }

  /** The reproduction loop of `genetic_algorithm`: start from the elite and
      append two mutated crossover children per pass until the population
      is full.  Only fresh arrays are written. */
  method Breed(elite: seq<array<int>>, draws: seq<PairDraw>, ghost n: nat)
    returns (ok: bool, next: seq<array<int>>)
    requires |elite| == ELITE_SIZE && AllValid(Contents(elite), n)
    requires |draws| == PAIRS && forall q :: 0 <= q < |draws| ==> PairFits(draws[q], n)
    ensures ok == Brood(Contents(elite), draws, n).Some?
    ensures ok ==> |next| == POPULATION_SIZE &&
                   Contents(next) == Contents(elite) + Brood(Contents(elite), draws, n).value
  {
    ghost var start := Contents(elite);
    ghost var parts := Outcomes(start, draws, n);
    next := elite;
    for p := 0 to PAIRS
      invariant |next| == ELITE_SIZE + 2 * p
      invariant Contents(elite) == start
      invariant Gather(parts[..p]).Some?
      invariant Contents(next) == start + Gather(parts[..p]).value
    {
      var bred, child1, child2 := BreedPair(elite, draws[p], n);
      OutcomesAt(start, draws, n, p);
      GatherStep(parts, p);
      if !bred {
        BroodFails(parts, p);
        return false, next;
      }
      ContentsAppend(next, child1, child2);
      next := next + [child1, child2];
    }
    assert parts[..PAIRS] == parts;
    ok := true;
  }

  lemma ContentsAppend(pop: seq<array<int>>, a: array<int>, b: array<int>)
    ensures Contents(pop + [a, b]) == Contents(pop) + [a[..], b[..]]
  {
  }

  lemma BroodFails(parts: seq<Option<seq<seq<int>>>>, p: nat)
    requires p < |parts| && parts[p].None?
    ensures Gather(parts).None?
  {
    GatherStep(parts, p);
    GatherStaysFailed(parts, p + 1, |parts|);
    assert parts[..|parts|] == parts;
  }

  /** The Dafny view of a population of arrays: the contents of a ranked
      list of (score, array) pairs is the ranking of the contents, because
      the sort looks at the scores alone. */
  lemma RankedArrays(population: seq<array<int>>, scores: seq<real>, prices: seq<real>)
    requires |scores| == |population|
    requires forall i :: 0 <= i < |population| ==>
               population[i].Length <= |prices| && scores[i] == Fitness(population[i][..], prices)
    ensures Contents(Payloads(SortDescending(Zip(scores, population)))) == Ranked(Contents(population), prices)
  {
    var m := map a | a in population :: a[..];
    var z := Zip(scores, population);
    SortRelabel(z, m);
    assert Relabel(z, m) == Zip(Fitnesses(Contents(population), prices), Contents(population));
    var sorted := SortDescending(z);
    assert Payloads(Relabel(sorted, m)) == Contents(Payloads(sorted));
  }

  /** `genetic_algorithm(prices)`.  The run fails (the source raises) exactly
      when `Search` does; otherwise the final population is the one `Search`
      describes, and the result is its first individual of the highest
      fitness (as `max` with a key returns), with that individual's
      transcript. */
  method GeneticAlgorithm(prices: seq<real>, draws: SearchDraws)
    returns (ok: bool, bestIndividual: array<int>, bestProfit: real, transactions: seq<Transaction>)
    requires SearchFits(draws, |prices|)
    ensures ok == Search(prices, draws).Some?
    ensures ok ==>
              var final := Search(prices, draws).value;
              FirstFittest(final, bestIndividual[..], prices) &&
              bestProfit == Fitness(bestIndividual[..], prices) &&
              bestProfit == MaxFitness(final, prices) &&
              transactions == Transcript(bestIndividual[..], prices, |prices|)
  {
    var n := |prices|;
    bestIndividual, bestProfit, transactions := new int[0], 0.0, [];
    if n < 2 * NUM_BUY_SELL {
      ok := false;
      return;
    }
    var population := CreatePopulation(n, draws.initial);
    InitialPopulationValid(n, draws.initial);
    var evolved;
    evolved, population := RunGenerations(population, prices, draws.generations);
    if !evolved {
      ok := false;
      return;
    }
    bestIndividual, bestProfit, transactions := SelectBest(population, prices);
    ok := true;
  }

  /** The last two lines of `genetic_algorithm`: the first individual of
      the highest fitness, its fitness and its transcript. */
  method SelectBest(population: seq<array<int>>, prices: seq<real>)
    returns (bestIndividual: array<int>, bestProfit: real, transactions: seq<Transaction>)
    requires |population| > 0
    requires forall i :: 0 <= i < |population| ==> population[i].Length == |prices|
    ensures FirstFittest(Contents(population), bestIndividual[..], prices)
    ensures bestProfit == Fitness(bestIndividual[..], prices)
    ensures bestProfit == MaxFitness(Contents(population), prices)
    ensures transactions == Transcript(bestIndividual[..], prices, |prices|)
  {
    var best := BestIndex(population, prices);
    bestIndividual := population[best];
    bestProfit, transactions := CalculateProfit(bestIndividual[..], prices);
    MaxFitnessIsMax(Contents(population), prices);
  }

  /** The generation loop of `genetic_algorithm`: one `NextGeneration` per
      entry of `gens`; the run stops where a generation raises. */
  method RunGenerations(population: seq<array<int>>, prices: seq<real>, gens: seq<seq<PairDraw>>)
    returns (ok: bool, final: seq<array<int>>)
    requires Population(Contents(population), |prices|)
    requires forall h :: 0 <= h < |gens| ==> GenerationDrawsFit(gens[h], |prices|)
    ensures ok == Evolve(Contents(population), prices, gens).Some?
    ensures ok ==> Contents(final) == Evolve(Contents(population), prices, gens).value
  {
    ghost var whole := Evolve(Contents(population), prices, gens);
    final := population;
    assert gens[0..] == gens;
    for generation := 0 to |gens|
      invariant Population(Contents(final), |prices|)
      invariant Evolve(Contents(final), prices, gens[generation..]) == whole
    {
      EvolveStep(Contents(final), prices, gens, generation);
      var bred, next := NextGeneration(final, prices, gens[generation]);
      if !bred {
        return false, final;
      }
      final := next;
    }
    assert gens[|gens|..] == [];
    ok := true;
  }

  /** The initial population of `genetic_algorithm`: one
      `create_individual` per entry of `initial`. */
  method CreatePopulation(n: nat, initial: seq<PlacementDraw>) returns (population: seq<array<int>>)
    requires n >= 2 * NUM_BUY_SELL && forall i :: 0 <= i < |initial| ==> PlacementFits(initial[i], n)
    ensures Contents(population) == InitialPopulation(n, initial)
  {
    population := [];
    for k := 0 to |initial|
      invariant Contents(population) == InitialPopulation(n, initial)[..k]
    {
      var _, individual := CreateIndividual(n, initial[k]);
      population := population + [individual];
    }
    assert InitialPopulation(n, initial)[..|initial|] == InitialPopulation(n, initial);
  }

  /** The body of the generation loop of `genetic_algorithm`: evaluate,
      sort by fitness, keep the top half and breed the rest. */
  method NextGeneration(population: seq<array<int>>, prices: seq<real>, draws: seq<PairDraw>)
    returns (ok: bool, next: seq<array<int>>)
    requires Population(Contents(population), |prices|) && GenerationDrawsFit(draws, |prices|)
    ensures ok == Generation(Contents(population), prices, draws).Some?
    ensures ok ==> Contents(next) == Generation(Contents(population), prices, draws).value
  {
    ghost var current := Contents(population);
    var fitnessScores := EvaluatePopulation(population, prices);
    var sortedPopulation := SortDescending(Zip(fitnessScores, population));
    RankedArrays(population, fitnessScores, prices);
    var ranked := Payloads(sortedPopulation);
    RankedFacts(current, prices);
    assert Contents(ranked[..ELITE_SIZE]) == Ranked(current, prices)[..ELITE_SIZE];
    ok, next := Breed(ranked[..ELITE_SIZE], draws, |prices|);
  }
}
