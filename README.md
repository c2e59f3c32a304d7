# loadShift search engine — a Dafny model

loadShift looks for a battery charge/discharge schedule over a window of
electricity spot prices. Its search engine is a genetic algorithm in
`src/main.py`:

- A schedule is one action code per price slot: 0 none, 1 buy, 2 sell.
- Every schedule of the search has exactly 14 buys and 14 sells.
- `calculate_profit` walks a battery through a schedule. The battery starts at 30 % and moves in steps of 10. A buy takes effect only at a capacity of at most 90, a sell only at a capacity of at least 10. It returns the profit and a per-slot transcript.
- `create_individual`, `mutate` and `crossover` build and vary schedules.
- `evaluate_population` scores a population.
- `genetic_algorithm` runs 500 generations of 100 schedules. Each generation evaluates, sorts stably by fitness (highest first), keeps the top half verbatim, and refills with mutated crossover children of two distinct elite parents. It returns the fittest final schedule with its profit and transcript.

The project has five modules:

- `Schedules`: action codes, counting and the schedule invariant (`Valid`: every entry a code, 14 buys, 14 sells).
- `Profit`: the simulator.
  - `Run` and `Transcript` are the recursive specification.
  - `CalculateProfit` is the source's loop, proved against them.
- `Operators`: the genetic operators as in-place array methods. `Layout`, `Mutation`, `Splice` and `Offspring` state what they compute.
- `Ranking`: `sorted(zip(scores, population), key=..., reverse=True)` as a stable insertion sort on (score, payload) pairs.
- `Evolution`: the generational loop.
  - On values this is `Generation`, `Evolve` and `Search`.
  - On arrays it is `EvaluatePopulation`, `Breed`, `NextGeneration`, `RunGenerations` and `GeneticAlgorithm`.
  - `Contents` maps a sequence of arrays to the sequences they hold.

Randomness is supplied by the caller as draw records, each with a predicate saying what the random call can return:

- `PlacementDraw`: the two `random.sample` results.
- `MutationDraw`: the rate roll, the buy/sell coin, and the two `random.choice` positions.
- `CrossoverDraw`: the `random.randint` cut and one regrowth per child.
- `PairDraw`: the two distinct `random.sample` parent positions.
- `SearchDraws`: all draws of a run.

Where the source raises, the model returns `None` or `ok == false`:

- `random.sample` on a window shorter than 28 slots.
- `random.choice([])` in `mutate` when a schedule has no free slot.
- `random.randint(0, -1)` on an empty parent.

The model proves when each happens:

- A window shorter than 28 always raises.
- A window longer than 28 never does.
- Over exactly 28 slots, every schedule is full, and a run raises as soon as any mutation acts.

Where the system's design description and the code disagree, the model follows the code:

- There is no per-buy fee.
- The capacity constants are fixed: start 30, step 10, limits 90 and 10.
- There is no repair routine. `crossover` throws away an unbalanced child and regrows it as `mutate(create_individual(n))`. That gives a valid child at once, so each retry loop runs at most once (`Operators.RegrownValid`).
- `mutate` ends with no defensive repair pass. With no free slot its sell branch raises.
- Parents are drawn without replacement (`random.sample(..., 2)`).
- Population size, generation count, mutation rate and `NUM_BUY_SELL` are module constants, not a configuration value. The design's configuration errors (odd population, rate out of range) cannot arise.

## Model

| member | source | states |
|---|---|---|
| `Schedules.Positions` | src/main.py:42-44 | the index list of a code has one entry per occurrence, each an in-range index holding that code |
| `Schedules.PositionsCorrect` | src/main.py:42-44 | the index list is strictly ascending (enumeration order) and misses no index holding the code |
| `Schedules.ValidFreeSlots` | src/main.py:31-37 | a valid schedule has at least 28 slots and exactly `len - 28` NONE slots |
| `Profit.CalculateProfit` | src/main.py:16-28 | the loop's profit is the fitness of the recursive specification, and its transcript is the specified one; entry i holds slot i's price and action and the capacity and profit after slot i; all capacities lie in [0, 100]; on a non-empty schedule the profit is the last entry's cumulative profit |
| `Profit.TranscriptShape` | src/main.py:19-27 | the transcript has exactly one entry per slot, in slot order, entry i recording price i, action i and the state after slot i |
| `Profit.CapacityBounds` | src/main.py:17-26 | after every slot the capacity is in [0, 100], a multiple of 10, and differs from the previous one by exactly +10, -10 or 0 |
| `Profit.CapacityInvariant` | src/main.py:17-26 | the capacity bounds hold at every prefix of a schedule |
| `Profit.NoOpExactly` | src/main.py:21-26 | a slot leaves capacity and profit unchanged if and only if it is not a buy at capacity <= 90 or a sell at capacity >= 10; it moves the capacity exactly in the effective case |
| `Profit.CapacityIgnoresPrices` | src/main.py:21-26 | the capacity trajectory depends on the actions alone, not the prices |
| `Profit.ProfitIsSellsMinusBuys` | src/main.py:21-28 | the profit is the sum of prices at effective sells minus the sum at effective buys |
| `Profit.CapacityCountsEffects` | src/main.py:17-26 | capacity is 30 plus 10 per effective buy minus 10 per effective sell |
| `Profit.FitnessIsLastEntry` | src/main.py:27-28 | on a non-empty schedule the returned profit equals the last transcript entry's cumulative profit |
| `Operators.CreateIndividual` | src/main.py:30-38 | on n >= 28 a fresh array of length n holding BUY at the sampled buy slots, SELL at the sampled sell slots, NONE elsewhere, and valid; fails exactly when n < 28 |
| `Operators.LayoutValid` | src/main.py:31-37 | a sampled layout has exactly 14 buys and 14 sells, every other slot NONE, with BUY at every buy sample and SELL at every sell sample |
| `Operators.Mutate` | src/main.py:40-55 | the array afterwards is the specified mutation of the array before; a roll at or above the rate leaves it untouched; where `random.choice` would raise it fails and writes nothing |
| `Operators.MutationIsSwap` | src/main.py:46-53 | a mutation that acts turns one BUY or SELL slot into NONE and one NONE slot into that action, and changes nothing else |
| `Operators.MutationKeepsCounts` | src/main.py:40-55 | a mutation keeps the length and the count of every code |
| `Operators.MutationKeepsValid` | src/main.py:40-55 | mutating a valid schedule gives a valid schedule of the same length |
| `Operators.MutationFailsExactly` | src/main.py:44-53 | on a valid schedule `mutate` raises if and only if it acts and the schedule has no NONE slot (length 28) |
| `Operators.MutationFitsOnValid` | src/main.py:42-53 | on any valid schedule the indices `random.choice` may return are the positions inside the 14-entry action lists and the `n - 28`-entry free list |
| `Operators.FromSeq` | src/main.py:59-60 | the concatenation is a fresh array holding the spliced sequence |
| `Operators.Crossover` | src/main.py:57-67 | two fresh, distinct children equal to the specified offspring: each splice, or its regrowth where the splice is unbalanced; the parents are only read; fails exactly where the specification raises |
| `Operators.SpliceFacts` | src/main.py:58-60 | a splice of equal-length parents keeps the length, takes slot i from the first parent before the cut and from the second after it, stays well formed, and the two splices together hold as many of each code as the two parents |
| `Operators.RegrownValid` | src/main.py:62-65 | a regrown child is valid and of length n, so a retry loop never runs its body twice |
| `Operators.RegrownSucceeds` | src/main.py:62-65 | a regrowth succeeds if and only if n > 28, or n == 28 and its mutation does not act |
| `Operators.OffspringValid` | src/main.py:62-67 | both returned children are balanced; from valid parents of length n they are valid schedules of length n |
| `Operators.OffspringSucceeds` | src/main.py:57-67 | `crossover` succeeds if and only if the parents are non-empty and each unbalanced splice can be regrown; on parents longer than 28 it always succeeds |
| `Ranking.SortDescendingCorrect` | src/main.py:89 | the sort is non-increasing in score, a permutation of its input, and stable: for every score the pairs of that score keep their input order |
| `Ranking.SortedTop` | src/main.py:89 | the first sorted pair is an input pair with the highest score |
| `Ranking.SortRelabel` | src/main.py:89-90 | the order depends on the scores alone: sorting then relabelling the payloads equals relabelling then sorting |
| `Ranking.SortPayloads` | src/main.py:89-90 | the payloads after sorting are a rearrangement of the payloads before |
| `Evolution.InitialPopulationValid` | src/main.py:78 | the initial population has 100 valid schedules of the window's length |
| `Evolution.CreatePopulation` | src/main.py:78 | the arrays built hold exactly the specified initial population |
| `Evolution.EvaluatePopulation` | src/main.py:69-74 | one score per individual, index-aligned, each the profit `calculate_profit` returns for it |
| `Evolution.RankedFacts` | src/main.py:88-90 | ranking keeps the length and the multiset of individuals, orders fitness non-increasingly, and puts an individual of the highest fitness first |
| `Evolution.RankedArrays` | src/main.py:82-90 | sorting (score, array) pairs and reading the arrays gives the ranking of the population's contents |
| `Evolution.PairChildren` | src/main.py:95-98 | a reproduction step that does not raise gives two valid children of the window's length |
| `Evolution.OffspringMutable` | src/main.py:96-98 | the crossover children of valid parents are valid, so the mutation draws fit them |
| `Evolution.Outcomes` | src/main.py:94-98 | one outcome per pass of the reproduction loop, each yielding two valid children when it does not raise |
| `Evolution.OutcomesAt` | src/main.py:94-98 | the outcome of pass q is the reproduction step run on draw q |
| `Evolution.GatherValid` | src/main.py:94-98 | the children gathered from the passes are two valid children per pass |
| `Evolution.BroodFails` | src/main.py:94-98 | one pass that raises makes the whole generation raise |
| `Evolution.Brood` | src/main.py:94-98 | a generation's brood, when it does not raise, has two valid children per pass |
| `Evolution.Generation` | src/main.py:80-100 | a generation that does not raise yields 100 valid schedules of the window's length |
| `Evolution.GenerationKeepsBest` | src/main.py:92 | the next generation begins with the top half of the ranking verbatim, so the highest fitness never decreases |
| `Evolution.Evolve` | src/main.py:80-100 | every generation of a run that does not raise holds 100 valid schedules |
| `Evolution.EvolveStep` | src/main.py:80-100 | running the generation of index g and then the rest is running the suffix from g |
| `Evolution.EvolveKeepsBest` | src/main.py:80-100 | across any number of generations the highest fitness never decreases |
| `Evolution.PairSucceeds` | src/main.py:95-98 | over a window longer than 28 slots a reproduction step never raises |
| `Evolution.BroodSucceeds` | src/main.py:94-98 | over a window longer than 28 slots a brood never raises |
| `Evolution.GenerationSucceeds` | src/main.py:80-100 | over a window longer than 28 slots a generation never raises |
| `Evolution.EvolveSucceeds` | src/main.py:80-100 | over a window longer than 28 slots a run of generations never raises |
| `Evolution.Search` | src/main.py:77-100 | the final population, when the search does not raise, holds 100 valid schedules |
| `Evolution.SearchSucceeds` | src/main.py:77-104 | the search raises on every window shorter than 28 slots and on none longer than 28 |
| `Evolution.SearchKeepsBest` | src/main.py:78-100 | the final population is at least as fit as the best initial individual |
| `Evolution.MaxFitnessIsMax` | src/main.py:102 | the highest fitness is the fitness of some individual and no individual exceeds it |
| `Evolution.BestIndex` | src/main.py:102 | the index of the first individual of the highest fitness, as `max` with a key returns it |
| `Evolution.SelectBest` | src/main.py:102-103 | the selected schedule is the first fittest of the population, and its profit is the population's highest fitness; its transcript is its own |
| `Evolution.BreedPair` | src/main.py:95-98 | two fresh, distinct child arrays holding the specified outcome of one pass; fails exactly where it raises; the elite is only read |
| `Evolution.Breed` | src/main.py:92-100 | fails exactly where the brood raises; otherwise the new population has 100 arrays, holding the elite followed by the specified brood |
| `Evolution.NextGeneration` | src/main.py:82-100 | fails exactly where the generation raises; otherwise the arrays hold the specified next generation |
| `Evolution.RunGenerations` | src/main.py:80-100 | fails exactly where the run raises; otherwise the arrays hold the specified final population |
| `Evolution.GeneticAlgorithm` | src/main.py:77-104 | fails exactly where the search raises; otherwise returns the first fittest schedule of the specified final population, its profit (the population's highest fitness) and its transcript |

## Left out

- `main` (src/main.py:107-143) reads the price file and splits it into windows of 95 (src/main.py:111). It prints rounded profits and writes the CSV report. That is all I/O and is not part of this model. A final window shorter than 28 prices makes `genetic_algorithm` raise, and `Evolution.SearchSucceeds` covers that case.
- src/extractCSVColumn.py is a top-level I/O script and is not part of this model. It tests `len(row) >= 2` but reads `row[2]` (src/extractCSVColumn.py:16-17), so a two-column row would raise. It is not modelled.
- Numba compilation and the `prange` loop (src/main.py:15, 69-72) are modelled as a sequential loop, because each slot is written once by one iteration. The copy `np.array(population)` is not modelled, because evaluation only reads it.
- Random distributions are left out. Draws are supplied values constrained to what each call can return, so uniformity and probabilities are not stated.
- `MUTATION_RATE` is only the threshold against which a supplied roll is compared.
- Floating-point prices and profits are exact reals, so rounding and NaN are not modelled. The int32 action codes are unbounded integers; `calculate_profit` treats any value other than 1 or 2 as no action, as the model does.
- The exceptions the source raises are one failure outcome. Their types (`ValueError`, `IndexError`) are not distinguished.
- Each crossover retry loop is given one regrowth draw per child. This is no restriction: the regrown child is always valid, so the loop body runs at most once.
- `Evolution.Breed`: states the contents of the new population, not that its first 50 entries are the very array objects of the elite. The source shares them with the ranked list, but no later step writes them.
- `Evolution.Breed`: runs exactly 25 passes, where the source tests the population length before each pass. The two are equal because each pass adds two children to the 50 survivors.
- `Operators.Mutate`: returns only a success flag. The source also returns the array it was given, and the caller here keeps its own reference to that same array.
