/** The fitness function: a battery walked through a schedule slot by slot.
    Capacity starts at 30 and moves by 10; a buy takes effect only at a
    capacity of at most 90, a sell only at a capacity of at least 10.
    Prices and profits are exact reals. */
module Profit {
  import opened Schedules

  const START_CAPACITY := 30
  const CAPACITY_STEP := 10
  /** Highest capacity at which a buy still takes effect. */
  const BUY_LIMIT := 90
  /** Lowest capacity at which a sell still takes effect. */
  const SELL_LIMIT := 10

  /** Battery state between two slots. */
  datatype Battery = Battery(capacity: int, profit: real)

  /** One transcript record: the slot's price and action code, and the
      capacity and cumulative profit after the slot. */
  datatype Transaction = Transaction(price: real, action: int, capacity: int, profit: real)

  /** One slot of the simulation; any code other than an effective buy or
      sell leaves the state as it is. */
  function Step(b: Battery, action: int, price: real): Battery
  {
    if action == BUY && b.capacity <= BUY_LIMIT then
      Battery(b.capacity + CAPACITY_STEP, b.profit - price)
    else if action == SELL && b.capacity >= SELL_LIMIT then
      Battery(b.capacity - CAPACITY_STEP, b.profit + price)
    else
      b
  }

  /** The state after the first k slots. */
  function Run(actions: seq<int>, prices: seq<real>, k: nat): Battery
    requires k <= |actions| && k <= |prices|
  {
    if k == 0 then Battery(START_CAPACITY, 0.0)
    else Step(Run(actions, prices, k - 1), actions[k - 1], prices[k - 1])
  }

  /** The transcript of the first k slots. */
  function Transcript(actions: seq<int>, prices: seq<real>, k: nat): seq<Transaction>
    requires k <= |actions| && k <= |prices|
  {
    if k == 0 then []
    else
      var b := Run(actions, prices, k);
      Transcript(actions, prices, k - 1) + [Transaction(prices[k - 1], actions[k - 1], b.capacity, b.profit)]
  }

  /** The fitness of a schedule: the profit after its last slot. */
  function Fitness(actions: seq<int>, prices: seq<real>): real
    requires |actions| <= |prices|
  {
    Run(actions, prices, |actions|).profit
  }

  /** Whether `action` takes effect on a battery in state b: a buy below
      the buy limit or a sell above the sell limit. */
  predicate Effective(b: Battery, action: int)
  {
    (action == BUY && b.capacity <= BUY_LIMIT) || (action == SELL && b.capacity >= SELL_LIMIT)
  }

  /** The ascending slots below k whose action is `code` and took effect. */
  function EffectiveSlots(actions: seq<int>, prices: seq<real>, code: int, k: nat): (r: seq<nat>)
    requires k <= |actions| && k <= |prices|
    ensures forall i :: 0 <= i < |r| ==> r[i] < k
  {
    if k == 0 then []
    else
      EffectiveSlots(actions, prices, code, k - 1) +
      (if actions[k - 1] == code && Effective(Run(actions, prices, k - 1), code) then [k - 1] else [])
  }

  /** The sum of the prices at the listed slots. */
  function PriceSum(prices: seq<real>, slots: seq<nat>): real
    requires forall i :: 0 <= i < |slots| ==> slots[i] < |prices|
  {
    if slots == [] then 0.0
    else PriceSum(prices, slots[..|slots| - 1]) + prices[slots[|slots| - 1]]
  }

  /** The loop of `calculate_profit`: one transcript entry per slot, the
      running state updated in place. */
  method CalculateProfit(actions: seq<int>, prices: seq<real>)
    returns (totalProfit: real, transactions: seq<Transaction>)
    requires |actions| <= |prices|
    ensures totalProfit == Fitness(actions, prices)
    ensures transactions == Transcript(actions, prices, |actions|)
    ensures |transactions| == |actions|
    ensures forall i :: 0 <= i < |actions| ==>
              transactions[i].price == prices[i] && transactions[i].action == actions[i] &&
              transactions[i].capacity == Run(actions, prices, i + 1).capacity &&
              transactions[i].profit == Run(actions, prices, i + 1).profit
    ensures forall i :: 0 <= i < |actions| ==> 0 <= transactions[i].capacity <= 100
    ensures |actions| > 0 ==> totalProfit == transactions[|actions| - 1].profit
  {
    var capacity := START_CAPACITY;
    totalProfit := 0.0;
    transactions := [];
    for i := 0 to |actions|
      invariant Battery(capacity, totalProfit) == Run(actions, prices, i)
      invariant transactions == Transcript(actions, prices, i)
    {
      if actions[i] == BUY && capacity <= BUY_LIMIT {
        capacity := capacity + CAPACITY_STEP;
        totalProfit := totalProfit - prices[i];
      } else if actions[i] == SELL && capacity >= SELL_LIMIT {
        capacity := capacity - CAPACITY_STEP;
        totalProfit := totalProfit + prices[i];
      }
      transactions := transactions + [Transaction(prices[i], actions[i], capacity, totalProfit)];
    }
    TranscriptShape(actions, prices, |actions|);
    CapacityInvariant(actions, prices);
  }

  /** The transcript of k slots has k entries, entry i recording slot i's
      price and action and the state after slot i. */
  lemma {:induction false} TranscriptShape(actions: seq<int>, prices: seq<real>, k: nat)
    requires k <= |actions| && k <= |prices|
    ensures |Transcript(actions, prices, k)| == k
    ensures forall i :: 0 <= i < k ==>
              Transcript(actions, prices, k)[i] ==
              Transaction(prices[i], actions[i], Run(actions, prices, i + 1).capacity,
                          Run(actions, prices, i + 1).profit)
  {
    if k > 0 {
      TranscriptShape(actions, prices, k - 1);
    }
  }

  /** Capacity never leaves [0, 100], is always a multiple of the step, and
      each slot moves it by exactly +10, -10 or 0. */
  lemma {:induction false} CapacityBounds(actions: seq<int>, prices: seq<real>, k: nat)
    requires k <= |actions| && k <= |prices|
    ensures 0 <= Run(actions, prices, k).capacity <= 100
    ensures Run(actions, prices, k).capacity % CAPACITY_STEP == 0
    ensures k > 0 ==>
              var d := Run(actions, prices, k).capacity - Run(actions, prices, k - 1).capacity;
              d == CAPACITY_STEP || d == -CAPACITY_STEP || d == 0
  {
    if k > 0 {
      CapacityBounds(actions, prices, k - 1);
    }
  }

  /** The capacity bounds at every slot of a schedule. */
  lemma CapacityInvariant(actions: seq<int>, prices: seq<real>)
    requires |actions| <= |prices|
    ensures forall k :: 0 <= k <= |actions| ==> 0 <= Run(actions, prices, k).capacity <= 100
  {
    forall k | 0 <= k <= |actions|
      ensures 0 <= Run(actions, prices, k).capacity <= 100
    {
      CapacityBounds(actions, prices, k);
    }
  }

  /** A slot changes the state exactly when its code is a buy at a capacity
      of at most 90 or a sell at a capacity of at least 10, and then it
      moves the capacity; a buy at a higher capacity, a sell at a lower one
      and any other code change neither capacity nor profit. */
  lemma NoOpExactly(actions: seq<int>, prices: seq<real>, j: nat)
    requires j < |actions| && j < |prices|
    ensures (Run(actions, prices, j + 1) == Run(actions, prices, j)) <==>
            !Effective(Run(actions, prices, j), actions[j])
    ensures (Run(actions, prices, j + 1).capacity != Run(actions, prices, j).capacity) <==>
            Effective(Run(actions, prices, j), actions[j])
  {
  }

  /** The capacity does not depend on the prices. */
  lemma {:induction false} CapacityIgnoresPrices(actions: seq<int>, p: seq<real>, q: seq<real>, k: nat)
    requires k <= |actions| && k <= |p| && k <= |q|
    ensures Run(actions, p, k).capacity == Run(actions, q, k).capacity
  {
    if k > 0 {
      CapacityIgnoresPrices(actions, p, q, k - 1);
    }
  }

  /** The profit is the sum of the prices at the sells that took effect
      minus the sum at the buys that took effect. */
  lemma {:induction false} ProfitIsSellsMinusBuys(actions: seq<int>, prices: seq<real>, k: nat)
    requires k <= |actions| && k <= |prices|
    ensures Run(actions, prices, k).profit ==
            PriceSum(prices, EffectiveSlots(actions, prices, SELL, k)) -
            PriceSum(prices, EffectiveSlots(actions, prices, BUY, k))
  {
    if k > 0 {
      ProfitIsSellsMinusBuys(actions, prices, k - 1);
      var before := Run(actions, prices, k - 1);
      PriceSumExtend(actions, prices, SELL, k);
      PriceSumExtend(actions, prices, BUY, k);
      StepLedger(before, actions[k - 1], prices[k - 1],
                 PriceSum(prices, EffectiveSlots(actions, prices, SELL, k - 1)),
                 PriceSum(prices, EffectiveSlots(actions, prices, BUY, k - 1)));
    }
  }

  /** One slot of the ledger: an effective sell adds its price to the
      takings, an effective buy to the spending. */
  lemma StepLedger(b: Battery, action: int, price: real, sold: real, bought: real)
    requires b.profit == sold - bought
    ensures Step(b, action, price).profit ==
            (sold + if action == SELL && Effective(b, SELL) then price else 0.0) -
            (bought + if action == BUY && Effective(b, BUY) then price else 0.0)
  {
  }

  lemma PriceSumExtend(actions: seq<int>, prices: seq<real>, code: int, k: nat)
    requires 0 < k <= |actions| && k <= |prices|
    ensures PriceSum(prices, EffectiveSlots(actions, prices, code, k)) ==
            PriceSum(prices, EffectiveSlots(actions, prices, code, k - 1)) +
            if actions[k - 1] == code && Effective(Run(actions, prices, k - 1), code) then prices[k - 1] else 0.0
  {
    var before := EffectiveSlots(actions, prices, code, k - 1);
    if actions[k - 1] == code && Effective(Run(actions, prices, k - 1), code) {
      PriceSumSnoc(prices, before, k - 1);
    } else {
      assert EffectiveSlots(actions, prices, code, k) == before;
    }
  }

  /** The capacity is the start plus one step per effective buy minus one
      per effective sell. */
  lemma {:induction false} CapacityCountsEffects(actions: seq<int>, prices: seq<real>, k: nat)
    requires k <= |actions| && k <= |prices|
    ensures Run(actions, prices, k).capacity ==
            START_CAPACITY + CAPACITY_STEP * |EffectiveSlots(actions, prices, BUY, k)| -
            CAPACITY_STEP * |EffectiveSlots(actions, prices, SELL, k)|
  {
    if k > 0 {
      CapacityCountsEffects(actions, prices, k - 1);
      var before := Run(actions, prices, k - 1);
      var buys, sells := |EffectiveSlots(actions, prices, BUY, k - 1)|, |EffectiveSlots(actions, prices, SELL, k - 1)|;
      if actions[k - 1] == BUY && before.capacity <= BUY_LIMIT {
        assert Run(actions, prices, k).capacity == before.capacity + CAPACITY_STEP;
        assert |EffectiveSlots(actions, prices, BUY, k)| == buys + 1;
        assert |EffectiveSlots(actions, prices, SELL, k)| == sells;
      } else if actions[k - 1] == SELL && before.capacity >= SELL_LIMIT {
        assert Run(actions, prices, k).capacity == before.capacity - CAPACITY_STEP;
        assert |EffectiveSlots(actions, prices, BUY, k)| == buys;
        assert |EffectiveSlots(actions, prices, SELL, k)| == sells + 1;
      } else {
        assert Run(actions, prices, k) == before;
        assert |EffectiveSlots(actions, prices, BUY, k)| == buys;
        assert |EffectiveSlots(actions, prices, SELL, k)| == sells;
      }
    }
  }

  lemma PriceSumSnoc(prices: seq<real>, slots: seq<nat>, j: nat)
    requires forall i :: 0 <= i < |slots| ==> slots[i] < |prices|
    requires j < |prices|
    ensures PriceSum(prices, slots + [j]) == PriceSum(prices, slots) + prices[j]
  {
    assert (slots + [j])[..|slots|] == slots;
  }

  /** The fitness is the last transcript entry's cumulative profit. */
  lemma FitnessIsLastEntry(actions: seq<int>, prices: seq<real>)
    requires 0 < |actions| <= |prices|
    ensures |Transcript(actions, prices, |actions|)| == |actions|
    ensures Fitness(actions, prices) == Transcript(actions, prices, |actions|)[|actions| - 1].profit
  {
    TranscriptShape(actions, prices, |actions|);
  }
}
