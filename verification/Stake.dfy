/** The MOR amount of a session and the allowance step before opening it. */
module Stake {
  import opened ByteStrings

  // ---- the amount ----

  /** None is an error; `price`, `supply` and `budget` may be nil pointers. big.Int.Div is Euclidean. */
  function ComputeSessionTokenAmount(price: Option<int>, duration: int, supply: Option<int>, budget: Option<int>,
                                     directPayment: bool): Option<int>
  {
    if price.None? then None
    else
      var cost := price.value * duration;
      if directPayment then Some(cost)
      else if supply.None? then None
      else if budget.None? || budget.value == 0 then None
      else Some((supply.value * cost) / budget.value)
  }

  /** An amount is computed exactly when the price is there and, unless the session is paid directly, supply and budget
      are and the budget is not zero. */
  lemma AmountIff(price: Option<int>, duration: int, supply: Option<int>, budget: Option<int>, directPayment: bool)
    ensures ComputeSessionTokenAmount(price, duration, supply, budget, directPayment).Some? <==>
              price.Some? && (directPayment || (supply.Some? && budget.Some? && budget.value != 0))
  {
  }

  /** A direct payment is the price for one second, and the payments for two durations add up to that for both. */
  lemma DirectAddsUp(price: int, x: int, y: int, supply: Option<int>, budget: Option<int>)
    ensures ComputeSessionTokenAmount(Some(price), 1, supply, budget, true) == Some(price)
    ensures var pay := (d: int) => ComputeSessionTokenAmount(Some(price), d, supply, budget, true);
            pay(x).Some? && pay(y).Some? && pay(x + y) == Some(pay(x).value + pay(y).value)
  {
    assert price * (x + y) == price * x + price * y;
  }

  function StakeFor(price: nat, duration: nat, supply: nat, budget: nat): (stake: nat)
    requires budget > 0
  {
    (supply * (price * duration)) / budget
  }

  lemma Quotient(a: nat, b: nat)
    requires b > 0
    ensures (a / b) * b <= a < (a / b + 1) * b
  {
  }

  lemma QuotientMonotone(a: nat, a': nat, b: nat)
    requires b > 0 && a <= a'
    ensures a / b <= a' / b
  {
    Quotient(a, b);
    Quotient(a', b);
    if a' / b + 1 <= a / b {
      Scale(a' / b + 1, a / b, b);
    }
  }

  lemma Scale(x: nat, y: nat, k: nat)
    requires x <= y
    ensures x * k <= y * k && k * x <= k * y
  {
  }

  /** The stake is the exact quotient rounded down, and it never falls when price or duration rise. */
  lemma StakeIsFloor(price: nat, duration: nat, supply: nat, budget: nat, price': nat, duration': nat)
    requires budget > 0
    ensures ComputeSessionTokenAmount(Some(price), duration, Some(supply), Some(budget), false)
         == Some(StakeFor(price, duration, supply, budget))
    ensures var stake := StakeFor(price, duration, supply, budget);
            stake * budget <= supply * (price * duration) < (stake + 1) * budget
    ensures price <= price' && duration <= duration' ==>
              StakeFor(price, duration, supply, budget) <= StakeFor(price', duration', supply, budget)
  {
    Quotient(supply * (price * duration), budget);
    if price <= price' && duration <= duration' {
      Scale(price, price', duration);
      Scale(duration, duration', price');
      Scale(price * duration, price' * duration', supply);
      QuotientMonotone(supply * (price * duration), supply * (price' * duration'), budget);
    }
  }

  function Sum(xs: seq<nat>): nat
  {
    if xs == [] then 0 else Sum(xs[..|xs| - 1]) + xs[|xs| - 1]
  }

  function StakeSum(blocks: seq<nat>, price: nat, supply: nat, budget: nat): nat
    requires budget > 0
  {
    if blocks == [] then 0
    else StakeSum(blocks[..|blocks| - 1], price, supply, budget) + StakeFor(price, blocks[|blocks| - 1], supply, budget)
  }

  lemma QuotientAtLeast(n: nat, m: nat, q: nat)
    requires m > 0 && q * m <= n
    ensures q <= n / m
  {
    Quotient(n, m);
    if n / m + 1 <= q { Scale(n / m + 1, q, m); }
  }

  lemma QuotientBelow(n: nat, m: nat, q: nat)
    requires m > 0 && n < q * m
    ensures n / m < q
  {
    Quotient(n, m);
    if q <= n / m { Scale(q, n / m, m); }
  }

  lemma SumBounds(a: nat, b: nat, m: nat, x: nat, y: nat)
    requires x * m <= a < (x + 1) * m && y * m <= b < (y + 1) * m
    ensures (x + y) * m <= a + b < (x + y + 2) * m
  {
    assert (x + y) * m == x * m + y * m;
    assert (x + y + 2) * m == (x + 1) * m + (y + 1) * m;
  }

  lemma QuotientSum(a: nat, b: nat, m: nat)
    requires m > 0
    ensures a / m + b / m <= (a + b) / m <= a / m + b / m + 1
  {
    var x, y := a / m, b / m;
    Quotient(a, m);
    Quotient(b, m);
    SumBounds(a, b, m, x, y);
    QuotientAtLeast(a + b, m, x + y);
    QuotientBelow(a + b, m, x + y + 2);
  }

  lemma Distribute(supply: nat, price: nat, x: nat, y: nat)
    ensures supply * (price * (x + y)) == supply * (price * x) + supply * (price * y)
  {
    assert price * (x + y) == price * x + price * y;
  }

  /** Splitting a duration into k blocks loses at most k - 1 units of stake in total and never gains any. */
  lemma {:induction false} SplitLoss(blocks: seq<nat>, price: nat, supply: nat, budget: nat)
    requires budget > 0 && blocks != []
    ensures var whole, parts := StakeFor(price, Sum(blocks), supply, budget), StakeSum(blocks, price, supply, budget);
            parts <= whole <= parts + (|blocks| - 1)
  {
    var before, last := blocks[..|blocks| - 1], blocks[|blocks| - 1];
    if before == [] {
      assert Sum(blocks) == last;
    } else {
      SplitLoss(before, price, supply, budget);
      Distribute(supply, price, Sum(before), last);
      QuotientSum(supply * (price * Sum(before)), supply * (price * last), budget);
    }
  }

  // ---- the allowance ----

  const TWO255: nat := 0x8000_0000_0000_0000_0000_0000_0000_0000_0000_0000_0000_0000_0000_0000_0000_0000
  const MAX_UINT256: nat := TWO255 + (TWO255 - 1)

  /** Approving more is skipped when it would overflow the token's uint256. */
  predicate NeedsApproval(allowance: nat, stake: int)
  {
    allowance < 3 * stake && MAX_UINT256 - allowance >= stake
  }

  /** The allowance after one executed increase, if one is asked for: exactly the stake is added. */
  function AllowanceAfter(allowance: nat, stake: int): nat
  {
    if NeedsApproval(allowance, stake) then allowance + stake else allowance
  }

  /** The allowance covers the stake afterwards except exactly when adding it would overflow while the
      present allowance does not cover it, which no stake up to 2^255 meets; it never leaves uint256. */
  lemma AllowanceCovers(allowance: nat, stake: nat)
    requires allowance <= MAX_UINT256
    ensures AllowanceAfter(allowance, stake) <= MAX_UINT256
    ensures AllowanceAfter(allowance, stake) >= stake <==> !(MAX_UINT256 - allowance < stake && allowance < stake)
    ensures stake <= TWO255 ==> AllowanceAfter(allowance, stake) >= stake
  {
  }

  /** Just above 2^255 the step can leave the allowance short. */
  lemma AllowanceShort()
    ensures AllowanceAfter(TWO255, TWO255 + 1) < TWO255 + 1
  {
  }
}
