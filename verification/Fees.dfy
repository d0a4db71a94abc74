/**
 The fee arithmetic of the matcher: a ceiling fee on the lifetime notional of an
 order, charged fill by fill as the difference of two cumulative fees.
 */
module Fees {
  import opened Wrappers
  import opened Words

  const MAX_FEE_BPS := 10_000

  // ---------- The checked program functions ----------

  function CumulativeFee(notional: U64, feeBps: nat): Option<U64> {
    if feeBps > MAX_FEE_BPS then None else
    var numerator := notional * feeBps;
    var fee := numerator / 10_000 + (if numerator % 10_000 != 0 then 1 else 0);
    if fee < TWO_64 then Some(fee) else None
  }

  function FeeDelta(previous: U64, fill: U64, feeBps: nat): Option<U64> {
    var total :- CheckedAdd(previous, fill);
    var after :- CumulativeFee(total, feeBps);
    var before :- CumulativeFee(previous, feeBps);
    CheckedSub(after, before)
  }

  function BuyReserve(limit: U64, remaining: U64, chainNotional: U64, feeBps: nat): Option<U64> {
    var principal :- CheckedMul(limit, remaining);
    var fee :- FeeDelta(chainNotional, principal, feeBps);
    CheckedAdd(principal, fee)
  }

  // ---------- The fee as a mathematical function ----------

  /** The fee formula the test oracle uses; unbounded and total. */
  function Fee(notional: nat, feeBps: nat): nat {
    (notional * feeBps + 9_999) / 10_000
  }

  /** What a fill of `fill` costs an order that has already traded `previous`. */
  function Charge(previous: nat, fill: nat, feeBps: nat): int {
    Fee(previous + fill, feeBps) - Fee(previous, feeBps)
  }

  lemma ProductMonotone(a: nat, b: nat, c: nat)
    requires a <= b
    ensures a * c <= b * c
  {
  }

  /** The fee is the least whole amount that covers the exact rate. */
  lemma FeeIsCeiling(notional: nat, feeBps: nat)
    ensures Fee(notional, feeBps) * 10_000 >= notional * feeBps
    ensures forall f: nat :: f * 10_000 >= notional * feeBps ==> Fee(notional, feeBps) <= f
  {
  }

  lemma FeeMonotone(a: nat, b: nat, feeBps: nat)
    requires a <= b
    ensures Fee(a, feeBps) <= Fee(b, feeBps)
  {
    ProductMonotone(a, b, feeBps);
  }

  /** At any legal rate a fee never exceeds the amount it is charged on. */
  lemma FeeAtMostNotional(notional: nat, feeBps: nat)
    requires feeBps <= MAX_FEE_BPS
    ensures Fee(notional, feeBps) <= notional
  {
    ProductMonotone(feeBps, MAX_FEE_BPS, notional);
  }

  /** Splitting notional can only bring forward rounding: later charges are at most a fresh fee. */
  lemma ChargeBounds(previous: nat, fill: nat, feeBps: nat)
    ensures 0 <= Charge(previous, fill, feeBps) <= Fee(fill, feeBps)
    ensures feeBps <= MAX_FEE_BPS ==> Charge(previous, fill, feeBps) <= fill
  {
    FeeMonotone(previous, previous + fill, feeBps);
    assert (previous + fill) * feeBps == previous * feeBps + fill * feeBps;
    if feeBps <= MAX_FEE_BPS {
      FeeAtMostNotional(fill, feeBps);
    }
  }

  /** The program's quotient-and-remainder fee is the oracle's rounded-up quotient. */
  lemma CumulativeFeeIsFee(notional: U64, feeBps: nat)
    ensures CumulativeFee(notional, feeBps) ==
            if feeBps <= MAX_FEE_BPS then Some(Fee(notional, feeBps)) else None
  {
    if feeBps <= MAX_FEE_BPS {
      FeeAtMostNotional(notional, feeBps);
    }
  }

  /** A fee difference fails only when the lifetime notional itself leaves 64 bits. */
  lemma FeeDeltaIsCharge(previous: U64, fill: U64, feeBps: nat)
    requires feeBps <= MAX_FEE_BPS
    ensures FeeDelta(previous, fill, feeBps) ==
            if previous + fill < TWO_64 then Some(Charge(previous, fill, feeBps)) else None
  {
    if previous + fill < TWO_64 {
      CumulativeFeeIsFee(previous + fill, feeBps);
      CumulativeFeeIsFee(previous, feeBps);
      FeeMonotone(previous, previous + fill, feeBps);
    }
  }

  /** What a buy order of this limit and size must keep reserved. */
  function BuyNeed(limit: nat, remaining: nat, chainNotional: nat, feeBps: nat): int {
    limit * remaining + Charge(chainNotional, limit * remaining, feeBps)
  }

  lemma BuyReserveIsNeed(limit: U64, remaining: U64, chainNotional: U64, feeBps: nat)
    requires feeBps <= MAX_FEE_BPS
    ensures var need := BuyNeed(limit, remaining, chainNotional, feeBps);
            BuyReserve(limit, remaining, chainNotional, feeBps) ==
            if chainNotional + limit * remaining < TWO_64 && need < TWO_64 then Some(need) else None
  {
    assert limit * remaining >= 0;
    if limit * remaining < TWO_64 {
      FeeDeltaIsCharge(chainNotional, limit * remaining, feeBps);
      ChargeBounds(chainNotional, limit * remaining, feeBps);
    }
  }

  /**
   Price improvement never costs the buyer: what was reserved at the limit covers the
   executed principal, its fee, and the whole reserve of what is left, and when the
   fill is at the limit itself the reserve drops by exactly principal plus fee.
   */
  lemma BuyReserveCoversFill(limit: nat, remaining: nat, chain: nat, price: nat, quantity: nat, feeBps: nat)
    requires price <= limit && quantity <= remaining
    ensures var paid := price * quantity + Charge(chain, price * quantity, feeBps);
            var left := BuyNeed(limit, remaining - quantity, chain + price * quantity, feeBps);
            && paid + left <= BuyNeed(limit, remaining, chain, feeBps)
            && (price == limit ==> paid + left == BuyNeed(limit, remaining, chain, feeBps))
  {
    var spent := price * quantity;
    var rest := limit * (remaining - quantity);
    assert limit * remaining == limit * quantity + rest;
    ProductMonotone(price, limit, quantity);
    FeeMonotone(chain + spent + rest, chain + limit * remaining, feeBps);
  }

  // ---------- Telescoping over any split ----------

  function Total(fills: seq<nat>): nat {
    if fills == [] then 0 else fills[0] + Total(fills[1..])
  }

  /** The fees actually charged when an order trades `fills` in turn. */
  function Charged(previous: nat, fills: seq<nat>, feeBps: nat): int
    decreases |fills|
  {
    if fills == [] then 0 else
    Charge(previous, fills[0], feeBps) + Charged(previous + fills[0], fills[1..], feeBps)
  }

  /** However an order is split into fills, it pays the fee of its total notional. */
  lemma {:induction false} FeesTelescope(previous: nat, fills: seq<nat>, feeBps: nat)
    ensures Charged(previous, fills, feeBps) == Charge(previous, Total(fills), feeBps)
    decreases |fills|
  {
    if fills != [] {
      FeesTelescope(previous + fills[0], fills[1..], feeBps);
      assert previous + fills[0] + Total(fills[1..]) == previous + Total(fills);
    }
  }
}
