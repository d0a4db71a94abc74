/**
 The database market maker's pricing curve over the reals, and the two engines that round
 it to whole milli-feathers. Floating point appears as a numeric evaluation that is off by
 at most a quarter, which is what the rounding reserve is for.
 */
module Curve {
  import opened Wrappers
  import Fees
  import opened Orders

  const MAX_LIQUIDITY := 1_000_000

  // ---------- The exact curve ----------

  /** The decaying part of softplus; in the program log1p(exp(-x)). */
  type Tail = real -> real

  function MaxReal(a: real, b: real): real {
    if a >= b then a else b
  }

  function AbsReal(x: real): real {
    if x >= 0.0 then x else -x
  }

  function Softplus(g: Tail, v: real): real {
    MaxReal(v, 0.0) + g(AbsReal(v))
  }

  /** All that is assumed of the tail: it is positive and leaves softplus nondecreasing. */
  ghost predicate CurveOk(g: Tail) {
    && (forall x :: g(x) > 0.0)
    && (forall v, w :: v <= w ==> Softplus(g, v) <= Softplus(g, w))
  }

  datatype Pricing = Pricing(liquidity: nat, payout: nat, feeBps: nat) {
    predicate Valid() {
      1 <= liquidity <= MAX_LIQUIDITY && 1 <= payout <= MAX_PAYOUT && feeBps <= Fees.MAX_FEE_BPS
    }
  }

  datatype Inventory = Inventory(yes: nat, no: nat) {
    function Of(outcome: Outcome): nat {
      if outcome.Yes? then yes else no
    }

    function With(outcome: Outcome, shares: nat): Inventory {
      if outcome.Yes? then Inventory(shares, no) else Inventory(yes, shares)
    }
  }

  function Other(outcome: Outcome): Outcome {
    if outcome.Yes? then No else Yes
  }

  function Scale(m: Pricing): real {
    m.liquidity as real * m.payout as real
  }

  /** The LMSR cost: payout times (shares of the other outcome, plus softplus of the lead in units of liquidity). */
  function PotentialFrom(g: Tail, m: Pricing, q: Inventory, outcome: Outcome): real
    requires m.Valid()
  {
    q.Of(Other(outcome)) as real * m.payout as real
    + Scale(m) * Softplus(g, (q.Of(outcome) - q.Of(Other(outcome))) as real / m.liquidity as real)
  }

  function Potential(g: Tail, m: Pricing, q: Inventory): real
    requires m.Valid()
  {
    PotentialFrom(g, m, q, Yes)
  }

  /** It does not matter which outcome the curve is read from. */
  lemma PotentialSymmetric(g: Tail, m: Pricing, q: Inventory, outcome: Outcome)
    requires m.Valid()
    ensures PotentialFrom(g, m, q, outcome) == Potential(g, m, q)
  {
    if outcome.No? {
      var b, p := m.liquidity as real, m.payout as real;
      var v := (q.yes - q.no) as real / b;
      assert (q.no - q.yes) as real / b == -v;
      assert Softplus(g, v) - Softplus(g, -v) == v;
      assert b * p * v == p * (q.yes - q.no) as real;
      assert b * p * Softplus(g, v) == b * p * Softplus(g, -v) + b * p * v;
    }
  }

  function MaxNat(a: nat, b: nat): nat {
    if a >= b then a else b
  }

  /** What the pool owes if the more expensive outcome wins: enough for either, and no more. */
  function Required(m: Pricing, q: Inventory): (owed: nat)
    ensures owed >= m.payout * q.yes && owed >= m.payout * q.no
    ensures owed == m.payout * q.yes || owed == m.payout * q.no
  {
    m.payout * MaxNat(q.yes, q.no)
  }

  /** The potential strictly exceeds every possible payout. */
  lemma PotentialCovers(g: Tail, m: Pricing, q: Inventory)
    requires m.Valid() && CurveOk(g)
    ensures Potential(g, m, q) > Required(m, q) as real
  {
    var outcome := if q.yes >= q.no then No else Yes;
    PotentialSymmetric(g, m, q, outcome);
    var v := (q.Of(outcome) - q.Of(Other(outcome))) as real / m.liquidity as real;
    assert Softplus(g, v) >= g(AbsReal(v)) > 0.0;
    assert Scale(m) * Softplus(g, v) > 0.0;
  }

  /** Moving one outcome by `delta` shares, as the historical engine's formula has it. */
  function ExactChange(g: Tail, m: Pricing, q: Inventory, outcome: Outcome, delta: int): real
    requires m.Valid()
  {
    var before := (q.Of(outcome) - q.Of(Other(outcome))) as real / m.liquidity as real;
    var after := before + delta as real / m.liquidity as real;
    Scale(m) * (Softplus(g, after) - Softplus(g, before))
  }

  lemma QuotientsAdd(x: real, y: real, b: real)
    requires b > 0.0
    ensures x / b + y / b == (x + y) / b
  {
  }

  lemma QuotientSign(x: real, b: real)
    requires b > 0.0
    ensures x >= 0.0 ==> x / b >= 0.0
    ensures x <= 0.0 ==> x / b <= 0.0
  {
  }

  lemma ProductSign(a: real, x: real)
    requires a >= 0.0
    ensures x >= 0.0 ==> a * x >= 0.0
    ensures x <= 0.0 ==> a * x <= 0.0
  {
  }

  /** Only the lead matters to the change, and it moves by `delta`. */
  lemma LeadMoves(g: Tail, m: Pricing, q: Inventory, outcome: Outcome, delta: int)
    requires m.Valid() && q.Of(outcome) + delta >= 0
    ensures var after := q.With(outcome, q.Of(outcome) + delta);
            PotentialFrom(g, m, after, outcome) - PotentialFrom(g, m, q, outcome) ==
            ExactChange(g, m, q, outcome, delta)
  {
    var lead := q.Of(outcome) - q.Of(Other(outcome));
    QuotientsAdd(lead as real, delta as real, m.liquidity as real);
    var before := Softplus(g, lead as real / m.liquidity as real);
    var after := Softplus(g, (lead + delta) as real / m.liquidity as real);
    assert Scale(m) * (after - before) == Scale(m) * after - Scale(m) * before;
  }

  /** The formula is the change of the potential, whichever outcome is traded. */
  lemma ChangeIsPotential(g: Tail, m: Pricing, q: Inventory, outcome: Outcome, delta: int)
    requires m.Valid() && q.Of(outcome) + delta >= 0
    ensures ExactChange(g, m, q, outcome, delta) ==
            Potential(g, m, q.With(outcome, q.Of(outcome) + delta)) - Potential(g, m, q)
  {
    PotentialSymmetric(g, m, q, outcome);
    PotentialSymmetric(g, m, q.With(outcome, q.Of(outcome) + delta), outcome);
    LeadMoves(g, m, q, outcome, delta);
  }

  lemma ScalePositive(m: Pricing)
    requires m.Valid()
    ensures Scale(m) > 0.0
  {
    assert m.liquidity as real >= 1.0 && m.payout as real >= 1.0;
    assert m.liquidity as real * m.payout as real >= 1.0 * m.payout as real;
  }

  lemma SoftplusGap(g: Tail, v: real, step: real)
    requires CurveOk(g)
    ensures step >= 0.0 ==> Softplus(g, v + step) - Softplus(g, v) >= 0.0
    ensures step <= 0.0 ==> Softplus(g, v + step) - Softplus(g, v) <= 0.0
  {
    assert v <= v + step ==> Softplus(g, v) <= Softplus(g, v + step);
    assert v + step <= v ==> Softplus(g, v + step) <= Softplus(g, v);
  }

  lemma ChangeFollowsGap(g: Tail, m: Pricing, q: Inventory, outcome: Outcome, delta: int)
    requires m.Valid()
    ensures var before := (q.Of(outcome) - q.Of(Other(outcome))) as real / m.liquidity as real;
            var gap := Softplus(g, before + delta as real / m.liquidity as real) - Softplus(g, before);
            && (gap >= 0.0 ==> ExactChange(g, m, q, outcome, delta) >= 0.0)
            && (gap <= 0.0 ==> ExactChange(g, m, q, outcome, delta) <= 0.0)
  {
    var before := (q.Of(outcome) - q.Of(Other(outcome))) as real / m.liquidity as real;
    ScalePositive(m);
    ProductSign(Scale(m), Softplus(g, before + delta as real / m.liquidity as real) - Softplus(g, before));
  }

  /** Buying never lowers the potential and selling never raises it. */
  lemma ChangeHasSign(g: Tail, m: Pricing, q: Inventory, outcome: Outcome, delta: int)
    requires m.Valid() && CurveOk(g)
    ensures delta >= 0 ==> ExactChange(g, m, q, outcome, delta) >= 0.0
    ensures delta <= 0 ==> ExactChange(g, m, q, outcome, delta) <= 0.0
  {
    QuotientSign(delta as real, m.liquidity as real);
    SoftplusGap(g, (q.Of(outcome) - q.Of(Other(outcome))) as real / m.liquidity as real,
      delta as real / m.liquidity as real);
    ChangeFollowsGap(g, m, q, outcome, delta);
  }
}
