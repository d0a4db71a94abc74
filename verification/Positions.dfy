/**
 One participant's position in a database market: shares, proportional cost basis on each
 side, and realized profit, updated in place trade by trade.
 */
module Positions {
  import opened Wrappers
  import Fees
  import opened Orders
  import opened Curve
  import opened Quotes

  datatype PositionState = PositionState(
    yesShares: nat, noShares: nat, netCost: int, yesBasis: int, noBasis: int, realized: int)
  {
    function Held(outcome: Outcome): nat {
      if outcome.Yes? then yesShares else noShares
    }

    function Basis(outcome: Outcome): int {
      if outcome.Yes? then yesBasis else noBasis
    }
  }

  function ZeroPosition(): PositionState {
    PositionState(0, 0, 0, 0, 0, 0)
  }

  /** Division of the program's integers truncates; both operands are nonnegative here. */
  function BasisRemoved(basis: int, quantity: nat, held: nat): int
    requires 0 < held
  {
    if basis >= 0 then basis * quantity / held else -((-basis) * quantity / held)
  }

  datatype Applied = Applied(state: PositionState, realizedDelta: int)

  /** The position after a trade at a quoted price, or nothing if it sells shares it does not hold. */
  function Apply(p: PositionState, quote: Quote): Option<Applied> {
    var held := p.Held(quote.outcome);
    if quote.action.Sell? && held < quote.quantity then None else
    var removed :=
      if quote.action.Sell? && held > 0 then BasisRemoved(p.Basis(quote.outcome), quote.quantity, held) else 0;
    var cost := if quote.action.Buy? then quote.gross + quote.fee else -removed;
    var realized := if quote.action.Sell? then quote.gross - quote.fee - removed else 0;
    var shares: nat := held + Signed(quote.action, quote.quantity);
    Some(Applied(
      PositionState(
        if quote.outcome.Yes? then shares else p.yesShares,
        if quote.outcome.Yes? then p.noShares else shares,
        p.netCost + cost,
        if quote.outcome.Yes? then p.yesBasis + cost else p.yesBasis,
        if quote.outcome.Yes? then p.noBasis else p.noBasis + cost,
        p.realized + realized),
      realized))
  }

  /** What is removed is the sold part of the basis, truncated to a whole amount. */
  predicate Proportional(removed: int, basis: int, quantity: nat, held: nat) {
    if basis >= 0 then removed * held <= basis * quantity && (held > 0 ==> basis * quantity < removed * held + held)
    else -removed * held <= -basis * quantity && (held > 0 ==> -basis * quantity < -removed * held + held)
  }

  /**
   A trade moves the shares and the basis of its own outcome only: a purchase adds its whole
   cost, a sale takes out the sold part and realizes its proceeds over that.
   */
  predicate TradedRightly(before: PositionState, after: PositionState, quote: Quote, gain: int) {
    var o := quote.outcome;
    && after.Held(Other(o)) == before.Held(Other(o)) && after.Basis(Other(o)) == before.Basis(Other(o))
    && after.netCost - before.netCost == after.Basis(o) - before.Basis(o)
    && after.realized == before.realized + gain
    && match quote.action
       case Buy =>
         && after.Held(o) == before.Held(o) + quote.quantity
         && after.Basis(o) == before.Basis(o) + quote.gross + quote.fee && gain == 0
       case Sell =>
         && after.Held(o) == before.Held(o) - quote.quantity
         && var removed := before.Basis(o) - after.Basis(o);
            && Proportional(removed, before.Basis(o), quote.quantity, before.Held(o))
            && (before.Held(o) == 0 ==> removed == 0)
            && gain == quote.gross - quote.fee - removed
  }

  lemma RemovesProportion(basis: int, quantity: nat, held: nat)
    requires 0 < held
    ensures Proportional(BasisRemoved(basis, quantity, held), basis, quantity, held)
  {
    var b := if basis >= 0 then basis else -basis;
    assert b * quantity >= 0;
    DivisionTruncates(b * quantity, held);
  }

  lemma DivisionTruncates(x: nat, held: nat)
    requires 0 < held
    ensures x / held * held <= x < x / held * held + held
  {
  }

  /** Exactly sales of shares not held are refused; every other trade moves the position as it should. */
  lemma AppliesRightly(p: PositionState, quote: Quote)
    ensures Apply(p, quote).None? <==> quote.action.Sell? && p.Held(quote.outcome) < quote.quantity
    ensures Apply(p, quote).Some? ==>
              TradedRightly(p, Apply(p, quote).value.state, quote, Apply(p, quote).value.realizedDelta)
  {
    var held := p.Held(quote.outcome);
    if quote.action.Sell? && held > 0 {
      RemovesProportion(p.Basis(quote.outcome), quote.quantity, held);
    }
  }

  class Position {
    var yesShares: nat
    var noShares: nat
    var netCost: int
    var yesBasis: int
    var noBasis: int
    var realized: int

    function State(): PositionState
      reads this
    {
      PositionState(yesShares, noShares, netCost, yesBasis, noBasis, realized)
    }

    constructor ()
      ensures State() == ZeroPosition()
    {
      yesShares, noShares, netCost, yesBasis, noBasis, realized := 0, 0, 0, 0, 0, 0;
    }

    /** Updates the position in place; a sale of shares it does not hold is refused and changes nothing. */
    method Update(quote: Quote) returns (r: Option<int>)
      modifies this
      ensures match Apply(old(State()), quote)
              case None => r == None && State() == old(State())
              case Some(a) => r == Some(a.realizedDelta) && State() == a.state
      ensures r.None? <==> quote.action.Sell? && old(State()).Held(quote.outcome) < quote.quantity
      ensures r.Some? ==> TradedRightly(old(State()), State(), quote, r.value)
    {
      AppliesRightly(State(), quote);
      var held := if quote.outcome.Yes? then yesShares else noShares;
      var basis := if quote.outcome.Yes? then yesBasis else noBasis;
      if quote.action.Sell? && held < quote.quantity {
        return None;
      }
      var removed := if quote.action.Sell? && held > 0 then BasisRemoved(basis, quote.quantity, held) else 0;
      var cost := if quote.action.Buy? then quote.gross + quote.fee else -removed;
      var gain := if quote.action.Sell? then quote.gross - quote.fee - removed else 0;
      if quote.outcome.Yes? {
        yesShares := yesShares + Signed(quote.action, quote.quantity);
        yesBasis := yesBasis + cost;
      } else {
        noShares := noShares + Signed(quote.action, quote.quantity);
        noBasis := noBasis + cost;
      }
      netCost := netCost + cost;
      realized := realized + gain;
      return Some(gain);
    }
  }

  // ---------- Invariants of any history ----------

  /** Basis is nonnegative, gone when its shares are gone, and adds up to the net cost. */
  predicate Sane(p: PositionState) {
    && p.netCost == p.yesBasis + p.noBasis
    && 0 <= p.yesBasis && 0 <= p.noBasis
    && (p.yesShares == 0 ==> p.yesBasis == 0)
    && (p.noShares == 0 ==> p.noBasis == 0)
  }

  lemma DivisionBounds(x: nat, bound: nat, held: nat)
    requires 0 < held && x <= bound * held
    ensures 0 <= x / held <= bound
    ensures x == bound * held ==> x / held == bound
  {
    var q := x / held;
    assert q * held <= x < (q + 1) * held;
    if q < bound {
      Fees.ProductMonotone(q + 1, bound, held);
    }
  }

  /** Truncation never removes more basis than there is, and the last share removes all of it. */
  lemma RemovedBounds(basis: int, quantity: nat, held: nat)
    requires 0 <= basis && 0 < held && quantity <= held
    ensures 0 <= BasisRemoved(basis, quantity, held) <= basis
    ensures quantity == held ==> BasisRemoved(basis, quantity, held) == basis
  {
    var b: nat := basis;
    Fees.ProductMonotone(quantity, held, b);
    assert quantity * b == b * quantity && held * b == b * held;
    DivisionBounds(b * quantity, b, held);
  }

  /** One trade keeps the invariants, and wallet cash is realized profit minus net cost throughout. */
  lemma ApplyKeepsSane(p: PositionState, quote: Quote)
    requires Sane(p) && Apply(p, quote).Some? && quote.quantity >= 1
    ensures var after := Apply(p, quote).value.state;
            && Sane(after)
            && after.realized - after.netCost == p.realized - p.netCost + quote.Cash()
  {
    var held := p.Held(quote.outcome);
    if quote.action.Sell? && held > 0 {
      RemovedBounds(p.Basis(quote.outcome), quote.quantity, held);
    }
  }

  function ApplyAll(p: PositionState, quotes: seq<Quote>): Option<PositionState>
    decreases |quotes|
  {
    if quotes == [] then Some(p) else
    var first :- Apply(p, quotes[0]);
    ApplyAll(first.state, quotes[1..])
  }

  function CashFlow(quotes: seq<Quote>): int {
    if quotes == [] then 0 else quotes[0].Cash() + CashFlow(quotes[1..])
  }

  lemma {:induction false} HistoryKeepsSane(p: PositionState, quotes: seq<Quote>)
    requires Sane(p) && ApplyAll(p, quotes).Some? && forall q <- quotes :: q.quantity >= 1
    ensures var after := ApplyAll(p, quotes).value;
            && Sane(after)
            && after.realized - after.netCost == p.realized - p.netCost + CashFlow(quotes)
    decreases |quotes|
  {
    if quotes != [] {
      ApplyKeepsSane(p, quotes[0]);
      HistoryKeepsSane(Apply(p, quotes[0]).value.state, quotes[1..]);
    }
  }

  /** What was made so far is what is still invested, as with a position that has never traded. */
  predicate Even(p: PositionState) {
    Sane(p) && p.realized == p.netCost
  }

  lemma NewcomersAreEven()
    ensures Even(ZeroPosition())
  {
  }

  /** Without shares there is no cost left. */
  lemma LiquidatedCostsNothing(p: PositionState)
    requires Sane(p) && p.yesShares == 0 && p.noShares == 0
    ensures p.netCost == 0
  {
  }

  /**
   Any history since the first trade has cash flow equal to realized profit minus net cost.
   Selling everything leaves no basis behind, so the wallet has changed by exactly the
   realized profit, although every division along the way truncates.
   */
  lemma FullLiquidation(start: PositionState, quotes: seq<Quote>)
    requires Even(start) && ApplyAll(start, quotes).Some? && forall q <- quotes :: q.quantity >= 1
    ensures var end := ApplyAll(start, quotes).value;
            && Sane(end) && CashFlow(quotes) == end.realized - end.netCost
            && (end.yesShares == 0 && end.noShares == 0 ==> end.netCost == 0 && CashFlow(quotes) == end.realized)
  {
    HistoryKeepsSane(start, quotes);
    var end := ApplyAll(start, quotes).value;
    if end.yesShares == 0 && end.noShares == 0 {
      LiquidatedCostsNothing(end);
    }
  }
}
