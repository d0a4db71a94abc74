/**
 Re-executing a versioned trade log: once to prove that it reproduces everything stored,
 and once more without the trades of some users.
 */
module Replay {
  import opened Wrappers
  import Fees
  import opened Orders
  import opened Curve
  import opened Quotes
  import opened Positions
  import opened Ledger

  datatype LogTrade = LogTrade(
    id: nat, user: nat, outcome: Outcome, action: Action, quantity: nat,
    amount: nat, fee: nat, version: nat, journal: Journal)

  /**
   How the market prices: its terms, what floating point computes, and the first version priced by the later
   engine.
   */
  datatype Engine = Engine(m: Pricing, n: Numerics, cutover: nat)

  datatype ReplayFault = Unquoted(refusal: Refusal) | NotHeld

  datatype Replayed = Replayed(inventory: Inventory, positions: map<nat, PositionState>, volume: nat,
                               quotes: seq<Quote>)

  function Opening(): Replayed {
    Replayed(Inventory(0, 0), map[], 0, [])
  }

  function PositionOf(positions: map<nat, PositionState>, user: nat): PositionState {
    if user in positions then positions[user] else ZeroPosition()
  }

  /** One execution: quoted by the engine of its version, then applied to its owner's position. */
  function Execute(e: Engine, r: Replayed, t: LogTrade): Result<Replayed, ReplayFault> {
    match QuoteBy(t.version >= e.cutover, e.n, e.m, r.inventory, t.outcome, t.action, t.quantity)
    case Err(refusal) => Err(Unquoted(refusal))
    case Ok(quote) =>
      match Positions.Apply(PositionOf(r.positions, t.user), quote)
      case None => Err(NotHeld)
      case Some(a) => Ok(Replayed(quote.after, r.positions[t.user := a.state], r.volume + quote.gross,
                                  r.quotes + [quote]))
  }

  /** A log executed in order. */
  function ReplayAll(e: Engine, log: seq<LogTrade>): Result<Replayed, ReplayFault> {
    if log == [] then Ok(Opening()) else
    var before :- ReplayAll(e, log[..|log| - 1]);
    Execute(e, before, log[|log| - 1])
  }

  /** The trades of everyone else, in order. */
  function Survivors(log: seq<LogTrade>, targets: set<nat>): (left: seq<LogTrade>)
    ensures |left| <= |log| && forall t <- left :: t in log && t.user !in targets
  {
    if log == [] then [] else
    var before := Survivors(log[..|log| - 1], targets);
    var last := log[|log| - 1];
    if last.user in targets then before else before + [last]
  }

  // ---------- Shares ----------

  /** Net shares one user has bought. */
  function Tally(log: seq<LogTrade>, user: nat, outcome: Outcome): int {
    if log == [] then 0 else
    var last := log[|log| - 1];
    Tally(log[..|log| - 1], user, outcome)
    + (if last.user == user && last.outcome == outcome then Signed(last.action, last.quantity) else 0)
  }

  ghost function AnyKey(positions: map<nat, PositionState>): (user: nat)
    requires positions.Keys != {}
    ensures user in positions
  {
    var user :| user in positions;
    user
  }

  /** Shares over all positions. */
  ghost function TotalHeld(positions: map<nat, PositionState>, outcome: Outcome): nat
    decreases |positions|
  {
    if positions.Keys == {} then 0 else
    var user := AnyKey(positions);
    positions[user].Held(outcome) + TotalHeld(positions - {user}, outcome)
  }

  lemma {:induction false} TotalWithout(positions: map<nat, PositionState>, user: nat, outcome: Outcome)
    requires user in positions
    ensures TotalHeld(positions, outcome) == positions[user].Held(outcome) + TotalHeld(positions - {user}, outcome)
    decreases |positions|
  {
    var first := AnyKey(positions);
    if first != user {
      assert positions - {first} - {user} == positions - {user} - {first};
      TotalWithout(positions - {first}, user, outcome);
      TotalWithout(positions - {user}, first, outcome);
    }
  }

  lemma TotalUpdate(positions: map<nat, PositionState>, user: nat, p: PositionState, outcome: Outcome)
    ensures TotalHeld(positions[user := p], outcome) ==
            TotalHeld(positions, outcome) - PositionOf(positions, user).Held(outcome) + p.Held(outcome)
  {
    TotalWithout(positions[user := p], user, outcome);
    if user in positions {
      TotalWithout(positions, user, outcome);
      assert positions[user := p] - {user} == positions - {user};
    } else {
      assert positions[user := p] - {user} == positions;
    }
  }

  /** What changed hands over these quotes, fees apart. */
  function Turnover(quotes: seq<Quote>): nat {
    if quotes == [] then 0 else Turnover(quotes[..|quotes| - 1]) + quotes[|quotes| - 1].gross
  }

  /** Positions account for the inventory, each holds its owner's tally, and the volume is the turnover. */
  ghost predicate Accounted(r: Replayed, log: seq<LogTrade>) {
    && |r.quotes| == |log| && r.volume == Turnover(r.quotes)
    && (forall outcome :: TotalHeld(r.positions, outcome) == r.inventory.Of(outcome))
    && (forall user, outcome :: PositionOf(r.positions, user).Held(outcome) == Tally(log, user, outcome))
  }

  /** What one execution does to inventory and shares. */
  lemma ExecuteMoves(e: Engine, r: Replayed, t: LogTrade)
    requires Execute(e, r, t).Ok?
    ensures var after := Execute(e, r, t).value;
            var delta := Signed(t.action, t.quantity);
            && |after.quotes| == |r.quotes| + 1
            && (r.volume == Turnover(r.quotes) ==> after.volume == Turnover(after.quotes))
            && t.user in after.positions && after.positions == r.positions[t.user := after.positions[t.user]]
            && after.positions[t.user].Held(t.outcome) == PositionOf(r.positions, t.user).Held(t.outcome) + delta
            && after.positions[t.user].Held(Other(t.outcome)) == PositionOf(r.positions, t.user).Held(Other(t.outcome))
            && after.inventory.Of(t.outcome) == r.inventory.Of(t.outcome) + delta
            && after.inventory.Of(Other(t.outcome)) == r.inventory.Of(Other(t.outcome))
  {
    QuoteMoves(t.version >= e.cutover, e.n, e.m, r.inventory, t.outcome, t.action, t.quantity);
    var after := Execute(e, r, t).value;
    assert after.quotes[..|r.quotes|] == r.quotes;
  }

  lemma ExecuteKeepsAccounted(e: Engine, r: Replayed, log: seq<LogTrade>, t: LogTrade)
    requires Accounted(r, log) && Execute(e, r, t).Ok?
    ensures Accounted(Execute(e, r, t).value, log + [t])
  {
    ExecuteMoves(e, r, t);
    var after := Execute(e, r, t).value;
    assert (log + [t])[..|log|] == log;
    forall outcome ensures TotalHeld(after.positions, outcome) == after.inventory.Of(outcome) {
      TotalUpdate(r.positions, t.user, after.positions[t.user], outcome);
    }
    forall user, outcome ensures PositionOf(after.positions, user).Held(outcome) == Tally(log + [t], user, outcome) {
      assert PositionOf(r.positions, user).Held(outcome) == Tally(log, user, outcome);
    }
  }

  /** After any log that executes, market totals are the sum of the positions and positions are tallies. */
  lemma {:induction false} ReplayAccounts(e: Engine, log: seq<LogTrade>)
    requires ReplayAll(e, log).Ok?
    ensures Accounted(ReplayAll(e, log).value, log)
  {
    if log != [] {
      var before := log[..|log| - 1];
      ReplayAccounts(e, before);
      ExecuteKeepsAccounted(e, ReplayAll(e, before).value, before, log[|log| - 1]);
      assert before + [log[|log| - 1]] == log;
    }
  }

  // ---------- Removing users from a log that executes ----------

  lemma {:induction false} PrefixReplays(e: Engine, log: seq<LogTrade>, i: nat)
    requires ReplayAll(e, log).Ok? && i <= |log|
    ensures ReplayAll(e, log[..i]).Ok?
    ensures i < |log| ==> Execute(e, ReplayAll(e, log[..i]).value, log[i]).Ok?
    decreases |log|
  {
    if i == |log| {
      assert log[..i] == log;
    } else {
      var before := log[..|log| - 1];
      PrefixReplays(e, before, i);
      assert before[..i] == log[..i];
    }
  }

  /** Where the `k`-th survivor stood in the whole log. */
  lemma {:induction false} OriginOf(log: seq<LogTrade>, targets: set<nat>, k: nat) returns (i: nat)
    requires k < |Survivors(log, targets)|
    ensures i < |log| && log[i] == Survivors(log, targets)[k]
    ensures Survivors(log[..i], targets) == Survivors(log, targets)[..k]
  {
    var before := log[..|log| - 1];
    if k < |Survivors(before, targets)| {
      i := OriginOf(before, targets, k);
      assert before[..i] == log[..i];
    } else {
      i := |log| - 1;
    }
  }

  lemma {:induction false} SurvivorTally(log: seq<LogTrade>, targets: set<nat>, user: nat, outcome: Outcome)
    requires user !in targets
    ensures Tally(Survivors(log, targets), user, outcome) == Tally(log, user, outcome)
  {
    if log != [] {
      var before := log[..|log| - 1];
      SurvivorTally(before, targets, user, outcome);
      var left := Survivors(before, targets);
      assert (left + [log[|log| - 1]])[..|left|] == left;
    }
  }

  lemma {:induction false} HeldByAll(positions: map<nat, PositionState>, user: nat, outcome: Outcome)
    ensures PositionOf(positions, user).Held(outcome) <= TotalHeld(positions, outcome)
  {
    if user in positions {
      TotalWithout(positions, user, outcome);
    }
  }

  /** A sale its owner has the shares for is never short, at the position or at the market. */
  lemma NeverShort(e: Engine, r: Replayed, log: seq<LogTrade>, t: LogTrade)
    requires Accounted(r, log)
    requires t.action.Sell? ==> t.quantity <= PositionOf(r.positions, t.user).Held(t.outcome)
    ensures Execute(e, r, t) != Err(Unquoted(Unavailable)) && Execute(e, r, t) != Err(NotHeld)
  {
    HeldByAll(r.positions, t.user, t.outcome);
    QuoteMoves(t.version >= e.cutover, e.n, e.m, r.inventory, t.outcome, t.action, t.quantity);
  }

  /**
   Whoever is removed from a log that executed, the others still hold, before each of their
   own trades, exactly the shares they held originally; so the replay never finds a sale
   short of shares, whatever the trades now cost.
   */
  lemma SurvivorsNeverShort(e: Engine, log: seq<LogTrade>, targets: set<nat>, k: nat) returns (i: nat)
    requires ReplayAll(e, log).Ok? && k < |Survivors(log, targets)|
    requires ReplayAll(e, Survivors(log, targets)[..k]).Ok?
    ensures i < |log| && log[i] == Survivors(log, targets)[k]
    ensures ReplayAll(e, log[..i]).Ok?
    ensures var r := ReplayAll(e, Survivors(log, targets)[..k]).value;
            var t := log[i];
            && (forall outcome :: PositionOf(r.positions, t.user).Held(outcome) ==
                                  PositionOf(ReplayAll(e, log[..i]).value.positions, t.user).Held(outcome))
            && Execute(e, r, t) != Err(Unquoted(Unavailable)) && Execute(e, r, t) != Err(NotHeld)
  {
    i := OriginOf(log, targets, k);
    var left := Survivors(log, targets)[..k];
    var t := log[i];
    PrefixReplays(e, log, i);
    var original, replayed := ReplayAll(e, log[..i]).value, ReplayAll(e, left).value;
    ReplayAccounts(e, log[..i]);
    ReplayAccounts(e, left);
    forall outcome
      ensures PositionOf(replayed.positions, t.user).Held(outcome) ==
              PositionOf(original.positions, t.user).Held(outcome)
    {
      SurvivorTally(log[..i], targets, t.user, outcome);
    }
    QuoteMoves(t.version >= e.cutover, e.n, e.m, original.inventory, t.outcome, t.action, t.quantity);
    NeverShort(e, replayed, left, t);
  }

  // ---------- Versions ----------

  predicate Contiguous(log: seq<LogTrade>, base: nat) {
    forall i :: 0 <= i < |log| ==> log[i].version == base + i
  }

  predicate Ascending(log: seq<LogTrade>) {
    forall i, j :: 0 <= i < j < |log| ==> log[i].version < log[j].version
  }

  /** The version chain leaves no choice in the order of a log. */
  lemma OrderIsForced(a: seq<LogTrade>, b: seq<LogTrade>, base: nat)
    requires Contiguous(a, base) && Contiguous(b, base) && multiset(a) == multiset(b)
    ensures a == b
  {
    assert |multiset(a)| == |a| && |multiset(b)| == |b|;
    forall i | 0 <= i < |a| ensures a[i] == b[i] {
      assert a[i] in multiset(b);
      var j :| 0 <= j < |b| && b[j] == a[i];
      assert b[j].version == base + j;
    }
  }

  lemma {:induction false} SurvivorsAscend(log: seq<LogTrade>, targets: set<nat>)
    requires Ascending(log)
    ensures Ascending(Survivors(log, targets))
  {
    if log != [] {
      var before := log[..|log| - 1];
      SurvivorsAscend(before, targets);
      forall t <- Survivors(before, targets) ensures t.version < log[|log| - 1].version {
        assert t in before;
      }
    }
  }

  /** The versions survivors are stored under: contiguous from the same base. */
  function Renumbered(left: seq<LogTrade>, base: nat): (log: seq<LogTrade>)
    ensures |log| == |left|
  {
    seq(|left|, k requires 0 <= k < |left| => left[k].(version := base + k))
  }

  /**
   Renumbering only ever lowers a version, keeps the trades of the earlier engine in front,
   and leaves every new version, like every old one, below the market's next version. The
   chain then no longer ends at the market's version.
   */
  lemma SurvivorsRenumber(log: seq<LogTrade>, targets: set<nat>, base: nat, cutover: nat, next: nat)
    requires Contiguous(log, base) && next == base + |log| + 1
    ensures var left := Survivors(log, targets);
            var stored := Renumbered(left, base);
            && Contiguous(stored, base)
            && (forall k :: 0 <= k < |left| ==> stored[k].version <= left[k].version < next)
            && (forall i, k :: 0 <= i < k < |left| && left[k].version < cutover ==> left[i].version < cutover)
            && next != base + |stored|
  {
    var left := Survivors(log, targets);
    SurvivorsAscend(log, targets);
    forall k | 0 <= k < |left| ensures base + k <= left[k].version < next {
      SurvivorStandsBehind(log, targets, base, k);
    }
  }

  lemma SurvivorStandsBehind(log: seq<LogTrade>, targets: set<nat>, base: nat, k: nat)
    requires Contiguous(log, base) && k < |Survivors(log, targets)|
    ensures base + k <= Survivors(log, targets)[k].version < base + |log|
  {
    var i := OriginOf(log, targets, k);
    assert |Survivors(log[..i], targets)| <= i;
  }

  function DealOf(e: Engine, t: LogTrade): Deal {
    Deal(t.outcome, t.action, t.quantity, t.version >= e.cutover)
  }

  function DealsOf(e: Engine, log: seq<LogTrade>): (deals: seq<Deal>)
    ensures |deals| == |log|
    ensures forall i :: 0 <= i < |log| ==> deals[i] == DealOf(e, log[i])
  {
    if log == [] then [] else
    DealsOf(e, log[..|log| - 1]) + [DealOf(e, log[|log| - 1])]
  }

  function Collections(quotes: seq<Quote>): int {
    if quotes == [] then 0 else Collections(quotes[..|quotes| - 1]) + quotes[|quotes| - 1].Collected()
  }

  lemma ExecuteIsTrade(e: Engine, r: Replayed, t: LogTrade, collateral: int)
    requires Execute(e, r, t).Ok?
    ensures var after := Execute(e, r, t).value;
            Trade(e.n, e.m, Pool(r.inventory, collateral + Collections(r.quotes)), DealOf(e, t)) ==
            Ok(Pool(after.inventory, collateral + Collections(after.quotes)))
  {
    var quote := QuoteBy(t.version >= e.cutover, e.n, e.m, r.inventory, t.outcome, t.action, t.quantity).value;
    assert (r.quotes + [quote])[..|r.quotes|] == r.quotes;
  }

  /** The pool after `r` has been executed against `start`. */
  function PoolAfter(start: Pool, r: Replayed): Pool {
    Pool(r.inventory, start.collateral + Collections(r.quotes))
  }

  lemma ExecuteAppends(e: Engine, r: Replayed, t: LogTrade, start: Pool, deals: seq<Deal>)
    requires Execute(e, r, t).Ok? && TradeAll(e.n, e.m, start, deals) == Ok(PoolAfter(start, r))
    ensures TradeAll(e.n, e.m, start, deals + [DealOf(e, t)]) == Ok(PoolAfter(start, Execute(e, r, t).value))
  {
    ExecuteIsTrade(e, r, t, start.collateral);
    TradeAppend(e.n, e.m, start, deals, DealOf(e, t), PoolAfter(start, r), PoolAfter(start, Execute(e, r, t).value));
  }

  /** Executing a log is trading it against a pool that starts with no shares. */
  lemma {:induction false} ReplayIsTrading(e: Engine, log: seq<LogTrade>, start: Pool)
    requires ReplayAll(e, log).Ok? && start.inventory == Opening().inventory
    ensures TradeAll(e.n, e.m, start, DealsOf(e, log)) == Ok(PoolAfter(start, ReplayAll(e, log).value))
  {
    if log != [] {
      var before, last := log[..|log| - 1], log[|log| - 1];
      ReplayIsTrading(e, before, start);
      ExecuteAppends(e, ReplayAll(e, before).value, last, start, DealsOf(e, before));
    }
  }

  lemma TradeAppend(n: Numerics, m: Pricing, start: Pool, deals: seq<Deal>, last: Deal, middle: Pool, end: Pool)
    requires TradeAll(n, m, start, deals) == Ok(middle) && Trade(n, m, middle, last) == Ok(end)
    ensures TradeAll(n, m, start, deals + [last]) == Ok(end)
  {
    TradeOne(n, m, middle, last);
    TradeAllConcat(n, m, start, deals, [last]);
  }

  lemma TradeOne(n: Numerics, m: Pricing, p: Pool, d: Deal)
    ensures TradeAll(n, m, p, [d]) == Trade(n, m, p, d)
  {
    assert [d][1..] == [];
  }

  /**
   Whoever is removed, the market is left solvent: what the surviving trades collect, on top
   of the opening subsidy, covers whichever outcome wins.
   */
  lemma SurvivorsLeaveSolvent(e: Engine, g: Tail, log: seq<LogTrade>, targets: set<nat>, subsidy: int)
    requires e.m.Valid() && CurveOk(g) && Accurate(e.n, g, e.m) && Ascending(log)
    requires subsidy as real >= Potential(g, e.m, Inventory(0, 0))
    requires ReplayAll(e, Survivors(log, targets)).Ok?
    ensures var r := ReplayAll(e, Survivors(log, targets)).value;
            subsidy + Collections(r.quotes) >= Required(e.m, r.inventory)
  {
    var left := Survivors(log, targets);
    SurvivorsAscend(log, targets);
    var start := Pool(Opening().inventory, subsidy);
    ReplayIsTrading(e, left, start);
    SubsidyBacks(e.n, g, e.m, subsidy);
    AlwaysSolvent(e.n, g, e.m, start, false, DealsOf(e, left));
  }

  // ---------- The two passes ----------

  /** What is stored about the market whose log is replayed. */
  datatype Incident = Incident(
    log: seq<LogTrade>, version: nat, inventory: Inventory, volume: nat, positions: map<nat, PositionState>,
    reserving: set<nat>, firstDiscretized: nat, lastLegacy: nat)

  datatype PlanFault =
    | BrokenChain | WrongVersion | NoCutover | CutoverMoved | Execution(at: nat, f: ReplayFault)
    | NotReproduced(at: nat) | CutoverUnproven(at: nat) | AggregateDiffers | PositionsDiffer
    | Repricing(f: ReplayFault) | Strangers

  datatype Plan = Plan(base: nat, cut: nat, original: Replayed, surviving: seq<LogTrade>, replay: Replayed)

  /** A stored execution is the one its quote says. */
  predicate Matches(t: LogTrade, quote: Quote) {
    quote.gross == t.amount && quote.fee == t.fee && Reproduces(t.journal, t.user, quote)
  }

  /** The other engine would have executed this trade differently. */
  predicate OnlyOneEngine(e: Engine, before: Replayed, t: LogTrade) {
    var other := QuoteBy(t.version < e.cutover, e.n, e.m, before.inventory, t.outcome, t.action, t.quantity);
    other.Ok? && (other.value.gross != t.amount || other.value.fee != t.fee)
  }

  /** The version chain is complete, and the engines change where it was reviewed. */
  predicate ChainOk(input: Incident, base: nat, cut: nat) {
    && Contiguous(input.log, base) && input.version == base + |input.log|
    && 0 < cut < |input.log| && input.log[cut].id == input.firstDiscretized && input.log[cut - 1].id == input.lastLegacy
    && (forall i :: 0 <= i < cut ==> input.log[i].id != input.firstDiscretized)
  }

  /** Every trader's stored position is the one the log leads to, and reserves nothing. */
  predicate PositionsStand(found: map<nat, PositionState>, stored: map<nat, PositionState>, reserving: set<nat>) {
    forall user <- found :: user in stored && stored[user] == found[user] && user !in reserving
  }

  /** Execution succeeds and gives back what is stored; next to the change, only one engine does. */
  ghost predicate Reproduced(e: Engine, state: Replayed, t: LogTrade, boundary: bool) {
    && Execute(e, state, t).Ok? && (boundary ==> OnlyOneEngine(e, state, t))
    && var after := Execute(e, state, t).value;
       |after.quotes| == |state.quotes| + 1 && Matches(t, after.quotes[|state.quotes|])
  }

  /** Every trade before this one executes, and then it reproduces. */
  ghost predicate StepChecked(e: Engine, log: seq<LogTrade>, cut: nat, i: nat)
    requires i < |log|
  {
    ReplayAll(e, log[..i]).Ok? && Reproduced(e, ReplayAll(e, log[..i]).value, log[i], cut - 1 <= i <= cut)
  }

  /** The first `k` trades have been executed, and each reproduces. */
  ghost predicate Checked(e: Engine, log: seq<LogTrade>, cut: nat, k: nat, state: Replayed)
    requires k <= |log|
  {
    && ReplayAll(e, log[..k]) == Ok(state) && |state.quotes| == k
    && forall i :: 0 <= i < k ==> StepChecked(e, log, cut, i)
  }

  /** The log reproduces everything stored, under exactly one place for the change of engines. */
  ghost predicate Proven(input: Incident, e: Engine, base: nat, cut: nat, original: Replayed) {
    && ChainOk(input, base, cut) && e.cutover == input.log[cut].version
    && Checked(e, input.log, cut, |input.log|, original)
    && original.inventory == input.inventory && original.volume == input.volume
    && PositionsStand(original.positions, input.positions, input.reserving)
  }

  method FindCutover(log: seq<LogTrade>, firstDiscretized: nat) returns (cut: nat)
    ensures cut <= |log| && (cut < |log| ==> log[cut].id == firstDiscretized)
    ensures forall i :: 0 <= i < cut ==> log[i].id != firstDiscretized
  {
    cut := 0;
    while cut < |log| && log[cut].id != firstDiscretized
      invariant cut <= |log| && forall i :: 0 <= i < cut ==> log[i].id != firstDiscretized
    {
      cut := cut + 1;
    }
  }

  /** Re-executes one stored trade by its place in the log, and checks that it reproduces. */
  method Reexecute(e: Engine, state: Replayed, t: LogTrade, at: nat, cut: nat) returns (r: Result<Replayed, PlanFault>)
    requires at >= cut <==> t.version >= e.cutover
    ensures r.Ok? <==> Reproduced(e, state, t, cut - 1 <= at <= cut)
    ensures r.Ok? ==> Execute(e, state, t) == Ok(r.value)
    ensures r.Err? ==> !r.error.Repricing? && !r.error.Strangers?
  {
    var quoted := QuoteBy(at >= cut, e.n, e.m, state.inventory, t.outcome, t.action, t.quantity);
    if quoted.Err? {
      return Err(Execution(at, Unquoted(quoted.error)));
    }
    var quote := quoted.value;
    if at + 1 == cut || at == cut {
      var other := QuoteBy(at < cut, e.n, e.m, state.inventory, t.outcome, t.action, t.quantity);
      if other.Err? {
        return Err(Execution(at, Unquoted(other.error)));
      }
      if other.value.gross == t.amount && other.value.fee == t.fee {
        return Err(CutoverUnproven(at));
      }
    }
    if !Matches(t, quote) {
      return Err(NotReproduced(at));
    }
    var applied := Positions.Apply(PositionOf(state.positions, t.user), quote);
    if applied.None? {
      return Err(Execution(at, NotHeld));
    }
    var positions := state.positions[t.user := applied.value.state];
    return Ok(Replayed(quote.after, positions, state.volume + quote.gross, state.quotes + [quote]));
  }

  lemma CheckedStart(e: Engine, log: seq<LogTrade>, cut: nat, start: Replayed)
    requires start == Opening()
    ensures Checked(e, log, cut, 0, start)
  {
  }

  lemma CheckedNext(e: Engine, log: seq<LogTrade>, cut: nat, k: nat, state: Replayed, next: Replayed)
    requires k < |log| && Checked(e, log, cut, k, state)
    requires Execute(e, state, log[k]) == Ok(next) && Reproduced(e, state, log[k], cut - 1 <= k <= cut)
    ensures Checked(e, log, cut, k + 1, next)
  {
    NextReplays(e, log, k, state);
    assert StepChecked(e, log, cut, k);
  }

  /** A log can be checked in only one way. */
  lemma CheckedForces(e: Engine, log: seq<LogTrade>, cut: nat, k: nat, state: Replayed)
    requires k < |log| && Checked(e, log, cut, k, state)
    ensures (exists end :: Checked(e, log, cut, |log|, end)) ==> Reproduced(e, state, log[k], cut - 1 <= k <= cut)
  {
    if end :| Checked(e, log, cut, |log|, end) {
      assert StepChecked(e, log, cut, k);
    }
  }

  /** Executes a whole log; refused exactly when some trade does not reproduce. */
  method ExecuteLog(e: Engine, log: seq<LogTrade>, base: nat, cut: nat) returns (r: Result<Replayed, PlanFault>)
    requires Contiguous(log, base) && cut < |log| && e.cutover == log[cut].version
    ensures r.Ok? <==> exists end :: Checked(e, log, cut, |log|, end)
    ensures r.Ok? ==> Checked(e, log, cut, |log|, r.value)
    ensures r.Err? ==> !r.error.Repricing? && !r.error.Strangers?
  {
    var state := Opening();
    CheckedStart(e, log, cut, state);
    for k := 0 to |log|
      invariant Checked(e, log, cut, k, state)
    {
      CheckedForces(e, log, cut, k, state);
      var next :- Reexecute(e, state, log[k], k, cut);
      CheckedNext(e, log, cut, k, state, next);
      state := next;
    }
    return Ok(state);
  }

  /** The first version and the change of engines; refused exactly when there is no complete chain with that change. */
  method Chain(input: Incident) returns (r: Result<(nat, nat), PlanFault>)
    ensures r.Ok? ==> ChainOk(input, r.value.0, r.value.1)
    ensures forall base: nat, cut: nat :: ChainOk(input, base, cut) ==> r == Ok((base, cut))
    ensures r.Err? ==> !r.error.Repricing? && !r.error.Strangers?
  {
    var log := input.log;
    var first := if log != [] then log[0].version else input.version;
    for i := 0 to |log|
      invariant forall j :: 0 <= j < i ==> log[j].version == first + j
    {
      if log[i].version != first + i {
        BrokenHasNoBase(log, i);
        return Err(BrokenChain);
      }
    }
    if input.version != first + |log| {
      return Err(WrongVersion);
    }
    var change := FindCutover(log, input.firstDiscretized);
    if change == |log| {
      return Err(NoCutover);
    }
    if change == 0 || log[change - 1].id != input.lastLegacy {
      return Err(CutoverMoved);
    }
    return Ok((first, change));
  }

  lemma BrokenHasNoBase(log: seq<LogTrade>, i: nat)
    requires i < |log| && log[i].version != log[0].version + i
    ensures forall base: nat :: !Contiguous(log, base)
  {
    forall base: nat ensures !Contiguous(log, base) {
      assert !(log[0].version == base + 0 && log[i].version == base + i);
    }
  }

  function EngineAt(input: Incident, m: Pricing, n: Numerics, cut: nat): Engine
    requires cut < |input.log|
  {
    Engine(m, n, input.log[cut].version)
  }

  /** First pass: the stored log, checked against everything stored with it; refused exactly when nothing proves it. */
  method ProveLog(input: Incident, m: Pricing, n: Numerics) returns (r: Result<Plan, PlanFault>)
    ensures r.Ok? ==> r.value.cut < |input.log|
    ensures r.Ok? ==> Proven(input, EngineAt(input, m, n, r.value.cut), r.value.base, r.value.cut, r.value.original)
    ensures r.Err? ==> !r.error.Repricing? && !r.error.Strangers? && !Provable(input, m, n)
  {
    var chain := Chain(input);
    if chain.Err? {
      return Err(chain.error);
    }
    var (base, cut) := chain.value;
    var e := EngineAt(input, m, n, cut);
    var executed := ExecuteLog(e, input.log, base, cut);
    OneProof(input, m, n, base, cut);
    if executed.Err? {
      return Err(executed.error);
    }
    var state := executed.value;
    OneEnd(input, e, cut, state);
    if state.inventory != input.inventory || state.volume != input.volume {
      return Err(AggregateDiffers);
    }
    if !PositionsStand(state.positions, input.positions, input.reserving) {
      return Err(PositionsDiffer);
    }
    return Ok(Plan(base, cut, state, [], Opening()));
  }

  /** Something proves the stored log under this pricing. */
  ghost predicate Provable(input: Incident, m: Pricing, n: Numerics) {
    exists e: Engine, base: nat, cut: nat, original :: e.m == m && e.n == n && Proven(input, e, base, cut, original)
  }

  /**
   A stored trade costs what its engine charges, its journal balances and moves wallet, pool and
   revenue once each by that, and at the change of engines the other one charges otherwise.
   */
  predicate ChargedAs(t: LogTrade, quoted: Result<Quote, Refusal>, other: Result<Quote, Refusal>, boundary: bool) {
    && quoted.Ok? && quoted.value.gross == t.amount && quoted.value.fee == t.fee
    && Sum(Amounts(t.journal.postings)) == 0
    && OnAccount(t.journal.postings, Wallet(t.user)) ==
       [if t.action.Buy? then -((t.amount + t.fee) as int) else t.amount - t.fee]
    && OnAccount(t.journal.postings, Collateral) == [if t.action.Buy? then t.amount as int else -(t.amount as int)]
    && OnAccount(t.journal.postings, Revenue) == (if t.fee == 0 then [] else [t.fee as int])
    && (boundary ==> other.Ok? && (other.value.gross != t.amount || other.value.fee != t.fee))
  }

  /** What it says of one trade that it was proved: the engine of its place, and next to the change not the other. */
  ghost predicate Explained(e: Engine, input: Incident, cut: nat, i: nat)
    requires i < |input.log| && ReplayAll(e, input.log[..i]).Ok?
  {
    var t, before := input.log[i], ReplayAll(e, input.log[..i]).value;
    ChargedAs(t, QuoteBy(i >= cut, e.n, e.m, before.inventory, t.outcome, t.action, t.quantity),
              QuoteBy(i < cut, e.n, e.m, before.inventory, t.outcome, t.action, t.quantity),
              i == cut || i + 1 == cut)
  }

  /** What a proof says of everything stored. */
  lemma ProvenExplains(input: Incident, e: Engine, base: nat, cut: nat, original: Replayed)
    requires Proven(input, e, base, cut, original)
    ensures forall i :: 0 <= i < |input.log| ==>
              input.log[i].version == base + i && ReplayAll(e, input.log[..i]).Ok? && Explained(e, input, cut, i)
    ensures input.version == base + |input.log| && 0 < cut < |input.log|
    ensures input.log[cut].id == input.firstDiscretized && input.log[cut - 1].id == input.lastLegacy
    ensures ReplayAll(e, input.log) == Ok(original)
    ensures original.inventory == input.inventory && original.volume == input.volume == Turnover(original.quotes)
    ensures forall t <- input.log ::
              && t.user in original.positions && t.user in input.positions && t.user !in input.reserving
              && input.positions[t.user] == original.positions[t.user]
  {
    ProvenReplays(input, e, base, cut, original);
    ReplayTraders(e, input.log);
    ReplayAccounts(e, input.log);
    forall i | 0 <= i < |input.log| ensures ReplayAll(e, input.log[..i]).Ok? && Explained(e, input, cut, i) {
      assert StepChecked(e, input.log, cut, i);
      StepExplains(input, e, base, cut, i);
    }
    forall t <- input.log ensures t.user in original.positions {
      assert t.user in Traders(input.log);
    }
  }

  lemma StepExplains(input: Incident, e: Engine, base: nat, cut: nat, i: nat)
    requires ChainOk(input, base, cut) && e.cutover == input.log[cut].version && i < |input.log|
    requires StepChecked(e, input.log, cut, i)
    ensures Explained(e, input, cut, i)
  {
    assert input.log[i].version >= e.cutover <==> i >= cut;
    ReproducedIsCharged(e, ReplayAll(e, input.log[..i]).value, input.log[i], i >= cut, i == cut || i + 1 == cut);
  }

  lemma ReproducedIsCharged(e: Engine, state: Replayed, t: LogTrade, late: bool, boundary: bool)
    requires Reproduced(e, state, t, boundary) && (late <==> t.version >= e.cutover)
    ensures ChargedAs(t, QuoteBy(late, e.n, e.m, state.inventory, t.outcome, t.action, t.quantity),
                      QuoteBy(!late, e.n, e.m, state.inventory, t.outcome, t.action, t.quantity), boundary)
  {
    QuoteMoves(late, e.n, e.m, state.inventory, t.outcome, t.action, t.quantity);
    ExecuteQuotes(e, state, t);
    MatchesSays(t, QuoteBy(late, e.n, e.m, state.inventory, t.outcome, t.action, t.quantity).value);
  }

  lemma ExecuteQuotes(e: Engine, state: Replayed, t: LogTrade)
    requires Execute(e, state, t).Ok?
    ensures var quoted := QuoteBy(t.version >= e.cutover, e.n, e.m, state.inventory, t.outcome, t.action, t.quantity);
            quoted.Ok? && Execute(e, state, t).value.quotes == state.quotes + [quoted.value]
  {
  }

  lemma MatchesSays(t: LogTrade, quote: Quote)
    requires Matches(t, quote) && quote.action == t.action
    ensures quote.gross == t.amount && quote.fee == t.fee && Sum(Amounts(t.journal.postings)) == 0
    ensures OnAccount(t.journal.postings, Wallet(t.user)) ==
            [if t.action.Buy? then -((t.amount + t.fee) as int) else t.amount - t.fee]
    ensures OnAccount(t.journal.postings, Collateral) == [if t.action.Buy? then t.amount as int else -(t.amount as int)]
    ensures OnAccount(t.journal.postings, Revenue) == (if t.fee == 0 then [] else [t.fee as int])
  {
  }

  /** What a repair stores in place of a log: the survivors, renumbered, under a version one higher. */
  predicate Repaired(input: Incident, cleaned: Incident, targets: set<nat>, base: nat) {
    && |cleaned.log| == |Survivors(input.log, targets)| && Contiguous(cleaned.log, base)
    && cleaned.version == input.version + 1
  }

  /** Whoever was removed, and be it nobody: what a repair stores has no complete chain, and nothing proves it. */
  lemma RepairedIsRefused(input: Incident, cleaned: Incident, targets: set<nat>, base: nat, cut: nat)
    requires ChainOk(input, base, cut) && Repaired(input, cleaned, targets, base)
    ensures forall b: nat, c: nat :: !ChainOk(cleaned, b, c)
    ensures forall m: Pricing, n: Numerics :: !Provable(cleaned, m, n)
  {
    forall b: nat, c: nat ensures !ChainOk(cleaned, b, c) {
      assert Contiguous(cleaned.log, b) && cleaned.log != [] ==> cleaned.log[0].version == b + 0 == base + 0;
    }
  }

  /** A chain admits at most one engine to prove the log with. */
  lemma OneProof(input: Incident, m: Pricing, n: Numerics, base: nat, cut: nat)
    requires ChainOk(input, base, cut)
    requires forall b: nat, c: nat :: ChainOk(input, b, c) ==> (b, c) == (base, cut)
    ensures Provable(input, m, n) ==>
              exists original :: Proven(input, EngineAt(input, m, n, cut), base, cut, original)
  {
    if e: Engine, b: nat, c: nat, original :| e.m == m && e.n == n && Proven(input, e, b, c, original) {
      assert ChainOk(input, b, c) && (b, c) == (base, cut);
      assert e == EngineAt(input, m, n, cut);
    }
  }

  /** And at most one outcome. */
  lemma OneEnd(input: Incident, e: Engine, cut: nat, state: Replayed)
    requires Checked(e, input.log, cut, |input.log|, state)
    ensures forall end :: Checked(e, input.log, cut, |input.log|, end) ==> end == state
  {
  }

  /** `ordered.filter`: the trades of everyone who stays. */
  method KeepOthers(log: seq<LogTrade>, targets: set<nat>) returns (left: seq<LogTrade>)
    ensures left == Survivors(log, targets)
  {
    left := [];
    for k := 0 to |log|
      invariant left == Survivors(log[..k], targets)
    {
      assert log[..k + 1][..k] == log[..k];
      if log[k].user !in targets {
        left := left + [log[k]];
      }
    }
    assert log[..|log|] == log;
  }

  function Traders(log: seq<LogTrade>): set<nat> {
    set t | t in log :: t.user
  }

  lemma {:induction false} ReplayTraders(e: Engine, log: seq<LogTrade>)
    requires ReplayAll(e, log).Ok?
    ensures ReplayAll(e, log).value.positions.Keys == Traders(log)
  {
    if log != [] {
      var n := |log| - 1;
      ReplayTraders(e, log[..n]);
      ExecuteMoves(e, ReplayAll(e, log[..n]).value, log[n]);
      assert log == log[..n] + [log[n]];
    }
  }

  lemma TradersNext(log: seq<LogTrade>, t: LogTrade)
    ensures Traders(log + [t]) == Traders(log) + {t.user}
  {
    assert t in log + [t];
  }

  /**
   Both passes, and the check that nobody but the log's traders holds a position. The first
   refuses exactly the logs that do not reproduce everything stored; the second may then fail
   to price a trade on the quieter market, but never for want of shares.
   */
  method BuildReplay(input: Incident, m: Pricing, n: Numerics, targets: set<nat>) returns (r: Result<Plan, PlanFault>)
    ensures r.Ok? ==> r.value.cut < |input.log| && r.value.surviving == Survivors(input.log, targets)
    ensures r.Ok? ==> PlanHolds(input, EngineAt(input, m, n, r.value.cut), r.value)
    ensures r.Ok? ==> input.positions.Keys == Traders(input.log)
    ensures r.Err? && !r.error.Repricing? && !r.error.Strangers? ==> !Provable(input, m, n)
    ensures r.Err? && r.error.Strangers? ==> Provable(input, m, n) && !(input.positions.Keys <= Traders(input.log))
    ensures r.Err? && r.error.Repricing? ==> Unpriced(input, m, n, targets, r.error.f)
    ensures r.Err? && r.error.Repricing? ==> r.error.f != Unquoted(Unavailable) && r.error.f != NotHeld
  {
    var proof := ProveLog(input, m, n);
    if proof.Err? {
      return Err(proof.error);
    }
    ghost var p := proof.value;
    ProofIsProvable(input, EngineAt(input, m, n, p.cut), p.base, p.cut, p.original);
    r := PlanSurvivors(input, EngineAt(input, m, n, proof.value.cut), proof.value, targets);
  }

  /** The second pass and the check of who holds positions, for a log that is proved. */
  method PlanSurvivors(input: Incident, e: Engine, proof: Plan, targets: set<nat>) returns (r: Result<Plan, PlanFault>)
    requires Proven(input, e, proof.base, proof.cut, proof.original)
    ensures r.Ok? ==> PlanHolds(input, e, r.value) && r.value.cut == proof.cut
    ensures r.Ok? ==> r.value.surviving == Survivors(input.log, targets) && input.positions.Keys == Traders(input.log)
    ensures r.Err? ==> r.error.Strangers? || r.error.Repricing?
    ensures r.Err? && r.error.Strangers? ==> !(input.positions.Keys <= Traders(input.log))
    ensures r.Err? && r.error.Repricing? ==>
              && Unpriced(input, e.m, e.n, targets, r.error.f)
              && r.error.f != Unquoted(Unavailable) && r.error.f != NotHeld
  {
    var surviving := KeepOthers(input.log, targets);
    ProvenReplays(input, e, proof.base, proof.cut, proof.original);
    ReplayTraders(e, input.log);
    var priced := Reprice(e, input.log, targets, surviving);
    if priced.Err? {
      ProvenUnpriced(input, e, proof.base, proof.cut, proof.original, targets, priced.error.f);
      return Err(priced.error);
    }
    if !(input.positions.Keys <= proof.original.positions.Keys) {
      return Err(Strangers);
    }
    return Ok(proof.(surviving := surviving, replay := priced.value));
  }

  lemma ProofIsProvable(input: Incident, e: Engine, base: nat, cut: nat, original: Replayed)
    requires Proven(input, e, base, cut, original)
    ensures Provable(input, e.m, e.n)
  {
  }

  /** What a plan promises. */
  ghost predicate PlanHolds(input: Incident, e: Engine, plan: Plan) {
    Proven(input, e, plan.base, plan.cut, plan.original) && ReplayAll(e, plan.surviving) == Ok(plan.replay)
  }

  /** The log is proved, but the survivors cannot all be priced. */
  ghost predicate Unpriced(input: Incident, m: Pricing, n: Numerics, targets: set<nat>, f: ReplayFault) {
    exists e: Engine, base: nat, cut: nat, original ::
      e.m == m && e.n == n && Proven(input, e, base, cut, original)
      && ReplayAll(e, Survivors(input.log, targets)) == Err(f)
  }

  lemma ProvenReplays(input: Incident, e: Engine, base: nat, cut: nat, original: Replayed)
    requires Proven(input, e, base, cut, original)
    ensures ReplayAll(e, input.log) == Ok(original)
  {
    assert input.log[..|input.log|] == input.log;
  }

  lemma ProvenUnpriced(
      input: Incident, e: Engine, base: nat, cut: nat, original: Replayed, targets: set<nat>, f: ReplayFault)
    requires Proven(input, e, base, cut, original) && ReplayAll(e, Survivors(input.log, targets)) == Err(f)
    ensures Unpriced(input, e.m, e.n, targets, f)
  {
  }

  lemma {:induction false} FaultStays(e: Engine, log: seq<LogTrade>, k: nat, f: ReplayFault)
    requires k <= |log| && ReplayAll(e, log[..k]) == Err(f)
    ensures ReplayAll(e, log) == Err(f)
    decreases |log|
  {
    if k < |log| {
      assert log[..|log| - 1][..k] == log[..k];
      FaultStays(e, log[..|log| - 1], k, f);
    } else {
      assert log[..k] == log;
    }
  }

  lemma ReplayStarts(e: Engine, log: seq<LogTrade>, start: Replayed)
    requires start == Opening()
    ensures ReplayAll(e, log[..0]) == Ok(start)
  {
  }

  lemma SurvivorIsNotShort(e: Engine, log: seq<LogTrade>, targets: set<nat>, k: nat, state: Replayed)
    requires ReplayAll(e, log).Ok? && k < |Survivors(log, targets)|
    requires ReplayAll(e, Survivors(log, targets)[..k]) == Ok(state)
    ensures Execute(e, state, Survivors(log, targets)[k]) != Err(Unquoted(Unavailable))
    ensures Execute(e, state, Survivors(log, targets)[k]) != Err(NotHeld)
  {
    var i := SurvivorsNeverShort(e, log, targets, k);
  }

  lemma NextReplays(e: Engine, log: seq<LogTrade>, k: nat, state: Replayed)
    requires k < |log| && ReplayAll(e, log[..k]) == Ok(state)
    ensures ReplayAll(e, log[..k + 1]) == Execute(e, state, log[k])
  {
    assert log[..k + 1][..k] == log[..k];
  }

  /** One survivor executed on the quieter market. */
  method RepriceNext(e: Engine, ghost log: seq<LogTrade>, ghost targets: set<nat>, surviving: seq<LogTrade>, k: nat,
                     state: Replayed)
    returns (next: Result<Replayed, ReplayFault>)
    requires ReplayAll(e, log).Ok? && surviving == Survivors(log, targets) && k < |surviving|
    requires ReplayAll(e, surviving[..k]) == Ok(state)
    ensures next.Ok? ==> ReplayAll(e, surviving[..k + 1]) == next
    ensures next.Err? ==>
              ReplayAll(e, surviving) == next && next.error != Unquoted(Unavailable) && next.error != NotHeld
  {
    SurvivorIsNotShort(e, log, targets, k, state);
    NextReplays(e, surviving, k, state);
    next := Execute(e, state, surviving[k]);
    if next.Err? {
      FaultStays(e, surviving, k + 1, next.error);
    }
  }

  /** Second pass: each survivor priced on the quieter market by the engine of its own version. */
  method Reprice(e: Engine, ghost log: seq<LogTrade>, ghost targets: set<nat>, surviving: seq<LogTrade>)
    returns (r: Result<Replayed, PlanFault>)
    requires ReplayAll(e, log).Ok? && surviving == Survivors(log, targets)
    ensures r.Ok? ==> ReplayAll(e, surviving) == Ok(r.value)
    ensures r.Err? ==> r.error.Repricing? && ReplayAll(e, surviving) == Err(r.error.f)
    ensures r.Err? ==> r.error.f != Unquoted(Unavailable) && r.error.f != NotHeld
  {
    var state := Opening();
    ReplayStarts(e, surviving, state);
    for k := 0 to |surviving|
      invariant ReplayAll(e, surviving[..k]) == Ok(state)
    {
      var next := RepriceNext(e, log, targets, surviving, k, state);
      if next.Err? {
        return Err(Repricing(next.error));
      }
      state := next.value;
    }
    assert surviving[..|surviving|] == surviving;
    return Ok(state);
  }
}
