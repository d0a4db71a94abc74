/**
 The removal of users from a market's history, from the stored log to the closing check:
 when nothing can stray, and which of the closing checks can still fail.
 */
module Remediation {
  import opened Wrappers
  import opened Orders
  import opened Curve
  import opened Quotes
  import opened Positions
  import opened Ledger
  import opened Replay
  import opened Cleanup

  // ---------- When nothing can stray ----------

  /** A welcome grant takes from issuance once and posts otherwise only to removed users' wallets. */
  predicate WelcomeGrant(j: Journal, targets: set<nat>) {
    && ProperGrant(j) && |OnAccount(j.postings, Issuance)| == 1
    && forall p <- j.postings :: p.account.Issuance? || !Kept(p.account, targets)
  }

  lemma {:induction false} GrantsPostNothing(grants: seq<Journal>, targets: set<nat>, a: Account)
    requires forall j <- grants :: WelcomeGrant(j, targets)
    ensures !a.Issuance? && Kept(a, targets) ==> PostedAll(grants, a) == 0
    ensures PostedAll(grants, Issuance) == Recalled(grants)
    decreases |grants|
  {
    if grants != [] {
      var last := grants[|grants| - 1];
      GrantsPostNothing(grants[..|grants| - 1], targets, a);
      assert last in grants && WelcomeGrant(last, targets);
      if !a.Issuance? && Kept(a, targets) {
        NothingElsewhere(last.postings, a);
      }
      SumOne(OnAccount(last.postings, Issuance)[0]);
      assert OnAccount(last.postings, Issuance) == [OnAccount(last.postings, Issuance)[0]];
    }
  }

  /** If only the trader's wallet is posted to, that is all there is on wallets. */
  lemma {:induction false} OwnWalletOnly(postings: seq<Posting>, user: nat)
    requires forall p <- postings :: p.account.Wallet? ==> p.account.owner == user
    ensures OnWallets(postings) == Sum(OnAccount(postings, Wallet(user)))
    decreases |postings|
  {
    if postings != [] {
      var n := |postings| - 1;
      OwnWalletOnly(postings[..n], user);
      OnAccountNext(postings, n, Wallet(user));
      assert postings[..n + 1] == postings;
    }
  }

  lemma {:induction false} TradesStrayNowhere(log: seq<LogTrade>, a: Account)
    requires forall t <- log :: OnlyTrades(t.journal, t.user)
    ensures a.Wallet? ==> StoredOn(log, a) == CashOf(log, a.owner)
    ensures !a.Wallet? && !a.Collateral? && !a.Revenue? ==> StoredOn(log, a) == 0
  {
    if log != [] {
      var n := |log| - 1;
      var t := log[n];
      TradesStrayNowhere(log[..n], a);
      StoredNext(log, n, a);
      assert log[..n + 1] == log && t in log && OnlyTrades(t.journal, t.user);
      if a == Wallet(t.user) {
        OwnWalletOnly(t.journal.postings, t.user);
      } else if !a.Collateral? && !a.Revenue? {
        NothingElsewhere(t.journal.postings, a);
      }
    }
  }

  /** A ledger that reconciled, trades that post only to trader, pool and revenue, and proper grants: nothing strays. */
  lemma OrderlyNeverStrays(b: Books, log: seq<LogTrade>, targets: set<nat>)
    requires b.Reconciled() && (forall t <- log :: OnlyTrades(t.journal, t.user))
    requires forall j <- b.grants :: WelcomeGrant(j, targets)
    ensures NothingStrays(b, log, targets)
  {
    forall j <- b.others ensures Balanced(j) {
      assert j in b.Journals();
    }
    forall a <- b.cache | Kept(a, targets) ensures b.Drift(a) + Stray(log, b.grants, a) == 0 {
      GrantsPostNothing(b.grants, targets, a);
      TradesStrayNowhere(log, a);
    }
  }

  /** A journal with one more balanced pair of postings, to accounts that have nothing to do with it. */
  function Padding(j: Journal, amount: int): Journal {
    Journal(j.id, j.postings + [Posting(Elsewhere(1), amount), Posting(Elsewhere(2), -amount)])
  }

  /** A trade's journal, so padded. */
  function Padded(id: nat, user: nat, quote: Quote, amount: int): Journal {
    Padding(Journal(id, TradePostings(user, quote)), amount)
  }

  /** The first pass accepts such a journal, and the cleanup then leaves a balance off by the extra posting. */
  lemma PaddedTradesStray(t: LogTrade, quote: Quote, amount: int)
    requires t.journal == Padded(t.journal.id, t.user, quote, amount)
    ensures Reproduces(t.journal, t.user, quote)
    ensures Stray([t], [], Elsewhere(1)) == amount
  {
    PaddedReproduces(t.journal.id, t.user, quote, amount);
    PaddedOnAccount(TradePostings(t.user, quote), amount, Elsewhere(1));
    NothingElsewhere(TradePostings(t.user, quote), Elsewhere(1));
    SumOne(amount);
    assert [t][..1] == [t] && [t][..0] == [];
    assert JournalsOf([t][..0]) == [] && [] + [amount] == [amount];
    StoredNext([t], 0, Elsewhere(1));
  }

  lemma {:induction false} PaddedOnAccount(postings: seq<Posting>, amount: int, a: Account)
    ensures OnAccount(postings + [Posting(Elsewhere(1), amount), Posting(Elsewhere(2), -amount)], a) ==
            OnAccount(postings, a) +
        (if a == Elsewhere(1) then [amount] else if a == Elsewhere(2) then [-amount] else [])
    decreases |postings|
  {
    var extra := [Posting(Elsewhere(1), amount), Posting(Elsewhere(2), -amount)];
    if postings == [] {
      assert postings + extra == extra && extra[1..] == [extra[1]] && extra[1..][1..] == [];
      assert OnAccount([extra[1]][1..], a) == [];
    } else {
      assert (postings + extra)[1..] == postings[1..] + extra;
      PaddedOnAccount(postings[1..], amount, a);
    }
  }

  lemma {:induction false} PaddedSum(postings: seq<Posting>, amount: int)
    ensures Sum(Amounts(postings + [Posting(Elsewhere(1), amount), Posting(Elsewhere(2), -amount)])) ==
            Sum(Amounts(postings))
    decreases |postings|
  {
    var extra := [Posting(Elsewhere(1), amount), Posting(Elsewhere(2), -amount)];
    if postings == [] {
      AmountsOfTwo(extra[0], extra[1], []);
      assert [extra[0], extra[1]] + [] == postings + extra;
    } else {
      assert (postings + extra)[1..] == postings[1..] + extra;
      PaddedSum(postings[1..], amount);
      assert Amounts(postings + extra)[1..] == Amounts(postings[1..] + extra)
             && Amounts(postings)[1..] == Amounts(postings[1..]);
    }
  }

  /** The check of a trade journal does not see the padding. */
  lemma PaddingReproduces(j: Journal, user: nat, quote: Quote, amount: int)
    requires Reproduces(j, user, quote)
    ensures Reproduces(Padding(j, amount), user, quote)
  {
    PaddedSum(j.postings, amount);
    PaddedOnAccount(j.postings, amount, Wallet(user));
    PaddedOnAccount(j.postings, amount, Collateral);
    PaddedOnAccount(j.postings, amount, Revenue);
  }

  lemma PaddedReproduces(id: nat, user: nat, quote: Quote, amount: int)
    ensures Reproduces(Padded(id, user, quote, amount), user, quote)
  {
    TradePostingsBalance(user, quote, Collateral);
    TradeOnEach(user, quote);
    PaddingReproduces(Journal(id, TradePostings(user, quote)), user, quote, amount);
  }

  lemma TradeOnEach(user: nat, quote: Quote)
    ensures OnAccount(TradePostings(user, quote), Wallet(user)) == [quote.Cash()]
    ensures OnAccount(TradePostings(user, quote), Collateral) == [quote.Collected()]
    ensures OnAccount(TradePostings(user, quote), Revenue) == (if quote.fee == 0 then [] else [quote.fee as int])
  {
    forall a: Account
      ensures OnAccount(TradePostings(user, quote), a) ==
        OnFirst(Posting(Wallet(user), quote.Cash()), a) + OnFirst(Posting(Collateral, quote.Collected()), a)
        + (if quote.fee > 0 then OnFirst(Posting(Revenue, quote.fee), a) else [])
    {
      TradeOnAccount(user, quote, a);
    }
  }

  function OnFirst(p: Posting, a: Account): seq<int> {
    if p.account == a then [p.amount] else []
  }

  lemma OnAccountThen(p: Posting, rest: seq<Posting>, a: Account)
    ensures OnAccount([p] + rest, a) == OnFirst(p, a) + OnAccount(rest, a)
  {
    assert ([p] + rest)[1..] == rest;
  }

  lemma TradeOnAccount(user: nat, quote: Quote, a: Account)
    ensures OnAccount(TradePostings(user, quote), a) ==
      OnFirst(Posting(Wallet(user), quote.Cash()), a) + OnFirst(Posting(Collateral, quote.Collected()), a)
      + (if quote.fee > 0 then OnFirst(Posting(Revenue, quote.fee), a) else [])
  {
    var wallet, pool := Posting(Wallet(user), quote.Cash()), Posting(Collateral, quote.Collected());
    var fees := if quote.fee > 0 then [Posting(Revenue, quote.fee)] else [];
    OnAccountThen(wallet, [pool] + fees, a);
    OnAccountThen(pool, fees, a);
    assert TradePostings(user, quote) == [wallet] + ([pool] + fees);
    if quote.fee > 0 {
      OnAccountThen(fees[0], [], a);
      assert fees == [fees[0]] + [];
    }
  }

  /** A log in which the journal of one trade is padded. */
  function WithPadding(log: seq<LogTrade>, k: nat, amount: int): seq<LogTrade>
    requires k < |log|
  {
    log[k := log[k].(journal := Padding(log[k].journal, amount))]
  }

  /** The same trades, whatever their journals. */
  predicate SameTrades(a: seq<LogTrade>, b: seq<LogTrade>) {
    |a| == |b| && forall i :: 0 <= i < |a| ==> a[i].(journal := b[i].journal) == b[i]
  }

  lemma SameExecution(e: Engine, state: Replayed, t: LogTrade, u: LogTrade)
    requires t.(journal := u.journal) == u
    ensures Execute(e, state, t) == Execute(e, state, u)
  {
  }

  /** Executing a log does not look at its journals. */
  lemma {:induction false} SameReplay(e: Engine, a: seq<LogTrade>, b: seq<LogTrade>, k: nat)
    requires SameTrades(a, b) && k <= |a|
    ensures ReplayAll(e, a[..k]) == ReplayAll(e, b[..k])
    decreases k
  {
    if k > 0 {
      SameReplay(e, a, b, k - 1);
      assert a[..k][..k - 1] == a[..k - 1] && b[..k][..k - 1] == b[..k - 1];
      var before := ReplayAll(e, a[..k - 1]);
      if before.Ok? {
        SameExecution(e, before.value, a[k - 1], b[k - 1]);
      }
    }
  }

  lemma PaddingStillReproduced(e: Engine, state: Replayed, t: LogTrade, amount: int, boundary: bool)
    requires Replay.Reproduced(e, state, t, boundary)
    ensures Replay.Reproduced(e, state, t.(journal := Padding(t.journal, amount)), boundary)
  {
    var quote := Execute(e, state, t).value.quotes[|state.quotes|];
    PaddingReproduces(t.journal, t.user, quote, amount);
  }

  lemma PaddingStillStepChecked(e: Engine, log: seq<LogTrade>, k: nat, amount: int, cut: nat, i: nat)
    requires k < |log| && i < |log| && StepChecked(e, log, cut, i)
    ensures StepChecked(e, WithPadding(log, k, amount), cut, i)
  {
    SameReplay(e, WithPadding(log, k, amount), log, i);
    if i == k {
      PaddingStillReproduced(e, ReplayAll(e, log[..i]).value, log[i], amount, cut - 1 <= i <= cut);
    }
  }

  lemma PaddingStillChecked(e: Engine, log: seq<LogTrade>, k: nat, amount: int, cut: nat, state: Replayed)
    requires k < |log| && Checked(e, log, cut, |log|, state)
    ensures Checked(e, WithPadding(log, k, amount), cut, |log|, state)
  {
    SameReplay(e, WithPadding(log, k, amount), log, |log|);
    forall i | 0 <= i < |log| ensures StepChecked(e, WithPadding(log, k, amount), cut, i) {
      PaddingStillStepChecked(e, log, k, amount, cut, i);
    }
  }

  /** The version chain does not see the padding either. */
  lemma PaddingKeepsChain(input: Incident, base: nat, cut: nat, k: nat, amount: int)
    requires ChainOk(input, base, cut) && k < |input.log|
    ensures ChainOk(input.(log := WithPadding(input.log, k, amount)), base, cut)
  {
  }

  /** The first pass accepts a log no matter how one of its journals is padded. */
  lemma PaddingStillProven(input: Incident, e: Engine, base: nat, cut: nat, original: Replayed, k: nat, amount: int)
    requires Proven(input, e, base, cut, original) && k < |input.log|
    ensures Proven(input.(log := WithPadding(input.log, k, amount)), e, base, cut, original)
  {
    PaddingKeepsChain(input, base, cut, k, amount);
    PaddingStillChecked(e, input.log, k, amount, cut, original);
  }

  /** What is stored on an account changes by what a changed journal posts there. */
  lemma {:induction false} StoredWithPadding(log: seq<LogTrade>, k: nat, amount: int)
    requires k < |log|
    ensures StoredOn(WithPadding(log, k, amount), Elsewhere(1)) == StoredOn(log, Elsewhere(1)) + amount
    decreases |log|
  {
    var n, a := |log| - 1, Elsewhere(1);
    var padded := WithPadding(log, k, amount);
    StoredNext(log, n, a);
    StoredNext(padded, n, a);
    assert log[..n + 1] == log && padded[..n + 1] == padded;
    if k == n {
      assert padded[..n] == log[..n];
      PaddedOnAccount(log[n].journal.postings, amount, a);
      SumEnds(OnAccount(log[n].journal.postings, a), amount);
    } else {
      assert padded[..n] == WithPadding(log[..n], k, amount);
      StoredWithPadding(log[..n], k, amount);
    }
  }

  lemma {:induction false} SumEnds(xs: seq<int>, x: int)
    ensures Sum(xs + [x]) == Sum(xs) + x
  {
    if xs == [] {
      assert [] + [x] == [x];
      SumOne(x);
    } else {
      assert (xs + [x])[1..] == xs[1..] + [x];
      SumEnds(xs[1..], x);
    }
  }

  /** Of an otherwise orderly log, exactly the padding strays. */
  lemma PaddingStrays(log: seq<LogTrade>, grants: seq<Journal>, k: nat, amount: int, targets: set<nat>)
    requires k < |log| && (forall t <- log :: OnlyTrades(t.journal, t.user))
    requires forall j <- grants :: WelcomeGrant(j, targets)
    ensures Stray(WithPadding(log, k, amount), grants, Elsewhere(1)) == amount
  {
    StoredWithPadding(log, k, amount);
    TradesStrayNowhere(log, Elsewhere(1));
    GrantsPostNothing(grants, targets, Elsewhere(1));
  }

  lemma DriftStrays(b: Books, log: seq<LogTrade>, targets: set<nat>, a: Account)
    requires a in b.cache && Kept(a, targets) && b.Drift(a) + Stray(log, b.grants, a) != 0
    ensures !NothingStrays(b, log, targets)
  {
  }

  /**
   A ledger that reconciles and a log that the first pass accepts, orderly but for one padded
   journal: the closing reconciliation is bound to refuse.
   */
  lemma PaddedLogStrays(b: Books, input: Incident, e: Engine, base: nat, cut: nat, original: Replayed, k: nat,
                        amount: int, targets: set<nat>)
    requires Proven(input, e, base, cut, original) && k < |input.log| && amount != 0
    requires forall t <- input.log :: OnlyTrades(t.journal, t.user)
    requires forall j <- b.grants :: WelcomeGrant(j, targets)
    requires b.Reconciled() && Elsewhere(1) in b.cache
    ensures Proven(input.(log := WithPadding(input.log, k, amount)), e, base, cut, original)
    ensures !NothingStrays(b, WithPadding(input.log, k, amount), targets)
  {
    PaddingStillProven(input, e, base, cut, original, k, amount);
    PaddingStrays(input.log, b.grants, k, amount, targets);
    DriftStrays(b, WithPadding(input.log, k, amount), targets, Elsewhere(1));
  }

  // ---------- From the replay to the closing check ----------

  lemma {:induction false} TotalOfBoth(some: map<nat, PositionState>, others: map<nat, PositionState>, outcome: Outcome)
    requires some.Keys !! others.Keys
    ensures TotalHeld(some + others, outcome) == TotalHeld(some, outcome) + TotalHeld(others, outcome)
    decreases |some|
  {
    if some.Keys == {} {
      assert some + others == others;
    } else {
      var user := AnyKey(some);
      var rest, both := some - {user}, some + others;
      TotalOfBoth(rest, others, outcome);
      TotalWithout(some, user, outcome);
      WithoutOne(some, others, user);
      TotalWithout(both, user, outcome);
      assert both - {user} == rest + others;
    }
  }

  lemma WithoutOne(some: map<nat, PositionState>, others: map<nat, PositionState>, user: nat)
    requires some.Keys !! others.Keys && user in some
    ensures (some + others) - {user} == (some - {user}) + others && (some + others)[user] == some[user]
  {
  }

  lemma {:induction false} SurvivorsStay(log: seq<LogTrade>, targets: set<nat>)
    ensures Traders(Survivors(log, targets)) == Traders(log) - targets
  {
    if log != [] {
      var n := |log| - 1;
      SurvivorsStay(log[..n], targets);
      TradersNext(log[..n], log[n]);
      TradersNext(Survivors(log[..n], targets), log[n]);
      assert log == log[..n] + [log[n]];
    }
  }

  /** Positions of those who never traded here and are not removed. */
  function Idle(row: MarketRow, log: seq<LogTrade>, targets: set<nat>): map<nat, PositionState> {
    map user | user in row.positions && user !in targets && user !in Traders(log) :: row.positions[user]
  }

  lemma LeftIsReplayedAndIdle(row: MarketRow, log: seq<LogTrade>, targets: set<nat>, replayed: map<nat, PositionState>)
    requires replayed.Keys == Traders(log) - targets && replayed.Keys <= row.positions.Keys
    ensures PositionsLeft(row, replayed, targets) == replayed + Idle(row, log, targets)
    ensures replayed.Keys !! Idle(row, log, targets).Keys
  {
    var left, idle := PositionsLeft(row, replayed, targets), Idle(row, log, targets);
    assert left.Keys == (replayed + idle).Keys;
  }

  /** The closing share check passes exactly when idle positions hold no shares. */
  lemma SharesCloseExactly(row: MarketRow, e: Engine, log: seq<LogTrade>, targets: set<nat>, replay: Replayed)
    requires ReplayAll(e, Survivors(log, targets)) == Ok(replay) && replay.positions.Keys <= row.positions.Keys
    ensures SharesStand(row, replay, targets) <==> Holds(Idle(row, log, targets), Inventory(0, 0))
  {
    var left, idle := Survivors(log, targets), Idle(row, log, targets);
    ReplayTraders(e, left);
    SurvivorsStay(log, targets);
    LeftIsReplayedAndIdle(row, log, targets, replay.positions);
    TotalOfBoth(replay.positions, idle, Yes);
    TotalOfBoth(replay.positions, idle, No);
    ReplayedHolds(e, left);
  }

  lemma ReplayedHolds(e: Engine, log: seq<LogTrade>)
    requires ReplayAll(e, log).Ok?
    ensures Holds(ReplayAll(e, log).value.positions, ReplayAll(e, log).value.inventory)
  {
    ReplayAccounts(e, log);
    var r := ReplayAll(e, log).value;
    assert TotalHeld(r.positions, Yes) == r.inventory.Of(Yes) && TotalHeld(r.positions, No) == r.inventory.Of(No);
  }

  /** The part of the collateral that did not come from this log. */
  function Subsidy(b: Books, log: seq<LogTrade>): int
    requires Collateral in b.cache
  {
    b.cache[Collateral] - PostedAll(b.adjustments, Collateral) - StoredOn(log, Collateral)
  }

  /** Opened with at least the cost of an empty inventory, and priced as accurately as the reserve allows. */
  ghost predicate WellOpened(b: Books, log: seq<LogTrade>, m: Pricing, n: Numerics, g: Tail)
    requires Collateral in b.cache
  {
    && m.Valid() && CurveOk(g) && Accurate(n, g, m)
    && Subsidy(b, log) as real >= Potential(g, m, Inventory(0, 0))
  }

  /** If the market was opened with at least the cost of an empty inventory, the closing collateral check passes. */
  lemma CollateralCloses(b: Books, e: Engine, g: Tail, log: seq<LogTrade>, plan: Plan, targets: set<nat>)
    requires e.m.Valid() && CurveOk(g) && Accurate(e.n, g, e.m) && Ascending(log) && Collateral in b.cache
    requires plan.surviving == Survivors(log, targets) && ReplayAll(e, plan.surviving) == Ok(plan.replay)
    requires |plan.replay.quotes| == |plan.surviving|
    requires Subsidy(b, log) as real >= Potential(g, e.m, Inventory(0, 0))
    ensures BalanceLeft(b, log, AfterOf(plan), Collateral, 0) >= Required(e.m, plan.replay.inventory)
  {
    SurvivorsLeaveSolvent(e, g, log, targets, Subsidy(b, log));
    CollectionsAreFlow(plan.surviving, plan.replay.quotes);
  }

  lemma HasPosting(j: Journal, a: Account)
    requires OnAccount(j.postings, a) != []
    ensures exists p <- j.postings :: p.account == a
  {
    if forall p <- j.postings :: p.account != a {
      NothingElsewhere(j.postings, a);
    }
  }

  lemma ProvenTradesTouchWallets(input: Incident, e: Engine, base: nat, cut: nat, original: Replayed)
    requires Proven(input, e, base, cut, original)
    ensures forall t <- input.log :: HasWalletPosting(t.journal)
  {
    forall t <- input.log ensures HasWalletPosting(t.journal) {
      var i :| 0 <= i < |input.log| && input.log[i] == t;
      assert StepChecked(e, input.log, cut, i);
      ReproducedTouchesWallet(e, ReplayAll(e, input.log[..i]).value, t, cut - 1 <= i <= cut);
    }
  }

  lemma ReproducedTouchesWallet(e: Engine, state: Replayed, t: LogTrade, boundary: bool)
    requires Replay.Reproduced(e, state, t, boundary)
    ensures HasWalletPosting(t.journal)
  {
    HasPosting(t.journal, Wallet(t.user));
  }

  lemma SurvivorsHavePositions(input: Incident, e: Engine, plan: Plan, targets: set<nat>)
    requires PlanHolds(input, e, plan) && plan.surviving == Survivors(input.log, targets)
    ensures plan.replay.positions.Keys <= input.positions.Keys && |plan.replay.quotes| == |plan.surviving|
  {
    ProvenReplays(input, e, plan.base, plan.cut, plan.original);
    ReplayTraders(e, input.log);
    ReplayTraders(e, plan.surviving);
    ReplayAccounts(e, plan.surviving);
    SurvivorsStay(input.log, targets);
  }

  /** A proved log's plan fits the ledger that holds its journals and the market it was read from. */
  lemma PlanFits(b: Books, row: MarketRow, input: Incident, e: Engine, plan: Plan, targets: set<nat>)
    requires PlanHolds(input, e, plan) && plan.surviving == Survivors(input.log, targets)
    requires row.positions == input.positions
    requires b.trades == JournalsOf(input.log) && b.offsets == [] && Collateral in b.cache
    requires forall j <- b.adjustments, p <- j.postings :: p.account in b.cache
    ensures Fits(b, row, input.log, plan, targets)
  {
    ProvenTradesTouchWallets(input, e, plan.base, plan.cut, plan.original);
    SurvivorsHavePositions(input, e, plan, targets);
  }

  datatype Failure = Replaying(plan: PlanFault) | Cleaning(fault: CleanupFault)

  /** With a position only for those who traded, the closing share check passes. */
  lemma SharesClose(row: MarketRow, e: Engine, log: seq<LogTrade>, targets: set<nat>, replay: Replayed)
    requires ReplayAll(e, Survivors(log, targets)) == Ok(replay) && replay.positions.Keys <= row.positions.Keys
    requires row.positions.Keys <= Traders(log)
    ensures SharesStand(row, replay, targets)
  {
    SharesCloseExactly(row, e, log, targets, replay);
    assert Idle(row, log, targets) == map[];
  }

  /** No trade was or is now stored under the market's new version or a later one, and the stored log has no chain. */
  ghost predicate NoVersionReturns(input: Incident, before: MarketRow, after: MarketRow, targets: set<nat>, base: nat) {
    && before.version < after.version
    && (forall t <- input.log :: t.version < after.version)
    && (forall t <- Renumbered(Survivors(input.log, targets), base) :: t.version < after.version)
    && forall stored: Incident, b: nat, c: nat ::
         stored.log == Renumbered(Survivors(input.log, targets), base) && stored.version == after.version ==>
           !ChainOk(stored, b, c)
  }

  lemma VersionsStayBelow(input: Incident, before: MarketRow, after: MarketRow, targets: set<nat>, base: nat, cut: nat)
    requires ChainOk(input, base, cut) && before.version == input.version && after.version == before.version + 1
    ensures NoVersionReturns(input, before, after, targets, base)
  {
    var left := Survivors(input.log, targets);
    SurvivorsRenumber(input.log, targets, base, 0, after.version);
    forall t <- Renumbered(left, base) ensures t.version < after.version {
      var k :| 0 <= k < |left| && Renumbered(left, base)[k] == t;
    }
    forall stored: Incident, b: nat, c: nat | stored.log == Renumbered(left, base) && stored.version == after.version
      ensures !ChainOk(stored, b, c)
    {
      RepairedIsRefused(input, stored, targets, base, cut);
    }
  }

  /**
   The whole script: both passes over the log, then the rewriting. The closing check on shares
   never fails, and the one on collateral never fails for a market that was opened with the
   cost of an empty inventory.
   */
  method Remediate(store: LedgerStore, input: Incident, m: Pricing, n: Numerics, targets: set<nat>, ghost g: Tail)
    returns (r: Result<Plan, Failure>)
    requires store.books.trades == JournalsOf(input.log) && store.books.offsets == [] && Collateral in store.books.cache
    requires forall j <- store.books.adjustments, p <- j.postings :: p.account in store.books.cache
    requires store.market == MarketRow(input.inventory, input.volume, input.version, input.positions)
    modifies store
    ensures r.Err? ==> store.books == old(store.books) && store.market == old(store.market)
    ensures r.Err? && r.error.Replaying? && r.error.plan.Strangers? ==> !(input.positions.Keys <= Traders(input.log))
    ensures r.Err? && r.error.Replaying? && !r.error.plan.Repricing? && !r.error.plan.Strangers? ==>
              !Provable(input, m, n)
    ensures r.Err? && r.error.Replaying? && r.error.plan.Repricing? ==> Unpriced(input, m, n, targets, r.error.plan.f)
    ensures r != Err(Cleaning(SharesDiffer))
    ensures WellOpened(old(store.books), input.log, m, n, g) ==> r != Err(Cleaning(Undercollateralized))
    ensures r.Ok? ==> r.value.surviving == Survivors(input.log, targets)
    ensures r.Ok? ==> store.market == RowLeft(old(store.market), r.value.replay, targets)
    ensures r.Ok? ==> MarketAfter(old(store.market), store.market, r.value.replay, targets)
    ensures r.Ok? ==> NoVersionReturns(input, old(store.market), store.market, targets, r.value.base)
    ensures r.Ok? ==> Collateral in store.books.cache && Closes(store.books, store.market, m, store.mayBeNegative)
  {
    var built := BuildReplay(input, m, n, targets);
    if built.Err? {
      return Err(Replaying(built.error));
    }
    var plan := built.value;
    ghost var e := EngineAt(input, m, n, plan.cut);
    ghost var b, row := store.books, store.market;
    PlanFits(b, row, input, e, plan, targets);
    SharesClose(row, e, input.log, targets, plan.replay);
    var fault := store.ApplyCleanup(input.log, plan, targets, m);
    if fault.None? {
      VersionsStayBelow(input, row, store.market, targets, plan.base, plan.cut);
      return Ok(plan);
    }
    NeverUndercollateralized(b, input, e, g, plan, targets);
    return Err(Cleaning(fault.value));
  }

  lemma NeverUndercollateralized(b: Books, input: Incident, e: Engine, g: Tail, plan: Plan, targets: set<nat>)
    requires PlanHolds(input, e, plan) && plan.surviving == Survivors(input.log, targets)
    requires |plan.replay.quotes| == |plan.surviving| && Collateral in b.cache
    ensures WellOpened(b, input.log, e.m, e.n, g) ==>
              BalanceLeft(b, input.log, AfterOf(plan), Collateral, 0) >= Required(e.m, plan.replay.inventory)
  {
    if WellOpened(b, input.log, e.m, e.n, g) {
      CollateralCloses(b, e, g, input.log, plan, targets);
    }
  }
}
