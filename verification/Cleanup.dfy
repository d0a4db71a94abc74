/**
 Rewriting the ledger after some users' trades are taken out of a market's history. The
 surviving trades are repriced, the removed ones disappear with their grants and reviewed
 adjustments, and an offsetting journal keeps every innocent wallet where it was.
 */
module Cleanup {
  import opened Wrappers
  import opened Orders
  import opened Curve
  import opened Quotes
  import opened Positions
  import opened Ledger
  import opened Replay

  // ---------- What repriced trades move ----------

  /** What the trades of a log move on one account, at the given quotes. */
  function Flow(log: seq<LogTrade>, quotes: seq<Quote>, a: Account): int
    requires |quotes| == |log|
    decreases |log|
  {
    if log == [] then 0 else
    var n := |log| - 1;
    Flow(log[..n], quotes[..n], a) + TradePosted(log[n].user, quotes[n], a)
  }

  /** A market's trades with what each is executed at. */
  datatype History = History(log: seq<LogTrade>, quotes: seq<Quote>) {
    predicate Valid() {
      |quotes| == |log|
    }

    function On(a: Account): int
      requires Valid()
    {
      Flow(log, quotes, a)
    }
  }

  function Repriced(log: seq<LogTrade>, quotes: seq<Quote>): (journals: seq<Journal>)
    requires |quotes| == |log|
    ensures |journals| == |log|
    ensures forall i ::
              0 <= i < |log| ==> journals[i] == Journal(log[i].journal.id, TradePostings(log[i].user, quotes[i]))
  {
    seq(|log|, i requires 0 <= i < |log| => Journal(log[i].journal.id, TradePostings(log[i].user, quotes[i])))
  }

  lemma RepricedNext(log: seq<LogTrade>, quotes: seq<Quote>, n: nat, a: Account)
    requires |quotes| == |log| == n + 1
    ensures PostedAll(Repriced(log, quotes), a) ==
            PostedAll(Repriced(log[..n], quotes[..n]), a) + TradePosted(log[n].user, quotes[n], a)
  {
    assert Repriced(log, quotes)[..n] == Repriced(log[..n], quotes[..n]);
    TradePostingsBalance(log[n].user, quotes[n], a);
  }

  lemma RepricedIsBalanced(log: seq<LogTrade>, quotes: seq<Quote>)
    requires |quotes| == |log|
    ensures forall j <- Repriced(log, quotes) :: Balanced(j)
  {
    forall i | 0 <= i < |log| ensures Balanced(Repriced(log, quotes)[i]) {
      TradePostingsBalance(log[i].user, quotes[i], Collateral);
    }
  }

  lemma {:induction false} RepricedFlow(log: seq<LogTrade>, quotes: seq<Quote>, a: Account)
    requires |quotes| == |log|
    ensures PostedAll(Repriced(log, quotes), a) == Flow(log, quotes, a)
    ensures forall j <- Repriced(log, quotes) :: Balanced(j)
    decreases |log|
  {
    RepricedIsBalanced(log, quotes);
    if log != [] {
      var n := |log| - 1;
      RepricedFlow(log[..n], quotes[..n], a);
      RepricedNext(log, quotes, n, a);
    }
  }

  /** Repriced trades move wallets, the pool and revenue, and nothing else. */
  lemma {:induction false} FlowElsewhere(h: History, a: Account)
    requires h.Valid()
    ensures !a.Wallet? && !a.Collateral? && !a.Revenue? ==> h.On(a) == 0
    decreases |h.log|
  {
    if h.log != [] {
      FlowElsewhere(History(h.log[..|h.log| - 1], h.quotes[..|h.log| - 1]), a);
    }
  }

  lemma {:induction false} NoFlowWithoutTrades(log: seq<LogTrade>, quotes: seq<Quote>, user: nat)
    requires |quotes| == |log| && forall t <- log :: t.user != user
    ensures Flow(log, quotes, Wallet(user)) == 0
    decreases |log|
  {
    if log != [] {
      NoFlowWithoutTrades(log[..|log| - 1], quotes[..|log| - 1], user);
    }
  }

  /** What repriced trades bring the pool is what their quotes collect. */
  lemma {:induction false} CollectionsAreFlow(log: seq<LogTrade>, quotes: seq<Quote>)
    requires |quotes| == |log|
    ensures Collections(quotes) == Flow(log, quotes, Collateral)
    decreases |log|
  {
    if log != [] {
      CollectionsAreFlow(log[..|log| - 1], quotes[..|log| - 1]);
    }
  }

  // ---------- What stored trades moved, posting by posting ----------

  function JournalsOf(log: seq<LogTrade>): (journals: seq<Journal>)
    ensures |journals| == |log| && forall i :: 0 <= i < |log| ==> journals[i] == log[i].journal
  {
    seq(|log|, i requires 0 <= i < |log| => log[i].journal)
  }

  function StoredOn(log: seq<LogTrade>, a: Account): int {
    PostedAll(JournalsOf(log), a)
  }

  /** Everything a journal posts to wallets, whoever's they are. */
  function OnWallets(postings: seq<Posting>): int {
    if postings == [] then 0 else
    var last := postings[|postings| - 1];
    OnWallets(postings[..|postings| - 1]) + (if last.account.Wallet? then last.amount else 0)
  }

  /** The cash the cleanup credits to a trader: all wallet postings of the trader's own trades. */
  function CashOf(log: seq<LogTrade>, user: nat): int {
    if log == [] then 0 else
    var last := log[|log| - 1];
    CashOf(log[..|log| - 1], user) + (if last.user == user then OnWallets(last.journal.postings) else 0)
  }

  predicate HasWalletPosting(j: Journal) {
    exists p <- j.postings :: p.account.Wallet?
  }

  lemma {:induction false} OnAccountNext(postings: seq<Posting>, k: nat, a: Account)
    requires k < |postings|
    ensures Sum(OnAccount(postings[..k + 1], a)) ==
            Sum(OnAccount(postings[..k], a)) + (if postings[k].account == a then postings[k].amount else 0)
    decreases k
  {
    var p := postings[0];
    if k == 0 {
      assert postings[..1] == [p] + [] && [p][1..] == [];
      SumThen(p, [], a);
    } else {
      var rest := postings[1..];
      OnAccountNext(rest, k - 1, a);
      assert postings[..k + 1][1..] == rest[..k] && postings[..k][1..] == rest[..k - 1];
      SumThen(p, OnAccount(rest[..k], a), a);
      SumThen(p, OnAccount(rest[..k - 1], a), a);
    }
  }

  /** What has been read of a trade's postings. */
  datatype Reading = Reading(touched: bool, cash: int, fees: int, collected: int)

  ghost predicate HasRead(postings: seq<Posting>, r: Reading) {
    && (r.touched <==> exists p <- postings :: p.account.Wallet?)
    && r.cash == OnWallets(postings) && (!r.touched ==> r.cash == 0)
    && r.fees == Sum(OnAccount(postings, Revenue)) && r.collected == Sum(OnAccount(postings, Collateral))
  }

  function Read(r: Reading, p: Posting): Reading {
    match p.account
    case Wallet(_) => r.(touched := true, cash := r.cash + p.amount)
    case Revenue => r.(fees := r.fees + p.amount)
    case Collateral => r.(collected := r.collected + p.amount)
    case _ => r
  }

  lemma ReadNext(postings: seq<Posting>, k: nat, r: Reading)
    requires k < |postings| && HasRead(postings[..k], r)
    ensures HasRead(postings[..k + 1], Read(r, postings[k]))
  {
    OnAccountNext(postings, k, Revenue);
    OnAccountNext(postings, k, Collateral);
    WalletsNext(postings, k);
  }

  lemma WalletsNext(postings: seq<Posting>, k: nat)
    requires k < |postings|
    ensures OnWallets(postings[..k + 1]) ==
            OnWallets(postings[..k]) + (if postings[k].account.Wallet? then postings[k].amount else 0)
    ensures (exists p <- postings[..k + 1] :: p.account.Wallet?) <==>
              (exists p <- postings[..k] :: p.account.Wallet?) || postings[k].account.Wallet?
  {
    assert postings[..k + 1][..k] == postings[..k];
    assert postings[..k + 1] == postings[..k] + [postings[k]];
  }

  /** The postings of one stored trade, read once. */
  method ReadTrade(j: Journal) returns (r: Reading)
    ensures HasRead(j.postings, r)
  {
    var postings := j.postings;
    r := Reading(false, 0, 0, 0);
    for k := 0 to |postings|
      invariant HasRead(postings[..k], r)
    {
      ReadNext(postings, k, r);
      r := Read(r, postings[k]);
    }
    assert postings[..|postings|] == postings;
  }

  function Lookup(cash: map<nat, int>, user: nat): int {
    if user in cash then cash[user] else 0
  }

  lemma StoredNext(log: seq<LogTrade>, k: nat, a: Account)
    requires k < |log|
    ensures StoredOn(log[..k + 1], a) == StoredOn(log[..k], a) + Posted(log[k].journal, a)
  {
    assert JournalsOf(log[..k + 1]) == JournalsOf(log[..k]) + [log[k].journal];
    PostedNext(JournalsOf(log[..k]), log[k].journal, a);
  }

  /** What has been found after the first `k` trades of a stored log. */
  ghost predicate CashSoFar(log: seq<LogTrade>, k: nat, cash: map<nat, int>, fees: int, collected: int)
    requires k <= |log|
  {
    && (forall user :: Lookup(cash, user) == CashOf(log[..k], user))
    && (forall user ::
          user in cash <==> exists i :: 0 <= i < k && log[i].user == user && HasWalletPosting(log[i].journal))
    && fees == StoredOn(log[..k], Revenue) && collected == StoredOn(log[..k], Collateral)
  }

  function Credited(cash: map<nat, int>, user: nat, r: Reading): map<nat, int> {
    if r.touched then cash[user := Lookup(cash, user) + r.cash] else cash
  }

  lemma CashOfNext(log: seq<LogTrade>, k: nat, user: nat)
    requires k < |log|
    ensures CashOf(log[..k + 1], user) ==
            CashOf(log[..k], user) + (if log[k].user == user then OnWallets(log[k].journal.postings) else 0)
  {
    assert log[..k + 1][..k] == log[..k];
  }

  lemma CashNext(log: seq<LogTrade>, k: nat, cash: map<nat, int>, fees: int, collected: int, r: Reading)
    requires k < |log| && CashSoFar(log, k, cash, fees, collected) && HasRead(log[k].journal.postings, r)
    ensures CashSoFar(log, k + 1, Credited(cash, log[k].user, r), fees + r.fees, collected + r.collected)
  {
    forall user ensures Lookup(Credited(cash, log[k].user, r), user) == CashOf(log[..k + 1], user) {
      CashOfNext(log, k, user);
    }
    StoredNext(log, k, Revenue);
    StoredNext(log, k, Collateral);
  }

  /** Each trader's cash, the fees and the pool's takings over a stored log. */
  method OldCash(log: seq<LogTrade>) returns (cash: map<nat, int>, fees: int, collected: int)
    ensures forall user :: Lookup(cash, user) == CashOf(log, user)
    ensures forall user :: user in cash <==> exists t <- log :: t.user == user && HasWalletPosting(t.journal)
    ensures fees == StoredOn(log, Revenue) && collected == StoredOn(log, Collateral)
  {
    cash, fees, collected := map[], 0, 0;
    for k := 0 to |log|
      invariant CashSoFar(log, k, cash, fees, collected)
    {
      var r := ReadTrade(log[k].journal);
      CashNext(log, k, cash, fees, collected, r);
      cash, fees, collected := Credited(cash, log[k].user, r), fees + r.fees, collected + r.collected;
    }
    assert log[..|log|] == log;
  }

  /** What has been found after the first `k` trades of a repriced history. */
  ghost predicate RepricedSoFar(h: History, k: nat, cash: map<nat, int>, fees: int)
    requires h.Valid() && k <= |h.log|
  {
    && (forall user :: Lookup(cash, user) == Flow(h.log[..k], h.quotes[..k], Wallet(user)))
    && (forall user :: user in cash <==> exists i :: 0 <= i < k && h.log[i].user == user)
    && fees == Flow(h.log[..k], h.quotes[..k], Revenue)
  }

  lemma FlowNext(h: History, k: nat, a: Account)
    requires h.Valid() && k < |h.log|
    ensures Flow(h.log[..k + 1], h.quotes[..k + 1], a) ==
            Flow(h.log[..k], h.quotes[..k], a) + TradePosted(h.log[k].user, h.quotes[k], a)
  {
    assert h.log[..k + 1][..k] == h.log[..k] && h.quotes[..k + 1][..k] == h.quotes[..k];
  }

  lemma RepricedSoFarNext(h: History, k: nat, cash: map<nat, int>, fees: int)
    requires h.Valid() && k < |h.log| && RepricedSoFar(h, k, cash, fees)
    ensures var user, quote := h.log[k].user, h.quotes[k];
            RepricedSoFar(h, k + 1, cash[user := Lookup(cash, user) + quote.Cash()], fees + quote.fee)
  {
    forall user: nat
      ensures Flow(h.log[..k + 1], h.quotes[..k + 1], Wallet(user)) ==
              Flow(h.log[..k], h.quotes[..k], Wallet(user)) + TradePosted(h.log[k].user, h.quotes[k], Wallet(user))
    {
      FlowNext(h, k, Wallet(user));
    }
    FlowNext(h, k, Revenue);
  }

  /** Each trader's cash and the fees over a repriced history. */
  method NewCash(h: History) returns (cash: map<nat, int>, fees: int)
    requires h.Valid()
    ensures forall user :: Lookup(cash, user) == h.On(Wallet(user))
    ensures fees == h.On(Revenue)
    ensures forall user :: user in cash <==> exists t <- h.log :: t.user == user
  {
    cash, fees := map[], 0;
    for k := 0 to |h.log|
      invariant RepricedSoFar(h, k, cash, fees)
    {
      RepricedSoFarNext(h, k, cash, fees);
      var t := h.log[k];
      cash := cash[t.user := Lookup(cash, t.user) + h.quotes[k].Cash()];
      fees := fees + h.quotes[k].fee;
    }
    assert h.log[..|h.log|] == h.log && h.quotes[..|h.log|] == h.quotes;
  }

  // ---------- Offsets ----------

  /** The journal that undoes, for one user, what repricing did to their wallet. */
  function Offset(id: nat, user: nat, delta: int): Journal {
    Journal(id, [Posting(Wallet(user), -delta), Posting(Issuance, delta)])
  }

  lemma OffsetPosts(id: nat, user: nat, delta: int, a: Account)
    ensures Balanced(Offset(id, user, delta))
    ensures Posted(Offset(id, user, delta), a) ==
            if a == Wallet(user) then -delta else if a == Issuance then delta else 0
  {
    var wallet, issuance := Posting(Wallet(user), -delta), Posting(Issuance, delta);
    AmountsOfTwo(wallet, issuance, []);
    OnAccountOfTwo(wallet, issuance, [], a);
    assert [wallet, issuance] + [] == [wallet, issuance];
  }

  datatype CleanupFault =
    | NoIssuance | NoWallet(user: nat) | NoRevenue | GrantMiscount | GrantMalformed(id: nat) | TargetPostingsRemain
    | Unbalanced(id: nat) | CacheDiffers(account: Account) | NegativeBalance(account: Account) | UserDiffers(user: nat)
    | SharesDiffer | Undercollateralized

  /** What the offsets must add to a wallet. */
  function OffsetDue(users: seq<nat>, targets: set<nat>, was: map<nat, int>, now: map<nat, int>, user: nat): int {
    if user in users && user !in targets then Lookup(was, user) - Lookup(now, user) else 0
  }

  function DueOf(users: seq<nat>, targets: set<nat>, was: map<nat, int>, now: map<nat, int>): nat -> int {
    (user: nat) => OffsetDue(users, targets, was, now, user)
  }

  /** What a list of offsets posts. */
  ghost predicate Offsets(offsets: seq<Journal>, issued: int, targets: set<nat>, due: nat -> int) {
    && (forall j <- offsets :: Balanced(j))
    && PostedAll(offsets, Issuance) == issued
    && (forall user :: PostedAll(offsets, Wallet(user)) == due(user))
    && (forall a: Account :: !a.Wallet? && !a.Issuance? ==> PostedAll(offsets, a) == 0)
    && (forall j <- offsets, p <- j.postings :: p.account.Wallet? ==> p.account.owner !in targets)
  }

  lemma OffsetsNext(offsets: seq<Journal>, issued: int, targets: set<nat>, due: nat -> int, id: nat, user: nat,
                    delta: int, next: nat -> int)
    requires Offsets(offsets, issued, targets, due) && user !in targets
    requires forall u :: next(u) == due(u) + (if u == user then -delta else 0)
    ensures Offsets(offsets + [Offset(id, user, delta)], issued + delta, targets, next)
  {
    var offset := Offset(id, user, delta);
    forall a ensures PostedAll(offsets + [offset], a) == PostedAll(offsets, a) + Posted(offset, a) {
      PostedNext(offsets, offset, a);
    }
    OffsetPosts(id, user, delta, Issuance);
    forall a ensures Posted(offset, a) == if a == Wallet(user) then -delta else if a == Issuance then delta else 0 {
      OffsetPosts(id, user, delta, a);
    }
  }

  lemma DueNext(users: seq<nat>, k: nat, targets: set<nat>, was: map<nat, int>, now: map<nat, int>, u: nat)
    requires DistinctUsers(users) && k < |users|
    ensures OffsetDue(users[..k + 1], targets, was, now, u) ==
            OffsetDue(users[..k], targets, was, now, u) +
        (if u == users[k] && u !in targets then Lookup(was, u) - Lookup(now, u) else 0)
  {
    assert users[..k + 1] == users[..k] + [users[k]] && users[k] !in users[..k];
  }

  /** The offsets of the first users, with that of one more if it is due one. */
  lemma OffsetsWithNext(offsets: seq<Journal>, issued: int, users: seq<nat>, k: nat, targets: set<nat>,
                        was: map<nat, int>, now: map<nat, int>)
    requires DistinctUsers(users) && k < |users|
    requires Offsets(offsets, issued, targets, DueOf(users[..k], targets, was, now))
    ensures var user := users[k];
            var delta := Lookup(now, user) - Lookup(was, user);
            if user !in targets && delta != 0
            then Offsets(offsets + [Offset(k, user, delta)], issued + delta, targets,
                         DueOf(users[..k + 1], targets, was, now))
            else Offsets(offsets, issued, targets, DueOf(users[..k + 1], targets, was, now))
  {
    var user := users[k];
    var delta := Lookup(now, user) - Lookup(was, user);
    var due, next := DueOf(users[..k], targets, was, now), DueOf(users[..k + 1], targets, was, now);
    forall u ensures next(u) == due(u) + (if u == user && u !in targets then -delta else 0) {
      DueNext(users, k, targets, was, now, u);
    }
    if user !in targets && delta != 0 {
      OffsetsNext(offsets, issued, targets, due, k, user, delta, next);
    } else {
      SameOffsets(offsets, issued, targets, due, next);
    }
  }

  /** One offset for every remaining trader whose history was repriced. */
  method OffsetUsers(users: seq<nat>, targets: set<nat>, was: map<nat, int>, now: map<nat, int>, wallets: set<Account>)
    returns (r: Result<(seq<Journal>, int), CleanupFault>)
    requires DistinctUsers(users)
    ensures r.Ok? ==> Offsets(r.value.0, r.value.1, targets, DueOf(users, targets, was, now))
    ensures r.Ok? <==> forall user <- users :: user in targets || Wallet(user) in wallets
    ensures r.Err? ==>
              r.error.NoWallet? && r.error.user in users && r.error.user !in targets && Wallet(r.error.user) !in wallets
  {
    var offsets: seq<Journal>, issued := [], 0;
    for k := 0 to |users|
      invariant Offsets(offsets, issued, targets, DueOf(users[..k], targets, was, now))
      invariant forall i :: 0 <= i < k ==> users[i] in targets || Wallet(users[i]) in wallets
    {
      var user := users[k];
      OffsetsWithNext(offsets, issued, users, k, targets, was, now);
      if user !in targets {
        var delta := Lookup(now, user) - Lookup(was, user);
        if Wallet(user) !in wallets {
          assert user in users;
          return Err(NoWallet(user));
        }
        if delta != 0 {
          offsets, issued := offsets + [Offset(k, user, delta)], issued + delta;
        }
      }
    }
    assert users[..|users|] == users;
    return Ok((offsets, issued));
  }

  /** The members of a set in some order, once each. */
  method ListOf(s: set<nat>) returns (list: seq<nat>)
    ensures forall x :: x in list <==> x in s
    ensures forall i, j :: 0 <= i < j < |list| ==> list[i] != list[j]
  {
    list := [];
    var rest := s;
    while rest != {}
      invariant rest <= s && forall x :: x in list <==> x in s - rest
      invariant forall i, j :: 0 <= i < j < |list| ==> list[i] != list[j]
      decreases rest
    {
      var x :| x in rest;
      assert forall y :: y in list + [x] <==> y in list || y == x;
      list, rest := list + [x], rest - {x};
    }
  }

  // ---------- Balances ----------

  function Get(cache: map<Account, int>, a: Account): int {
    if a in cache then cache[a] else 0
  }

  function Plus(cache: map<Account, int>, a: Account, amount: int): map<Account, int> {
    cache[a := Get(cache, a) + amount]
  }

  predicate ProperGrant(j: Journal) {
    OnAccount(j.postings, Issuance) != [] && OnAccount(j.postings, Issuance)[0] < 0
  }

  /** The first issuance posting of every grant: what the cleanup takes back. */
  function Recalled(grants: seq<Journal>): int {
    if grants == [] then 0 else
    var last := grants[|grants| - 1];
    Recalled(grants[..|grants| - 1]) + (if ProperGrant(last) then OnAccount(last.postings, Issuance)[0] else 0)
  }

  predicate DistinctUsers(users: seq<nat>) {
    forall i, j :: 0 <= i < j < |users| ==> users[i] != users[j]
  }

  /** Every removed user has exactly one grant, and each grant debits issuance. */
  predicate GrantsStand(grants: seq<Journal>, grantees: seq<nat>, targets: set<nat>) {
    |grants| == |targets| && DistinctUsers(grantees) && forall j <- grants :: ProperGrant(j)
  }

  /** The grants are not one for each removed user, or this one takes nothing from issuance. */
  predicate GrantsFail(fault: CleanupFault, grants: seq<Journal>, grantees: seq<nat>, targets: set<nat>) {
    match fault
    case GrantMiscount => |grants| != |targets| || !DistinctUsers(grantees)
    case GrantMalformed(id) =>
      exists j <- grants :: j.id == id && !ProperGrant(j)
    case _ => false
  }

  /** Takes back what the grants issued. */
  method CancelGrants(grants: seq<Journal>, grantees: seq<nat>, targets: set<nat>, cache: map<Account, int>)
    returns (r: Result<map<Account, int>, CleanupFault>)
    requires Issuance in cache
    ensures r.Ok? <==> GrantsStand(grants, grantees, targets)
    ensures r.Ok? ==> r.value == cache[Issuance := cache[Issuance] - Recalled(grants)]
    ensures r.Err? ==> GrantsFail(r.error, grants, grantees, targets)
  {
    if |grants| != |targets| || !DistinctUsers(grantees) {
      return Err(GrantMiscount);
    }
    var c := cache;
    for k := 0 to |grants|
      invariant c == cache[Issuance := cache[Issuance] - Recalled(grants[..k])]
      invariant forall j <- grants[..k] :: ProperGrant(j)
    {
      assert grants[..k + 1][..k] == grants[..k];
      var issued := OnAccount(grants[k].postings, Issuance);
      if issued == [] || issued[0] >= 0 {
        assert grants[k] in grants && !ProperGrant(grants[k]);
        return Err(GrantMalformed(grants[k].id));
      }
      c := c[Issuance := c[Issuance] - issued[0]];
    }
    assert grants[..|grants|] == grants;
    return Ok(c);
  }

  /** Undoes reviewed adjustments posting by posting. */
  method CancelAdjustments(adjustments: seq<Journal>, cache: map<Account, int>) returns (c: map<Account, int>)
    requires forall j <- adjustments, p <- j.postings :: p.account in cache
    ensures c.Keys == cache.Keys && forall a <- cache :: c[a] == cache[a] - PostedAll(adjustments, a)
  {
    c := cache;
    for k := 0 to |adjustments|
      invariant c.Keys == cache.Keys && forall a <- cache :: c[a] == cache[a] - PostedAll(adjustments[..k], a)
    {
      var postings := adjustments[k].postings;
      assert adjustments[k] in adjustments;
      for i := 0 to |postings|
        invariant c.Keys == cache.Keys
        invariant forall a <- cache ::
                    c[a] == cache[a] - PostedAll(adjustments[..k], a) - Sum(OnAccount(postings[..i], a))
      {
        forall a ensures Sum(OnAccount(postings[..i + 1], a)) ==
                         Sum(OnAccount(postings[..i], a))
                         + (if postings[i].account == a then postings[i].amount else 0) {
          OnAccountNext(postings, i, a);
        }
        c := Plus(c, postings[i].account, -postings[i].amount);
      }
      assert postings[..|postings|] == postings;
      assert adjustments[..k + 1][..k] == adjustments[..k];
    }
    assert adjustments[..|adjustments|] == adjustments;
  }

  /** What repricing itself moves. */
  function Shift(a: Account, issued: int, fees: int, pool: int): int {
    match a case Issuance => issued case Revenue => fees case Collateral => pool case _ => 0
  }

  method ShiftBalances(cache: map<Account, int>, issued: int, fees: int, pool: int) returns (c: map<Account, int>)
    requires {Issuance, Collateral} <= cache.Keys
    ensures c.Keys == cache.Keys
    ensures forall a <- cache :: c[a] == cache[a] + Shift(a, issued, fees, pool)
  {
    c := Plus(cache, Issuance, issued);
    if Revenue in c {
      c := Plus(c, Revenue, fees);
    }
    c := Plus(c, Collateral, pool);
  }

  lemma RecallShifts(cache: map<Account, int>, shifted: map<Account, int>, taken: int, issued: int, fees: int,
                     pool: int)
    requires Issuance in cache && shifted.Keys == cache.Keys
    requires forall a <- cache :: shifted[a] == cache[a] + Shift(a, issued, fees, pool)
    ensures var recalled := shifted[Issuance := shifted[Issuance] - taken];
            recalled.Keys == cache.Keys
            && forall a <- cache :: recalled[a] == cache[a] + Shift(a, issued - taken, fees, pool)
  {
  }

  /** All balances moved: repriced, grants taken back, adjustments undone. */
  method MoveBalances(b: Books, targets: set<nat>, issued: int, fees: int, pool: int)
    returns (r: Result<map<Account, int>, CleanupFault>)
    requires {Issuance, Collateral} <= b.cache.Keys
    requires forall j <- b.adjustments, p <- j.postings :: p.account in b.cache
    ensures r.Ok? <==> GrantsStand(b.grants, b.grantees, targets)
    ensures r.Ok? ==> r.value.Keys == b.cache.Keys
    ensures r.Ok? ==> forall a <- b.cache ::
      r.value[a] == b.cache[a] - PostedAll(b.adjustments, a) + Shift(a, issued - Recalled(b.grants), fees, pool)
    ensures r.Err? ==> GrantsFail(r.error, b.grants, b.grantees, targets)
  {
    var shifted := ShiftBalances(b.cache, issued, fees, pool);
    var recalled := CancelGrants(b.grants, b.grantees, targets, shifted);
    if recalled.Err? {
      return Err(recalled.error);
    }
    RecallShifts(b.cache, shifted, Recalled(b.grants), issued, fees, pool);
    var c := CancelAdjustments(b.adjustments, recalled.value);
    return Ok(c);
  }

  // ---------- The ledger ----------

  /** The ledger by what its journals are about, and the balances users are shown. */
  datatype Books = Books(
    cache: map<Account, int>, others: seq<Journal>, trades: seq<Journal>,
    grants: seq<Journal>, grantees: seq<nat>, adjustments: seq<Journal>, offsets: seq<Journal>, shown: map<nat, int>)
  {
    function Journals(): seq<Journal> {
      others + trades + grants + adjustments + offsets
    }

    function Posted(a: Account): int {
      PostedAll(Journals(), a)
    }

    /** How far a cached balance is from its postings. */
    function Drift(a: Account): int
      requires a in cache
    {
      cache[a] - Posted(a)
    }

    predicate Reconciled() {
      (forall j <- Journals() :: Balanced(j)) && forall a <- cache :: Drift(a) == 0
    }
  }

  lemma PostedByParts(b: Books, a: Account)
    ensures b.Posted(a) == PostedAll(b.others, a) + PostedAll(b.trades, a) + PostedAll(b.grants, a)
                           + PostedAll(b.adjustments, a) + PostedAll(b.offsets, a)
  {
    PostedConcat(b.others + b.trades + b.grants + b.adjustments, b.offsets, a);
    PostedConcat(b.others + b.trades + b.grants, b.adjustments, a);
    PostedConcat(b.others + b.trades, b.grants, a);
    PostedConcat(b.others, b.trades, a);
  }

  predicate PostsToTargets(journals: seq<Journal>, targets: set<nat>) {
    exists j <- journals, p <- j.postings :: p.account.Wallet? && p.account.owner in targets
  }

  predicate Kept(a: Account, targets: set<nat>) {
    !(a.Wallet? && a.owner in targets)
  }

  function WithoutTargets(cache: map<Account, int>, targets: set<nat>): map<Account, int> {
    map a | a in cache && Kept(a, targets) :: cache[a]
  }

  /**
   What the removed journals posted to an account beyond what the cleanup takes account of:
   of the trades, the traders' wallets, the pool and revenue; of the grants, one issuance
   posting each.
   */
  function Stray(log: seq<LogTrade>, grants: seq<Journal>, a: Account): int {
    PostedAll(grants, a) +
    match a
    case Wallet(user) => StoredOn(log, a) - CashOf(log, user)
    case Collateral => 0
    case Revenue => 0
    case Issuance => StoredOn(log, a) - Recalled(grants)
    case _ => StoredOn(log, a)
  }

  /** The balance the cleanup leaves on an account it keeps; `issued` is what the offsets issue. */
  function BalanceLeft(b: Books, log: seq<LogTrade>, after: History, a: Account, issued: int): int
    requires after.Valid() && a in b.cache
  {
    b.cache[a] - PostedAll(b.adjustments, a)
    + Shift(a, issued - Recalled(b.grants), after.On(Revenue) - StoredOn(log, Revenue),
            after.On(Collateral) - StoredOn(log, Collateral))
  }

  /** What the offsets owe a user. */
  ghost function OffsetOf(log: seq<LogTrade>, after: History, targets: set<nat>): nat -> int
    requires after.Valid()
  {
    (user: nat) requires after.Valid() => OffsetFor(log, after, targets, user)
  }

  ghost function OffsetFor(log: seq<LogTrade>, after: History, targets: set<nat>, user: nat): int
    requires after.Valid()
  {
    if user in targets then 0 else CashOf(log, user) - after.On(Wallet(user))
  }

  /** The ledger the cleanup leaves. */
  ghost predicate Cleaned(b: Books, c: Books, log: seq<LogTrade>, after: History, targets: set<nat>, issued: int) {
    && after.Valid()
    && c == Books(c.cache, b.others, Repriced(after.log, after.quotes), [], [], [], c.offsets, c.shown)
    && c.shown == (map user | user in b.shown && user !in targets :: b.shown[user])
    && c.cache.Keys == WithoutTargets(b.cache, targets).Keys
    && (forall a <- c.cache :: c.cache[a] == BalanceLeft(b, log, after, a, issued))
    && Offsets(c.offsets, issued, targets, OffsetOf(log, after, targets))
  }

  /** How far each balance ends up from its postings: as far as before, and by whatever strayed. */
  lemma DriftAfter(b: Books, c: Books, log: seq<LogTrade>, after: History, targets: set<nat>, issued: int, a: Account)
    requires Cleaned(b, c, log, after, targets, issued) && b.trades == JournalsOf(log) && b.offsets == []
    requires a in c.cache
    ensures c.Drift(a) == b.Drift(a) + Stray(log, b.grants, a)
  {
    PostedByParts(b, a);
    PostedByParts(c, a);
    RepricedFlow(after.log, after.quotes, a);
    FlowElsewhere(after, a);
    OffsetsReach(c.offsets, issued, log, after, targets, a);
    assert Kept(a, targets) by {
      assert a in WithoutTargets(b.cache, targets);
    }
    assert c.Posted(a) == PostedAll(b.others, a) + after.On(a) + PostedAll(c.offsets, a);
  }

  lemma OffsetsReach(offsets: seq<Journal>, issued: int, log: seq<LogTrade>, after: History, targets: set<nat>,
                     a: Account)
    requires after.Valid() && Offsets(offsets, issued, targets, OffsetOf(log, after, targets))
    ensures PostedAll(offsets, a) ==
            match a
            case Issuance => issued
            case Wallet(user) => OffsetFor(log, after, targets, user)
            case _ => 0
  {
  }

  /** What the cleanup is for: nobody who stays, and was not adjusted, gains or loses anything by it. */
  lemma InnocentWalletStays(b: Books, c: Books, log: seq<LogTrade>, after: History, targets: set<nat>, issued: int,
                            user: nat)
    requires Cleaned(b, c, log, after, targets, issued) && b.trades == JournalsOf(log) && b.offsets == []
    requires Wallet(user) in c.cache && PostedAll(b.adjustments, Wallet(user)) == 0
    requires Stray(log, b.grants, Wallet(user)) == 0
    ensures c.cache[Wallet(user)] == b.cache[Wallet(user)]
    ensures c.Posted(Wallet(user)) == b.Posted(Wallet(user))
  {
    DriftAfter(b, c, log, after, targets, issued, Wallet(user));
    assert c.cache[Wallet(user)] == BalanceLeft(b, log, after, Wallet(user), issued);
  }

  // ---------- The market's own row ----------

  datatype MarketRow = MarketRow(inventory: Inventory, volume: nat, version: nat, positions: map<nat, PositionState>)

  /** Positions after the cleanup: removed users' are gone, survivors' are replayed, the rest stay. */
  function PositionsLeft(row: MarketRow, replayed: map<nat, PositionState>,
                         targets: set<nat>): map<nat, PositionState> {
    map user | user in row.positions && user !in targets ::
      if user in replayed then replayed[user] else row.positions[user]
  }

  /** The version only ever rises, so no quote made before can become valid again. */
  function RowLeft(row: MarketRow, replay: Replayed, targets: set<nat>): MarketRow {
    MarketRow(replay.inventory, replay.volume, row.version + 1, PositionsLeft(row, replay.positions, targets))
  }

  /**
   The market as a cleanup leaves it: the totals of the replay, a version no quote was ever made
   under, nobody removed, the replayed position of whoever was replayed, and everyone else's own.
   */
  ghost predicate MarketAfter(before: MarketRow, after: MarketRow, replay: Replayed, targets: set<nat>) {
    && after.inventory == replay.inventory && after.volume == replay.volume && after.version == before.version + 1
    && (forall user :: user in after.positions <==> user in before.positions && user !in targets)
    && forall user <- after.positions ::
         after.positions[user] ==
         if user in replay.positions then replay.positions[user] else before.positions[user]
  }

  lemma RowIsMarketAfter(row: MarketRow, replay: Replayed, targets: set<nat>)
    ensures MarketAfter(row, RowLeft(row, replay, targets), replay, targets)
  {
  }

  /** Positions hold, all together, exactly these shares. */
  ghost predicate Holds(positions: map<nat, PositionState>, shares: Inventory) {
    TotalHeld(positions, Yes) == shares.yes && TotalHeld(positions, No) == shares.no
  }

  method SumShares(positions: map<nat, PositionState>) returns (yes: nat, no: nat)
    ensures yes == TotalHeld(positions, Yes) && no == TotalHeld(positions, No)
  {
    yes, no := 0, 0;
    var rest := positions;
    assert positions - {} == positions;
    while rest.Keys != {}
      invariant yes + TotalHeld(rest, Yes) == TotalHeld(positions, Yes)
      invariant no + TotalHeld(rest, No) == TotalHeld(positions, No)
      decreases |rest|
    {
      var user :| user in rest;
      TotalWithout(rest, user, Yes);
      TotalWithout(rest, user, No);
      yes, no := yes + rest[user].Held(Yes), no + rest[user].Held(No);
      rest := rest - {user};
    }
  }

  // ---------- The reconciliation at the end ----------

  predicate NoneNegative(cache: map<Account, int>, mayBeNegative: set<Account>) {
    forall a <- cache :: a in mayBeNegative || cache[a] >= 0
  }

  predicate UsersShown(shown: map<nat, int>, cache: map<Account, int>) {
    forall user <- shown :: Wallet(user) in cache && cache[Wallet(user)] == shown[user]
  }

  /** What the last check of all asks of the ledger and of the market. */
  ghost predicate Closes(c: Books, row: MarketRow, m: Pricing, mayBeNegative: set<Account>)
    requires Collateral in c.cache
  {
    && c.Reconciled() && NoneNegative(c.cache, mayBeNegative) && UsersShown(c.shown, c.cache)
    && Holds(row.positions, row.inventory)
    && c.cache[Collateral] >= Required(m, row.inventory)
  }

  /** Why the last check can fail. */
  ghost predicate Objects(fault: CleanupFault, c: Books, row: MarketRow, m: Pricing, mayBeNegative: set<Account>)
    requires Collateral in c.cache
  {
    match fault
    case Unbalanced(id) => exists j <- c.Journals() :: j.id == id && !Balanced(j)
    case CacheDiffers(a) => a in c.cache && c.Drift(a) != 0
    case NegativeBalance(a) => a in c.cache && a !in mayBeNegative && c.cache[a] < 0
    case UserDiffers(user) => user in c.shown && (Wallet(user) !in c.cache || c.cache[Wallet(user)] != c.shown[user])
    case SharesDiffer => !Holds(row.positions, row.inventory)
    case Undercollateralized => c.cache[Collateral] < Required(m, row.inventory)
    case _ => false
  }

  /** Every journal, every cached balance and every shown balance, in that order. */
  method AssertReconciles(c: Books, mayBeNegative: set<Account>, ghost row: MarketRow, ghost m: Pricing)
    returns (fault: Option<CleanupFault>)
    requires Collateral in c.cache
    ensures fault.None? <==> c.Reconciled() && NoneNegative(c.cache, mayBeNegative) && UsersShown(c.shown, c.cache)
    ensures fault.Some? ==> Objects(fault.value, c, row, m, mayBeNegative)
  {
    var journals := c.Journals();
    for k := 0 to |journals|
      invariant forall i :: 0 <= i < k ==> Balanced(journals[i])
    {
      if !Balanced(journals[k]) {
        return Some(Unbalanced(journals[k].id));
      }
    }
    var accounts := c.cache.Keys;
    while accounts != {}
      invariant accounts <= c.cache.Keys
      invariant forall a <- c.cache :: a in accounts || (c.Drift(a) == 0 && (a in mayBeNegative || c.cache[a] >= 0))
      decreases accounts
    {
      var a :| a in accounts;
      if c.Drift(a) != 0 {
        return Some(CacheDiffers(a));
      }
      if a !in mayBeNegative && c.cache[a] < 0 {
        return Some(NegativeBalance(a));
      }
      accounts := accounts - {a};
    }
    var users := c.shown.Keys;
    while users != {}
      invariant users <= c.shown.Keys
      invariant forall u <- c.shown :: u in users || (Wallet(u) in c.cache && c.cache[Wallet(u)] == c.shown[u])
      decreases users
    {
      var user :| user in users;
      if Wallet(user) !in c.cache || c.cache[Wallet(user)] != c.shown[user] {
        return Some(UserDiffers(user));
      }
      users := users - {user};
    }
    return None;
  }

  /** The whole closing check; it passes exactly on a ledger and a market that close. */
  method AssertCloses(c: Books, row: MarketRow, m: Pricing, mayBeNegative: set<Account>)
    returns (fault: Option<CleanupFault>)
    requires Collateral in c.cache
    ensures fault.None? <==> Closes(c, row, m, mayBeNegative)
    ensures fault.Some? ==> Objects(fault.value, c, row, m, mayBeNegative)
  {
    fault := AssertReconciles(c, mayBeNegative, row, m);
    if fault.Some? {
      return;
    }
    var yes, no := SumShares(row.positions);
    if yes != row.inventory.yes || no != row.inventory.no {
      return Some(SharesDiffer);
    }
    if c.cache[Collateral] < Required(m, row.inventory) {
      return Some(Undercollateralized);
    }
  }

  // ---------- The whole cleanup ----------

  /** What the plan and the database have in common: the plan is for this log, and foreign keys hold. */
  ghost predicate Fits(b: Books, row: MarketRow, log: seq<LogTrade>, plan: Plan, targets: set<nat>) {
    && plan.surviving == Survivors(log, targets) && |plan.replay.quotes| == |plan.surviving|
    && b.trades == JournalsOf(log) && b.offsets == [] && (forall t <- log :: HasWalletPosting(t.journal))
    && Collateral in b.cache && (forall j <- b.adjustments, p <- j.postings :: p.account in b.cache)
    && plan.replay.positions.Keys <= row.positions.Keys
  }

  function AfterOf(plan: Plan): History {
    History(plan.surviving, plan.replay.quotes)
  }

  /** Every remaining trader has a wallet. */
  predicate WalletsStand(log: seq<LogTrade>, targets: set<nat>, wallets: set<Account>) {
    forall t <- log :: t.user in targets || Wallet(t.user) in wallets
  }

  /** There is a revenue account if there ever were fees. */
  predicate RevenueStands(log: seq<LogTrade>, after: History, wallets: set<Account>)
    requires after.Valid()
  {
    Revenue in wallets || (StoredOn(log, Revenue) == 0 && after.On(Revenue) == 0)
  }

  /** What is checked before any balance is compared. */
  ghost predicate Prepared(b: Books, log: seq<LogTrade>, after: History, targets: set<nat>, mayBeNegative: set<Account>)
    requires after.Valid()
  {
    && Issuance in b.cache && Issuance in mayBeNegative
    && WalletsStand(log, targets, b.cache.Keys) && RevenueStands(log, after, b.cache.Keys)
    && GrantsStand(b.grants, b.grantees, targets) && !PostsToTargets(b.others, targets)
  }

  /** What it takes, spelled out: accounts, one grant from issuance for each removed user, nothing left over. */
  lemma PreparedMeans(b: Books, log: seq<LogTrade>, after: History, targets: set<nat>, mayBeNegative: set<Account>)
    requires after.Valid()
    ensures Prepared(b, log, after, targets, mayBeNegative) <==>
            && Issuance in b.cache && Issuance in mayBeNegative
            && (forall t <- log :: t.user in targets || Wallet(t.user) in b.cache)
            && (Revenue in b.cache || (StoredOn(log, Revenue) == 0 && after.On(Revenue) == 0))
            && |b.grants| == |targets| && (forall i, j :: 0 <= i < j < |b.grantees| ==> b.grantees[i] != b.grantees[j])
            && (forall j <- b.grants ::
                  OnAccount(j.postings, Issuance) != [] && OnAccount(j.postings, Issuance)[0] < 0)
            && forall j <- b.others, p <- j.postings, user <- targets :: p.account != Wallet(user)
  {
    GrantsMean(b.grants);
    LeftoversMean(b.others, targets);
  }

  lemma GrantsMean(grants: seq<Journal>)
    ensures (forall j <- grants :: ProperGrant(j)) <==>
            forall j <- grants :: OnAccount(j.postings, Issuance) != [] && OnAccount(j.postings, Issuance)[0] < 0
  {
    forall j <- grants
      ensures ProperGrant(j) <==> OnAccount(j.postings, Issuance) != [] && OnAccount(j.postings, Issuance)[0] < 0
    {
    }
  }

  lemma LeftoversMean(journals: seq<Journal>, targets: set<nat>)
    ensures PostsToTargets(journals, targets) <==>
            exists j <- journals, p <- j.postings, user <- targets :: p.account == Wallet(user)
  {
    if PostsToTargets(journals, targets) {
      var j, p :| j in journals && p in j.postings && p.account.Wallet? && p.account.owner in targets;
      assert p.account == Wallet(p.account.owner);
    }
  }

  /** Nothing strays: wherever a kept balance was off by, the removed journals made up for it. */
  ghost predicate NothingStrays(b: Books, log: seq<LogTrade>, targets: set<nat>) {
    && (forall j <- b.others :: Balanced(j))
    && forall a <- b.cache :: Kept(a, targets) ==> b.Drift(a) + Stray(log, b.grants, a) == 0
  }

  ghost predicate NothingOverdrawn(b: Books, log: seq<LogTrade>, after: History, targets: set<nat>,
                                   mayBeNegative: set<Account>)
    requires after.Valid()
  {
    forall a <- b.cache :: Kept(a, targets) && a !in mayBeNegative ==> BalanceLeft(b, log, after, a, 0) >= 0
  }

  /** Every remaining user is shown what the wallet is left with. */
  ghost predicate ShownStands(b: Books, targets: set<nat>) {
    forall user <- b.shown :: user in targets ||
      (Wallet(user) in b.cache && b.cache[Wallet(user)] - PostedAll(b.adjustments, Wallet(user)) == b.shown[user])
  }

  ghost predicate SharesStand(row: MarketRow, replay: Replayed, targets: set<nat>) {
    Holds(PositionsLeft(row, replay.positions, targets), replay.inventory)
  }

  ghost predicate MarketStands(b: Books, row: MarketRow, log: seq<LogTrade>, plan: Plan, targets: set<nat>, m: Pricing)
    requires AfterOf(plan).Valid() && Collateral in b.cache
  {
    && SharesStand(row, plan.replay, targets)
    && BalanceLeft(b, log, AfterOf(plan), Collateral, 0) >= Required(m, plan.replay.inventory)
  }

  /** Everything that must be so, before the cleanup, for it to go through. */
  ghost predicate Settles(b: Books, row: MarketRow, log: seq<LogTrade>, plan: Plan, targets: set<nat>, m: Pricing,
                          mayBeNegative: set<Account>)
    requires Fits(b, row, log, plan, targets)
  {
    && Prepared(b, log, AfterOf(plan), targets, mayBeNegative)
    && NothingStrays(b, log, targets)
    && NothingOverdrawn(b, log, AfterOf(plan), targets, mayBeNegative)
    && ShownStands(b, targets)
    && MarketStands(b, row, log, plan, targets, m)
  }

  /** Refusals that come before any balance is compared. */
  ghost predicate Prevents(fault: CleanupFault, b: Books, log: seq<LogTrade>, after: History, targets: set<nat>,
                           mayBeNegative: set<Account>)
    requires after.Valid()
  {
    match fault
    case NoIssuance => Issuance !in b.cache || Issuance !in mayBeNegative
    case NoWallet(user) => user !in targets && Wallet(user) !in b.cache && exists t <- log :: t.user == user
    case NoRevenue => !RevenueStands(log, after, b.cache.Keys)
    case TargetPostingsRemain => PostsToTargets(b.others, targets)
    case _ => GrantsFail(fault, b.grants, b.grantees, targets)
  }

  /** What each refusal says about the ledger before the cleanup. */
  ghost predicate Blames(fault: CleanupFault, b: Books, row: MarketRow, log: seq<LogTrade>, plan: Plan,
                         targets: set<nat>,
                         m: Pricing, mayBeNegative: set<Account>)
    requires Fits(b, row, log, plan, targets)
  {
    match fault
    case Unbalanced(id) => exists j <- b.others :: j.id == id && !Balanced(j)
    case CacheDiffers(a) => a in b.cache && Kept(a, targets) && b.Drift(a) + Stray(log, b.grants, a) != 0
    case NegativeBalance(a) =>
      a in b.cache && Kept(a, targets) && a !in mayBeNegative && BalanceLeft(b, log, AfterOf(plan), a, 0) < 0
    case UserDiffers(user) => user in b.shown && user !in targets && !ShownStands(b, targets)
    case SharesDiffer => !SharesStand(row, plan.replay, targets)
    case Undercollateralized => BalanceLeft(b, log, AfterOf(plan), Collateral, 0) < Required(m, plan.replay.inventory)
    case _ => Prevents(fault, b, log, AfterOf(plan), targets, mayBeNegative)
  }

  /** Only issuance depends on what the offsets issue. */
  lemma BalanceWithoutIssue(b: Books, log: seq<LogTrade>, after: History, a: Account, issued: int)
    requires after.Valid() && a in b.cache && !a.Issuance?
    ensures BalanceLeft(b, log, after, a, issued) == BalanceLeft(b, log, after, a, 0)
  {
  }

  lemma RepricedBalances(c: Books, b: Books, log: seq<LogTrade>, after: History, targets: set<nat>, issued: int)
    requires Cleaned(b, c, log, after, targets, issued)
    ensures forall j <- c.Journals() :: j in b.others || Balanced(j)
    ensures forall j <- b.others :: j in c.Journals()
  {
    RepricedFlow(after.log, after.quotes, Collateral);
  }

  lemma LedgerCloses(b: Books, c: Books, log: seq<LogTrade>, after: History, targets: set<nat>, issued: int)
    requires Cleaned(b, c, log, after, targets, issued) && b.trades == JournalsOf(log) && b.offsets == []
    ensures c.Reconciled() <==> NothingStrays(b, log, targets)
  {
    RepricedBalances(c, b, log, after, targets, issued);
    forall a <- c.cache ensures c.Drift(a) == b.Drift(a) + Stray(log, b.grants, a) {
      DriftAfter(b, c, log, after, targets, issued, a);
    }
    assert forall a <- b.cache :: Kept(a, targets) <==> a in c.cache;
  }

  lemma OverdrawnAsBefore(b: Books, c: Books, log: seq<LogTrade>, after: History, targets: set<nat>, issued: int,
                          mayBeNegative: set<Account>)
    requires Cleaned(b, c, log, after, targets, issued) && Issuance in mayBeNegative
    ensures NoneNegative(c.cache, mayBeNegative) <==> NothingOverdrawn(b, log, after, targets, mayBeNegative)
  {
    forall a <- c.cache | !a.Issuance? ensures c.cache[a] == BalanceLeft(b, log, after, a, 0) {
      BalanceWithoutIssue(b, log, after, a, issued);
    }
    assert forall a <- b.cache :: Kept(a, targets) <==> a in c.cache;
  }

  lemma ShownAsBefore(b: Books, c: Books, log: seq<LogTrade>, after: History, targets: set<nat>, issued: int)
    requires Cleaned(b, c, log, after, targets, issued)
    ensures UsersShown(c.shown, c.cache) <==> ShownStands(b, targets)
  {
    forall user | user !in targets
      ensures Wallet(user) in c.cache <==> Wallet(user) in b.cache
      ensures Wallet(user) in c.cache ==>
                c.cache[Wallet(user)] == b.cache[Wallet(user)] - PostedAll(b.adjustments, Wallet(user))
    {
      assert Kept(Wallet(user), targets);
    }
  }

  /** If users were shown their wallets before, they still are exactly when the adjustments net to nothing on each. */
  lemma ShownStandsExactly(b: Books, targets: set<nat>)
    requires UsersShown(b.shown, b.cache)
    ensures ShownStands(b, targets) <==>
              forall user <- b.shown :: user in targets || PostedAll(b.adjustments, Wallet(user)) == 0
  {
    forall user <- b.shown
      ensures b.cache[Wallet(user)] - PostedAll(b.adjustments, Wallet(user)) == b.shown[user] <==>
                PostedAll(b.adjustments, Wallet(user)) == 0
    {
    }
  }

  /** What is checked of a reviewed adjustment: it balances and posts once to the wallet of the user it is about. */
  predicate Reviewed(j: Journal, about: nat) {
    |j.postings| >= 2 && Balanced(j) && |OnAccount(j.postings, Wallet(about))| == 1
  }

  /** An adjustment that took from one user what it gave another. */
  function Handover(id: nat, giver: nat, taker: nat, amount: int): Journal {
    Journal(id, [Posting(Wallet(taker), amount), Posting(Wallet(giver), -amount)])
  }

  /** Such an adjustment passes review, and when its taker is removed its giver is shown a wrong balance. */
  lemma HandoverUpsetsShown(b: Books, id: nat, giver: nat, taker: nat, amount: int, targets: set<nat>)
    requires UsersShown(b.shown, b.cache) && b.adjustments == [Handover(id, giver, taker, amount)]
    requires taker in targets && giver in b.shown && giver !in targets && amount != 0
    ensures Reviewed(Handover(id, giver, taker, amount), taker)
    ensures !ShownStands(b, targets)
  {
    var taken, given := Posting(Wallet(taker), amount), Posting(Wallet(giver), -amount);
    var j := Handover(id, giver, taker, amount);
    assert j.postings == [taken, given] + [];
    AmountsOfTwo(taken, given, []);
    OnAccountOfTwo(taken, given, [], Wallet(giver));
    assert j.postings[1..] == [given] && [given][1..] == [];
    assert OnAccount([given], Wallet(taker)) == [];
    assert [] + [j] == [j];
    PostedNext([], j, Wallet(giver));
    ShownStandsExactly(b, targets);
  }

  /** The closing check passes exactly on what was so before the cleanup. */
  lemma ClosesAsBefore(b: Books, c: Books, row: MarketRow, log: seq<LogTrade>, plan: Plan, targets: set<nat>,
                       issued: int, m: Pricing, mayBeNegative: set<Account>)
    requires Fits(b, row, log, plan, targets) && Cleaned(b, c, log, AfterOf(plan), targets, issued)
    requires Issuance in mayBeNegative
    ensures Collateral in c.cache
    ensures Closes(c, RowLeft(row, plan.replay, targets), m, mayBeNegative) <==>
              && NothingStrays(b, log, targets) && NothingOverdrawn(b, log, AfterOf(plan), targets, mayBeNegative)
              && ShownStands(b, targets) && MarketStands(b, row, log, plan, targets, m)
  {
    LedgerCloses(b, c, log, AfterOf(plan), targets, issued);
    OverdrawnAsBefore(b, c, log, AfterOf(plan), targets, issued, mayBeNegative);
    ShownAsBefore(b, c, log, AfterOf(plan), targets, issued);
    BalanceWithoutIssue(b, log, AfterOf(plan), Collateral, issued);
  }

  lemma ObjectionsBlame(fault: CleanupFault, b: Books, c: Books, row: MarketRow, log: seq<LogTrade>, plan: Plan,
                        targets: set<nat>, issued: int,
                        m: Pricing, mayBeNegative: set<Account>)
    requires Fits(b, row, log, plan, targets) && Cleaned(b, c, log, AfterOf(plan), targets, issued)
    requires Issuance in mayBeNegative
    requires Collateral in c.cache && Objects(fault, c, RowLeft(row, plan.replay, targets), m, mayBeNegative)
    ensures Blames(fault, b, row, log, plan, targets, m, mayBeNegative)
  {
    var after := AfterOf(plan);
    RepricedBalances(c, b, log, after, targets, issued);
    ShownAsBefore(b, c, log, after, targets, issued);
    BalanceWithoutIssue(b, log, after, Collateral, issued);
    match fault {
      case CacheDiffers(a) => DriftAfter(b, c, log, after, targets, issued, a);
      case NegativeBalance(a) => BalanceWithoutIssue(b, log, after, a, issued);
      case _ =>
    }
  }

  /** Remaining traders' offsets, and what fees and the pool took before and take now. */
  datatype Movement = Movement(offsets: seq<Journal>, issued: int, feesBefore: int, feesAfter: int, poolBefore: int)

  lemma SameOffsets(offsets: seq<Journal>, issued: int, targets: set<nat>, due: nat -> int, other: nat -> int)
    requires Offsets(offsets, issued, targets, due) && forall user :: due(user) == other(user)
    ensures Offsets(offsets, issued, targets, other)
  {
  }

  lemma {:induction false} NoCashWithoutTrades(log: seq<LogTrade>, user: nat)
    requires forall t <- log :: t.user != user
    ensures CashOf(log, user) == 0
  {
    if log != [] {
      NoCashWithoutTrades(log[..|log| - 1], user);
    }
  }

  /** Everyone who traded and stays is offset by exactly their repricing; everyone else needs nothing. */
  lemma OffsetIsRepricing(log: seq<LogTrade>, after: History, targets: set<nat>, users: seq<nat>, was: map<nat, int>,
                          now: map<nat, int>, user: nat)
    requires after.Valid() && after.log == Survivors(log, targets)
    requires Lookup(was, user) == CashOf(log, user) && Lookup(now, user) == after.On(Wallet(user))
    requires user !in users ==> forall t <- log :: t.user != user
    ensures OffsetDue(users, targets, was, now, user) == OffsetFor(log, after, targets, user)
  {
    if user !in users {
      NothingDue(log, after, targets, user);
    }
  }

  /** Whoever did not trade neither paid nor received anything, before or after. */
  lemma NothingDue(log: seq<LogTrade>, after: History, targets: set<nat>, user: nat)
    requires after.Valid() && after.log == Survivors(log, targets) && forall t <- log :: t.user != user
    ensures CashOf(log, user) == 0 && after.On(Wallet(user)) == 0
  {
    NoCashWithoutTrades(log, user);
    NoFlowWithoutTrades(after.log, after.quotes, user);
  }

  /** Everyone with a wallet posting in the log, and nobody else, is asked about. */
  lemma UsersAreTraders(log: seq<LogTrade>, after: History, targets: set<nat>, users: seq<nat>, was: map<nat, int>,
                        now: map<nat, int>)
    requires after.log == Survivors(log, targets) && forall t <- log :: HasWalletPosting(t.journal)
    requires forall user :: user in was <==> exists t <- log :: t.user == user && HasWalletPosting(t.journal)
    requires forall user :: user in now <==> exists t <- after.log :: t.user == user
    requires forall user :: user in users <==> user in was.Keys + now.Keys
    ensures AreTraders(users, log)
  {
    forall user <- users ensures exists t <- log :: t.user == user {
      assert user in now ==> exists t <- after.log :: t.user == user && t in log;
    }
  }

  /** Everyone who traded, and nobody else. */
  ghost predicate AreTraders(users: seq<nat>, log: seq<LogTrade>) {
    (forall t <- log :: t.user in users) && forall user <- users :: exists t <- log :: t.user == user
  }

  lemma WalletsByUser(log: seq<LogTrade>, targets: set<nat>, users: seq<nat>, wallets: set<Account>)
    requires AreTraders(users, log)
    ensures WalletsStand(log, targets, wallets) <==> forall user <- users :: user in targets || Wallet(user) in wallets
  {
  }

  lemma OffsetsAreRepricing(log: seq<LogTrade>, after: History, targets: set<nat>, users: seq<nat>, was: map<nat, int>,
                            now: map<nat, int>, offsets: seq<Journal>, issued: int)
    requires after.Valid() && after.log == Survivors(log, targets)
    requires forall user :: Lookup(was, user) == CashOf(log, user) && Lookup(now, user) == after.On(Wallet(user))
    requires AreTraders(users, log)
    requires Offsets(offsets, issued, targets, DueOf(users, targets, was, now))
    ensures Offsets(offsets, issued, targets, OffsetOf(log, after, targets))
  {
    forall user ensures DueOf(users, targets, was, now)(user) == OffsetOf(log, after, targets)(user) {
      OffsetIsRepricing(log, after, targets, users, was, now, user);
    }
    SameOffsets(offsets, issued, targets, DueOf(users, targets, was, now), OffsetOf(log, after, targets));
  }

  /** The cash found for every trader, before and after. */
  ghost predicate CashFound(log: seq<LogTrade>, after: History, was: map<nat, int>, now: map<nat, int>)
    requires after.Valid()
  {
    && (forall user :: Lookup(was, user) == CashOf(log, user) && Lookup(now, user) == after.On(Wallet(user)))
    && (forall user :: user in was <==> exists t <- log :: t.user == user && HasWalletPosting(t.journal))
    && (forall user :: user in now <==> exists t <- after.log :: t.user == user)
  }

  lemma FoundAreTraders(log: seq<LogTrade>, after: History, targets: set<nat>, users: seq<nat>, was: map<nat, int>,
                        now: map<nat, int>)
    requires after.Valid() && after.log == Survivors(log, targets) && forall t <- log :: HasWalletPosting(t.journal)
    requires CashFound(log, after, was, now) && forall user :: user in users <==> user in was.Keys + now.Keys
    ensures AreTraders(users, log)
  {
    UsersAreTraders(log, after, targets, users, was, now);
  }

  lemma FoundIsRepricing(log: seq<LogTrade>, after: History, targets: set<nat>, users: seq<nat>, was: map<nat, int>,
                         now: map<nat, int>, offsets: seq<Journal>, issued: int)
    requires after.Valid() && after.log == Survivors(log, targets)
    requires CashFound(log, after, was, now) && AreTraders(users, log)
    requires Offsets(offsets, issued, targets, DueOf(users, targets, was, now))
    ensures Offsets(offsets, issued, targets, OffsetOf(log, after, targets))
  {
    OffsetsAreRepricing(log, after, targets, users, was, now, offsets, issued);
  }

  /** Offsets for everyone who traded and stays, from what each was paid before and is paid now. */
  method OffsetTraders(ghost log: seq<LogTrade>, ghost after: History, targets: set<nat>, wallets: set<Account>,
                       was: map<nat, int>, now: map<nat, int>)
    returns (r: Result<(seq<Journal>, int), CleanupFault>)
    requires after.Valid() && after.log == Survivors(log, targets) && forall t <- log :: HasWalletPosting(t.journal)
    requires CashFound(log, after, was, now)
    ensures r.Ok? <==> WalletsStand(log, targets, wallets)
    ensures r.Ok? ==> Offsets(r.value.0, r.value.1, targets, OffsetOf(log, after, targets))
    ensures r.Err? ==> r.error.NoWallet? && r.error.user !in targets && Wallet(r.error.user) !in wallets
                       && exists t <- log :: t.user == r.error.user
  {
    var users := ListOf(was.Keys + now.Keys);
    FoundAreTraders(log, after, targets, users, was, now);
    WalletsByUser(log, targets, users, wallets);
    r := OffsetUsers(users, targets, was, now, wallets);
    if r.Ok? {
      FoundIsRepricing(log, after, targets, users, was, now, r.value.0, r.value.1);
    }
  }

  method PlanOffsets(log: seq<LogTrade>, after: History, targets: set<nat>, wallets: set<Account>)
    returns (r: Result<Movement, CleanupFault>)
    requires after.Valid() && after.log == Survivors(log, targets) && forall t <- log :: HasWalletPosting(t.journal)
    ensures r.Ok? <==> WalletsStand(log, targets, wallets)
    ensures r.Ok? ==> Offsets(r.value.offsets, r.value.issued, targets, OffsetOf(log, after, targets))
    ensures r.Ok? ==> r.value.feesBefore == StoredOn(log, Revenue) && r.value.feesAfter == after.On(Revenue)
                      && r.value.poolBefore == StoredOn(log, Collateral)
    ensures r.Err? ==> r.error.NoWallet? && r.error.user !in targets && Wallet(r.error.user) !in wallets
                       && exists t <- log :: t.user == r.error.user
  {
    var was, feesBefore, poolBefore := OldCash(log);
    var now, feesAfter := NewCash(after);
    var offset :- OffsetTraders(log, after, targets, wallets, was, now);
    return Ok(Movement(offset.0, offset.1, feesBefore, feesAfter, poolBefore));
  }

  /** Every balance as the cleanup leaves it, given what the offsets issue and what fees and pool come to. */
  method LeaveBalances(b: Books, ghost log: seq<LogTrade>, after: History, targets: set<nat>, issued: int, fees: int,
                       pool: int)
    returns (r: Result<map<Account, int>, CleanupFault>)
    requires after.Valid() && {Issuance, Collateral} <= b.cache.Keys
    requires forall j <- b.adjustments, p <- j.postings :: p.account in b.cache
    requires fees == after.On(Revenue) - StoredOn(log, Revenue)
    requires pool == after.On(Collateral) - StoredOn(log, Collateral)
    ensures r.Ok? <==> GrantsStand(b.grants, b.grantees, targets)
    ensures r.Ok? ==> r.value.Keys == b.cache.Keys
    ensures r.Ok? ==> forall a <- b.cache :: r.value[a] == BalanceLeft(b, log, after, a, issued)
    ensures r.Err? ==> GrantsFail(r.error, b.grants, b.grantees, targets)
  {
    r := MoveBalances(b, targets, issued, fees, pool);
    if r.Ok? {
      MovedIsLeft(b, log, after, r.value, issued, fees, pool);
    }
  }

  /** The offsets and the moved balances, or why there can be none. */
  method Move(b: Books, log: seq<LogTrade>, after: History, targets: set<nat>, mayBeNegative: set<Account>)
    returns (r: Result<(Movement, map<Account, int>), CleanupFault>)
    requires after.Valid() && after.log == Survivors(log, targets) && (forall t <- log :: HasWalletPosting(t.journal))
    requires Collateral in b.cache && forall j <- b.adjustments, p <- j.postings :: p.account in b.cache
    ensures r.Ok? <==>
              && Issuance in b.cache && Issuance in mayBeNegative
              && WalletsStand(log, targets, b.cache.Keys) && RevenueStands(log, after, b.cache.Keys)
              && GrantsStand(b.grants, b.grantees, targets)
    ensures r.Ok? ==> Offsets(r.value.0.offsets, r.value.0.issued, targets, OffsetOf(log, after, targets))
    ensures r.Ok? ==> r.value.1.Keys == b.cache.Keys
    ensures r.Ok? ==> forall a <- b.cache :: r.value.1[a] == BalanceLeft(b, log, after, a, r.value.0.issued)
    ensures r.Err? ==> Prevents(r.error, b, log, after, targets, mayBeNegative)
  {
    if Issuance !in b.cache || Issuance !in mayBeNegative {
      return Err(NoIssuance);
    }
    var planned := PlanOffsets(log, after, targets, b.cache.Keys);
    if planned.Err? {
      return Err(planned.error);
    }
    var moved := MoveFees(b, log, after, targets, mayBeNegative, planned.value);
    if moved.Err? {
      return Err(moved.error);
    }
    return Ok((planned.value, moved.value));
  }

  /** Fees need a revenue account to move on; then every balance moves. */
  method MoveFees(b: Books, ghost log: seq<LogTrade>, after: History, targets: set<nat>,
                  ghost mayBeNegative: set<Account>, move: Movement)
    returns (r: Result<map<Account, int>, CleanupFault>)
    requires after.Valid() && {Issuance, Collateral} <= b.cache.Keys
    requires forall j <- b.adjustments, p <- j.postings :: p.account in b.cache
    requires move.feesBefore == StoredOn(log, Revenue) && move.feesAfter == after.On(Revenue)
    requires move.poolBefore == StoredOn(log, Collateral)
    ensures r.Ok? <==> RevenueStands(log, after, b.cache.Keys) && GrantsStand(b.grants, b.grantees, targets)
    ensures r.Ok? ==> r.value.Keys == b.cache.Keys
    ensures r.Ok? ==> forall a <- b.cache :: r.value[a] == BalanceLeft(b, log, after, a, move.issued)
    ensures r.Err? ==> Prevents(r.error, b, log, after, targets, mayBeNegative)
  {
    if (move.feesBefore != 0 || move.feesAfter != 0) && Revenue !in b.cache {
      return Err(NoRevenue);
    }
    var pool := after.On(Collateral) - move.poolBefore;
    r := LeaveBalances(b, log, after, targets, move.issued, move.feesAfter - move.feesBefore, pool);
  }

  lemma MovedIsLeft(b: Books, log: seq<LogTrade>, after: History, moved: map<Account, int>, issued: int, fees: int,
                    pool: int)
    requires after.Valid() && moved.Keys == b.cache.Keys
    requires fees == after.On(Revenue) - StoredOn(log, Revenue)
    requires pool == after.On(Collateral) - StoredOn(log, Collateral)
    requires forall a <- b.cache ::
      moved[a] == b.cache[a] - PostedAll(b.adjustments, a) + Shift(a, issued - Recalled(b.grants), fees, pool)
    ensures forall a <- b.cache :: moved[a] == BalanceLeft(b, log, after, a, issued)
  {
  }

  /** The ledger as the cleanup would leave it, before the closing check. */
  method Rewrite(b: Books, log: seq<LogTrade>, after: History, targets: set<nat>, mayBeNegative: set<Account>)
    returns (r: Result<Books, CleanupFault>, ghost issued: int)
    requires after.Valid() && after.log == Survivors(log, targets) && (forall t <- log :: HasWalletPosting(t.journal))
    requires Collateral in b.cache && forall j <- b.adjustments, p <- j.postings :: p.account in b.cache
    ensures r.Ok? <==> Prepared(b, log, after, targets, mayBeNegative)
    ensures r.Ok? ==> Cleaned(b, r.value, log, after, targets, issued)
    ensures r.Err? ==> Prevents(r.error, b, log, after, targets, mayBeNegative)
  {
    issued := 0;
    var moved := Move(b, log, after, targets, mayBeNegative);
    if moved.Err? {
      r := Err(moved.error);
    } else if PostsToTargets(b.others, targets) {
      r := Err(TargetPostingsRemain);
    } else {
      issued := moved.value.0.issued;
      r := Ok(LedgerLeft(b, moved.value.1, moved.value.0.offsets, after, targets));
      LedgerLeftIsCleaned(b, moved.value.1, moved.value.0.offsets, log, after, targets, issued);
    }
  }

  /** Trades repriced, offsets added, and grants, adjustments and removed users gone. */
  function LedgerLeft(b: Books, moved: map<Account, int>, offsets: seq<Journal>, after: History,
                      targets: set<nat>): Books
    requires after.Valid()
  {
    var shown := map user | user in b.shown && user !in targets :: b.shown[user];
    Books(WithoutTargets(moved, targets), b.others, Repriced(after.log, after.quotes), [], [], [], offsets, shown)
  }

  lemma LedgerLeftIsCleaned(b: Books, moved: map<Account, int>, offsets: seq<Journal>, log: seq<LogTrade>,
                            after: History,
                            targets: set<nat>, issued: int)
    requires after.Valid() && moved.Keys == b.cache.Keys
    requires Offsets(offsets, issued, targets, OffsetOf(log, after, targets))
    requires forall a <- b.cache :: moved[a] == BalanceLeft(b, log, after, a, issued)
    ensures Cleaned(b, LedgerLeft(b, moved, offsets, after, targets), log, after, targets, issued)
  {
  }

  /** The ledger is cleaned, and closes together with the market's row. */
  ghost predicate Done(b: Books, c: Books, row: MarketRow, log: seq<LogTrade>, plan: Plan, targets: set<nat>,
                       m: Pricing,
                       mayBeNegative: set<Account>)
  {
    && (exists issued :: Cleaned(b, c, log, AfterOf(plan), targets, issued))
    && Collateral in c.cache && Closes(c, row, m, mayBeNegative)
  }

  /** Rewrites and checks; goes through exactly when the ledger and the market settle. */
  method Attempt(b: Books, row: MarketRow, log: seq<LogTrade>, plan: Plan, targets: set<nat>, m: Pricing,
                 mayBeNegative: set<Account>)
    returns (r: Result<Books, CleanupFault>)
    requires Fits(b, row, log, plan, targets)
    ensures r.Ok? <==> Settles(b, row, log, plan, targets, m, mayBeNegative)
    ensures r.Ok? ==> Done(b, r.value, RowLeft(row, plan.replay, targets), log, plan, targets, m, mayBeNegative)
    ensures r.Err? ==> Blames(r.error, b, row, log, plan, targets, m, mayBeNegative)
  {
    ghost var issued;
    r, issued := Rewrite(b, log, AfterOf(plan), targets, mayBeNegative);
    if r.Err? {
      return;
    }
    ClosesAsBefore(b, r.value, row, log, plan, targets, issued, m, mayBeNegative);
    var fault := AssertCloses(r.value, RowLeft(row, plan.replay, targets), m, mayBeNegative);
    if fault.Some? {
      ObjectionsBlame(fault.value, b, r.value, row, log, plan, targets, issued, m, mayBeNegative);
      r := Err(fault.value);
    }
  }

  class LedgerStore {
    var books: Books
    var market: MarketRow
    const mayBeNegative: set<Account>

    constructor (books: Books, market: MarketRow, mayBeNegative: set<Account>)
      ensures this.books == books && this.market == market && this.mayBeNegative == mayBeNegative
    {
      this.books, this.market, this.mayBeNegative := books, market, mayBeNegative;
    }

    /**
     Applies a cleanup as one transaction. It goes through exactly when the ledger and the
     market settle; what is refused changes nothing, and the refusal says what did not settle.
     */
    method ApplyCleanup(log: seq<LogTrade>, plan: Plan, targets: set<nat>, m: Pricing)
      returns (fault: Option<CleanupFault>)
      requires Fits(books, market, log, plan, targets)
      modifies this
      ensures fault.None? <==> Settles(old(books), old(market), log, plan, targets, m, mayBeNegative)
      ensures fault.Some? ==> books == old(books) && market == old(market)
      ensures fault.Some? ==> Blames(fault.value, old(books), old(market), log, plan, targets, m, mayBeNegative)
      ensures fault.None? ==> market == RowLeft(old(market), plan.replay, targets)
      ensures fault.None? ==> Done(old(books), books, market, log, plan, targets, m, mayBeNegative)
      ensures fault.None? ==> MarketAfter(old(market), market, plan.replay, targets)
      ensures fault.None? ==> market.version > old(market.version)
    {
      RowIsMarketAfter(market, plan.replay, targets);
      var attempt := Attempt(books, market, log, plan, targets, m, mayBeNegative);
      if attempt.Err? {
        return Some(attempt.error);
      }
      books, market := attempt.value, RowLeft(market, plan.replay, targets);
      return None;
    }
  }
}
