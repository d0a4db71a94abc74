/** Double-entry bookkeeping: accounts with cached balances, and journals of postings. */
module Ledger {
  import opened Orders
  import opened Quotes

  datatype Account = Wallet(owner: nat) | Collateral | Revenue | Issuance | Treasury | Elsewhere(id: nat)

  datatype Posting = Posting(account: Account, amount: int)

  datatype Journal = Journal(id: nat, postings: seq<Posting>)

  function Sum(xs: seq<int>): int {
    if xs == [] then 0 else xs[0] + Sum(xs[1..])
  }

  function Amounts(postings: seq<Posting>): (xs: seq<int>)
    ensures |xs| == |postings|
  {
    if postings == [] then [] else [postings[0].amount] + Amounts(postings[1..])
  }

  /** What a journal posts to one account, posting by posting. */
  function OnAccount(postings: seq<Posting>, a: Account): seq<int> {
    if postings == [] then []
    else (if postings[0].account == a then [postings[0].amount] else []) + OnAccount(postings[1..], a)
  }

  predicate Balanced(j: Journal) {
    Sum(Amounts(j.postings)) == 0
  }

  function Posted(j: Journal, a: Account): int {
    Sum(OnAccount(j.postings, a))
  }

  /** The posting total of an account over a list of journals. */
  function PostedAll(journals: seq<Journal>, a: Account): int {
    if journals == [] then 0 else PostedAll(journals[..|journals| - 1], a) + Posted(journals[|journals| - 1], a)
  }

  lemma {:induction false} PostedConcat(first: seq<Journal>, second: seq<Journal>, a: Account)
    ensures PostedAll(first + second, a) == PostedAll(first, a) + PostedAll(second, a)
    decreases |second|
  {
    if second == [] {
      assert first + second == first;
    } else {
      var n := |second| - 1;
      assert (first + second)[..|first| + n] == first + second[..n];
      PostedConcat(first, second[..n], a);
    }
  }

  lemma PostedNext(journals: seq<Journal>, j: Journal, a: Account)
    ensures PostedAll(journals + [j], a) == PostedAll(journals, a) + Posted(j, a)
  {
    assert (journals + [j])[..|journals|] == journals;
  }

  /** The postings of one trade: the wallet, the pool, and the fee if there is one. */
  function TradePostings(user: nat, quote: Quote): seq<Posting> {
    [Posting(Wallet(user), quote.Cash()), Posting(Collateral, quote.Collected())]
    + (if quote.fee > 0 then [Posting(Revenue, quote.fee)] else [])
  }

  function TradePosted(user: nat, quote: Quote, a: Account): int {
    match a
    case Wallet(owner) => if owner == user then quote.Cash() else 0
    case Collateral => quote.Collected()
    case Revenue => quote.fee
    case _ => 0
  }

  /** A trade's journal balances and moves wallet, pool and revenue by the quote. */
  lemma TradePostingsBalance(user: nat, quote: Quote, a: Account)
    ensures Sum(Amounts(TradePostings(user, quote))) == 0
    ensures Sum(OnAccount(TradePostings(user, quote), a)) == TradePosted(user, quote, a)
  {
    var p := TradePostings(user, quote);
    var fees := p[2..];
    assert p[1..] == [p[1]] + fees && p[1..][1..] == fees;
    if quote.fee > 0 {
      assert fees == [Posting(Revenue, quote.fee)];
      assert fees[1..] == [];
    }
    AmountsOfTwo(p[0], p[1], fees);
    OnAccountOfTwo(p[0], p[1], fees, a);
    assert p == [p[0], p[1]] + fees;
  }

  lemma AmountsOfTwo(first: Posting, second: Posting, rest: seq<Posting>)
    ensures Sum(Amounts([first, second] + rest)) == first.amount + second.amount + Sum(Amounts(rest))
  {
    assert ([first, second] + rest)[1..] == [second] + rest;
    assert ([second] + rest)[1..] == rest;
    assert ([first.amount] + Amounts([second] + rest))[1..] == Amounts([second] + rest);
    assert ([second.amount] + Amounts(rest))[1..] == Amounts(rest);
  }

  lemma OnAccountOfTwo(first: Posting, second: Posting, rest: seq<Posting>, a: Account)
    ensures Sum(OnAccount([first, second] + rest, a)) ==
            (if first.account == a then first.amount else 0)
            + (if second.account == a then second.amount else 0) + Sum(OnAccount(rest, a))
  {
    assert ([first, second] + rest)[1..] == [second] + rest;
    assert ([second] + rest)[1..] == rest;
    SumThen(first, OnAccount([second] + rest, a), a);
    SumThen(second, OnAccount(rest, a), a);
  }

  lemma SumOne(x: int)
    ensures Sum([x]) == x
  {
    assert [x][1..] == [];
  }

  lemma SumThen(p: Posting, rest: seq<int>, a: Account)
    ensures Sum((if p.account == a then [p.amount] else []) + rest) ==
            (if p.account == a then p.amount else 0) + Sum(rest)
  {
    if p.account == a {
      assert ([p.amount] + rest)[1..] == rest;
    } else {
      assert [] + rest == rest;
    }
  }

  /** The check that a stored trade journal is the one its quote would have made. */
  predicate Reproduces(j: Journal, user: nat, quote: Quote) {
    && OnAccount(j.postings, Wallet(user)) == [quote.Cash()]
    && OnAccount(j.postings, Collateral) == [quote.Collected()]
    && OnAccount(j.postings, Revenue) == (if quote.fee == 0 then [] else [quote.fee as int])
    && Balanced(j)
  }

  /** No posting goes anywhere but to the trader, the pool or protocol revenue. */
  predicate OnlyTrades(j: Journal, user: nat) {
    forall p <- j.postings :: p.account in {Wallet(user), Collateral, Revenue}
  }

  lemma {:induction false} NothingElsewhere(postings: seq<Posting>, a: Account)
    requires forall p <- postings :: p.account != a
    ensures OnAccount(postings, a) == []
    decreases |postings|
  {
    if postings != [] {
      NothingElsewhere(postings[1..], a);
    }
  }

  /** A stored trade journal posts to every account exactly what its quote says. */
  lemma ReproducedPosts(j: Journal, user: nat, quote: Quote, a: Account)
    requires Reproduces(j, user, quote) && OnlyTrades(j, user)
    ensures Posted(j, a) == TradePosted(user, quote, a)
  {
    SumOne(quote.Cash());
    SumOne(quote.Collected());
    SumOne(quote.fee);
    if a !in {Wallet(user), Collateral, Revenue} {
      NothingElsewhere(j.postings, a);
    }
  }
}
