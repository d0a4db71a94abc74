/**
 Seats: each participant's cash and shares inside one market, what of them is reserved
 for live orders, and the checked operations the placement adapter performs on them.
 */
module Escrow {
  import opened Wrappers
  import opened Words
  import opened Orders

  const SEAT_CAPACITY := 256

  datatype Fault =
    | Binding | Closed | Nonce | Overflow | InsufficientCash | InsufficientPosition
    | InvalidReserves | Accounting | VaultUnderfunded | SeatLimit | FokRejected
    | PostOnlyRejected | InvalidOptions | Matcher(error: Error)

  datatype Seat = Seat(
    wallet: nat, availableCash: U64, reservedCash: U64, yes: U64, no: U64,
    reservedYes: U64, reservedNo: U64, nextNonce: U64, everTraded: bool)

  /** A seat as registration leaves it. */
  function NewSeat(wallet: nat): Seat {
    Seat(wallet, 0, 0, 0, 0, 0, 0, 0, false)
  }

  function Add(a: U64, b: U64): Result<U64, Fault> {
    CheckedAdd(a, b).OkOr(Overflow)
  }

  function Delta(value: U64, change: int): Result<U64, Fault> {
    if 0 <= value + change < TWO_64 then Ok(value + change) else Err(Accounting)
  }

  predicate Covered(s: Seat) {
    s.reservedYes <= s.yes && s.reservedNo <= s.no
  }

  function Lock(s: Seat, r: Reserve): Result<Seat, Fault> {
    if !Covered(s) then Err(InvalidReserves) else
    var available :- CheckedSub(s.availableCash, r.cash).OkOr(InsufficientCash);
    var cash :- Add(s.reservedCash, r.cash);
    var yes :- Add(s.reservedYes, r.yes);
    var no :- Add(s.reservedNo, r.no);
    var after := s.(availableCash := available, reservedCash := cash, reservedYes := yes, reservedNo := no);
    if Covered(after) then Ok(after) else Err(InsufficientPosition)
  }

  function Unlock(s: Seat, r: Reserve): Result<Seat, Fault> {
    var cash :- CheckedSub(s.reservedCash, r.cash).OkOr(InvalidReserves);
    var available :- Add(s.availableCash, r.cash);
    var yes :- CheckedSub(s.reservedYes, r.yes).OkOr(InvalidReserves);
    var no :- CheckedSub(s.reservedNo, r.no).OkOr(InvalidReserves);
    Ok(s.(availableCash := available, reservedCash := cash, reservedYes := yes, reservedNo := no))
  }

  /** One party of a fill: only this order's reserve is opened, charged, and locked again. */
  function SettleSeat(s: Seat, before: Reserve, after: Reserve, party: Party): Result<Seat, Fault> {
    var unlocked :- Unlock(s, before);
    var available :- Delta(unlocked.availableCash, party.reservedCash + party.availableCash);
    var yes :- Delta(unlocked.yes, party.yes);
    var no :- Delta(unlocked.no, party.no);
    var locked :- Lock(unlocked.(availableCash := available, yes := yes, no := no), after);
    Ok(locked.(everTraded := true))
  }

  // ---------- What live orders hold ----------

  /** Unbounded sums of reserves. */
  datatype Hold = Hold(cash: nat, yes: nat, no: nat) {
    function Plus(other: Hold): Hold {
      Hold(cash + other.cash, yes + other.yes, no + other.no)
    }
  }

  function Nothing(): Hold {
    Hold(0, 0, 0)
  }

  function AsHold(r: Reserve): Hold {
    Hold(r.cash, r.yes, r.no)
  }

  /** How much an order must keep reserved; at a market's fee rate this is `ReserveOf`. */
  type Reserver = Order -> Result<Reserve, Error>

  function AtRate(feeBps: nat): Reserver {
    o => ReserveOf(o, feeBps)
  }

  /** `rest` and what `o` reserves for `owner`. */
  function Including(o: Order, owner: nat, reserve: Reserver, rest: Hold): Hold {
    if o.owner == owner && reserve(o).Ok? then AsHold(reserve(o).value).Plus(rest) else rest
  }

  ghost function AnyOf(orders: set<Order>): (o: Order)
    requires orders != {}
    ensures o in orders
  {
    var o :| o in orders;
    o
  }

  ghost function Held(orders: set<Order>, owner: nat, reserve: Reserver): Hold
    decreases |orders|
  {
    if orders == {} then Nothing() else
    var o := AnyOf(orders);
    Including(o, owner, reserve, Held(orders - {o}, owner, reserve))
  }

  /** The sum does not depend on the order in which live orders are visited. */
  lemma {:induction false} HeldWithout(orders: set<Order>, o: Order, owner: nat, reserve: Reserver)
    requires o in orders
    ensures Held(orders, owner, reserve) == Including(o, owner, reserve, Held(orders - {o}, owner, reserve))
    decreases |orders|
  {
    var first := AnyOf(orders);
    if first != o {
      assert orders - {first} - {o} == orders - {o} - {first};
      HeldWithout(orders - {first}, o, owner, reserve);
      HeldWithout(orders - {o}, first, owner, reserve);
    }
  }

  lemma HeldWith(orders: set<Order>, o: Order, owner: nat, reserve: Reserver)
    requires o !in orders
    ensures Held(orders + {o}, owner, reserve) == Including(o, owner, reserve, Held(orders, owner, reserve))
  {
    HeldWithout(orders + {o}, o, owner, reserve);
    assert orders + {o} - {o} == orders;
  }

  /** Someone without live orders holds nothing. */
  lemma {:induction false} HeldByNobody(orders: set<Order>, owner: nat, reserve: Reserver)
    requires forall o <- orders :: o.owner != owner
    ensures Held(orders, owner, reserve) == Nothing()
    decreases |orders|
  {
    if orders != {} {
      HeldByNobody(orders - {AnyOf(orders)}, owner, reserve);
    }
  }

  /** A seat reserves exactly `hold`, out of shares it owns. */
  predicate Reserves(s: Seat, hold: Hold) {
    && s.reservedCash == hold.cash
    && s.reservedYes == hold.yes <= s.yes
    && s.reservedNo == hold.no <= s.no
  }

  /** What a fill changes about a party is paid for by what its order had reserved. */
  predicate Funded(before: Reserve, after: Reserve, party: Party) {
    && after.cash <= before.cash + party.reservedCash + party.availableCash
    && after.yes <= before.yes + party.yes
    && after.no <= before.no + party.no
  }

  function Cash(s: Seat): nat {
    s.availableCash + s.reservedCash
  }

  /** The seat changes by exactly this cash and these shares. */
  predicate Moved(s: Seat, after: Seat, cash: int, yes: int, no: int) {
    && Cash(after) == Cash(s) + cash && after.yes == s.yes + yes && after.no == s.no + no
    && after.wallet == s.wallet && after.nextNonce == s.nextNonce
  }

  lemma LockReserves(s: Seat, hold: Hold, r: Reserve)
    requires Reserves(s, hold) && Cash(s) < TWO_64
    requires s.yes + r.yes < TWO_64 && s.no + r.no < TWO_64
    ensures Lock(s, r) ==
            if s.availableCash < r.cash then Err(InsufficientCash)
            else if s.yes < hold.yes + r.yes || s.no < hold.no + r.no then Err(InsufficientPosition)
            else Lock(s, r)
    ensures Lock(s, r).Ok? <==> r.cash <= s.availableCash && hold.yes + r.yes <= s.yes && hold.no + r.no <= s.no
    ensures Lock(s, r).Ok? ==>
              && Reserves(Lock(s, r).value, AsHold(r).Plus(hold)) && Moved(s, Lock(s, r).value, 0, 0, 0)
              && Lock(s, r).value.everTraded == s.everTraded
  {
  }

  /** Exactly what is free can be locked: cash on hand, and shares that no other order reserves. */
  lemma LocksExactly(s: Seat, r: Reserve)
    requires s.reservedCash + r.cash < TWO_64 && s.reservedYes + r.yes < TWO_64 && s.reservedNo + r.no < TWO_64
    ensures match Lock(s, r)
            case Ok(after) =>
              && r.cash <= s.availableCash && s.reservedYes + r.yes <= s.yes && s.reservedNo + r.no <= s.no
              && after == Seat(s.wallet, s.availableCash - r.cash, s.reservedCash + r.cash, s.yes, s.no,
                               s.reservedYes + r.yes, s.reservedNo + r.no, s.nextNonce, s.everTraded)
            case Err(InvalidReserves) => s.reservedYes > s.yes || s.reservedNo > s.no
            case Err(InsufficientCash) => s.availableCash < r.cash
            case Err(InsufficientPosition) =>
              s.reservedYes <= s.yes && s.reservedNo <= s.no
              && (s.yes < s.reservedYes + r.yes || s.no < s.reservedNo + r.no)
            case Err(_) => false
    ensures s.reservedYes > s.yes || s.reservedNo > s.no ==> Lock(s, r) == Err(InvalidReserves)
  {
  }

  lemma UnlockReleases(s: Seat, hold: Hold, r: Reserve)
    requires Reserves(s, AsHold(r).Plus(hold)) && Cash(s) < TWO_64
    ensures Unlock(s, r).Ok?
    ensures var after := Unlock(s, r).value;
            && Reserves(after, hold) && Moved(s, after, 0, 0, 0)
            && after == s.(availableCash := s.availableCash + r.cash, reservedCash := hold.cash,
                           reservedYes := hold.yes, reservedNo := hold.no)
  {
  }

  /** A funded settlement cannot fail and moves exactly the party's deltas. */
  lemma SettleSeatSucceeds(s: Seat, hold: Hold, before: Reserve, after: Reserve, party: Party)
    requires Reserves(s, AsHold(before).Plus(hold)) && Cash(s) < TWO_64
    requires Funded(before, after, party)
    requires Cash(s) + party.reservedCash + party.availableCash < TWO_64
    requires s.yes + party.yes < TWO_64 && s.no + party.no < TWO_64
    ensures SettleSeat(s, before, after, party).Ok?
    ensures var settled := SettleSeat(s, before, after, party).value;
            && Reserves(settled, AsHold(after).Plus(hold))
            && Moved(s, settled, party.reservedCash + party.availableCash, party.yes, party.no)
            && settled.everTraded
  {
  }

  // ---------- Totals over all seats ----------

  datatype Totals = Totals(cash: nat, yes: nat, no: nat)

  function TotalsOf(seats: seq<Seat>): Totals {
    if seats == [] then Totals(0, 0, 0) else
    var rest := TotalsOf(seats[..|seats| - 1]);
    var s := seats[|seats| - 1];
    Totals(rest.cash + Cash(s), rest.yes + s.yes, rest.no + s.no)
  }

  /** Replacing one seat moves the totals by what changed in it. */
  lemma {:induction false} TotalsUpdate(seats: seq<Seat>, i: nat, s: Seat)
    requires i < |seats|
    ensures var t := TotalsOf(seats);
            var u := TotalsOf(seats[i := s]);
            && u.cash == t.cash - Cash(seats[i]) + Cash(s)
            && u.yes == t.yes - seats[i].yes + s.yes
            && u.no == t.no - seats[i].no + s.no
    decreases |seats|
  {
    var n := |seats| - 1;
    if i < n {
      TotalsUpdate(seats[..n], i, s);
      assert seats[i := s][..n] == seats[..n][i := s];
    } else {
      assert seats[i := s][..n] == seats[..n];
    }
  }

  /** No seat, and no two seats together, exceed the totals. */
  lemma TotalsCover(seats: seq<Seat>, i: nat, j: nat)
    requires i < |seats| && j < |seats|
    ensures var t := TotalsOf(seats);
            && Cash(seats[i]) <= t.cash && seats[i].yes <= t.yes && seats[i].no <= t.no
            && (i != j ==>
                  Cash(seats[i]) + Cash(seats[j]) <= t.cash && seats[i].yes + seats[j].yes <= t.yes
                  && seats[i].no + seats[j].no <= t.no)
  {
    var empty := seats[i].(availableCash := 0, reservedCash := 0, yes := 0, no := 0);
    TotalsUpdate(seats, i, empty);
    if i != j {
      TotalsUpdate(seats[i := empty], j, empty);
    }
  }

  lemma TotalsAppend(seats: seq<Seat>, s: Seat)
    ensures var t := TotalsOf(seats);
            TotalsOf(seats + [s]) == Totals(t.cash + Cash(s), t.yes + s.yes, t.no + s.no)
  {
    assert (seats + [s])[..|seats|] == seats;
  }

  /** The money of a market: every seat, the collateral behind open pairs, and collected fees. */
  datatype Funds = Funds(seats: seq<Seat>, accounted: U64, collateral: U64, revenue: U64)

  /** The check made before and after every placement. */
  predicate Verified(totals: Totals, accounted: U64, collateral: U64, revenue: U64, payout: U64) {
    && totals.cash + collateral + revenue == accounted
    && totals.yes == totals.no
    && totals.yes * payout == collateral
  }

  predicate InBalance(l: Funds, payout: U64) {
    Verified(TotalsOf(l.seats), l.accounted, l.collateral, l.revenue, payout)
  }

  /** What seat `i` must have reserved while `submitter` also has `extra` locked for an order in flight. */
  ghost function Owed(live: set<Order>, i: nat, submitter: nat, extra: Hold, reserve: Reserver): Hold {
    if i == submitter then extra.Plus(Held(live, i, reserve)) else Held(live, i, reserve)
  }

  /**
   The ledger of an exchange with these live orders: it balances, every live order has a
   seat, and every seat's reserves are exactly the sum over its live orders.
   */
  ghost predicate Backed(l: Funds, live: set<Order>, submitter: nat, extra: Hold, payout: U64, reserve: Reserver) {
    && InBalance(l, payout)
    && |l.seats| <= SEAT_CAPACITY
    && (forall o <- live :: o.owner < |l.seats|)
    && (forall i :: 0 <= i < |l.seats| ==> Reserves(l.seats[i], Owed(live, i, submitter, extra, reserve)))
  }

  /** A seat of a balanced ledger is far from overflowing. */
  lemma SeatsAreSmall(l: Funds, payout: U64, i: nat)
    requires InBalance(l, payout) && 2 <= payout && i < |l.seats|
    ensures Cash(l.seats[i]) <= l.accounted
    ensures 2 * l.seats[i].yes <= l.accounted && 2 * l.seats[i].no <= l.accounted
  {
    TotalsCover(l.seats, i, i);
    PairsAreBacked(TotalsOf(l.seats).yes, payout);
  }

  lemma PairsAreBacked(pairs: nat, payout: nat)
    requires 2 <= payout
    ensures 2 * pairs <= pairs * payout
  {
  }
}
