/**
 The exchange of one market: seats, money and book together. Placing, canceling, cleaning
 up, depositing, withdrawing and registering all keep the ledger backed by exactly the
 orders that rest.
 */
module Exchange {
  import opened Wrappers
  import opened Words
  import Fees
  import opened Orders
  import opened Matching
  import opened Placing
  import opened Slab
  import opened Planner
  import opened Matcher
  import opened BookStorage
  import opened Escrow
  import opened Settlement
  import opened Staging

  const DEFAULT_TOUCHES := 8

  /** A wallet's permanent claim to one seat index. */
  datatype Locator = Locator(wallet: nat, index: U64)

  /** A placement as it comes over the wire; options are small integers. */
  datatype Args = Args(
    expectedNonce: U64, price: U64, quantity: U64, outcome: nat, action: nat,
    timeInForce: nat, selfTrade: nat, postOnly: bool, expiresAt: Option<int>, touches: nat)

  function OutcomeCode(code: nat): Option<Outcome> {
    if code == 0 then Some(Yes) else if code == 1 then Some(No) else None
  }

  function ActionCode(code: nat): Option<Action> {
    if code == 0 then Some(Buy) else if code == 1 then Some(Sell) else None
  }

  function TimeInForceCode(code: nat): Option<TimeInForce> {
    if code == 0 then Some(Gtc) else if code == 1 then Some(Ioc) else if code == 2 then Some(Fok) else None
  }

  function SelfTradeCode(code: nat): Option<SelfTrade> {
    if code == 0 then Some(CancelAggressor) else if code == 1 then Some(CancelResting)
    else if code == 2 then Some(CancelBoth) else None
  }

  /** A new order always starts its own fee chain, under the next identifier. */
  function Decode(a: Args, owner: U64, id: U64): Option<Incoming> {
    var outcome :- OutcomeCode(a.outcome);
    var action :- ActionCode(a.action);
    var timeInForce :- TimeInForceCode(a.timeInForce);
    var selfTrade :- SelfTradeCode(a.selfTrade);
    Some(Incoming(Order(id, owner, Intent(outcome, action), a.price, a.quantity, id, a.expiresAt, 0),
                  timeInForce, a.postOnly, selfTrade))
  }

  // The numbers clients send.

  function OutcomeWire(outcome: Outcome): nat {
    match outcome case Yes => 0 case No => 1
  }

  function ActionWire(action: Action): nat {
    match action case Buy => 0 case Sell => 1
  }

  function TimeInForceWire(timeInForce: TimeInForce): nat {
    match timeInForce case Gtc => 0 case Ioc => 1 case Fok => 2
  }

  function SelfTradeWire(selfTrade: SelfTrade): nat {
    match selfTrade case CancelAggressor => 0 case CancelResting => 1 case CancelBoth => 2
  }

  /** The command says what the order is, and it is a new one: under this identifier, with nothing traded yet. */
  predicate Says(a: Args, incoming: Incoming, owner: U64, id: U64) {
    var order := incoming.order;
    && a.outcome == OutcomeWire(order.intent.outcome) && a.action == ActionWire(order.intent.action)
    && a.timeInForce == TimeInForceWire(incoming.timeInForce) && a.selfTrade == SelfTradeWire(incoming.selfTrade)
    && a.postOnly == incoming.postOnly && a.expiresAt == order.expiresAt
    && a.price == order.limitPrice && a.quantity == order.remaining
    && order.owner == owner && order.id == order.sequence == id && order.chainNotional == 0
  }

  /** Decoding finds the one order a command says; a command that says none has a number out of range. */
  lemma DecodesWhatIsSaid(a: Args, owner: U64, id: U64)
    ensures forall incoming :: Decode(a, owner, id) == Some(incoming) <==> Says(a, incoming, owner, id)
    ensures Decode(a, owner, id).None? <==> a.outcome > 1 || a.action > 1 || a.timeInForce > 2 || a.selfTrade > 2
  {
  }

  function TouchesOf(a: Args): nat {
    if a.touches == 0 then DEFAULT_TOUCHES else a.touches
  }

  predicate Seated(seats: seq<Seat>, locator: Locator, wallet: nat) {
    locator.wallet == wallet && locator.index < |seats| <= SEAT_CAPACITY && seats[locator.index].wallet == wallet
  }

  /** Seats nobody has registered yet. */
  predicate Vacant(seats: seq<Seat>) {
    forall i :: 0 <= i < |seats| ==> seats[i] == NewSeat(0)
  }

  predicate AllCovered(seats: seq<Seat>) {
    forall s <- seats :: Covered(s)
  }

  /** The program's own audit of the whole ledger. */
  function Audit(l: Funds, payout: U64): Option<Fault> {
    if !AllCovered(l.seats) then Some(InvalidReserves)
    else if !InBalance(l, payout) then Some(Accounting)
    else None
  }

  /** A placement that passed the first checks. */
  datatype Command = Command(incoming: Incoming, nonceAfter: U64)

  /** The checks made before any money is looked at, in the program's order. */
  function Screen(seats: seq<Seat>, accounted: U64, locator: Locator, wallet: nat, vault: U64, args: Args,
                  nextSequence: U64,
                  now: int, closesAt: int): (r: Result<Command, Fault>)
    ensures r.Ok? ==> locator.index < |seats| && Decode(args, locator.index, nextSequence) == Some(r.value.incoming)
  {
    if wallet == 0 || !Seated(seats, locator, wallet) then Err(Binding)
    else if now >= closesAt then Err(Closed)
    else if vault < accounted then Err(VaultUnderfunded)
    else if seats[locator.index].nextNonce != args.expectedNonce then Err(Nonce)
    else
      var nonceAfter :- Add(args.expectedNonce, 1);
      var incoming :- Decode(args, locator.index, nextSequence).OkOr(Fault.InvalidOptions);
      Ok(Command(incoming, nonceAfter))
  }

  /** The wallet sits in the seat its locator names, and has seen every command of that seat. */
  predicate Standing(seats: seq<Seat>, locator: Locator, wallet: nat, nonce: U64) {
    && locator.wallet == wallet && locator.index < |seats| <= 256 && seats[locator.index].wallet == wallet
    && seats[locator.index].nextNonce == nonce
  }

  /** Exactly who may place an order: the owner of a seat, in turn, before the close, over a funded vault. */
  predicate MayPlace(seats: seq<Seat>, accounted: U64, locator: Locator, wallet: nat, vault: U64, args: Args,
                     now: int, closesAt: int) {
    && wallet != 0 && Standing(seats, locator, wallet, args.expectedNonce) && now < closesAt && accounted <= vault
    && args.expectedNonce < TWO_64 - 1
    && args.outcome <= 1 && args.action <= 1 && args.timeInForce <= 2 && args.selfTrade <= 2
  }

  /** What each refusal of a command says about it. */
  predicate Unfit(fault: Fault, seats: seq<Seat>, accounted: U64, locator: Locator, wallet: nat, vault: U64,
                  args: Args, now: int, closesAt: int) {
    match fault
    case Binding =>
      wallet == 0 || locator.wallet != wallet || locator.index >= |seats| || |seats| > 256
      || seats[locator.index].wallet != wallet
    case Closed => closesAt <= now
    case VaultUnderfunded => vault < accounted
    case Nonce => locator.index < |seats| && seats[locator.index].nextNonce != args.expectedNonce
    case Overflow => args.expectedNonce == TWO_64 - 1
    case InvalidOptions => args.outcome > 1 || args.action > 1 || args.timeInForce > 2 || args.selfTrade > 2
    case _ => false
  }

  /** Of several things wrong with a command, the one that is named comes first here. */
  function Turn(fault: Fault): nat {
    match fault
    case Binding => 0
    case Closed => 1
    case VaultUnderfunded => 2
    case Nonce => 3
    case Overflow => 4
    case _ => 5
  }

  lemma ScreensExactly(seats: seq<Seat>, accounted: U64, locator: Locator, wallet: nat, vault: U64, args: Args,
                       nextSequence: U64, now: int, closesAt: int)
    ensures var screened := Screen(seats, accounted, locator, wallet, vault, args, nextSequence, now, closesAt);
            && (screened.Ok? <==> MayPlace(seats, accounted, locator, wallet, vault, args, now, closesAt))
            && (screened.Ok? ==>
                  && Says(args, screened.value.incoming, locator.index, nextSequence)
                  && screened.value.nonceAfter == args.expectedNonce + 1)
            && (screened.Err? ==>
                  Unfit(screened.error, seats, accounted, locator, wallet, vault, args, now, closesAt))
    ensures var screened := Screen(seats, accounted, locator, wallet, vault, args, nextSequence, now, closesAt);
            screened.Err? ==>
              forall f :: Unfit(f, seats, accounted, locator, wallet, vault, args, now, closesAt) ==>
                Turn(screened.error) <= Turn(f)
  {
    if locator.index < |seats| {
      DecodesWhatIsSaid(args, locator.index, nextSequence);
    }
  }

  /** Everything checked before the book is consulted. */
  function Admit(l: Funds, locator: Locator, wallet: nat, vault: U64, args: Args, nextSequence: U64, now: int,
                 closesAt: int, payout: U64)
    : Result<Command, Fault>
  {
    AfterAudit(Screen(l.seats, l.accounted, locator, wallet, vault, args, nextSequence, now, closesAt),
               Audit(l, payout))
  }

  /** The audit only comes after every other check has passed. */
  function AfterAudit(screened: Result<Command, Fault>, fault: Option<Fault>): Result<Command, Fault> {
    if screened.Ok? && fault.Some? then Err(fault.value) else screened
  }

  /** A command is let through exactly if it may be placed and the ledger is in balance with every seat covered. */
  lemma AdmitsExactly(l: Funds, locator: Locator, wallet: nat, vault: U64, args: Args, nextSequence: U64, now: int,
                      closesAt: int, payout: U64)
    ensures var admitted := Admit(l, locator, wallet, vault, args, nextSequence, now, closesAt, payout);
            && (admitted.Ok? <==>
                  && MayPlace(l.seats, l.accounted, locator, wallet, vault, args, now, closesAt)
                  && (forall s <- l.seats :: s.reservedYes <= s.yes && s.reservedNo <= s.no)
                  && var totals := TotalsOf(l.seats);
                     && totals.cash + l.collateral + l.revenue == l.accounted
                     && totals.yes == totals.no && totals.no * payout == l.collateral)
            && (admitted.Err? && MayPlace(l.seats, l.accounted, locator, wallet, vault, args, now, closesAt) ==>
                  if forall s <- l.seats :: s.reservedYes <= s.yes && s.reservedNo <= s.no
                  then admitted.error == Accounting else admitted.error == InvalidReserves)
  {
    ScreensExactly(l.seats, l.accounted, locator, wallet, vault, args, nextSequence, now, closesAt);
    assert AllCovered(l.seats) <==> forall s <- l.seats :: s.reservedYes <= s.yes && s.reservedNo <= s.no;
  }

  /** The ledger work once a placement is planned, with the audit repeated on the result. */
  function SettleAndAudit(l: Funds, report: Report, submitter: nat, nonceAfter: U64, payout: U64,
                          reserve: Reserver): Result<Funds, Fault>
    requires submitter < |l.seats|
  {
    if report.disposition.FokNotFillable? then Err(FokRejected)
    else if report.disposition.PostOnlyWouldTrade? then Err(PostOnlyRejected) else
    var settled :- SettlePlacement(l, report.effects, report.requiredReserve, report.finalReserve, submitter,
      nonceAfter, reserve);
    if Audit(settled, payout).Some? then Err(Audit(settled, payout).value) else Ok(settled)
  }

  // ---------- Audits over staged seats ----------

  lemma CoveredPrefix(seats: seq<Seat>, k: nat)
    requires k < |seats|
    ensures AllCovered(seats[..k + 1]) <==> AllCovered(seats[..k]) && Covered(seats[k])
  {
    assert seats[..k + 1] == seats[..k] + [seats[k]];
  }

  /** Sums all seats, checking that none reserves more shares than it has. */
  method Collect(seats: seq<Seat>) returns (r: Result<Totals, Fault>)
    ensures r == if AllCovered(seats) then Ok(TotalsOf(seats)) else Err(InvalidReserves)
  {
    var totals := Totals(0, 0, 0);
    for k := 0 to |seats|
      invariant totals == TotalsOf(seats[..k]) && AllCovered(seats[..k])
    {
      CoveredPrefix(seats, k);
      assert seats[..k + 1][..k] == seats[..k];
      var s := seats[k];
      if !Covered(s) {
        return Err(InvalidReserves);
      }
      totals := Totals(totals.cash + Cash(s), totals.yes + s.yes, totals.no + s.no);
    }
    assert seats[..|seats|] == seats;
    return Ok(totals);
  }

  lemma OverlayNext(base: seq<Seat>, patches: seq<SeatPatch>, k: nat)
    requires (forall p <- patches :: p.index < |base|) && Distinct(patches) && k < |patches|
    ensures Overlay(base, patches[..k])[patches[k].index] == base[patches[k].index]
    ensures Overlay(base, patches[..k + 1]) == Overlay(base, patches[..k])[patches[k].index := patches[k].after]
  {
    OverlayElsewhere(base, patches[..k], patches[k].index);
    assert patches[..k + 1][..k] == patches[..k];
  }

  lemma CoveredUpdate(seats: seq<Seat>, i: nat, s: Seat)
    requires i < |seats| && Covered(seats[i]) && Covered(s)
    ensures AllCovered(seats[i := s]) <==> AllCovered(seats)
  {
    assert seats[i := s][i] == s && seats[i] in seats;
    forall j | 0 <= j < |seats| && j != i
      ensures seats[i := s][j] == seats[j] && seats[j] in seats[i := s] && seats[j] in seats
    {
      assert seats[i := s][j] == seats[j];
    }
  }

  /** Corrects totals of the stored seats for the staged ones, seat by seat. */
  method Recount(staged: Staged, before: Totals) returns (r: Result<Totals, Fault>)
    requires staged.Valid() && before == TotalsOf(staged.base) && AllCovered(staged.base)
    ensures r == if AllCovered(staged.View()) then Ok(TotalsOf(staged.View())) else Err(InvalidReserves)
  {
    var totals, base, patches := before, staged.base, staged.patches;
    for k := 0 to |patches|
      invariant totals == TotalsOf(Overlay(base, patches[..k])) && AllCovered(Overlay(base, patches[..k]))
    {
      var p := patches[k];
      OverlayNext(base, patches, k);
      if !Covered(p.after) {
        OverlayAt(base, patches, k);
        assert p.after in staged.View();
        return Err(InvalidReserves);
      }
      CoveredUpdate(Overlay(base, patches[..k]), p.index, p.after);
      TotalsUpdate(Overlay(base, patches[..k]), p.index, p.after);
      TotalsCover(Overlay(base, patches[..k]), p.index, p.index);
      var was := base[p.index];
      totals := Totals(totals.cash - Cash(was) + Cash(p.after), totals.yes - was.yes + p.after.yes,
        totals.no - was.no + p.after.no);
    }
    assert patches[..|patches|] == patches;
    return Ok(totals);
  }

  // ---------- Settling on copies ----------

  /** Locks, settles, unlocks and locks again, all on staged copies. */
  method SettleCopies(staged: Staged, report: Report, submitter: nat, nonceAfter: U64, collateral: U64, revenue: U64,
                      reserve: Reserver, ghost accounted: U64) returns (r: Result<Running, Fault>)
    requires staged.Valid() && staged.patches == [] && submitter < |staged.base| && |report.effects| <= MAX_TOUCHES
    modifies staged
    ensures staged.Valid()
    ensures match SettlePlacement(Funds(staged.base, accounted, collateral, revenue), report.effects,
                                  report.requiredReserve,
                                  report.finalReserve, submitter, nonceAfter, reserve)
            case Err(e) => r == Err(e)
            case Ok(l) => r.Ok? && l == LedgerOf(staged.View(), accounted, r.value)
  {
    var at := staged.Stage(submitter);
    var locked :- Lock(staged.patches[at].after, report.requiredReserve);
    staged.Put(at, locked);
    assert staged.patches[at].index == submitter;
    var books :- ApplyEffects(staged, report.effects, submitter, Running(report.requiredReserve, collateral, revenue),
      reserve, accounted);
    at := staged.Stage(submitter);
    var unlocked :- Unlock(staged.patches[at].after, books.takerReserve);
    var last :- Lock(unlocked, report.finalReserve);
    staged.Put(at, last.(nextNonce := nonceAfter));
    return Ok(books);
  }

  /** Settles on copies and repeats the audit; nothing stored has changed whatever the result. */
  method SettleOnCopies(l: Funds, totals: Totals, report: Report, submitter: nat, nonceAfter: U64, payout: U64,
                        reserve: Reserver)
    returns (r: Result<(seq<SeatPatch>, Running), Fault>)
    requires submitter < |l.seats| && |report.effects| <= MAX_TOUCHES
    requires AllCovered(l.seats) && totals == TotalsOf(l.seats)
    ensures match SettleAndAudit(l, report, submitter, nonceAfter, payout, reserve)
            case Err(e) => r == Err(e)
            case Ok(after) =>
              && r.Ok? && Distinct(r.value.0) && (forall p <- r.value.0 :: p.index < |l.seats|)
              && after == LedgerOf(Overlay(l.seats, r.value.0), l.accounted, r.value.1)
  {
    if report.disposition.FokNotFillable? {
      return Err(FokRejected);
    } else if report.disposition.PostOnlyWouldTrade? {
      return Err(PostOnlyRejected);
    }
    var staged := new Staged(l.seats);
    var books :- SettleCopies(staged, report, submitter, nonceAfter, l.collateral, l.revenue, reserve, l.accounted);
    var after :- Recount(staged, totals);
    if !Verified(after, l.accounted, books.collateral, books.revenue, payout) {
      return Err(Accounting);
    }
    return Ok((staged.patches, books));
  }

  // ---------- What a placement may answer ----------

  datatype Executed = Executed(ledger: Funds, placement: Placement)

  /** Planning on the book, then settling the plan: what `Market.Place` is proved to do. */
  ghost function Executing(l: Funds, sides: Sides, revision: U64, nextSequence: U64, t: Terms,
                           incoming: Incoming, now: int, touchLimit: nat, nonceAfter: U64): Result<Executed, Fault>
    requires SidesOk(sides, t.payout) && incoming.order.owner < |l.seats|
  {
    match Place(sides, incoming, now, touchLimit, revision, nextSequence, t)
    case Err(e) => Err(Matcher(e))
    case Ok(p) =>
      var settled :- SettleAndAudit(l, ReportOf(p), incoming.order.owner, nonceAfter, t.payout, AtRate(t.feeBps));
      Ok(Executed(settled, p))
  }

  lemma AuditPasses(l: Funds, live: set<Order>, payout: U64, reserve: Reserver)
    requires AtRest(l, live, payout, reserve)
    ensures Audit(l, payout).None?
  {
    forall s <- l.seats ensures Covered(s) {
      var i :| 0 <= i < |l.seats| && l.seats[i] == s;
      assert Reserves(l.seats[i], Owed(live, i, SEAT_CAPACITY, Nothing(), reserve));
    }
  }

  lemma DecodedFits(args: Args, owner: U64, nextSequence: U64, sides: Sides, t: Terms)
    requires BookOk(sides, nextSequence, t.payout) && Decode(args, owner, nextSequence).Some?
    ensures var order := Decode(args, owner, nextSequence).value.order;
            && FitsBook(order, t.payout) && order.owner == owner && order.id == nextSequence
            && (ValidateOrder(order, t.payout).None? ==> FreshTaker(order, sides, t))
  {
    var order := Decode(args, owner, nextSequence).value.order;
    if ValidateOrder(order, t.payout).None? {
      assert t.payout * order.remaining <= t.payout * MAX_QUANTITY by {
        Fees.ProductMonotone(order.remaining, MAX_QUANTITY, t.payout);
      }
    }
  }

  /**
   On a market in order, a placement that is not refused up front leaves the ledger backed
   by exactly the orders then resting. It fails only if the matcher rejects the order, if
   the order may not trade as asked, or for too little cash or too few shares: the audits,
   reserve checks and seat bindings never fail.
   */
  lemma PlacementOutcome(l: Funds, sides: Sides, revision: U64, nextSequence: U64, t: Terms,
                       incoming: Incoming, now: int, touchLimit: nat, nonceAfter: U64)
    requires BookOk(sides, nextSequence, t.payout) && t.feeBps <= Fees.MAX_FEE_BPS
    requires AtRest(l, sides.All(), t.payout, AtRate(t.feeBps)) && incoming.order.owner < |l.seats|
    requires ValidateOrder(incoming.order, t.payout).None? ==> FreshTaker(incoming.order, sides, t)
    ensures var out := Executing(l, sides, revision, nextSequence, t, incoming, now, touchLimit, nonceAfter);
            && (out.Ok? ==> AtRest(out.value.ledger, out.value.placement.sides.All(), t.payout, AtRate(t.feeBps)))
            && (out.Ok? ==> out.value.placement.admitted)
            && (out.Err? ==>
                  || (out.error.Matcher? &&
                      Place(sides, incoming, now, touchLimit, revision, nextSequence, t) == Err(out.error.error))
                  || out.error in {FokRejected, PostOnlyRejected, InsufficientCash, InsufficientPosition})
  {
    var placed := Place(sides, incoming, now, touchLimit, revision, nextSequence, t);
    if placed.Ok? {
      PlacementConserves(sides, incoming, now, touchLimit, revision, nextSequence, t);
      if placed.value.admitted {
        PlaceShape(sides, incoming, now, touchLimit, revision, nextSequence, t);
        PlacementSettles(sides, incoming, now, touchLimit, revision, nextSequence, t, l, nonceAfter);
        var p := placed.value;
        var settled := SettlePlacement(l, p.effects, p.requiredReserve, p.finalReserve, incoming.order.owner,
          nonceAfter, AtRate(t.feeBps));
        if settled.Ok? {
          AuditPasses(settled.value, p.sides.All(), t.payout, AtRate(t.feeBps));
        }
      }
    }
  }

  /** Unless it is rejected, the plan may be written: the counters have room and the book stays in order. */
  ghost predicate Writable(p: Placement, revision: U64, nextSequence: U64, payout: U64) {
    || p.disposition.FokNotFillable? || p.disposition.PostOnlyWouldTrade?
    || (revision + 1 < TWO_64 && nextSequence + 1 < TWO_64 && BookOk(p.sides, nextSequence + 1, payout))
  }

  lemma AdmittedIsWritable(sides: Sides, revision: U64, nextSequence: U64, t: Terms, incoming: Incoming, now: int,
                           touchLimit: nat)
    requires BookOk(sides, nextSequence, t.payout) && t.feeBps <= Fees.MAX_FEE_BPS
    requires ValidateOrder(incoming.order, t.payout).None? ==> FreshTaker(incoming.order, sides, t)
    requires Place(sides, incoming, now, touchLimit, revision, nextSequence, t).Ok?
    ensures var p := Place(sides, incoming, now, touchLimit, revision, nextSequence, t).value;
            |p.effects| <= MAX_TOUCHES && Writable(p, revision, nextSequence, t.payout)
  {
    PlaceShape(sides, incoming, now, touchLimit, revision, nextSequence, t);
    PlacementConserves(sides, incoming, now, touchLimit, revision, nextSequence, t);
    if Place(sides, incoming, now, touchLimit, revision, nextSequence, t).value.admitted {
      PlacementKeepsBook(sides, incoming, now, touchLimit, revision, nextSequence, t);
    }
  }

  // ---------- Taking one order out ----------

  datatype RemovalFault = StaleTarget | NotOwner | StaleNonce | NotEligible | CounterOverflow

  datatype Reason = OwnerCancel | Lapsed | MarketClosed

  /** Which order is meant: the heap position is only a hint, checked against side and identifier. */
  datatype Target = Target(orderId: U64, side: nat, heapIndex: nat)

  datatype Authority = Owner(wallet: nat, locator: Locator, nonce: U64) | Keeper(now: int)

  datatype Warrant = Warrant(reason: Reason, nonceAfter: U64)

  datatype Receipt = Receipt(order: Order, released: Reserve, reason: Reason, writes: nat)

  function SideCode(code: nat): Option<Side> {
    if code == 0 then Some(Bid) else if code == 1 then Some(Ask) else None
  }

  /** The order a target names, if the hint is still good. */
  function TargetOf(v: View, target: Target): Option<Order> {
    var side :- SideCode(target.side);
    if target.heapIndex >= v.Len(side) || target.heapIndex >= |v.Cells(side)| then None else
    var slot := v.Cells(side)[target.heapIndex];
    if slot < |v.slots| && LiveOn(v.slots, slot, side) && v.slots[slot].order.id == target.orderId
    then Some(v.slots[slot].order) else None
  }

  /** Owners cancel with their wallet and nonce; anyone may clear expired orders, or all orders after close. */
  function Authorize(auth: Authority, seat: Seat, order: Order, closesAt: int): Result<Warrant, RemovalFault> {
    match auth
    case Owner(wallet, locator, nonce) =>
      if wallet != seat.wallet || locator.wallet != wallet || locator.index != order.owner then Err(NotOwner)
      else if seat.nextNonce != nonce then Err(StaleNonce)
      else
        var after :- CheckedAdd(nonce, 1).OkOr(CounterOverflow);
        Ok(Warrant(OwnerCancel, after))
    case Keeper(now) =>
      if now >= closesAt then Ok(Warrant(MarketClosed, seat.nextNonce))
      else if order.Expired(now) then Ok(Warrant(Lapsed, seat.nextNonce))
      else Err(NotEligible)
  }

  /** Exactly who may take an order out, for what reason, and with which nonce afterwards. */
  predicate MayRemove(auth: Authority, seat: Seat, order: Order, closesAt: int, reason: Reason, nonceAfter: nat) {
    match auth
    case Owner(wallet, locator, nonce) =>
      && wallet == seat.wallet && locator.wallet == wallet && locator.index == order.owner
      && nonce == seat.nextNonce && nonceAfter == nonce + 1 && reason == OwnerCancel
    case Keeper(now) =>
      && nonceAfter == seat.nextNonce
      && if closesAt <= now then reason == MarketClosed
         else reason == Lapsed && order.expiresAt.Some? && order.expiresAt.value <= now
  }

  /** Why nobody may: each refusal says what is wrong. */
  predicate MayNotRemove(auth: Authority, seat: Seat, order: Order, closesAt: int, fault: RemovalFault) {
    match auth
    case Owner(wallet, locator, nonce) =>
      var owns := wallet == seat.wallet && locator.wallet == wallet && locator.index == order.owner;
      if !owns then fault == NotOwner
      else if nonce != seat.nextNonce then fault == StaleNonce
      else nonce == TWO_64 - 1 && fault == CounterOverflow
    case Keeper(now) =>
      now < closesAt && (order.expiresAt.None? || now < order.expiresAt.value) && fault == NotEligible
  }

  lemma AuthorizesExactly(auth: Authority, seat: Seat, order: Order, closesAt: int)
    ensures match Authorize(auth, seat, order, closesAt)
            case Ok(w) => MayRemove(auth, seat, order, closesAt, w.reason, w.nonceAfter)
            case Err(f) => MayNotRemove(auth, seat, order, closesAt, f)
    ensures forall reason, after: U64 ::
              MayRemove(auth, seat, order, closesAt, reason, after) ==>
                Authorize(auth, seat, order, closesAt) == Ok(Warrant(reason, after))
  {
  }

  /** The target is good: a side, a place in its heap, and the order of that identifier there. */
  predicate Names(v: View, target: Target, order: Order) {
    target.side <= 1
    && var cells, len := if target.side == 0 then v.bids else v.asks, if target.side == 0 then v.bidLen else v.askLen;
       && target.heapIndex < len && target.heapIndex < |cells| && cells[target.heapIndex] < |v.slots|
       && v.slots[cells[target.heapIndex]] == Live(order)
       && order.id == target.orderId && (order.intent.Side().Bid? <==> target.side == 0)
  }

  lemma TargetsExactly(v: View, target: Target)
    ensures forall order :: TargetOf(v, target) == Some(order) <==> Names(v, target, order)
  {
  }

  lemma TargetRests(v: View, free: seq<nat>, target: Target, payout: U64)
    requires WellFormed(v, free, payout) && TargetOf(v, target).Some?
    ensures var side := SideCode(target.side).value;
            && target.heapIndex < v.Len(side) && v.Cells(side)[target.heapIndex] < |v.slots|
            && v.slots[v.Cells(side)[target.heapIndex]] == Live(TargetOf(v, target).value)
            && TargetOf(v, target).value in SidesOf(v).Of(side)
  {
  }

  /** What removing `order` makes of a market; every other order and seat is left alone. */
  ghost predicate TakenOut(before: MarketState, after: MarketState, side: Side, order: Order, released: Reserve,
                           nonceAfter: U64) {
    && order.owner < |before.money.seats| == |after.money.seats|
    && Refunded(before.money.seats[order.owner], after.money.seats[order.owner], released, nonceAfter)
    && after.money == WithSeat(before.money, order.owner, after.money.seats[order.owner])
    && after.sides == before.sides.With(side, before.sides.Of(side) - {order})
    && after.revision == before.revision + 1 && after.nextSequence == before.nextSequence
  }

  // ---------- Cash and seats ----------

  datatype CashFault = InsufficientAvailable | VaultShort | InvalidSeat | StaleCommand | CashOverflow | SeatsTaken

  /** The checks deposits and withdrawals share, in the program's order. */
  function CashRefusal(seats: seq<Seat>, accounted: U64, locator: Locator, wallet: nat, vault: U64, amount: U64,
                       nonce: U64): (refused: Option<CashFault>)
    ensures refused.None? ==> locator.index < |seats|
  {
    if amount == 0 then Some(InsufficientAvailable)
    else if vault < accounted then Some(VaultShort)
    else if !Seated(seats, locator, wallet) then Some(InvalidSeat)
    else if seats[locator.index].nextNonce != nonce then Some(StaleCommand)
    else None
  }

  function Deposited(l: Funds, i: nat, amount: U64): Option<Funds>
    requires i < |l.seats|
  {
    var seat := l.seats[i];
    var available :- CheckedAdd(seat.availableCash, amount);
    var accounted :- CheckedAdd(l.accounted, amount);
    var nonce :- CheckedAdd(seat.nextNonce, 1);
    Some(WithSeat(l, i, seat.(availableCash := available, nextNonce := nonce)).(accounted := accounted))
  }

  function Withdrawn(l: Funds, i: nat, amount: U64): Result<Funds, CashFault>
    requires i < |l.seats|
  {
    var seat := l.seats[i];
    var available :- CheckedSub(seat.availableCash, amount).OkOr(InsufficientAvailable);
    var accounted :- CheckedSub(l.accounted, amount).OkOr(CashOverflow);
    var nonce :- CheckedAdd(seat.nextNonce, 1).OkOr(CashOverflow);
    Ok(WithSeat(l, i, seat.(availableCash := available, nextNonce := nonce)).(accounted := accounted))
  }

  /** What each refusal of a deposit or withdrawal says. */
  predicate CashUnfit(fault: CashFault, seats: seq<Seat>, accounted: U64, locator: Locator, wallet: nat, vault: U64,
                      amount: U64, nonce: U64) {
    match fault
    case InsufficientAvailable => amount == 0
    case VaultShort => vault < accounted
    case InvalidSeat =>
      locator.wallet != wallet || locator.index >= |seats| || |seats| > 256 || seats[locator.index].wallet != wallet
    case StaleCommand => locator.index < |seats| && seats[locator.index].nextNonce != nonce
    case _ => false
  }

  function CashTurn(fault: CashFault): nat {
    match fault
    case InsufficientAvailable => 0
    case VaultShort => 1
    case InvalidSeat => 2
    case _ => 3
  }

  lemma CashRefusedExactly(seats: seq<Seat>, accounted: U64, locator: Locator, wallet: nat, vault: U64, amount: U64,
                           nonce: U64)
    ensures var refused := CashRefusal(seats, accounted, locator, wallet, vault, amount, nonce);
            && (refused.None? <==> 0 < amount && accounted <= vault && Standing(seats, locator, wallet, nonce))
            && (refused.Some? ==> CashUnfit(refused.value, seats, accounted, locator, wallet, vault, amount, nonce))
    ensures var refused := CashRefusal(seats, accounted, locator, wallet, vault, amount, nonce);
            refused.Some? ==>
              forall f :: CashUnfit(f, seats, accounted, locator, wallet, vault, amount, nonce) ==>
                CashTurn(refused.value) <= CashTurn(f)
  {
  }

  /** Cash and accounted total move together by this much, one nonce is used, and nothing else changes. */
  predicate CashMoved(before: Funds, after: Funds, i: nat, gain: int) {
    && i < |before.seats| == |after.seats|
    && after.accounted == before.accounted + gain
    && after.seats[i].availableCash == before.seats[i].availableCash + gain
    && after.seats[i].nextNonce == before.seats[i].nextNonce + 1
    && after.seats[i] == before.seats[i].(availableCash := after.seats[i].availableCash,
                                          nextNonce := after.seats[i].nextNonce)
    && after == Funds(before.seats[i := after.seats[i]], after.accounted, before.collateral, before.revenue)
  }

  lemma DepositsMove(l: Funds, i: nat, amount: U64)
    requires i < |l.seats|
    ensures Deposited(l, i, amount).Some? <==>
              && l.seats[i].availableCash + amount < TWO_64 && l.accounted + amount < TWO_64
              && l.seats[i].nextNonce + 1 < TWO_64
    ensures Deposited(l, i, amount).Some? ==> CashMoved(l, Deposited(l, i, amount).value, i, amount)
  {
  }

  lemma WithdrawalsMove(l: Funds, i: nat, amount: U64)
    requires i < |l.seats|
    ensures match Withdrawn(l, i, amount)
            case Ok(after) => CashMoved(l, after, i, -(amount as int))
            case Err(InsufficientAvailable) => l.seats[i].availableCash < amount
            case Err(f) => f == CashOverflow && amount <= l.seats[i].availableCash
                           && (l.accounted < amount || l.seats[i].nextNonce == TWO_64 - 1)
  {
  }

  /** What was deposited can be withdrawn again, leaving two nonces used and nothing else changed. */
  lemma DepositWithdraws(l: Funds, i: nat, amount: U64)
    requires i < |l.seats| && Deposited(l, i, amount).Some? && l.seats[i].nextNonce + 2 < TWO_64
    ensures Withdrawn(Deposited(l, i, amount).value, i, amount) ==
            Ok(WithSeat(l, i, l.seats[i].(nextNonce := l.seats[i].nextNonce + 2)))
  {
    var deposited := Deposited(l, i, amount).value;
    WithSeatTwice(l, i, deposited.seats[i], l.seats[i].(nextNonce := l.seats[i].nextNonce + 2));
  }

  // ---------- The stored market ----------

  datatype MarketState = MarketState(money: Funds, sides: Sides, revision: U64, nextSequence: U64)

  /** The market has gone from `before` to the state `Executing` computes, or has not changed. */
  ghost predicate Answered(before: MarketState, after: MarketState, r: Result<Report, Fault>, t: Terms,
                           incoming: Incoming, now: int, touchLimit: nat, nonceAfter: nat)
  {
    && SidesOk(before.sides, t.payout) && incoming.order.owner < |before.money.seats| && nonceAfter < TWO_64
    && match Executing(before.money, before.sides, before.revision, before.nextSequence, t, incoming, now, touchLimit,
                       nonceAfter)
       case Err(f) => r == Err(f) && after == before
       case Ok(x) =>
         && r == Ok(ReportOf(x.placement)) && after.money == x.ledger && after.sides == x.placement.sides
         && after.revision == before.revision + 1 && after.nextSequence == before.nextSequence + 1
  }

  /** The report is about this order, accounts for all of it within the touches allowed, and used the nonce up. */
  predicate PlacedAsAsked(after: Funds, locator: Locator, args: Args, id: U64, report: Report) {
    var order := report.taker;
    && order.owner == locator.index && order.id == order.sequence == id
    && args.outcome == OutcomeWire(order.intent.outcome) && args.action == ActionWire(order.intent.action)
    && order.limitPrice == args.price && order.expiresAt == args.expiresAt
    && report.filled + report.canceled + report.rested == args.quantity
    && report.filled == FilledQuantity(report.effects)
    && |report.effects| <= report.touched <= (if args.touches == 0 then 8 else args.touches) <= 16
    && locator.index < |after.seats| && after.seats[locator.index].nextNonce == args.expectedNonce + 1
  }

  lemma AnswersAsAsked(before: MarketState, after: MarketState, report: Report, t: Terms, c: Command, now: int,
                       locator: Locator, args: Args)
    requires Answered(before, after, Ok(report), t, c.incoming, now, TouchesOf(args), c.nonceAfter)
    requires locator.index < |before.money.seats| && Says(args, c.incoming, locator.index, before.nextSequence)
    requires c.nonceAfter == args.expectedNonce + 1
    ensures PlacedAsAsked(after.money, locator, args, before.nextSequence, report)
  {
    var x := Executing(before.money, before.sides, before.revision, before.nextSequence, t, c.incoming, now,
      TouchesOf(args), c.nonceAfter).value;
    var p := x.placement;
    PlacementConserves(before.sides, c.incoming, now, TouchesOf(args), before.revision, before.nextSequence, t);
    TimeInForceHonoured(before.sides, c.incoming, now, TouchesOf(args), before.revision, before.nextSequence, t);
    SettlingUsesNonce(before.money, p.effects, p.requiredReserve, p.finalReserve, c.incoming.order.owner, c.nonceAfter,
      AtRate(t.feeBps));
  }

  /** Nobody has to say how many orders to touch, and nobody is refused for it who asks for no more than sixteen. */
  lemma TouchesSuffice(before: MarketState, after: MarketState, t: Terms, c: Command, now: int, args: Args)
    requires Answered(before, after, Err(Matcher(InvalidWorkLimit)), t, c.incoming, now, TouchesOf(args), c.nonceAfter)
    requires BookOk(before.sides, before.nextSequence, t.payout) && t.feeBps <= Fees.MAX_FEE_BPS
    requires AtRest(before.money, before.sides.All(), t.payout, AtRate(t.feeBps))
    requires Decode(args, c.incoming.order.owner, before.nextSequence) == Some(c.incoming)
    ensures args.touches > 16
  {
    DecodedFits(args, c.incoming.order.owner, before.nextSequence, before.sides, t);
    PlacementOutcome(before.money, before.sides, before.revision, before.nextSequence, t, c.incoming, now,
      TouchesOf(args), c.nonceAfter);
    WorkLimitIsMeant(before.sides, c.incoming, now, TouchesOf(args), before.revision, before.nextSequence, t);
  }

  method AuditLedger(l: Funds, payout: U64) returns (r: Result<Totals, Fault>)
    ensures r == if Audit(l, payout).Some? then Err(Audit(l, payout).value) else Ok(TotalsOf(l.seats))
  {
    var totals :- Collect(l.seats);
    if !Verified(totals, l.accounted, l.collateral, l.revenue, payout) {
      return Err(Accounting);
    }
    return Ok(totals);
  }

  /** Writes staged copies over the seats they were made from. */
  method WriteSeats(entries: array<Seat>, count: nat, patches: seq<SeatPatch>)
    requires count <= entries.Length && Distinct(patches) && forall p <- patches :: p.index < count
    modifies entries
    ensures entries[..count] == Overlay(old(entries[..count]), patches)
    ensures entries[count..] == old(entries[count..])
  {
    ghost var was, beyond := entries[..count], entries[count..];
    for k := 0 to |patches|
      invariant entries[..count] == Overlay(was, patches[..k]) && entries[count..] == beyond
    {
      OverlayNext(was, patches, k);
      entries[patches[k].index] := patches[k].after;
    }
    assert patches[..|patches|] == patches;
  }

  /** No seats, no money and no orders are at rest. */
  lemma NothingAtRest(l: Funds, live: set<Order>, payout: U64, reserve: Reserver)
    requires l.seats == [] && l.accounted == l.collateral == l.revenue == 0 && live == {} && 2 <= payout
    ensures AtRest(l, live, payout, reserve)
  {
  }

  class Market {
    const book: Storage
    const entries: array<Seat>
    const closesAt: int
    var count: nat
    var accounted: U64
    var collateral: U64
    var revenue: U64

    function Money(): Funds
      requires count <= entries.Length
      reads this, entries
    {
      Funds(entries[..count], accounted, collateral, revenue)
    }

    /** The book is in order and the money is backed by exactly the orders resting in it. */
    ghost predicate Valid()
      reads this, entries, book, book.slots, book.bids, book.asks
    {
      && entries.Length == SEAT_CAPACITY && count <= SEAT_CAPACITY
      && Vacant(entries[count..])
      && book.Valid()
      && AtRest(Money(), book.Resting().All(), book.payout, AtRate(book.feeBps))
    }

    /** The market as a value, apart from how its book is laid out. */
    ghost function State(): MarketState
      requires count <= entries.Length
      reads this, entries, book, book.slots, book.bids, book.asks
    {
      MarketState(Money(), book.Resting(), book.revision, book.nextSequence)
    }

    /** Everything that is stored. */
    ghost function Stored(): (Funds, View, U64, U64)
      requires count <= entries.Length
      reads this, entries, book, book.slots, book.bids, book.asks
    {
      (Money(), book.Layout(), book.revision, book.nextSequence)
    }

    /** A new market: an empty book, no seats and no money. */
    constructor (payout: U64, feeBps: nat, closesAt: int)
      requires ValidPayout(payout) && feeBps <= Fees.MAX_FEE_BPS
      ensures Valid() && fresh(book) && fresh(entries) && fresh(book.slots) && fresh(book.bids) && fresh(book.asks)
      ensures this.closesAt == closesAt && book.payout == payout && book.feeBps == feeBps
      ensures Money() == Funds([], 0, 0, 0) && book.Resting() == Sides({}, {})
    {
      book := new Storage(payout, feeBps, MAX_ORDERS);
      entries := new Seat[SEAT_CAPACITY](_ => NewSeat(0));
      this.closesAt, count := closesAt, 0;
      accounted, collateral, revenue := 0, 0, 0;
      new;
      NothingAtRest(Money(), book.Resting().All(), payout, AtRate(feeBps));
    }

    /** Writes a plan and the seats settled for it; nothing can fail here. */
    method Write(plan: Plan, patches: seq<SeatPatch>, books: Running)
      requires book.Valid() && entries.Length == SEAT_CAPACITY && count <= SEAT_CAPACITY
      requires plan.Valid() && plan.base == book.Layout() && plan.payout == book.payout
      requires book.revision + 1 < TWO_64 && book.nextSequence + 1 < TWO_64
      requires BookOk(SidesOf(plan.view), book.nextSequence + 1, book.payout)
      requires Distinct(patches) && forall p <- patches :: p.index < count
      modifies this, entries, book, book.slots, book.bids, book.asks
      ensures count == old(count) && entries[count..] == old(entries[count..])
      ensures book.Valid() && book.Resting() == old(SidesOf(plan.view)) && book.Layout() == old(plan.view)
      ensures Money() == LedgerOf(Overlay(old(Money()).seats, patches), old(accounted), books)
      ensures book.revision == old(book.revision) + 1 && book.nextSequence == old(book.nextSequence) + 1
    {
      book.Commit(plan, true);
      WriteSeats(entries, count, patches);
      collateral, revenue := books.collateral, books.revenue;
    }

    /** Plans on the book, settles on copies, and only then writes. */
    method Carry(incoming: Incoming, now: int, touchLimit: nat, nonceAfter: U64, totals: Totals)
      returns (r: Result<Report, Fault>)
      requires Valid() && AllCovered(Money().seats) && totals == TotalsOf(Money().seats)
      requires FitsBook(incoming.order, book.payout) && incoming.order.owner < count
      requires ValidateOrder(incoming.order, book.payout).None? ==>
                 FreshTaker(incoming.order, book.Resting(), book.Limits())
      modifies this, entries, book, book.slots, book.bids, book.asks
      ensures Valid()
      ensures r.Err? ==> Stored() == old(Stored())
      ensures Answered(old(State()), State(), r, book.Limits(), incoming, now, touchLimit, nonceAfter)
      ensures r.Ok? ==> ReusesHead(old(book.Layout()), r.value, book.Layout())
      ensures r.Ok? ==> r.value.taker.id == incoming.order.id
    {
      ghost var sides, terms, revision, nextSequence := book.Resting(), book.Limits(), book.revision, book.nextSequence;
      WellFormedSides(book.Layout(), book.free, book.payout);
      PlacementOutcome(Money(), sides, revision, nextSequence, terms, incoming, now, touchLimit, nonceAfter);
      var planned, plan := book.Prepare(incoming, now, touchLimit);
      if planned.Err? {
        r := Err(Matcher(planned.error));
      } else {
        AdmittedIsWritable(sides, revision, nextSequence, terms, incoming, now, touchLimit);
        ghost var p := Place(sides, incoming, now, touchLimit, revision, nextSequence, terms).value;
        assert Writable(p, book.revision, book.nextSequence, book.payout);
        TimeInForceHonoured(sides, incoming, now, touchLimit, revision, nextSequence, terms);
        r := Complete(plan, planned.value, p, incoming.order.owner, nonceAfter, totals);
      }
    }

    /** Settles a plan and, if that succeeds, writes it. */
    method Complete(plan: Plan, report: Report, ghost p: Placement, owner: nat, nonceAfter: U64, totals: Totals)
      returns (r: Result<Report, Fault>)
      requires book.Valid() && entries.Length == SEAT_CAPACITY && owner < count <= SEAT_CAPACITY
      requires AllCovered(Money().seats) && totals == TotalsOf(Money().seats)
      requires plan.Valid() && plan.base == book.Layout() && plan.payout == book.payout
      requires report == ReportOf(p) && SidesOf(plan.view) == p.sides && |p.effects| <= MAX_TOUCHES
      requires Writable(p, book.revision, book.nextSequence, book.payout)
      modifies this, entries, book, book.slots, book.bids, book.asks
      ensures book.Valid() && count == old(count) && entries[count..] == old(entries[count..])
      ensures match SettleAndAudit(old(Money()), ReportOf(p), owner, nonceAfter, book.payout, AtRate(book.feeBps))
              case Err(f) => r == Err(f) && Stored() == old(Stored())
              case Ok(l) =>
                && r == Ok(ReportOf(p)) && Money() == l && book.Resting() == p.sides
                && book.revision == old(book.revision) + 1 && book.nextSequence == old(book.nextSequence) + 1
                && book.Layout() == old(plan.view)
    {
      var settled := SettleOnCopies(Money(), totals, report, owner, nonceAfter, book.payout, AtRate(book.feeBps));
      if settled.Err? {
        r := Err(settled.error);
      } else {
        Write(plan, settled.value.0, settled.value.1);
        r := Ok(report);
      }
    }

    /**
     Places an order. A refused or failed placement changes nothing that is stored; an
     accepted one leaves exactly what planning and settling it against the values computes,
     and meets the tests' oracle. One that rests without touching anyone takes the slot that
     was first free, under the next identifier. Only who may place an order can, it is the
     order the command says, and it uses the nonce up.
     */
    method PlaceOrder(locator: Locator, wallet: nat, vault: U64, args: Args, now: int)
      returns (r: Result<Report, Fault>)
      requires Valid()
      modifies this, entries, book, book.slots, book.bids, book.asks
      ensures Valid() && (r.Err? ==> Stored() == old(Stored()))
      ensures match Admit(old(Money()), locator, wallet, vault, args, old(book.nextSequence), now, closesAt,
                          book.payout)
              case Err(f) => r == Err(f)
              case Ok(c) => Answered(old(State()), State(), r, book.Limits(), c.incoming, now, TouchesOf(args),
                                     c.nonceAfter)
      ensures r.Ok? ==>
                ReusesHead(old(book.Layout()), r.value, book.Layout()) && r.value.taker.id == old(book.nextSequence)
      ensures r.Ok? ==>
                MayPlace(old(Money()).seats, old(accounted), locator, wallet, vault, args, now, closesAt)
                && PlacedAsAsked(Money(), locator, args, old(book.nextSequence), r.value)
      ensures r.Err? ==>
                || MayPlace(old(Money()).seats, old(accounted), locator, wallet, vault, args, now, closesAt)
                || Unfit(r.error, old(Money()).seats, old(accounted), locator, wallet, vault, args, now, closesAt)
      ensures r == Err(Matcher(InvalidWorkLimit)) ==> args.touches > 16
    {
      ScreensExactly(Money().seats, accounted, locator, wallet, vault, args, book.nextSequence, now, closesAt);
      var screened := Screen(Money().seats, accounted, locator, wallet, vault, args, book.nextSequence, now, closesAt);
      ghost var admitted := Admit(Money(), locator, wallet, vault, args, book.nextSequence, now, closesAt, book.payout);
      assert admitted == AfterAudit(screened, Audit(Money(), book.payout));
      if screened.Err? {
        r := Err(screened.error);
      } else {
        r := CarryScreened(screened.value, locator, args, now);
      }
    }

    /** Audits the ledger, and carries out a placement that was screened. */
    method CarryScreened(c: Command, locator: Locator, args: Args, now: int) returns (r: Result<Report, Fault>)
      requires Valid() && locator.index < count && Decode(args, locator.index, book.nextSequence) == Some(c.incoming)
      requires Says(args, c.incoming, locator.index, book.nextSequence) && c.nonceAfter == args.expectedNonce + 1
      modifies this, entries, book, book.slots, book.bids, book.asks
      ensures Valid() && (r.Err? ==> Stored() == old(Stored()))
      ensures match Audit(old(Money()), book.payout)
              case Some(f) => r == Err(f)
              case None => Answered(old(State()), State(), r, book.Limits(), c.incoming, now, TouchesOf(args),
                                    c.nonceAfter)
      ensures r.Ok? ==> ReusesHead(old(book.Layout()), r.value, book.Layout())
      ensures r.Ok? ==> r.value.taker.id == old(book.nextSequence)
      ensures r.Ok? ==> PlacedAsAsked(Money(), locator, args, old(book.nextSequence), r.value)
      ensures r == Err(Matcher(InvalidWorkLimit)) ==> args.touches > 16
    {
      ghost var before := State();
      var audited := AuditLedger(Money(), book.payout);
      if audited.Err? {
        r := Err(audited.error);
      } else {
        WellFormedSides(book.Layout(), book.free, book.payout);
        DecodedFits(args, locator.index, book.nextSequence, book.Resting(), book.Limits());
        r := Carry(c.incoming, now, TouchesOf(args), c.nonceAfter, audited.value);
        if r.Ok? {
          AnswersAsAsked(before, State(), r.value, book.Limits(), c, now, locator, args);
        } else if r.error == Matcher(InvalidWorkLimit) {
          TouchesSuffice(before, State(), book.Limits(), c, now, args);
        }
      }
    }

    /**
     Cancels an order for its owner, or clears one that is expired or left over after close:
     for exactly those who may, with the reason that holds and the owner's nonce as it is due.
     */
    method RemoveOrder(target: Target, auth: Authority) returns (r: Result<Receipt, RemovalFault>)
      requires Valid()
      modifies this, entries, book, book.slots, book.bids, book.asks
      ensures Valid() && (r.Err? ==> Stored() == old(Stored()))
      ensures match TargetOf(old(book.Layout()), target)
              case None => r == Err(StaleTarget)
              case Some(order) =>
                && order.owner < old(count)
                && match Authorize(auth, old(Money()).seats[order.owner], order, closesAt)
                   case Err(f) => r == Err(f)
                   case Ok(w) =>
                     if old(book.revision) + 1 >= TWO_64 then r == Err(CounterOverflow) else
                     && r.Ok? && r.value.order == order && r.value.reason == w.reason
                     && ReserveOf(order, book.feeBps) == Ok(r.value.released)
                     && SideCode(target.side).Some?
                     && TakenOut(old(State()), State(), SideCode(target.side).value, order, r.value.released,
                                 w.nonceAfter)
                     && book.freeHead < book.slots.Length && old(book.slots[..])[book.freeHead] == Live(order)
      ensures r.Ok? ==> Names(old(book.Layout()), target, r.value.order)
      ensures r.Ok? ==>
                r.value.order.owner < old(count) == count
                && MayRemove(auth, old(Money()).seats[r.value.order.owner], r.value.order, closesAt, r.value.reason,
                             Money().seats[r.value.order.owner].nextNonce)
      ensures r == Err(StaleTarget) <==> forall order :: !Names(old(book.Layout()), target, order)
      ensures r.Err? && !r.error.StaleTarget? ==>
                exists order :: Names(old(book.Layout()), target, order) && order.owner < old(count)
                  && (MayNotRemove(auth, old(Money()).seats[order.owner], order, closesAt, r.error)
                      || (r.error == CounterOverflow && old(book.revision) == TWO_64 - 1))
    {
      var found := TargetOf(book.Layout(), target);
      TargetsExactly(book.Layout(), target);
      if found.None? {
        r := Err(StaleTarget);
      } else {
        var order, side := found.value, SideCode(target.side).value;
        TargetRests(book.Layout(), book.free, target, book.payout);
        ghost var seats := Money().seats;
        r := RemoveFound(side, target.heapIndex, order, auth);
        AuthorizesExactly(auth, seats[order.owner], order, closesAt);
      }
    }

    /** Takes the order at a heap position out, if the caller may. */
    method RemoveFound(side: Side, index: nat, order: Order, auth: Authority) returns (r: Result<Receipt, RemovalFault>)
      requires Valid() && index < book.Layout().Len(side) && book.Layout().Cells(side)[index] < book.slots.Length
      requires book.slots[book.Layout().Cells(side)[index]] == Live(order) && order in book.Resting().Of(side)
      modifies this, entries, book, book.slots, book.bids, book.asks
      ensures Valid() && (r.Err? ==> Stored() == old(Stored())) && order.owner < old(count)
      ensures match Authorize(auth, old(Money()).seats[order.owner], order, closesAt)
              case Err(f) => r == Err(f)
              case Ok(w) =>
                if old(book.revision) + 1 >= TWO_64 then r == Err(CounterOverflow) else
                && r.Ok? && r.value.order == order && r.value.reason == w.reason
                && ReserveOf(order, book.feeBps) == Ok(r.value.released)
                && TakenOut(old(State()), State(), side, order, r.value.released, w.nonceAfter)
                && book.freeHead < book.slots.Length && old(book.slots[..])[book.freeHead] == Live(order)
    {
      WellFormedSides(book.Layout(), book.free, book.payout);
      RemovalRefunds(Money(), book.Resting(), side, order, 0, book.payout, book.feeBps);
      var warrant := Authorize(auth, entries[order.owner], order, closesAt);
      if warrant.Err? {
        r := Err(warrant.error);
      } else {
        r := RemoveAs(side, index, order, warrant.value);
      }
    }

    /** Takes an order out for which there is a warrant, if the revision can still be counted. */
    method RemoveAs(side: Side, index: nat, order: Order, w: Warrant) returns (r: Result<Receipt, RemovalFault>)
      requires Valid() && index < book.Layout().Len(side) && book.Layout().Cells(side)[index] < book.slots.Length
      requires book.slots[book.Layout().Cells(side)[index]] == Live(order) && order in book.Resting().Of(side)
      modifies this, entries, book, book.slots, book.bids, book.asks
      ensures Valid() && (r.Err? ==> Stored() == old(Stored()))
      ensures if old(book.revision) + 1 >= TWO_64 then r == Err(CounterOverflow) else
              && r.Ok? && r.value.order == order && r.value.reason == w.reason
              && ReserveOf(order, book.feeBps) == Ok(r.value.released)
              && TakenOut(old(State()), State(), side, order, r.value.released, w.nonceAfter)
              && book.freeHead < book.slots.Length && old(book.slots[..])[book.freeHead] == Live(order)
    {
      if book.revision + 1 >= TWO_64 {
        r := Err(CounterOverflow);
      } else {
        var released, writes := TakeOut(side, index, order, w.nonceAfter);
        r := Ok(Receipt(order, released, w.reason, writes));
      }
    }

    method TakeOut(side: Side, index: nat, order: Order, nonceAfter: U64) returns (released: Reserve, writes: nat)
      requires Valid() && book.revision + 1 < TWO_64
      requires index < book.Layout().Len(side) && book.Layout().Cells(side)[index] < book.slots.Length
      requires book.slots[book.Layout().Cells(side)[index]] == Live(order) && order in book.Resting().Of(side)
      modifies this, entries, book, book.slots, book.bids, book.asks
      ensures Valid() && ReserveOf(order, book.feeBps) == Ok(released)
      ensures TakenOut(old(State()), State(), side, order, released, nonceAfter)
      ensures book.freeHead < book.slots.Length && old(book.slots[..])[book.freeHead] == Live(order)
    {
      var seat := Refund(order, nonceAfter, side);
      released := ReserveOf(order, book.feeBps).value;
      writes := book.Remove(side, index);
      PutSeat(order.owner, seat);
    }

    /** The owner's seat with this order's reserve given back. */
    method Refund(order: Order, nonceAfter: U64, ghost side: Side) returns (seat: Seat)
      requires Valid() && order in book.Resting().Of(side)
      ensures order.owner < count && ReserveOf(order, book.feeBps).Ok?
      ensures Refunded(Money().seats[order.owner], seat, ReserveOf(order, book.feeBps).value, nonceAfter)
      ensures AtRest(WithSeat(Money(), order.owner, seat),
                     book.Resting().With(side, book.Resting().Of(side) - {order}).All(),
                     book.payout, AtRate(book.feeBps))
    {
      WellFormedSides(book.Layout(), book.free, book.payout);
      RemovalRefunds(Money(), book.Resting(), side, order, nonceAfter, book.payout, book.feeBps);
      var freed := Unlock(entries[order.owner], ReserveOf(order, book.feeBps).value).value;
      seat := freed.(nextNonce := nonceAfter);
    }

    method PutSeat(i: nat, s: Seat)
      requires i < count <= entries.Length
      modifies entries
      ensures Money() == WithSeat(old(Money()), i, s)
      ensures entries[count..] == old(entries[count..])
    {
      entries[i] := s;
      assert entries[..count] == old(entries[..count])[i := s];
    }

    /** Cash enters a seat and the accounted vault together. */
    method Deposit(locator: Locator, wallet: nat, vault: U64, amount: U64, nonce: U64)
      returns (fault: Option<CashFault>)
      requires Valid()
      modifies this, entries
      ensures Valid() && (fault.Some? ==> Stored() == old(Stored()))
      ensures var refused := CashRefusal(old(Money()).seats, old(accounted), locator, wallet, vault, amount, nonce);
              if refused.Some? then fault == refused else
              match Deposited(old(Money()), locator.index, amount)
              case None => fault == Some(CashOverflow)
              case Some(l) => fault == None && Money() == l
      ensures fault.None? ==>
                && 0 < amount && old(accounted) <= vault && Standing(old(Money()).seats, locator, wallet, nonce)
                && CashMoved(old(Money()), Money(), locator.index, amount)
      ensures fault.Some? && fault.value != CashOverflow ==>
                CashUnfit(fault.value, old(Money()).seats, old(accounted), locator, wallet, vault, amount, nonce)
    {
      CashRefusedExactly(Money().seats, accounted, locator, wallet, vault, amount, nonce);
      fault := CashRefusal(Money().seats, accounted, locator, wallet, vault, amount, nonce);
      if fault.None? {
        DepositsMove(Money(), locator.index, amount);
        var after := Deposited(Money(), locator.index, amount);
        if after.None? {
          fault := Some(CashOverflow);
        } else {
          MoveCash(locator.index, after.value.seats[locator.index], after.value.accounted);
        }
      }
    }

    /** Only unreserved cash can leave, and what leaves the seat leaves the vault. */
    method Withdraw(locator: Locator, wallet: nat, vault: U64, amount: U64, nonce: U64)
      returns (fault: Option<CashFault>)
      requires Valid()
      modifies this, entries
      ensures Valid() && (fault.Some? ==> Stored() == old(Stored()))
      ensures var refused := CashRefusal(old(Money()).seats, old(accounted), locator, wallet, vault, amount, nonce);
              if refused.Some? then fault == refused else
              match Withdrawn(old(Money()), locator.index, amount)
              case Err(f) => fault == Some(f)
              case Ok(l) => fault == None && Money() == l
      ensures fault.None? ==>
                && 0 < amount && old(accounted) <= vault && Standing(old(Money()).seats, locator, wallet, nonce)
                && CashMoved(old(Money()), Money(), locator.index, -(amount as int))
      ensures fault == Some(InsufficientAvailable) ==>
                || amount == 0
                || (locator.index < old(count) && old(Money()).seats[locator.index].availableCash < amount)
    {
      CashRefusedExactly(Money().seats, accounted, locator, wallet, vault, amount, nonce);
      fault := CashRefusal(Money().seats, accounted, locator, wallet, vault, amount, nonce);
      if fault.None? {
        WithdrawalsMove(Money(), locator.index, amount);
        var after := Withdrawn(Money(), locator.index, amount);
        if after.Err? {
          fault := Some(after.error);
        } else {
          MoveCash(locator.index, after.value.seats[locator.index], after.value.accounted);
        }
      }
    }

    method MoveCash(i: nat, s: Seat, newAccounted: U64)
      requires Valid() && i < count
      requires s == Money().seats[i].(availableCash := s.availableCash, nextNonce := s.nextNonce)
      requires newAccounted - accounted == s.availableCash - Money().seats[i].availableCash
      modifies this`accounted, entries
      ensures Valid() && Money() == WithSeat(old(Money()), i, s).(accounted := newAccounted)
    {
      CashMovesBacked(Money(), book.Resting().All(), i, s, newAccounted, book.payout, AtRate(book.feeBps));
      PutSeat(i, s);
      accounted := newAccounted;
    }

    /** The next seat index goes to `wallet`, for good. */
    method Register(wallet: nat) returns (r: Result<Locator, CashFault>)
      requires Valid()
      modifies this, entries
      ensures Valid() && (r.Err? ==> Stored() == old(Stored()))
      ensures if old(count) >= SEAT_CAPACITY then r == Err(SeatsTaken)
              else r == Ok(Locator(wallet, old(count)))
                   && Money() == old(Money()).(seats := old(Money()).seats + [NewSeat(wallet)])
                   && Money().seats[old(count)] == Seat(wallet, 0, 0, 0, 0, 0, 0, 0, false)
    {
      if count >= SEAT_CAPACITY {
        r := Err(SeatsTaken);
      } else {
        SeatJoins(Money(), book.Resting().All(), wallet, book.payout, AtRate(book.feeBps));
        r := Ok(Locator(wallet, count));
        TakeSeat(wallet);
      }
    }

    /** Names the first vacant seat. */
    method TakeSeat(wallet: nat)
      requires count < entries.Length && Vacant(entries[count..])
      modifies this`count, entries
      ensures count == old(count) + 1 && Vacant(entries[count..])
      ensures Money() == old(Money()).(seats := old(Money()).seats + [NewSeat(wallet)])
    {
      ghost var seats, vacant := entries[..count], entries[count..];
      assert vacant[0] == entries[count];
      entries[count] := entries[count].(wallet := wallet);
      count := count + 1;
      assert entries[..count] == seats + [NewSeat(wallet)];
      assert entries[count..] == vacant[1..];
    }
  }
}
