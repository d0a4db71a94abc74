/**
 Seeding a catalog of markets from the treasury, retiring untouched ones back into it, and
 the reconciliation that both must satisfy.
 */
module Retirement {
  import opened Wrappers
  import opened Ledger

  datatype Kind = Subsidy | Retired | Other

  /** A stored journal with what it is about. */
  datatype Entry = Entry(kind: Kind, about: Option<nat>, posted: bool, journal: Journal)

  datatype HousePosition = HousePosition(
    user: nat, system: bool, yes: nat, no: nat, netCost: int, yesBasis: int, noBasis: int, realized: int,
    reservedYes: nat, reservedNo: nat)

  datatype Listed = Listed(
    id: nat, creator: nat, bySystem: bool, activity: nat, settled: bool, counters: nat,
    yes: nat, no: nat, positions: seq<HousePosition>, account: nat, ownsAccount: bool)

  /** Markets by slug, and the balances of the treasury and of each market's collateral account. */
  datatype HouseBooks = HouseBooks(
    treasury: int, balances: map<nat, int>, closed: set<nat>, entries: seq<Entry>, markets: map<nat, Listed>)

  datatype Refusal =
    | NotSeeded | HasActivity | HasSettled | HasTraded | ForeignPosition | DirtyPosition | SharesDiffer
    | OddAccount | AccountDiffers | AccountUsed | OddJournals | TreasuryDiffers

  function CollateralOf(m: Listed): Account {
    Elsewhere(m.account)
  }

  /** The posted total of an account. */
  function PostedIn(entries: seq<Entry>, a: Account): int {
    if entries == [] then 0 else
    var last := entries[|entries| - 1];
    PostedIn(entries[..|entries| - 1], a) + (if last.posted then Posted(last.journal, a) else 0)
  }

  predicate AllBalanced(entries: seq<Entry>) {
    forall e <- entries :: Balanced(e.journal)
  }

  predicate Reconciled(b: HouseBooks) {
    && AllBalanced(b.entries)
    && b.treasury == PostedIn(b.entries, Treasury)
    && forall k <- b.balances :: b.balances[k] == PostedIn(b.entries, Elsewhere(k))
  }

  /** Every market has a collateral account of its own, as the database's unique key demands. */
  predicate WellListed(b: HouseBooks) {
    && (forall s <- b.markets :: b.markets[s].account in b.balances)
    && (forall s <- b.markets, t <- b.markets ::
          s != t ==> b.markets[s].account != b.markets[t].account && b.markets[s].id != b.markets[t].id)
  }

  lemma PostedLast(entries: seq<Entry>, e: Entry, a: Account)
    ensures PostedIn(entries + [e], a) == PostedIn(entries, a) + (if e.posted then Posted(e.journal, a) else 0)
  {
    assert (entries + [e])[..|entries|] == entries;
  }

  // ---------- What inspection refuses ----------

  function SumYes(positions: seq<HousePosition>): nat {
    if positions == [] then 0 else positions[0].yes + SumYes(positions[1..])
  }

  function SumNo(positions: seq<HousePosition>): nat {
    if positions == [] then 0 else positions[0].no + SumNo(positions[1..])
  }

  function PositionRefusal(positions: seq<HousePosition>, creator: nat): Option<Refusal> {
    if positions == [] then None else
    var p := positions[0];
    if p.user != creator || !p.system then Some(ForeignPosition)
    else if p.netCost != 0 || p.yesBasis != 0 || p.noBasis != 0 || p.realized != 0 || p.reservedYes != 0
         || p.reservedNo != 0 then Some(DirtyPosition)
    else PositionRefusal(positions[1..], creator)
  }

  predicate Touches(e: Entry, a: Account) {
    exists p <- e.journal.postings :: p.account == a
  }

  predicate SeedFunding(e: Entry, id: nat) {
    e.kind == Subsidy && e.about == Some(id)
  }

  /** Nothing but this market's own seed funding has moved its collateral. */
  predicate OnlySeedFunded(entries: seq<Entry>, id: nat, a: Account) {
    forall e <- entries :: Touches(e, a) ==> SeedFunding(e, id)
  }

  predicate NoOtherJournals(entries: seq<Entry>, id: nat) {
    forall e <- entries :: e.about == Some(id) ==> e.kind == Subsidy
  }

  function Inspect(b: HouseBooks, m: Listed): Option<Refusal>
    requires m.account in b.balances
  {
    var balance := b.balances[m.account];
    if !m.bySystem then Some(NotSeeded)
    else if m.activity > 0 then Some(HasActivity)
    else if m.settled then Some(HasSettled)
    else if m.counters != 0 then Some(HasTraded)
    else if PositionRefusal(m.positions, m.creator).Some? then PositionRefusal(m.positions, m.creator)
    else if SumYes(m.positions) != m.yes || SumNo(m.positions) != m.no then Some(SharesDiffer)
    else if !m.ownsAccount || balance < 0 then Some(OddAccount)
    else if PostedIn(b.entries, CollateralOf(m)) != balance then Some(AccountDiffers)
    else if !OnlySeedFunded(b.entries, m.id, CollateralOf(m)) then Some(AccountUsed)
    else if !NoOtherJournals(b.entries, m.id) then Some(OddJournals)
    else None
  }

  /** A position that only seeding can have left: the creator's own, free of cost, profit and reservations. */
  predicate Pristine(p: HousePosition, creator: nat) {
    && p.user == creator && p.system
    && p.netCost == 0 && p.yesBasis == 0 && p.noBasis == 0 && p.realized == 0
    && p.reservedYes == 0 && p.reservedNo == 0
  }

  /**
   A market nobody has touched since it was seeded: made by the seed account, without activity,
   settlement or counts, with pristine positions that account for its shares, and with a
   collateral account of its own that holds what its seed funding and nothing else posted.
   */
  predicate Untouched(b: HouseBooks, m: Listed)
    requires m.account in b.balances
  {
    && m.bySystem && m.activity == 0 && !m.settled && m.counters == 0
    && (forall p <- m.positions :: Pristine(p, m.creator))
    && SumYes(m.positions) == m.yes && SumNo(m.positions) == m.no
    && m.ownsAccount && b.balances[m.account] >= 0
    && b.balances[m.account] == PostedIn(b.entries, Elsewhere(m.account))
    && (forall e <- b.entries, p <- e.journal.postings ::
          p.account == Elsewhere(m.account) ==> e.kind == Subsidy && e.about == Some(m.id))
    && (forall e <- b.entries :: e.about == Some(m.id) ==> e.kind == Subsidy)
  }

  lemma {:induction false} PositionsPass(positions: seq<HousePosition>, creator: nat)
    ensures PositionRefusal(positions, creator).None? <==> forall p <- positions :: Pristine(p, creator)
    ensures PositionRefusal(positions, creator) == Some(ForeignPosition) ==>
              exists p <- positions :: p.user != creator || !p.system
    ensures PositionRefusal(positions, creator).Some? ==>
              PositionRefusal(positions, creator).value in {ForeignPosition, DirtyPosition}
  {
    if positions != [] {
      PositionsPass(positions[1..], creator);
      assert positions == [positions[0]] + positions[1..];
      assert positions[0] in positions && forall p <- positions[1..] :: p in positions;
    }
  }

  /** Inspection passes exactly the untouched markets, and a refusal names what was touched. */
  lemma InspectsExactly(b: HouseBooks, m: Listed)
    requires m.account in b.balances
    ensures Inspect(b, m).None? <==> Untouched(b, m)
    ensures match Inspect(b, m)
            case None => true
            case Some(NotSeeded) => !m.bySystem
            case Some(HasActivity) => m.activity > 0
            case Some(HasSettled) => m.settled
            case Some(HasTraded) => m.counters != 0
            case Some(ForeignPosition) => exists p <- m.positions :: p.user != m.creator || !p.system
            case Some(DirtyPosition) => exists p <- m.positions :: !Pristine(p, m.creator)
            case Some(SharesDiffer) => SumYes(m.positions) != m.yes || SumNo(m.positions) != m.no
            case Some(OddAccount) => !m.ownsAccount || b.balances[m.account] < 0
            case Some(AccountDiffers) => PostedIn(b.entries, Elsewhere(m.account)) != b.balances[m.account]
            case Some(AccountUsed) =>
              exists e <- b.entries, p <- e.journal.postings ::
                p.account == Elsewhere(m.account) && !(e.kind == Subsidy && e.about == Some(m.id))
            case Some(OddJournals) => exists e <- b.entries :: e.about == Some(m.id) && e.kind != Subsidy
            case Some(TreasuryDiffers) => false
  {
    PositionsPass(m.positions, m.creator);
    AccountsUnused(b.entries, m.id, Elsewhere(m.account));
  }

  lemma AccountsUnused(entries: seq<Entry>, id: nat, a: Account)
    ensures OnlySeedFunded(entries, id, a) <==>
              forall e <- entries, p <- e.journal.postings ::
                p.account == a ==> e.kind == Subsidy && e.about == Some(id)
  {
    if OnlySeedFunded(entries, id, a) {
      forall e <- entries, p <- e.journal.postings | p.account == a ensures e.kind == Subsidy && e.about == Some(id) {
        assert Touches(e, a);
      }
    }
  }

  // ---------- Seeding ----------

  /** A catalog entry with the identifiers the database gives it; `tilt` is its opening log-odds in shares. */
  datatype Definition = Definition(slug: nat, id: nat, account: nat, creator: nat, tilt: int, subsidy: nat,
                                   journal: nat)

  function HouseInventory(d: Definition): seq<HousePosition> {
    if d.tilt == 0 then [] else
    var yes, no := if d.tilt > 0 then d.tilt else 0, if d.tilt < 0 then -d.tilt else 0;
    [HousePosition(d.creator, true, yes, no, 0, 0, 0, 0, 0, 0)]
  }

  function MarketOf(d: Definition): Listed {
    Listed(d.id, d.creator, true, 0, false, 0, if d.tilt > 0 then d.tilt else 0, if d.tilt < 0 then -d.tilt else 0,
           HouseInventory(d), d.account, true)
  }

  /** A transfer between the treasury and a collateral account, named by what the treasury gains. */
  function Transfer(id: nat, account: nat, gain: int): Journal {
    Journal(id, [Posting(Treasury, gain), Posting(Elsewhere(account), -gain)])
  }

  function Funding(d: Definition): Entry {
    Entry(Subsidy, Some(d.id), true, Transfer(d.journal, d.account, 0 - d.subsidy))
  }

  function SeedOne(b: HouseBooks, d: Definition): HouseBooks {
    if d.slug in b.markets then b else
    HouseBooks(b.treasury - d.subsidy, b.balances[d.account := d.subsidy], b.closed,
               b.entries + [Funding(d)],
               b.markets[d.slug := MarketOf(d)])
  }

  function SeedAll(b: HouseBooks, defs: seq<Definition>): HouseBooks {
    if defs == [] then b else SeedOne(SeedAll(b, defs[..|defs| - 1]), defs[|defs| - 1])
  }

  /** Identifiers nothing stored refers to yet. */
  predicate Unused(b: HouseBooks, d: Definition) {
    && d.account !in b.balances
    && (forall e <- b.entries :: e.about != Some(d.id) && !Touches(e, Elsewhere(d.account)))
    && (forall s <- b.markets :: b.markets[s].id != d.id)
  }

  predicate DistinctDefinitions(defs: seq<Definition>) {
    forall i, j :: 0 <= i < j < |defs| ==>
      defs[i].slug != defs[j].slug && defs[i].id != defs[j].id && defs[i].account != defs[j].account
  }

  // ---------- Retiring ----------

  function GivingBack(m: Listed, refund: int): Entry {
    Entry(Retired, Some(m.id), true, Transfer(m.id, m.account, refund))
  }

  function RetireOne(b: HouseBooks, slug: nat): HouseBooks
    requires slug in b.markets && b.markets[slug].account in b.balances
  {
    var m := b.markets[slug];
    var refund := b.balances[m.account];
    HouseBooks(if refund > 0 then b.treasury + refund else b.treasury,
               b.balances[m.account := 0], b.closed + {m.account},
               if refund > 0 then b.entries + [GivingBack(m, refund)] else b.entries,
               b.markets - {slug})
  }

  lemma TransferPosts(id: nat, account: nat, gain: int, a: Account)
    ensures Balanced(Transfer(id, account, gain))
    ensures Posted(Transfer(id, account, gain), a) ==
            (if a == Treasury then gain else if a == Elsewhere(account) then -gain else 0)
  {
    var j := Transfer(id, account, gain);
    assert j.postings == [j.postings[0], j.postings[1]] + [];
    AmountsOfTwo(j.postings[0], j.postings[1], []);
    OnAccountOfTwo(j.postings[0], j.postings[1], [], a);
  }

  /** One retirement pays the market's whole collateral to the treasury and touches no other balance. */
  lemma RetireOneReconciles(b: HouseBooks, slug: nat)
    requires Reconciled(b) && WellListed(b) && slug in b.markets && b.balances[b.markets[slug].account] >= 0
    ensures Reconciled(RetireOne(b, slug)) && WellListed(RetireOne(b, slug))
  {
    var m := b.markets[slug];
    var refund := b.balances[m.account];
    if refund > 0 {
      RefundPosts(b.entries, m, refund, Treasury);
      forall k <- b.balances
        ensures b.balances[m.account := 0][k] == PostedIn(b.entries + [GivingBack(m, refund)], Elsewhere(k))
      {
        RefundPosts(b.entries, m, refund, Elsewhere(k));
      }
    }
  }

  /** A refund is one more balanced entry, which moves its amount from the market's account to the treasury. */
  lemma RefundPosts(entries: seq<Entry>, m: Listed, refund: int, a: Account)
    requires AllBalanced(entries)
    ensures AllBalanced(entries + [GivingBack(m, refund)])
    ensures PostedIn(entries + [GivingBack(m, refund)], a) ==
            PostedIn(entries, a) + (if a == Treasury then refund else if a == Elsewhere(m.account) then -refund else 0)
  {
    PostedLast(entries, GivingBack(m, refund), a);
    TransferPosts(m.id, m.account, refund, a);
  }

  lemma SeedOneReconciles(b: HouseBooks, d: Definition)
    requires Reconciled(b) && WellListed(b) && Unused(b, d)
    ensures Reconciled(SeedOne(b, d)) && WellListed(SeedOne(b, d))
  {
    if d.slug !in b.markets {
      FundingReconciles(b.entries, d, b.balances);
      FundingPosts(b.entries, d, Treasury);
      FundingBalances(b.entries, d);
    }
    SeedOneListed(b, d);
  }

  lemma FundingBalances(entries: seq<Entry>, d: Definition)
    requires AllBalanced(entries)
    ensures AllBalanced(entries + [Funding(d)])
  {
    TransferPosts(d.journal, d.account, 0 - d.subsidy, Treasury);
  }

  lemma SeedOneListed(b: HouseBooks, d: Definition)
    requires WellListed(b) && Unused(b, d)
    ensures WellListed(SeedOne(b, d))
  {
  }

  lemma FundingReconciles(entries: seq<Entry>, d: Definition, balances: map<nat, int>)
    requires d.account !in balances && forall e <- entries :: !Touches(e, Elsewhere(d.account))
    requires forall k <- balances :: balances[k] == PostedIn(entries, Elsewhere(k))
    ensures var after := balances[d.account := d.subsidy];
            forall k <- after :: after[k] == PostedIn(entries + [Funding(d)], Elsewhere(k))
  {
    var after := balances[d.account := d.subsidy];
    UntouchedPostsNothing(entries, Elsewhere(d.account));
    forall k <- after ensures after[k] == PostedIn(entries + [Funding(d)], Elsewhere(k)) {
      FundingPosts(entries, d, Elsewhere(k));
    }
  }

  lemma FundingPosts(entries: seq<Entry>, d: Definition, a: Account)
    ensures PostedIn(entries + [Funding(d)], a) ==
            PostedIn(entries, a)
            + (if a == Treasury then 0 - d.subsidy else if a == Elsewhere(d.account) then d.subsidy else 0)
  {
    PostedLast(entries, Funding(d), a);
    TransferPosts(d.journal, d.account, 0 - d.subsidy, a);
  }

  lemma {:induction false} UntouchedPostsNothing(entries: seq<Entry>, a: Account)
    requires forall e <- entries :: !Touches(e, a)
    ensures PostedIn(entries, a) == 0
  {
    if entries != [] {
      UntouchedPostsNothing(entries[..|entries| - 1], a);
      var last := entries[|entries| - 1];
      assert !Touches(last, a);
      NothingElsewhere(last.journal.postings, a);
    }
  }

  // ---------- Seeding, then retiring ----------

  /** Market `m` is exactly what seeding `d` created, and only seeding has concerned it. */
  ghost predicate StandsAs(b: HouseBooks, d: Definition) {
    && d.slug in b.markets && b.markets[d.slug] == MarketOf(d)
    && d.account in b.balances && b.balances[d.account] == d.subsidy
    && OnlySeedFunded(b.entries, d.id, Elsewhere(d.account)) && NoOtherJournals(b.entries, d.id)
  }

  /** Every untouched market in the form seeding creates passes inspection. */
  lemma SeededPasses(b: HouseBooks, d: Definition)
    requires Reconciled(b) && StandsAs(b, d)
    ensures Inspect(b, b.markets[d.slug]) == None
  {
    var m := MarketOf(d);
    if d.tilt != 0 {
      assert m.positions[1..] == [];
      assert SumYes(m.positions[1..]) == 0 && SumNo(m.positions[1..]) == 0;
      assert PositionRefusal(m.positions[1..], m.creator) == None;
    }
    assert PositionRefusal(m.positions, m.creator) == None;
  }

  lemma SeedOneStands(b: HouseBooks, d: Definition)
    requires Unused(b, d) && d.slug !in b.markets
    ensures StandsAs(SeedOne(b, d), d)
  {
  }

  /** Seeding another market leaves a seeded one standing. */
  lemma SeedLeavesStanding(b: HouseBooks, d: Definition, other: Definition)
    requires StandsAs(b, d) && d.slug != other.slug && d.id != other.id && d.account != other.account
    ensures StandsAs(SeedOne(b, other), d)
  {
    if other.slug !in b.markets {
      var e := Funding(other);
      assert !Touches(e, Elsewhere(d.account));
    }
  }

  function Subsidies(defs: seq<Definition>): nat {
    if defs == [] then 0 else Subsidies(defs[..|defs| - 1]) + defs[|defs| - 1].subsidy
  }

  predicate Seedable(b: HouseBooks, defs: seq<Definition>) {
    DistinctDefinitions(defs) && forall d <- defs :: Unused(b, d) && d.slug !in b.markets
  }

  /** What has been seeded so far, next to what was there. */
  ghost predicate SeededFrom(b: HouseBooks, defs: seq<Definition>, s: HouseBooks) {
    && s.treasury == b.treasury - Subsidies(defs)
    && s.markets.Keys == b.markets.Keys + (set d | d in defs :: d.slug)
    && (forall slug <- b.markets :: s.markets[slug] == b.markets[slug])
    && (forall k <- b.balances :: k in s.balances && s.balances[k] == b.balances[k])
  }

  ghost predicate AllStand(s: HouseBooks, defs: seq<Definition>) {
    forall d <- defs :: StandsAs(s, d)
  }

  lemma SeedOneSeeds(b: HouseBooks, defs: seq<Definition>, s: HouseBooks, d: Definition)
    requires SeededFrom(b, defs, s) && d.slug !in s.markets && d.account !in b.balances
    ensures SeededFrom(b, defs + [d], SeedOne(s, d))
  {
    assert (defs + [d])[..|defs|] == defs;
    assert (set e | e in defs + [d] :: e.slug) == (set e | e in defs :: e.slug) + {d.slug};
  }

  lemma SeedOneAllStand(s: HouseBooks, defs: seq<Definition>, d: Definition)
    requires AllStand(s, defs) && Unused(s, d) && d.slug !in s.markets
    requires forall other <- defs :: other.slug != d.slug && other.id != d.id && other.account != d.account
    ensures AllStand(SeedOne(s, d), defs + [d])
  {
    SeedOneStands(s, d);
    forall other <- defs ensures StandsAs(SeedOne(s, d), other) {
      SeedLeavesStanding(s, other, d);
    }
  }

  lemma StillUnused(b: HouseBooks, d: Definition, other: Definition)
    requires Unused(b, d) && d.id != other.id && d.account != other.account
    ensures Unused(SeedOne(b, other), d)
  {
    if other.slug !in b.markets {
      var e := Funding(other);
      assert !Touches(e, Elsewhere(d.account));
    }
  }

  lemma {:induction false} AllStillUnused(b: HouseBooks, defs: seq<Definition>, d: Definition)
    requires Unused(b, d) && forall other <- defs :: d.id != other.id && d.account != other.account
    ensures Unused(SeedAll(b, defs), d)
  {
    if defs != [] {
      AllStillUnused(b, defs[..|defs| - 1], d);
      StillUnused(SeedAll(b, defs[..|defs| - 1]), d, defs[|defs| - 1]);
    }
  }

  lemma DropLast(b: HouseBooks, defs: seq<Definition>)
    requires Seedable(b, defs) && defs != []
    ensures var d := defs[|defs| - 1];
            && Seedable(b, defs[..|defs| - 1]) && Unused(b, d) && d.slug !in b.markets
            && forall other <- defs[..|defs| - 1] ::
                 other.slug != d.slug && other.id != d.id && other.account != d.account
  {
    assert defs[|defs| - 1] in defs;
  }

  /** Seeding a catalog takes exactly its subsidies from the treasury and leaves everything else alone. */
  lemma {:induction false} SeedAllSeeds(b: HouseBooks, defs: seq<Definition>)
    requires Seedable(b, defs)
    ensures SeededFrom(b, defs, SeedAll(b, defs))
  {
    if defs != [] {
      var before, d := defs[..|defs| - 1], defs[|defs| - 1];
      DropLast(b, defs);
      SeedAllSeeds(b, before);
      SeedOneSeeds(b, before, SeedAll(b, before), d);
      assert before + [d] == defs;
    }
  }

  /** A seeded catalog reconciles. */
  lemma {:induction false} SeedAllReconciles(b: HouseBooks, defs: seq<Definition>)
    requires Reconciled(b) && WellListed(b) && Seedable(b, defs)
    ensures Reconciled(SeedAll(b, defs)) && WellListed(SeedAll(b, defs))
  {
    if defs != [] {
      var before, d := defs[..|defs| - 1], defs[|defs| - 1];
      DropLast(b, defs);
      SeedAllReconciles(b, before);
      AllStillUnused(b, before, d);
      SeedOneReconciles(SeedAll(b, before), d);
    }
  }

  /** Every market of a seeded catalog stands as it was seeded. */
  lemma {:induction false} SeedAllStands(b: HouseBooks, defs: seq<Definition>)
    requires Seedable(b, defs)
    ensures AllStand(SeedAll(b, defs), defs)
  {
    if defs != [] {
      var before, d := defs[..|defs| - 1], defs[|defs| - 1];
      DropLast(b, defs);
      SeedAllStands(b, before);
      AllStillUnused(b, before, d);
      SeedAllSeeds(b, before);
      SeedOneAllStand(SeedAll(b, before), before, d);
      assert before + [d] == defs;
    }
  }

  function RetireAll(b: HouseBooks, slugs: seq<nat>): (after: HouseBooks)
    requires WellListed(b) && Retirable(b, slugs)
    ensures WellListed(after)
    ensures after.markets == b.markets - (set s | s in slugs)
    ensures after.balances.Keys == b.balances.Keys
    ensures forall s <- after.markets :: after.balances[after.markets[s].account] == b.balances[b.markets[s].account]
  {
    if slugs == [] then b else
    RetireOne(RetireAll(b, slugs[..|slugs| - 1]), slugs[|slugs| - 1])
  }

  predicate Retirable(b: HouseBooks, slugs: seq<nat>) {
    && (forall s <- slugs :: s in b.markets)
    && (forall i, j :: 0 <= i < j < |slugs| ==> slugs[i] != slugs[j])
  }

  function Refunds(b: HouseBooks, slugs: seq<nat>): int
    requires WellListed(b) && forall s <- slugs :: s in b.markets
  {
    if slugs == [] then 0 else
    Refunds(b, slugs[..|slugs| - 1]) + b.balances[b.markets[slugs[|slugs| - 1]].account]
  }

  /**
   Retiring any list of markets pays exactly their collateral to the treasury, zeroes and
   closes their accounts, and leaves every other balance alone.
   */
  lemma {:induction false} RetireAllRestores(b: HouseBooks, slugs: seq<nat>)
    requires WellListed(b) && Retirable(b, slugs)
    requires forall s <- slugs :: b.balances[b.markets[s].account] >= 0
    ensures var after := RetireAll(b, slugs);
            && after.treasury == b.treasury + Refunds(b, slugs)
            && (forall s <- slugs :: after.balances[b.markets[s].account] == 0 && b.markets[s].account in after.closed)
            && (forall k <- b.balances ::
                  (forall s <- slugs :: b.markets[s].account != k) ==> after.balances[k] == b.balances[k])
  {
    if slugs != [] {
      RetireAllRestores(b, slugs[..|slugs| - 1]);
      assert slugs[|slugs| - 1] in RetireAll(b, slugs[..|slugs| - 1]).markets;
    }
  }

  /** Books that reconcile still do after any list of markets has been retired. */
  lemma {:induction false} RetireAllReconciles(b: HouseBooks, slugs: seq<nat>)
    requires Reconciled(b) && WellListed(b) && Retirable(b, slugs)
    requires forall s <- slugs :: b.balances[b.markets[s].account] >= 0
    ensures Reconciled(RetireAll(b, slugs))
  {
    if slugs != [] {
      var before, last := slugs[..|slugs| - 1], slugs[|slugs| - 1];
      RetireAllReconciles(b, before);
      assert last in slugs && last in RetireAll(b, before).markets;
      RetireOneReconciles(RetireAll(b, before), last);
    }
  }

  lemma {:induction false} RefundsAreSubsidies(s: HouseBooks, defs: seq<Definition>, slugs: seq<nat>)
    requires WellListed(s) && |slugs| == |defs|
    requires forall i :: 0 <= i < |defs| ==> StandsAs(s, defs[i]) && slugs[i] == defs[i].slug
    ensures forall slug <- slugs :: slug in s.markets
    ensures Refunds(s, slugs) == Subsidies(defs)
  {
    if defs != [] {
      RefundsAreSubsidies(s, defs[..|defs| - 1], slugs[..|slugs| - 1]);
    }
  }

  /** The slugs of a catalog. */
  function SlugsOf(defs: seq<Definition>): (slugs: seq<nat>)
    ensures |slugs| == |defs|
  {
    seq(|defs|, i requires 0 <= i < |defs| => defs[i].slug)
  }

  lemma SlugsAreListed(defs: seq<Definition>)
    ensures (set slug | slug in SlugsOf(defs)) == (set d | d in defs :: d.slug)
    ensures forall slug <- SlugsOf(defs) :: exists d <- defs :: d.slug == slug
  {
    forall d <- defs ensures d.slug in SlugsOf(defs) {
      var i :| 0 <= i < |defs| && defs[i] == d;
      assert SlugsOf(defs)[i] == d.slug;
    }
  }

  lemma CatalogIsRetirable(defs: seq<Definition>, s: HouseBooks)
    requires DistinctDefinitions(defs) && WellListed(s) && AllStand(s, defs)
    ensures Retirable(s, SlugsOf(defs)) && Refunds(s, SlugsOf(defs)) == Subsidies(defs)
    ensures forall slug <- SlugsOf(defs) :: s.balances[s.markets[slug].account] >= 0
  {
    RefundsAreSubsidies(s, defs, SlugsOf(defs));
    forall slug <- SlugsOf(defs) ensures s.balances[s.markets[slug].account] >= 0 {
      SlugsAreListed(defs);
      var d :| d in defs && d.slug == slug;
      assert StandsAs(s, d);
    }
  }

  /** Everything seeding created is inspected without objection. */
  lemma CatalogPasses(b: HouseBooks, defs: seq<Definition>)
    requires Reconciled(b) && WellListed(b) && Seedable(b, defs)
    ensures var s := SeedAll(b, defs);
            forall d <- defs ::
              d.slug in s.markets && s.markets[d.slug].account in s.balances && Inspect(s, s.markets[d.slug]) == None
  {
    SeedAllReconciles(b, defs);
    SeedAllStands(b, defs);
    var s := SeedAll(b, defs);
    forall d <- defs ensures StandsAs(s, d) && Inspect(s, s.markets[d.slug]) == None {
      SeededPasses(s, d);
    }
  }

  /** Seeding a catalog and retiring it again restores the treasury and the list of markets exactly. */
  lemma SeedThenRetire(b: HouseBooks, defs: seq<Definition>)
    requires WellListed(b) && Reconciled(b) && Seedable(b, defs)
    ensures var s := SeedAll(b, defs);
            && WellListed(s) && Retirable(s, SlugsOf(defs))
            && var after := RetireAll(s, SlugsOf(defs));
               && Reconciled(after) && after.treasury == b.treasury && after.markets == b.markets
               && (forall d <- defs :: d.account in after.balances && after.balances[d.account] == 0)
  {
    var s := SeedAll(b, defs);
    SeedAllReconciles(b, defs);
    SeedAllSeeds(b, defs);
    SeedAllStands(b, defs);
    CatalogIsRetirable(defs, s);
    RetireAllReconciles(s, SlugsOf(defs));
    CatalogComesBack(b, defs, s);
  }

  lemma CatalogComesBack(b: HouseBooks, defs: seq<Definition>, s: HouseBooks)
    requires WellListed(s) && SeededFrom(b, defs, s) && AllStand(s, defs) && forall d <- defs :: d.slug !in b.markets
    requires Retirable(s, SlugsOf(defs)) && Refunds(s, SlugsOf(defs)) == Subsidies(defs)
    requires forall slug <- SlugsOf(defs) :: s.balances[s.markets[slug].account] >= 0
    ensures var after := RetireAll(s, SlugsOf(defs));
            && after.treasury == b.treasury && after.markets == b.markets
            && (forall d <- defs :: d.account in after.balances && after.balances[d.account] == 0)
  {
    RetireAllRestores(s, SlugsOf(defs));
    CatalogIsBack(b, defs, s, SlugsOf(defs), RetireAll(s, SlugsOf(defs)));
  }

  /** Retiring paid every refund, took every market off the list and emptied every account. */
  ghost predicate TakenBack(s: HouseBooks, slugs: seq<nat>, after: HouseBooks) {
    && after.markets == s.markets - (set slug | slug in slugs) && after.balances.Keys == s.balances.Keys
    && forall slug <- slugs ::
         slug in s.markets && s.markets[slug].account in after.balances && after.balances[s.markets[slug].account] == 0
  }

  lemma CatalogIsBack(b: HouseBooks, defs: seq<Definition>, s: HouseBooks, slugs: seq<nat>, after: HouseBooks)
    requires SeededFrom(b, defs, s) && AllStand(s, defs) && slugs == SlugsOf(defs) && TakenBack(s, slugs, after)
    requires forall d <- defs :: d.slug !in b.markets
    ensures after.markets == b.markets
    ensures forall d <- defs :: d.account in after.balances && after.balances[d.account] == 0
  {
    SlugsAreListed(defs);
    MarketsComeBack(b, s, slugs);
    forall d <- defs ensures d.account in after.balances && after.balances[d.account] == 0 {
      AccountIsZeroed(s, after, defs, d);
    }
  }

  lemma AccountIsZeroed(s: HouseBooks, after: HouseBooks, defs: seq<Definition>, d: Definition)
    requires d in defs && StandsAs(s, d) && after.balances.Keys == s.balances.Keys
    requires forall slug <- SlugsOf(defs) ::
               slug in s.markets && s.markets[slug].account in after.balances
               && after.balances[s.markets[slug].account] == 0
    ensures d.account in after.balances && after.balances[d.account] == 0
  {
    var i :| 0 <= i < |defs| && defs[i] == d;
    assert SlugsOf(defs)[i] in SlugsOf(defs);
  }

  lemma MarketsComeBack(b: HouseBooks, s: HouseBooks, slugs: seq<nat>)
    requires s.markets.Keys == b.markets.Keys + (set slug | slug in slugs)
    requires forall slug <- b.markets :: s.markets[slug] == b.markets[slug]
    requires forall slug <- slugs :: slug !in b.markets
    ensures s.markets - (set slug | slug in slugs) == b.markets
  {
    assert (s.markets - (set slug | slug in slugs)).Keys == b.markets.Keys;
  }

  // ---------- The commands ----------

  class House {
    var books: HouseBooks

    constructor (books: HouseBooks)
      ensures this.books == books
    {
      this.books := books;
    }

    /** Seeds every definition whose slug is not listed yet, one transaction each. */
    method Seed(defs: seq<Definition>)
      modifies this
      ensures books == SeedAll(old(books), defs)
    {
      for i := 0 to |defs|
        invariant books == SeedAll(old(books), defs[..i])
      {
        assert defs[..i + 1][..i] == defs[..i];
        var d := defs[i];
        if d.slug !in books.markets {
          books := books.(balances := books.balances[d.account := d.subsidy],
            markets := books.markets[d.slug := MarketOf(d)]);
          books := books.(treasury := books.treasury - d.subsidy, entries := books.entries + [Funding(d)]);
        }
      }
      assert defs[..|defs|] == defs;
    }

    /** The listed markets among the legacy slugs, each of which must pass. */
    method InspectLegacy(slugs: seq<nat>) returns (r: Result<seq<nat>, Refusal>)
      requires WellListed(books) && forall i, j :: 0 <= i < j < |slugs| ==> slugs[i] != slugs[j]
      ensures r.Ok? ==> Retirable(books, r.value) && forall s <- slugs :: s in r.value <==> s in books.markets
      ensures r.Ok? ==> forall s <- r.value :: s in slugs && Inspect(books, books.markets[s]) == None
      ensures r.Err? ==> exists s <- slugs :: s in books.markets && Inspect(books, books.markets[s]) == Some(r.error)
    {
      var found: seq<nat> := [];
      for i := 0 to |slugs|
        invariant Retirable(books, found) && forall s <- slugs[..i] :: s in found <==> s in books.markets
        invariant forall s <- found :: s in slugs[..i] && Inspect(books, books.markets[s]) == None
      {
        if slugs[i] in books.markets {
          var refusal := Inspect(books, books.markets[slugs[i]]);
          if refusal.Some? {
            assert slugs[i] in slugs;
            return Err(refusal.value);
          }
          found := found + [slugs[i]];
        }
      }
      assert slugs[..|slugs|] == slugs;
      return Ok(found);
    }

    /**
     Retires every listed legacy market in one transaction, or refuses and changes nothing.
     It refuses exactly when some listed market fails inspection or the treasury does not
     reconcile.
     */
    method Retire(slugs: seq<nat>) returns (r: Result<seq<nat>, Refusal>)
      requires WellListed(books) && forall i, j :: 0 <= i < j < |slugs| ==> slugs[i] != slugs[j]
      modifies this
      ensures r.Err? ==> books == old(books)
      ensures r.Ok? <==>
                && (forall s <- slugs :: s in old(books).markets ==> Inspect(old(books), old(books).markets[s]) == None)
                && ((exists s <- slugs :: s in old(books).markets) ==>
                      PostedIn(old(books).entries, Treasury) == old(books).treasury)
      ensures r.Ok? ==> Retirable(old(books), r.value) && books == RetireAll(old(books), r.value)
                        && forall s <- slugs :: s in r.value <==> s in old(books).markets
      ensures r.Ok? ==> forall s <- slugs :: s in old(books).markets ==> Untouched(old(books), old(books).markets[s])
      ensures r.Err? && r.error != TreasuryDiffers ==>
                exists s <- slugs :: s in old(books).markets && !Untouched(old(books), old(books).markets[s])
    {
      forall s <- books.markets {
        InspectsExactly(books, books.markets[s]);
      }
      var found :- InspectLegacy(slugs);
      if found == [] {
        return Ok(found);
      }
      assert found[0] in slugs;
      if PostedIn(books.entries, Treasury) != books.treasury {
        return Err(TreasuryDiffers);
      }
      RetireFound(found);
      return Ok(found);
    }

    /** Refunds and delists inspected markets, with the refunds read before the first of them. */
    method RetireFound(found: seq<nat>)
      requires WellListed(books) && Retirable(books, found)
      modifies this
      ensures books == RetireAll(old(books), found)
    {
      var before := books;
      for i := 0 to |found|
        invariant Retirable(before, found[..i]) && books == RetireAll(before, found[..i])
      {
        NextRetires(before, found, i);
        var m := before.markets[found[i]];
        RetireMarket(found[i], m, before.balances[m.account]);
      }
      assert found[..|found|] == found;
    }

    method RetireMarket(slug: nat, m: Listed, refund: int)
      requires slug in books.markets && m == books.markets[slug] && m.account in books.balances
      requires refund == books.balances[m.account]
      modifies this
      ensures books == RetireOne(old(books), slug)
    {
      if refund > 0 {
        books := books.(entries := books.entries + [GivingBack(m, refund)], treasury := books.treasury + refund);
      }
      books := books.(balances := books.balances[m.account := 0], closed := books.closed + {m.account});
      books := books.(markets := books.markets - {slug});
    }
  }

  /** One more market: it is still listed, and what it holds is what it held before any was retired. */
  lemma NextRetires(b: HouseBooks, slugs: seq<nat>, i: nat)
    requires WellListed(b) && Retirable(b, slugs) && i < |slugs|
    ensures Retirable(b, slugs[..i]) && Retirable(b, slugs[..i + 1])
    ensures var before, slug := RetireAll(b, slugs[..i]), slugs[i];
            && slug in b.markets && slug in before.markets && before.markets[slug] == b.markets[slug]
            && before.markets[slug].account in before.balances
            && before.balances[before.markets[slug].account] == b.balances[b.markets[slug].account]
            && RetireAll(b, slugs[..i + 1]) == RetireOne(before, slug)
  {
    assert slugs[..i + 1][..i] == slugs[..i];
    assert slugs[i] in slugs && slugs[i] !in slugs[..i];
  }

  // ---------- Reconciliation ----------

  datatype Cached = Cached(account: Account, balance: int, mayBeNegative: bool)

  datatype Discrepancy =
    | Unbalanced(journal: nat, excess: int)
    | CacheDiffers(account: Account, posted: int)
    | Negative(account: Account)

  predicate Sane(c: Cached, entries: seq<Entry>) {
    c.balance == PostedIn(entries, c.account) && (c.mayBeNegative || c.balance >= 0)
  }

  /** Every journal and every account is checked, and every discrepancy is listed. */
  method Reconcile(entries: seq<Entry>, accounts: seq<Cached>) returns (errors: seq<Discrepancy>)
    ensures errors == [] <==> AllBalanced(entries) && forall c <- accounts :: Sane(c, entries)
  {
    errors := [];
    for i := 0 to |entries|
      invariant errors == [] <==> AllBalanced(entries[..i])
    {
      var sum := Sum(Amounts(entries[i].journal.postings));
      if sum != 0 {
        errors := errors + [Unbalanced(entries[i].journal.id, sum)];
      }
      assert entries[..i + 1] == entries[..i] + [entries[i]];
    }
    assert entries[..|entries|] == entries;
    for i := 0 to |accounts|
      invariant errors == [] <==> AllBalanced(entries) && forall c <- accounts[..i] :: Sane(c, entries)
    {
      var c := accounts[i];
      var posted := PostedIn(entries, c.account);
      if posted != c.balance {
        errors := errors + [CacheDiffers(c.account, posted)];
      }
      if !c.mayBeNegative && c.balance < 0 {
        errors := errors + [Negative(c.account)];
      }
      assert accounts[..i + 1] == accounts[..i] + [c];
      assert (forall d <- accounts[..i + 1] :: Sane(d, entries))
             <==> (forall d <- accounts[..i] :: Sane(d, entries)) && Sane(c, entries);
    }
    assert accounts[..|accounts|] == accounts;
  }

  function Total(accounts: seq<Cached>): int {
    if accounts == [] then 0 else Total(accounts[..|accounts| - 1]) + accounts[|accounts| - 1].balance
  }

  predicate DistinctAccounts(accounts: seq<Cached>) {
    forall i, j :: 0 <= i < j < |accounts| ==> accounts[i].account != accounts[j].account
  }

  predicate Covers(accounts: seq<Cached>, postings: seq<Posting>) {
    forall p <- postings :: exists c <- accounts :: c.account == p.account
  }

  function Everywhere(postings: seq<Posting>, accounts: seq<Cached>): int {
    if accounts == [] then 0 else
    Everywhere(postings, accounts[..|accounts| - 1]) + Sum(OnAccount(postings, accounts[|accounts| - 1].account))
  }

  lemma {:induction false} OneFewerPosting(postings: seq<Posting>, accounts: seq<Cached>)
    requires postings != [] && DistinctAccounts(accounts)
    ensures Everywhere(postings, accounts) == Everywhere(postings[1..], accounts)
            + (if exists c <- accounts :: c.account == postings[0].account then postings[0].amount else 0)
    decreases |accounts|
  {
    if accounts != [] {
      var before, last := accounts[..|accounts| - 1], accounts[|accounts| - 1];
      OneFewerPosting(postings, before);
      SumThen(postings[0], OnAccount(postings[1..], last.account), last.account);
      assert accounts == before + [last];
      assert last.account == postings[0].account ==> !exists c <- before :: c.account == postings[0].account;
    }
  }

  /** Over distinct accounts that cover a journal, each posting is counted exactly once. */
  lemma {:induction false} EverywhereIsAmounts(postings: seq<Posting>, accounts: seq<Cached>)
    requires DistinctAccounts(accounts) && Covers(accounts, postings)
    ensures Everywhere(postings, accounts) == Sum(Amounts(postings))
    decreases |postings|
  {
    if postings == [] {
      NothingEverywhere(accounts);
    } else {
      assert forall p <- postings[1..] :: p in postings;
      EverywhereIsAmounts(postings[1..], accounts);
      OneFewerPosting(postings, accounts);
      assert postings[0] in postings;
      assert Amounts(postings)[1..] == Amounts(postings[1..]);
    }
  }

  lemma {:induction false} NothingEverywhere(accounts: seq<Cached>)
    ensures Everywhere([], accounts) == 0
    decreases |accounts|
  {
    if accounts != [] {
      NothingEverywhere(accounts[..|accounts| - 1]);
    }
  }

  function PostedTotal(entries: seq<Entry>, accounts: seq<Cached>): int {
    if accounts == [] then 0 else
    PostedTotal(entries, accounts[..|accounts| - 1]) + PostedIn(entries, accounts[|accounts| - 1].account)
  }

  lemma {:induction false} PostedTotalLast(entries: seq<Entry>, accounts: seq<Cached>)
    requires entries != []
    ensures var last := entries[|entries| - 1];
            PostedTotal(entries, accounts) == PostedTotal(entries[..|entries| - 1], accounts)
            + (if last.posted then Everywhere(last.journal.postings, accounts) else 0)
    decreases |accounts|
  {
    if accounts != [] {
      PostedTotalLast(entries, accounts[..|accounts| - 1]);
    }
  }

  lemma {:induction false} NothingPosted(accounts: seq<Cached>)
    ensures PostedTotal([], accounts) == 0
    decreases |accounts|
  {
    if accounts != [] {
      NothingPosted(accounts[..|accounts| - 1]);
    }
  }

  lemma {:induction false} PostedTotalIsZero(entries: seq<Entry>, accounts: seq<Cached>)
    requires AllBalanced(entries) && DistinctAccounts(accounts)
    requires forall e <- entries :: Covers(accounts, e.journal.postings)
    ensures PostedTotal(entries, accounts) == 0
  {
    if entries == [] {
      NothingPosted(accounts);
    } else {
      var before, last := entries[..|entries| - 1], entries[|entries| - 1];
      PostedTotalIsZero(before, accounts);
      PostedTotalLast(entries, accounts);
      assert last in entries;
      EverywhereIsAmounts(last.journal.postings, accounts);
    }
  }

  lemma {:induction false} TotalIsPosted(entries: seq<Entry>, accounts: seq<Cached>)
    requires forall c <- accounts :: Sane(c, entries)
    ensures Total(accounts) == PostedTotal(entries, accounts)
    decreases |accounts|
  {
    if accounts != [] {
      TotalIsPosted(entries, accounts[..|accounts| - 1]);
      assert accounts[|accounts| - 1] in accounts;
    }
  }

  /** A reconciliation that finds nothing proves that no money exists from nothing: all balances sum to zero. */
  lemma NothingFromNothing(entries: seq<Entry>, accounts: seq<Cached>)
    requires AllBalanced(entries) && (forall c <- accounts :: Sane(c, entries))
    requires DistinctAccounts(accounts) && forall e <- entries :: Covers(accounts, e.journal.postings)
    ensures Total(accounts) == 0
  {
    TotalIsPosted(entries, accounts);
    PostedTotalIsZero(entries, accounts);
  }
}
