/**
 Copies of the few seats a placement touches. All settlement happens on the copies; the
 stored seats are written only once nothing can fail any more.
 */
module Staging {
  import opened Wrappers
  import opened Words
  import opened Orders
  import opened Matching
  import opened Escrow
  import opened Settlement

  /** One submitter and at most one maker for each touch. */
  const MAX_STAGED_SEATS := 17

  datatype SeatPatch = SeatPatch(index: nat, after: Seat)

  predicate StagedAt(patches: seq<SeatPatch>, index: nat) {
    exists p <- patches :: p.index == index
  }

  ghost predicate Distinct(patches: seq<SeatPatch>) {
    forall i, j :: 0 <= i < j < |patches| ==> patches[i].index != patches[j].index
  }

  /** The stored seats with the staged copies in their places. */
  function Overlay(base: seq<Seat>, patches: seq<SeatPatch>): (seats: seq<Seat>)
    requires forall p <- patches :: p.index < |base|
    ensures |seats| == |base|
  {
    if patches == [] then base else
    var last := patches[|patches| - 1];
    Overlay(base, patches[..|patches| - 1])[last.index := last.after]
  }

  lemma {:induction false} OverlayAt(base: seq<Seat>, patches: seq<SeatPatch>, k: nat)
    requires (forall p <- patches :: p.index < |base|) && Distinct(patches) && k < |patches|
    ensures Overlay(base, patches)[patches[k].index] == patches[k].after
    decreases |patches|
  {
    if k < |patches| - 1 {
      OverlayAt(base, patches[..|patches| - 1], k);
    }
  }

  lemma {:induction false} OverlayElsewhere(base: seq<Seat>, patches: seq<SeatPatch>, i: nat)
    requires (forall p <- patches :: p.index < |base|) && !StagedAt(patches, i) && i < |base|
    ensures Overlay(base, patches)[i] == base[i]
    decreases |patches|
  {
    if patches != [] {
      OverlayElsewhere(base, patches[..|patches| - 1], i);
    }
  }

  /** Overwriting one copy is overwriting one seat. */
  lemma {:induction false} OverlayUpdate(base: seq<Seat>, patches: seq<SeatPatch>, k: nat, s: Seat)
    requires (forall p <- patches :: p.index < |base|) && Distinct(patches) && k < |patches|
    ensures Overlay(base, patches[k := SeatPatch(patches[k].index, s)]) == Overlay(base, patches)[patches[k].index := s]
    decreases |patches|
  {
    var n := |patches| - 1;
    if k < n {
      OverlayUpdate(base, patches[..n], k, s);
      assert patches[k := SeatPatch(patches[k].index, s)][..n] == patches[..n][k := SeatPatch(patches[k].index, s)];
    } else {
      assert patches[k := SeatPatch(patches[k].index, s)][..n] == patches[..n];
    }
  }

  /** Staging an unchanged copy changes nothing. */
  lemma OverlayCopy(base: seq<Seat>, patches: seq<SeatPatch>, i: nat)
    requires (forall p <- patches :: p.index < |base|) && i < |base| && !StagedAt(patches, i)
    ensures Overlay(base, patches + [SeatPatch(i, base[i])]) == Overlay(base, patches)
  {
    OverlayElsewhere(base, patches, i);
    assert (patches + [SeatPatch(i, base[i])])[..|patches|] == patches;
  }

  class Staged {
    const base: seq<Seat>
    var patches: seq<SeatPatch>

    constructor (base: seq<Seat>)
      ensures this.base == base && patches == [] && Valid() && View() == base
    {
      this.base, patches := base, [];
    }

    ghost predicate Valid()
      reads this
    {
      && (forall p <- patches :: p.index < |base|)
      && Distinct(patches) && |patches| <= MAX_STAGED_SEATS
    }

    ghost function View(): (seats: seq<Seat>)
      requires Valid()
      reads this
      ensures |seats| == |base|
    {
      Overlay(base, patches)
    }

    /** Where the copy of seat `owner` is, made on first use. */
    method Stage(owner: nat) returns (at: nat)
      requires Valid() && owner < |base| && (!StagedAt(patches, owner) ==> |patches| < MAX_STAGED_SEATS)
      modifies this
      ensures Valid() && View() == old(View())
      ensures at < |patches| && patches[at].index == owner && patches[at].after == View()[owner]
      ensures old(patches) <= patches && |patches| <= |old(patches)| + 1
      ensures old(StagedAt(patches, owner)) ==> patches == old(patches)
    {
      for k := 0 to |patches|
        invariant forall i :: 0 <= i < k ==> patches[i].index != owner
        invariant patches == old(patches)
      {
        if patches[k].index == owner {
          OverlayAt(base, patches, k);
          return k;
        }
      }
      OverlayElsewhere(base, patches, owner);
      OverlayCopy(base, patches, owner);
      patches := patches + [SeatPatch(owner, base[owner])];
      return |patches| - 1;
    }

    /** Overwrites the copy at `k`. */
    method Put(k: nat, s: Seat)
      requires Valid() && k < |patches|
      modifies this
      ensures Valid() && View() == old(View())[old(patches)[k].index := s]
      ensures |patches| == |old(patches)|
      ensures forall i :: 0 <= i < |patches| ==> patches[i].index == old(patches)[i].index
    {
      OverlayUpdate(base, patches, k, s);
      patches := patches[k := SeatPatch(patches[k].index, s)];
    }
  }

  /** What settlement carries besides the seats. */
  datatype Running = Running(takerReserve: Reserve, collateral: U64, revenue: U64)

  function LedgerOf(seats: seq<Seat>, accounted: U64, b: Running): Funds {
    Funds(seats, accounted, b.collateral, b.revenue)
  }

  /** The staged copies and running totals are what the specification step makes of the ledger. */
  ghost predicate Follows(step: Result<Step, Fault>, r: Result<Running, Fault>, seats: seq<Seat>, accounted: U64) {
    match step
    case Err(e) => r == Err(e)
    case Ok(s) => r.Ok? && s == Step(LedgerOf(seats, accounted, r.value), r.value.takerReserve)
  }

  method ApplyRemoval(staged: Staged, o: Order, b: Running, reserve: Reserver, ghost accounted: U64)
    returns (r: Result<Running, Fault>)
    requires staged.Valid() && |staged.patches| < MAX_STAGED_SEATS
    modifies staged
    ensures staged.Valid() && |staged.patches| <= |old(staged.patches)| + 1
    ensures forall i :: StagedAt(old(staged.patches), i) ==> StagedAt(staged.patches, i)
    ensures var after := SettleRemoval(LedgerOf(old(staged.View()), accounted, b), o, reserve);
            match after
            case Err(e) => r == Err(e)
            case Ok(l) => r == Ok(b) && l == LedgerOf(staged.View(), accounted, b)
  {
    if o.owner >= |staged.base| {
      return Err(Binding);
    }
    var at := staged.Stage(o.owner);
    match reserve(o)
    case Err(e) => return Err(Matcher(e));
    case Ok(held) =>
      var seat :- Unlock(staged.patches[at].after, held);
      staged.Put(at, seat);
      return Ok(b);
  }

  method ApplyFill(staged: Staged, f: Fill, submitter: nat, b: Running, reserve: Reserver, ghost accounted: U64)
    returns (r: Result<Running, Fault>)
    requires staged.Valid() && |staged.patches| < MAX_STAGED_SEATS
    requires submitter < |staged.base| && StagedAt(staged.patches, submitter)
    modifies staged
    ensures staged.Valid() && |staged.patches| <= |old(staged.patches)| + 1
    ensures forall i :: StagedAt(old(staged.patches), i) ==> StagedAt(staged.patches, i)
    ensures var after := SettleFill(LedgerOf(old(staged.View()), accounted, b), f, submitter, b.takerReserve, reserve);
            match after
            case Err(e) => r == Err(e)
            case Ok(l) => r.Ok? && r.value.takerReserve == f.takerReserveAfter
                          && l == LedgerOf(staged.View(), accounted, r.value)
  {
    if f.makerBefore.owner == submitter || f.takerBefore.owner != submitter || f.makerBefore.owner >= |staged.base| {
      return Err(Binding);
    }
    var at := staged.Stage(f.makerBefore.owner);
    match reserve(f.makerBefore)
    case Err(e) => return Err(Matcher(e));
    case Ok(before) =>
      var maker :- SettleSeat(staged.patches[at].after, before, f.makerReserveAfter, f.economics.maker);
      staged.Put(at, maker);
      r := ApplyTaker(staged, f, submitter, b);
  }

  /** The taker's half of a fill, and the market's money. */
  method ApplyTaker(staged: Staged, f: Fill, submitter: nat, b: Running) returns (r: Result<Running, Fault>)
    requires staged.Valid() && submitter < |staged.base| && StagedAt(staged.patches, submitter)
    modifies staged
    ensures staged.Valid() && |staged.patches| == |old(staged.patches)|
    ensures forall i :: 0 <= i < |staged.patches| ==> staged.patches[i].index == old(staged.patches)[i].index
    ensures var taker := SettleSeat(old(staged.View())[submitter], b.takerReserve, f.takerReserveAfter,
                                    f.economics.taker);
            var collateral := Delta(b.collateral, f.economics.collateral);
            var revenue := Delta(b.revenue, f.economics.revenue);
            if taker.Err? then r == Err(taker.error)
            else if collateral.Err? then r == Err(collateral.error)
            else if revenue.Err? then r == Err(revenue.error)
            else r == Ok(Running(f.takerReserveAfter, collateral.value, revenue.value))
                 && staged.View() == old(staged.View())[submitter := taker.value]
  {
    var mine := staged.Stage(submitter);
    var taker :- SettleSeat(staged.patches[mine].after, b.takerReserve, f.takerReserveAfter, f.economics.taker);
    staged.Put(mine, taker);
    var collateral :- Delta(b.collateral, f.economics.collateral);
    var revenue :- Delta(b.revenue, f.economics.revenue);
    return Ok(Running(f.takerReserveAfter, collateral, revenue));
  }

  /** Settles all effects in matcher order; refines the specification, faults included. */
  method ApplyEffects(staged: Staged, effects: seq<Effect>, submitter: nat, start: Running, reserve: Reserver,
                      ghost accounted: U64)
    returns (r: Result<Running, Fault>)
    requires staged.Valid() && submitter < |staged.base| && StagedAt(staged.patches, submitter)
    requires |staged.patches| + |effects| <= MAX_STAGED_SEATS
    modifies staged
    ensures staged.Valid() && StagedAt(staged.patches, submitter)
    ensures Follows(SettleEffects(LedgerOf(old(staged.View()), accounted, start), effects, submitter,
                                  start.takerReserve, reserve),
                    r, staged.View(), accounted)
  {
    var b := start;
    ghost var whole := SettleEffects(LedgerOf(staged.View(), accounted, start), effects, submitter, start.takerReserve,
      reserve);
    for k := 0 to |effects|
      invariant staged.Valid() && StagedAt(staged.patches, submitter)
      invariant |staged.patches| + |effects| <= MAX_STAGED_SEATS + k
      invariant whole == SettleEffects(LedgerOf(staged.View(), accounted, b), effects[k..], submitter, b.takerReserve,
                                       reserve)
    {
      assert effects[k..][1..] == effects[k + 1..];
      match effects[k]
      case Removed(o, _) =>
        b :- ApplyRemoval(staged, o, b, reserve, accounted);
      case Filled(f) =>
        b :- ApplyFill(staged, f, submitter, b, reserve, accounted);
    }
    assert effects[|effects|..] == [];
    return Ok(b);
  }
}
