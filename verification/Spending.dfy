/**
 Two clients spend the same balance in serializable transactions that are retried on
 conflict; a barrier makes both read before either writes.
 */
module Spending {

  const PRICE := 100
  const ATTEMPTS := 3

  /** Where a spender is in its current attempt; a snapshot is the balance and its version. */
  datatype Phase =
    | Idle
    | Reading(balance: int, version: nat)
    | Waiting(balance: int, version: nat)
    | Writing(balance: int, version: nat)
    | Spent
    | Short        // rejected: insufficient balance
    | Conflicted   // rejected: attempts exhausted

  datatype Spender = Spender(attempt: nat, phase: Phase)

  datatype State = State(balance: int, version: nat, arrivals: nat, released: bool, retries: nat, first: Spender,
                         second: Spender)

  datatype Who = First | Second

  function Of(s: State, who: Who): Spender {
    if who.First? then s.first else s.second
  }

  function With(s: State, who: Who, p: Spender): State {
    if who.First? then s.(first := p) else s.(second := p)
  }

  function Opening(): State {
    State(PRICE, 0, 0, false, 0, Spender(1, Idle), Spender(1, Idle))
  }

  predicate Finished(p: Spender) {
    p.phase.Spent? || p.phase.Short? || p.phase.Conflicted?
  }

  predicate Enabled(s: State, who: Who) {
    !Finished(Of(s, who)) && (Of(s, who).phase.Waiting? ==> s.released)
  }

  /** One step of a spender. The first committer wins: a stale snapshot cannot commit. */
  function Next(s: State, who: Who): State
    requires Enabled(s, who)
  {
    var p := Of(s, who);
    match p.phase
    case Idle => With(s, who, p.(phase := Reading(s.balance, s.version)))
    case Reading(balance, version) =>
      if balance < PRICE then With(s, who, p.(phase := Short))
      else if p.attempt == 1 then
        With(s.(arrivals := s.arrivals + 1, released := s.released || s.arrivals + 1 == 2), who,
             p.(phase := Waiting(balance, version)))
      else With(s, who, p.(phase := Writing(balance, version)))
    case Waiting(balance, version) => With(s, who, p.(phase := Writing(balance, version)))
    case Writing(_, version) =>
      if s.version == version then
        With(s.(balance := s.balance - PRICE, version := s.version + 1), who, p.(phase := Spent))
      else if p.attempt == ATTEMPTS then With(s, who, p.(phase := Conflicted))
      else With(s.(retries := s.retries + 1), who, Spender(p.attempt + 1, Idle))
  }

  // ---------- Every interleaving ----------

  predicate Fresh(p: Spender) {
    && p.attempt == 1
    && (p.phase.Idle?
        || ((p.phase.Reading? || p.phase.Waiting? || p.phase.Writing?)
            && p.phase.balance == PRICE && p.phase.version == 0))
  }

  predicate Arrived(p: Spender) {
    p.attempt > 1 || !(p.phase.Idle? || p.phase.Reading?)
  }

  /** Neither has committed: both are in their first attempt on the same snapshot. */
  predicate Undecided(s: State) {
    && s.balance == PRICE && s.version == 0 && s.retries == 0
    && Fresh(s.first) && Fresh(s.second)
    && s.arrivals == (if Arrived(s.first) then 1 else 0) + (if Arrived(s.second) then 1 else 0)
    && (s.released <==> s.arrivals == 2)
    && (s.first.phase.Writing? || s.second.phase.Writing? ==> s.released)
  }

  /** `loser` either still holds the stale snapshot or is learning that the balance is gone. */
  predicate Losing(s: State, loser: Spender) {
    if loser.attempt == 1 then
      s.retries == 0 && (loser.phase.Waiting? || loser.phase.Writing?) && loser.phase.version == 0
    else
      && loser.attempt == 2 && s.retries == 1
      && (loser.phase.Idle? || loser.phase == Reading(0, 1) || loser.phase.Short?)
  }

  predicate Decided(s: State, winner: Who) {
    && s.balance == 0 && s.version == 1 && s.released
    && Of(s, winner).phase.Spent? && Losing(s, Of(s, if winner.First? then Second else First))
  }

  predicate Reachable(s: State) {
    Undecided(s) || Decided(s, First) || Decided(s, Second)
  }

  lemma NextStaysReachable(s: State, who: Who)
    requires Reachable(s) && Enabled(s, who)
    ensures Reachable(Next(s, who)) && 0 <= Next(s, who).balance
  {
  }

  /** Steps still to come, at most. */
  function Remaining(p: Spender): nat {
    if Finished(p) || p.attempt > ATTEMPTS then 0 else
    4 * (ATTEMPTS - p.attempt)
    + match p.phase case Idle => 4 case Reading(_, _) => 3 case Waiting(_, _) => 2 case _ => 1
  }

  function Measure(s: State): nat {
    Remaining(s.first) + Remaining(s.second)
  }

  lemma NextProgresses(s: State, who: Who)
    requires Reachable(s) && Enabled(s, who)
    ensures Measure(Next(s, who)) < Measure(s)
  {
    var other := if who.First? then Second else First;
    MoverProgresses(s, who);
    assert Of(Next(s, who), other) == Of(s, other);
  }

  lemma MoverProgresses(s: State, who: Who)
    requires Enabled(s, who) && Of(s, who).attempt <= ATTEMPTS
    ensures Remaining(Of(Next(s, who), who)) < Remaining(Of(s, who))
  {
  }

  /** The barrier never blocks both: until both have finished, someone can move. */
  lemma NoDeadlock(s: State)
    requires Reachable(s) && !(Finished(s.first) && Finished(s.second))
    ensures Enabled(s, First) || Enabled(s, Second)
  {
  }

  /** A schedule names who moves; it must name someone who can. */
  ghost predicate Runs(s: State, schedule: seq<Who>)
    decreases |schedule|
  {
    schedule == [] || (Enabled(s, schedule[0]) && Runs(Next(s, schedule[0]), schedule[1..]))
  }

  ghost function After(s: State, schedule: seq<Who>): State
    requires Runs(s, schedule)
    decreases |schedule|
  {
    if schedule == [] then s else After(Next(s, schedule[0]), schedule[1..])
  }

  lemma {:induction false} ScheduleStaysReachable(s: State, schedule: seq<Who>)
    requires Reachable(s) && Runs(s, schedule)
    ensures Reachable(After(s, schedule)) && |schedule| + Measure(After(s, schedule)) <= Measure(s)
    decreases |schedule|
  {
    if schedule != [] {
      NextStaysReachable(s, schedule[0]);
      NextProgresses(s, schedule[0]);
      ScheduleStaysReachable(Next(s, schedule[0]), schedule[1..]);
    }
  }

  lemma OpeningIsReachable()
    ensures Reachable(Opening()) && Measure(Opening()) <= 24
  {
  }

  /** When nobody can move, one has spent and the other has been turned away. */
  lemma StuckIsSettled(s: State)
    requires Reachable(s)
    ensures 0 <= s.balance && s.retries <= 1
    ensures !Enabled(s, First) && !Enabled(s, Second) ==>
              && s.balance == 0 && s.retries == 1
              && (s.first.phase.Spent? <==> s.second.phase.Short?) && (s.first.phase.Short? <==> s.second.phase.Spent?)
              && (s.first.phase.Spent? || s.second.phase.Spent?)
  {
    if !(Finished(s.first) && Finished(s.second)) {
      NoDeadlock(s);
    }
  }

  /**
   Whatever the interleaving, it ends within 24 steps; it can only stop when both spenders
   are done, and then exactly one has spent, the other was turned away for want of balance
   after exactly one retry, and the balance is zero, never having been negative.
   */
  lemma ExactlyOneSpends(schedule: seq<Who>)
    requires Runs(Opening(), schedule)
    ensures |schedule| <= 24
    ensures var s := After(Opening(), schedule);
            && 0 <= s.balance && s.retries <= 1
            && (!Enabled(s, First) && !Enabled(s, Second) ==>
                  && s.balance == 0 && s.retries == 1
                  && (s.first.phase.Spent? <==> s.second.phase.Short?)
                  && (s.first.phase.Short? <==> s.second.phase.Spent?)
                  && (s.first.phase.Spent? || s.second.phase.Spent?))
  {
    OpeningIsReachable();
    var start := Opening();
    ScheduleStaysReachable(start, schedule);
    StuckIsSettled(After(start, schedule));
  }
}
