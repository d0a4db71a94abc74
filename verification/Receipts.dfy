/**
 The "persist the receipt, then send" protocol as a step relation: any number of runs over
 one receipt file, interleaved in any way, each of which can die at any point, on a machine
 that can crash and lose whatever was not synced.
 */
module Receipts {

  /** A signed transaction; two signings of the same intent are different transactions. */
  type Tx = nat

  /** Created exclusively, then written, then synced together with its directory entry. */
  datatype File = Absent | Torn(owner: nat) | Whole(tx: Tx, durable: bool, owner: nat)

  datatype Variant = Bootstrap | MatchedTrade | Enrollment

  datatype Phase =
    | Begun
    | Observed(already: bool)            // asked the chain whether the effect is there
    | Resuming(already: bool)            // the receipt exists
    | Tracking(tx: Tx)                   // a retained receipt was validated; waiting for finality
    | Rechecking(tx: Tx)                 // finalized; asking for the effect again
    | Signing                            // no receipt; about to sign
    | Signed(tx: Tx)
    | Writing(tx: Tx)                    // the file is created and being written
    | Syncing(tx: Tx)
    | Persisted(tx: Tx)                  // onPrepared has returned
    | Sent(tx: Tx)
    | Settling(tx: Tx)                   // finalized after sending; asking for the effect
    | Over                               // returned, failed or killed

  datatype Answer = Answer(tx: Tx, finalized: bool)

  datatype World = World(
    file: File, sent: set<Tx>, finalized: set<Tx>, effect: bool, everEffect: bool,
    runs: map<nat, Phase>, answers: set<Answer>)

  // ---------- Steps ----------

  ghost predicate Moves(w: World, w': World, p: nat, next: Phase) {
    w' == w.(runs := w.runs[p := next])
  }

  ghost predicate Answers(w: World, w': World, p: nat, r: Answer) {
    w' == w.(runs := w.runs[p := Over], answers := w.answers + {r})
  }

  /** Looking before anything is signed; an enrollment asks only for the file. */
  ghost predicate Look(v: Variant, w: World, w': World, p: nat) {
    p in w.runs && match w.runs[p]
    case Begun => Moves(w, w', p, if v.Enrollment? then Observed(false) else Observed(w.effect))
    case Observed(already) =>
      Moves(w, w', p,
        if w.file.Absent? then (if already then Over else Signing)
        else if v.Enrollment? then Over else Resuming(already))
    case _ => false
  }

  /** A retained receipt that does not parse stops the run; one that does is answered or tracked. */
  ghost predicate Resume(v: Variant, w: World, w': World, p: nat) {
    p in w.runs && match w.runs[p]
    case Resuming(already) =>
      if !w.file.Whole? then Moves(w, w', p, Over)
      else if already then Answers(w, w', p, Answer(w.file.tx, false))
      else Moves(w, w', p, Tracking(w.file.tx))
    case Tracking(tx) =>
      if tx !in w.finalized then Moves(w, w', p, Over)
      else if v.MatchedTrade? then Moves(w, w', p, Rechecking(tx))
      else Answers(w, w', p, Answer(tx, true))
    case Rechecking(tx) =>
      if w.effect then Answers(w, w', p, Answer(tx, true)) else Moves(w, w', p, Over)
    case _ => false
  }

  /** Signing, persisting and sending, in that order; creation fails if the file has appeared. */
  ghost predicate Submit(v: Variant, w: World, w': World, p: nat) {
    p in w.runs && match w.runs[p]
    case Signing => exists tx :: Moves(w, w', p, Signed(tx))
    case Signed(tx) =>
      if w.file.Absent? then w' == w.(file := Torn(p), runs := w.runs[p := Writing(tx)]) else Moves(w, w', p, Over)
    case Writing(tx) => w' == w.(file := Whole(tx, false, p), runs := w.runs[p := Syncing(tx)])
    case Syncing(tx) => w' == w.(file := Whole(tx, true, p), runs := w.runs[p := Persisted(tx)])
    case Persisted(tx) => w' == w.(sent := w.sent + {tx}, runs := w.runs[p := Sent(tx)])
    case Sent(tx) =>
      if v.Enrollment? then Answers(w, w', p, Answer(tx, false))
      else Moves(w, w', p, if tx in w.finalized then Settling(tx) else Over)
    case Settling(tx) =>
      if w.effect then Answers(w, w', p, Answer(tx, true)) else Moves(w, w', p, Over)
    case _ => false
  }

  /** What happens around the runs: starts, deaths, the chain, and machine crashes. */
  ghost predicate Surroundings(w: World, w': World) {
    || (exists p :: p !in w.runs && Moves(w, w', p, Begun))
    || (exists p :: p in w.runs && Moves(w, w', p, Over))
    || (exists tx :: tx in w.sent && w' == w.(finalized := w.finalized + {tx}, effect := true, everEffect := true))
    || w' == w.(effect := w'.effect, everEffect := w.everEffect || w'.effect)
    || Crash(w, w')
  }

  /** Everything running dies; a file that was not synced may be lost, torn, or just there. */
  ghost predicate Crash(w: World, w': World) {
    && w' == w.(file := w'.file, runs := w'.runs)
    && w'.runs.Keys == w.runs.Keys && (forall p <- w.runs :: w'.runs[p] == Over)
    && match w.file
       case Absent => w'.file == Absent
       case Torn(owner) => w'.file == Absent || w'.file == Torn(owner)
       case Whole(tx, durable, owner) =>
         if durable then w'.file == w.file else w'.file in {Absent, Torn(owner), Whole(tx, true, owner)}
  }

  ghost predicate Step(v: Variant, w: World, w': World) {
    || Surroundings(w, w')
    || (exists p: nat :: Look(v, w, w', p) || Resume(v, w, w', p) || Submit(v, w, w', p))
  }

  ghost predicate Initial(w: World) {
    w.file.Absent? && w.sent == {} && w.finalized == {} && w.runs == map[] && w.answers == {}
    && w.everEffect == w.effect
  }

  // ---------- The invariant ----------

  ghost predicate RunOk(w: World, p: nat, phase: Phase) {
    match phase
    case Observed(already) => already ==> w.everEffect
    case Resuming(already) => already ==> w.everEffect
    case Tracking(tx) => w.file.Whole? && w.file.tx == tx
    case Rechecking(tx) => tx in w.finalized
    case Writing(_) => w.file == Torn(p)
    case Syncing(tx) => w.file == Whole(tx, false, p)
    case Persisted(tx) => w.file == Whole(tx, true, p)
    case Sent(tx) => tx in w.sent
    case Settling(tx) => tx in w.finalized
    case _ => true
  }

  ghost predicate Safe(v: Variant, w: World) {
    && (forall tx <- w.sent :: w.file.Whole? && w.file.durable && w.file.tx == tx)
    && w.finalized <= w.sent
    && (w.effect ==> w.everEffect)
    && (forall p <- w.runs :: RunOk(w, p, w.runs[p]))
    && (!v.Enrollment? ==> forall r <- w.answers :: if r.finalized then r.tx in w.finalized else w.everEffect)
  }

  lemma InitialIsSafe(v: Variant, w: World)
    requires Initial(w)
    ensures Safe(v, w)
  {
  }

  lemma LookIsSafe(v: Variant, w: World, w': World, p: nat)
    requires Safe(v, w) && Look(v, w, w', p)
    ensures Safe(v, w')
  {
    assert RunOk(w, p, w.runs[p]);
  }

  lemma ResumeIsSafe(v: Variant, w: World, w': World, p: nat)
    requires Safe(v, w) && Resume(v, w, w', p)
    ensures Safe(v, w')
  {
    assert RunOk(w, p, w.runs[p]);
  }

  /** Before the receipt is durable, nothing has been sent. */
  predicate Preparing(phase: Phase) {
    phase.Signing? || phase.Signed? || phase.Writing? || phase.Syncing?
  }

  lemma PreparingIsSafe(v: Variant, w: World, w': World, p: nat)
    requires Safe(v, w) && Submit(v, w, w', p) && Preparing(w.runs[p])
    ensures Safe(v, w')
  {
    assert RunOk(w, p, w.runs[p]);
  }

  lemma SendingIsSafe(v: Variant, w: World, w': World, p: nat)
    requires Safe(v, w) && Submit(v, w, w', p) && !Preparing(w.runs[p])
    ensures Safe(v, w')
  {
    assert RunOk(w, p, w.runs[p]);
  }

  lemma SubmitIsSafe(v: Variant, w: World, w': World, p: nat)
    requires Safe(v, w) && Submit(v, w, w', p)
    ensures Safe(v, w')
  {
    if Preparing(w.runs[p]) {
      PreparingIsSafe(v, w, w', p);
    } else {
      SendingIsSafe(v, w, w', p);
    }
  }

  lemma SurroundingsAreSafe(v: Variant, w: World, w': World)
    requires Safe(v, w) && Surroundings(w, w')
    ensures Safe(v, w')
  {
  }

  lemma StepIsSafe(v: Variant, w: World, w': World)
    requires Safe(v, w) && Step(v, w, w')
    ensures Safe(v, w') && w.sent <= w'.sent
  {
    if Surroundings(w, w') {
      SurroundingsAreSafe(v, w, w');
    } else {
      var p: nat :| Look(v, w, w', p) || Resume(v, w, w', p) || Submit(v, w, w', p);
      if Look(v, w, w', p) {
        LookIsSafe(v, w, w', p);
      } else if Resume(v, w, w', p) {
        ResumeIsSafe(v, w, w', p);
      } else {
        SubmitIsSafe(v, w, w', p);
      }
    }
  }

  // ---------- Whole histories ----------

  ghost predicate History(v: Variant, ws: seq<World>) {
    ws != [] && Initial(ws[0]) && forall i :: 0 <= i < |ws| - 1 ==> Step(v, ws[i], ws[i + 1])
  }

  lemma {:induction false} HistoryIsSafe(v: Variant, ws: seq<World>)
    requires History(v, ws)
    ensures forall i :: 0 <= i < |ws| ==> Safe(v, ws[i])
    decreases |ws|
  {
    if |ws| == 1 {
      InitialIsSafe(v, ws[0]);
    } else {
      var before := ws[..|ws| - 1];
      HistoryIsSafe(v, before);
      assert Safe(v, before[|before| - 1]);
      StepIsSafe(v, ws[|ws| - 2], ws[|ws| - 1]);
      forall i | 0 <= i < |ws| ensures Safe(v, ws[i]) {
        assert i < |ws| - 1 ==> ws[i] == before[i];
      }
    }
  }

  /**
   However many runs there are and wherever they die, at most one transaction is ever sent
   for a receipt file, and only while the file durably holds it.
   */
  lemma AtMostOneSent(v: Variant, ws: seq<World>, i: nat, tx: Tx, other: Tx)
    requires History(v, ws) && i < |ws| && tx in ws[i].sent && other in ws[i].sent
    ensures tx == other && ws[i].file.Whole? && ws[i].file.durable && ws[i].file.tx == tx
  {
    HistoryIsSafe(v, ws);
  }

  // ---------- What sends, and what returns ----------

  ghost predicate Quiet(w: World, w': World) {
    w'.sent == w.sent && w'.answers == w.answers
  }

  lemma SurroundingsAreQuiet(w: World, w': World)
    requires Surroundings(w, w')
    ensures Quiet(w, w')
  {
  }

  lemma LookIsQuiet(v: Variant, w: World, w': World, p: nat)
    requires Look(v, w, w', p)
    ensures Quiet(w, w')
  {
  }

  /** The answer is the retained transaction, finalized or with the effect seen. */
  ghost predicate Returns(v: Variant, w: World, w': World, r: Answer) {
    && w.file.Whole? && w.file.tx == r.tx
    && (if r.finalized then r.tx in w'.finalized && w.file.durable else w'.everEffect)
    && (v.MatchedTrade? ==> w'.everEffect)
  }

  lemma ResumeReturns(v: Variant, w: World, w': World, p: nat, r: Answer)
    requires Safe(v, w) && Resume(v, w, w', p) && !v.Enrollment?
    ensures r in w'.answers && r !in w.answers ==> Returns(v, w, w', r)
  {
    assert RunOk(w, p, w.runs[p]);
  }

  lemma ResumeSendsNothing(v: Variant, w: World, w': World, p: nat)
    requires Resume(v, w, w', p)
    ensures w'.sent == w.sent
  {
  }

  lemma SubmitSends(v: Variant, w: World, w': World, p: nat, tx: Tx)
    requires Safe(v, w) && Submit(v, w, w', p) && tx in w'.sent && tx !in w.sent
    ensures w.file.Whole? && w.file.durable && w.file.tx == tx
  {
    assert RunOk(w, p, w.runs[p]);
  }

  lemma SubmitReturns(v: Variant, w: World, w': World, p: nat, r: Answer)
    requires Safe(v, w) && Submit(v, w, w', p) && !v.Enrollment? && r in w'.answers && r !in w.answers
    ensures Returns(v, w, w', r)
  {
    assert RunOk(w, p, w.runs[p]);
  }

  /** A transaction is sent only by a step that finds its receipt already durable. */
  lemma SentAfterDurable(v: Variant, w: World, w': World, tx: Tx)
    requires Safe(v, w) && Step(v, w, w') && tx in w'.sent && tx !in w.sent
    ensures w.file.Whole? && w.file.durable && w.file.tx == tx
  {
    if Surroundings(w, w') {
      SurroundingsAreQuiet(w, w');
    } else {
      var p: nat :| Look(v, w, w', p) || Resume(v, w, w', p) || Submit(v, w, w', p);
      if Submit(v, w, w', p) {
        SubmitSends(v, w, w', p, tx);
      } else if Look(v, w, w', p) {
        LookIsQuiet(v, w, w', p);
      } else {
        ResumeSendsNothing(v, w, w', p);
      }
    }
  }

  /**
   A run that returns answers with the retained transaction, and either it is finalized or the effect has been
   seen on the chain. The matched trade, which asks for the effect again, returns only after seeing it.
   */
  lemma ReturnIsRetained(v: Variant, w: World, w': World, r: Answer)
    requires !v.Enrollment? && Safe(v, w) && Step(v, w, w') && r in w'.answers && r !in w.answers
    ensures w.file.Whole? && w.file.tx == r.tx
    ensures if r.finalized then r.tx in w'.finalized && w.file.durable else w'.everEffect
    ensures v.MatchedTrade? ==> w'.everEffect
  {
    if Surroundings(w, w') {
      SurroundingsAreQuiet(w, w');
    } else {
      var p: nat :| Look(v, w, w', p) || Resume(v, w, w', p) || Submit(v, w, w', p);
      if Submit(v, w, w', p) {
        SubmitReturns(v, w, w', p, r);
      } else if Look(v, w, w', p) {
        LookIsQuiet(v, w, w', p);
      } else {
        ResumeReturns(v, w, w', p, r);
      }
    }
  }

  // ---------- Who signs ----------

  /** From deciding to sign until the effect of what was sent is asked for. */
  predicate Submitting(phase: Phase) {
    phase.Signing? || phase.Signed? || phase.Writing? || phase.Syncing? || phase.Persisted? || phase.Sent?
    || phase.Settling?
  }

  /**
   A run that has not looked yet sees the effect exactly if it is there, and an enrollment does
   not look. One that has signs only if it saw nothing and there is no receipt; seeing the effect
   without a receipt, or a receipt at all for an enrollment, ends it; any other receipt is resumed.
   */
  lemma LooksRightly(v: Variant, w: World, w': World, p: nat)
    requires Look(v, w, w', p)
    ensures Quiet(w, w') && w'.file == w.file && p in w'.runs
    ensures w.runs[p].Begun? || w.runs[p].Observed?
    ensures w.runs[p].Begun? ==> w'.runs[p] == Observed(!v.Enrollment? && w.effect)
    ensures w.runs[p].Observed? ==>
              && (w'.runs[p].Signing? <==> w.file.Absent? && !w.runs[p].already)
              && (w'.runs[p].Resuming? <==> !w.file.Absent? && !v.Enrollment?)
              && (w'.runs[p].Over? <==> if w.file.Absent? then w.runs[p].already else v.Enrollment?)
              && (w'.runs[p].Resuming? ==> w'.runs[p].already == w.runs[p].already)
  {
  }

  // ---------- What happens around the runs ----------

  /** What a crash can leave of the file: a synced one as it was, an unsynced one lost, torn or there to stay. */
  lemma CrashesExactly(w: World, w': World)
    requires w' == w.(file := w'.file, runs := w'.runs)
    requires w'.runs.Keys == w.runs.Keys && forall p <- w'.runs :: w'.runs[p].Over?
    ensures Crash(w, w') <==>
            if w.file.Whole? && w.file.durable then w'.file == w.file
            else match w'.file
                 case Absent => true
                 case Torn(owner) => !w.file.Absent? && owner == w.file.owner
                 case Whole(tx, durable, owner) => durable && w.file == Whole(tx, false, owner)
  {
  }

  /**
   Around the runs, only a crash touches the file and then every run is over; a run that changes is over or
   has just begun; only what was sent is finalized, bringing its effect; and nothing is sent or answered.
   */
  lemma SurroundingsDo(w: World, w': World)
    requires Surroundings(w, w')
    ensures Quiet(w, w') && w.runs.Keys <= w'.runs.Keys && w.finalized <= w'.finalized <= w.finalized + w.sent
    ensures w'.file != w.file ==> Crash(w, w')
    ensures forall p <- w'.runs ::
              if p in w.runs then w'.runs[p].Over? || w'.runs[p] == w.runs[p] else w'.runs[p].Begun?
    ensures w'.finalized != w.finalized ==> w'.effect && w'.runs == w.runs
    ensures w'.everEffect == (w.everEffect || w'.effect) || (w'.effect == w.effect && w'.everEffect == w.everEffect)
  {
  }

  /** And all of this can happen: a run can begin or die, what was sent become final, the effect come and go. */
  lemma SurroundingsMay(w: World, p: nat, tx: Tx, effect: bool)
    ensures p !in w.runs ==> Surroundings(w, w.(runs := w.runs[p := Begun]))
    ensures p in w.runs ==> Surroundings(w, w.(runs := w.runs[p := Over]))
    ensures tx in w.sent ==>
              Surroundings(w, w.(finalized := w.finalized + {tx}, effect := true, everEffect := true))
    ensures Surroundings(w, w.(effect := effect, everEffect := w.everEffect || effect))
    ensures Surroundings(w, w.(file := if w.file.Whole? && w.file.durable then w.file else Absent,
                                runs := map q | q in w.runs :: Over))
  {
    var begun, dead := w.(runs := w.runs[p := Begun]), w.(runs := w.runs[p := Over]);
    assert Moves(w, begun, p, Begun) && Moves(w, dead, p, Over);
    var lost := w.(file := if w.file.Whole? && w.file.durable then w.file else Absent,
                   runs := map q | q in w.runs :: Over);
    CrashesExactly(w, lost);
  }

  // ---------- What each run does ----------

  /** Nothing but this run's phase changes, and what it answers. */
  ghost predicate OnlyAnswers(w: World, w': World, p: nat) {
    w' == w.(runs := w'.runs, answers := w'.answers) && p in w'.runs && w'.runs == w.runs[p := w'.runs[p]]
  }

  /** The run is over and has answered this much. */
  ghost predicate Ended(w: World, w': World, p: nat, answers: set<Answer>) {
    p in w'.runs && w'.runs[p].Over? && w'.answers == w.answers + answers
  }

  /**
   A resumed run that saw the effect, or an enrollment's, ends with the receipt's transaction unless the
   receipt is torn; otherwise it tracks that transaction, and ends with it once it is finalized and, for a
   matched trade, the effect is there too. In every other case it ends with no answer.
   */
  lemma ResumesRightly(v: Variant, w: World, w': World, p: nat)
    requires Resume(v, w, w', p)
    ensures OnlyAnswers(w, w', p)
    ensures w.runs[p].Resuming? ==>
              if w.file.Whole? then
                if w.runs[p].already then Ended(w, w', p, {Answer(w.file.tx, false)})
                else w'.runs[p] == Tracking(w.file.tx) && w'.answers == w.answers
              else Ended(w, w', p, {})
    ensures w.runs[p].Tracking? ==>
              var tx := w.runs[p].tx;
              && (w'.runs[p].Rechecking? <==> tx in w.finalized && v.MatchedTrade?)
              && (w'.runs[p].Rechecking? ==> w'.runs[p].tx == tx && w'.answers == w.answers)
              && (tx in w.finalized && !v.MatchedTrade? ==> Ended(w, w', p, {Answer(tx, true)}))
              && (tx !in w.finalized ==> Ended(w, w', p, {}))
    ensures w.runs[p].Rechecking? ==> Ended(w, w', p, if w.effect then {Answer(w.runs[p].tx, true)} else {})
  {
  }

  /** One step of the receipt file: created by a run, then written by it, then synced by it. */
  predicate Grows(file: File, file': File, p: nat) {
    match file'
    case Absent => false
    case Torn(owner) => file.Absent? && owner == p
    case Whole(tx, durable, owner) => owner == p && file == if durable then Whole(tx, false, p) else Torn(p)
  }

  /** Where a run that submits stands, in the order of the protocol. */
  function Rank(phase: Phase): nat {
    match phase
    case Signing => 1
    case Signed(_) => 2
    case Writing(_) => 3
    case Syncing(_) => 4
    case Persisted(_) => 5
    case Sent(_) => 6
    case Settling(_) => 7
    case _ => 0
  }

  /**
   Submitting goes through its phases one by one with one transaction: the file is created, written and
   synced, one each, before anything is sent, and nothing is created over a receipt. An enrollment
   answers as soon as it has sent; any other run only once what it sent is finalized with its effect.
   */
  lemma SubmitsRightly(v: Variant, w: World, w': World, p: nat)
    requires Safe(v, w) && Submit(v, w, w', p)
    ensures p in w'.runs && w'.runs == w.runs[p := w'.runs[p]] && Submitting(w.runs[p])
    ensures w'.finalized == w.finalized && w'.effect == w.effect && w'.everEffect == w.everEffect
    ensures w'.runs[p].Over? || Rank(w'.runs[p]) == Rank(w.runs[p]) + 1
    ensures !w.runs[p].Signing? && !w'.runs[p].Over? ==> w'.runs[p].tx == w.runs[p].tx
    ensures 2 <= Rank(w.runs[p]) <= 4 && !w'.runs[p].Over? ==> Grows(w.file, w'.file, p)
    ensures w'.file.Whole? && w'.file != w.file ==> w'.file.tx == w.runs[p].tx
    ensures !(2 <= Rank(w.runs[p]) <= 4) || w'.runs[p].Over? ==> w'.file == w.file
    ensures w'.sent == if w.runs[p].Persisted? then w.sent + {w.runs[p].tx} else w.sent
    ensures w'.runs[p].Over? <==> match w.runs[p]
                                  case Signed(_) => !w.file.Absent?
                                  case Sent(tx) => v.Enrollment? || tx !in w.finalized
                                  case Settling(_) => true
                                  case _ => false
    ensures w'.answers == w.answers + match w.runs[p]
                                      case Sent(tx) => if v.Enrollment? then {Answer(tx, false)} else {}
                                      case Settling(tx) => if w.effect then {Answer(tx, true)} else {}
                                      case _ => {}
  {
    assert RunOk(w, p, w.runs[p]);
  }

  /** On the way to sending, or about to set out on it. */
  ghost predicate OnTheWay(w: World, p: nat) {
    p in w.runs && (Submitting(w.runs[p]) || w.runs[p] == Observed(false))
  }

  ghost predicate AboutToSeeNothing(w: World, p: nat) {
    p in w.runs && w.runs[p].Begun? && !w.effect
  }

  lemma SurroundingsSendNobody(w: World, w': World, p: nat)
    requires Surroundings(w, w') && OnTheWay(w', p)
    ensures OnTheWay(w, p)
  {
  }

  lemma LookingSends(v: Variant, w: World, w': World, q: nat, p: nat)
    requires Look(v, w, w', q) && !v.Enrollment? && OnTheWay(w', p)
    ensures OnTheWay(w, p) || AboutToSeeNothing(w, p)
  {
    LooksRightly(v, w, w', q);
  }

  lemma ResumingSendsNobody(v: Variant, w: World, w': World, q: nat, p: nat)
    requires Resume(v, w, w', q) && OnTheWay(w', p)
    ensures OnTheWay(w, p)
  {
  }

  lemma SubmittingGoesOn(v: Variant, w: World, w': World, q: nat, p: nat)
    requires Submit(v, w, w', q) && OnTheWay(w', p)
    ensures OnTheWay(w, p)
  {
  }

  /** Whoever is on the way after a step was so before, or has just looked and seen nothing. */
  lemma StepsOnTheWay(v: Variant, w: World, w': World, p: nat)
    requires Step(v, w, w') && !v.Enrollment? && OnTheWay(w', p)
    ensures OnTheWay(w, p) || AboutToSeeNothing(w, p)
  {
    if Surroundings(w, w') {
      SurroundingsSendNobody(w, w', p);
    } else {
      var q: nat :| Look(v, w, w', q) || Resume(v, w, w', q) || Submit(v, w, w', q);
      if Look(v, w, w', q) {
        LookingSends(v, w, w', q, p);
      } else if Resume(v, w, w', q) {
        ResumingSendsNobody(v, w, w', q, p);
      } else {
        SubmittingGoesOn(v, w, w', q, p);
      }
    }
  }

  /** Nobody is on the way at first, and whoever is has been before or had just seen nothing. */
  ghost predicate WaysBegin(ws: seq<World>) {
    forall i, p :: 0 <= i < |ws| && OnTheWay(ws[i], p) ==>
      i > 0 && (OnTheWay(ws[i - 1], p) || AboutToSeeNothing(ws[i - 1], p))
  }

  lemma HistoryWaysBegin(v: Variant, ws: seq<World>)
    requires History(v, ws) && !v.Enrollment?
    ensures WaysBegin(ws)
  {
    forall i, p | 0 <= i < |ws| && OnTheWay(ws[i], p)
      ensures i > 0 && (OnTheWay(ws[i - 1], p) || AboutToSeeNothing(ws[i - 1], p))
    {
      if i > 0 {
        HistorySteps(v, ws, i - 1);
        StepsOnTheWay(v, ws[i - 1], ws[i], p);
      }
    }
  }

  lemma HistorySteps(v: Variant, ws: seq<World>, i: nat)
    requires History(v, ws) && i + 1 < |ws|
    ensures Step(v, ws[i], ws[i + 1])
  {
  }

  lemma {:induction false} WayBack(ws: seq<World>, i: nat, p: nat) returns (j: nat)
    requires WaysBegin(ws) && i < |ws| && OnTheWay(ws[i], p)
    ensures j < i && AboutToSeeNothing(ws[j], p)
    decreases i
  {
    if AboutToSeeNothing(ws[i - 1], p) {
      j := i - 1;
    } else {
      j := WayBack(ws, i - 1, p);
    }
  }

  /** A transaction is signed, kept and sent only by a run that had asked for the effect and not seen it. */
  lemma SignersSawNothing(v: Variant, ws: seq<World>, i: nat, p: nat) returns (j: nat)
    requires History(v, ws) && !v.Enrollment? && i < |ws| && OnTheWay(ws[i], p)
    ensures j < i && p in ws[j].runs && ws[j].runs[p].Begun? && !ws[j].effect
  {
    HistoryWaysBegin(v, ws);
    j := WayBack(ws, i, p);
  }

  // ---------- Runs get through ----------

  ghost predicate Goes(v: Variant, w: World, w': World, p: nat) {
    Look(v, w, w', p) || Resume(v, w, w', p) || Submit(v, w, w', p)
  }

  /** A run that is not over can always take its next step, whatever the others and the chain have done. */
  lemma RunsGoOn(v: Variant, w: World, p: nat, tx: Tx) returns (w': World)
    requires p in w.runs && !w.runs[p].Over?
    ensures Goes(v, w, w', p) && (w.runs[p].Signing? ==> w' == w.(runs := w.runs[p := Signed(tx)]))
  {
    match w.runs[p]
    case Begun => w' := To(w, p, if v.Enrollment? then Observed(false) else Observed(w.effect));
    case Observed(already) =>
      w' := To(w, p, if w.file.Absent? then (if already then Over else Signing)
                     else if v.Enrollment? then Over else Resuming(already));
    case Resuming(already) =>
      w' := if !w.file.Whole? then To(w, p, Over)
            else if already then Answering(w, p, Answer(w.file.tx, false)) else To(w, p, Tracking(w.file.tx));
    case Tracking(kept) =>
      w' := if kept !in w.finalized then To(w, p, Over)
            else if v.MatchedTrade? then To(w, p, Rechecking(kept)) else Answering(w, p, Answer(kept, true));
    case Rechecking(kept) => w' := if w.effect then Answering(w, p, Answer(kept, true)) else To(w, p, Over);
    case Signing =>
      w' := To(w, p, Signed(tx));
      assert Moves(w, w', p, Signed(tx));
    case Signed(kept) => w' := if w.file.Absent? then To(w, p, Writing(kept)).(file := Torn(p)) else To(w, p, Over);
    case Writing(kept) => w' := To(w, p, Syncing(kept)).(file := Whole(kept, false, p));
    case Syncing(kept) => w' := To(w, p, Persisted(kept)).(file := Whole(kept, true, p));
    case Persisted(kept) => w' := To(w, p, Sent(kept)).(sent := w.sent + {kept});
    case Sent(kept) =>
      w' := if v.Enrollment? then Answering(w, p, Answer(kept, false))
            else To(w, p, if kept in w.finalized then Settling(kept) else Over);
    case Settling(kept) => w' := if w.effect then Answering(w, p, Answer(kept, true)) else To(w, p, Over);
  }

  function To(w: World, p: nat, next: Phase): World {
    w.(runs := w.runs[p := next])
  }

  function Answering(w: World, p: nat, r: Answer): World {
    w.(runs := w.runs[p := Over], answers := w.answers + {r})
  }

  /** The world after so many more steps of this run, and of the chain where it makes the sent transaction final. */
  ghost predicate Leads(v: Variant, ws: seq<World>, w: World, w': World) {
    ws != [] && ws[0] == w && ws[|ws| - 1] == w' && forall i :: 0 <= i < |ws| - 1 ==> Step(v, ws[i], ws[i + 1])
  }

  lemma LeadsOn(v: Variant, ws: seq<World>, w: World, w': World, next: World) returns (longer: seq<World>)
    requires Leads(v, ws, w, w') && Step(v, w', next)
    ensures Leads(v, longer, w, next)
  {
    longer := ws + [next];
  }

  lemma GoesOn(v: Variant, ws: seq<World>, w: World, w': World, p: nat, tx: Tx)
    returns (longer: seq<World>, next: World)
    requires Leads(v, ws, w, w') && p in w'.runs && !w'.runs[p].Over?
    ensures Leads(v, longer, w, next) && Goes(v, w', next, p)
    ensures w'.runs[p].Signing? ==> next == w'.(runs := w'.runs[p := Signed(tx)])
  {
    next := RunsGoOn(v, w', p, tx);
    longer := LeadsOn(v, ws, w, w', next);
  }

  lemma Begins(v: Variant, w: World, p: nat) returns (ws: seq<World>, w': World)
    requires p !in w.runs
    ensures Leads(v, ws, w, w') && w' == To(w, p, Begun)
  {
    w' := To(w, p, Begun);
    SurroundingsMay(w, p, 0, false);
    ws := [w, w'];
  }

  /**
   A run that starts once the receipt is durable and its effect is there, or its transaction is finalized and
   nobody asks again, answers with that transaction, and nothing more is sent for it.
   */
  lemma LaterRunsDeliver(v: Variant, w: World, p: nat) returns (ws: seq<World>, w': World)
    requires !v.Enrollment? && p !in w.runs && w.file.Whole?
    requires w.effect || (w.file.tx in w.finalized && !v.MatchedTrade?)
    ensures Leads(v, ws, w, w') && w'.sent == w.sent && w'.file == w.file
    ensures w'.answers == w.answers + {Answer(w.file.tx, !w.effect)}
  {
    ws, w' := Begins(v, w, p);
    ws, w' := GoesOn(v, ws, w, w', p, 0);
    ws, w' := GoesOn(v, ws, w, w', p, 0);
    ws, w' := GoesOn(v, ws, w, w', p, 0);
    if !w.effect {
      ws, w' := GoesOn(v, ws, w, w', p, 0);
    }
  }

  lemma FirstRunsSign(v: Variant, w: World, p: nat, tx: Tx) returns (ws: seq<World>, w': World)
    requires p !in w.runs && w.file.Absent? && (v.Enrollment? || !w.effect)
    ensures Leads(v, ws, w, w') && w' == To(w, p, Signed(tx))
  {
    ws, w' := Begins(v, w, p);
    ws, w' := GoesOn(v, ws, w, w', p, tx);
    assert w' == To(w, p, Observed(false));
    ws, w' := GoesOn(v, ws, w, w', p, tx);
    assert w' == To(w, p, Signing);
    ws, w' := GoesOn(v, ws, w, w', p, tx);
  }

  lemma SignersKeep(v: Variant, ws: seq<World>, w: World, w': World, p: nat) returns (longer: seq<World>, next: World)
    requires Leads(v, ws, w, w') && w'.file.Absent? && p in w'.runs && w'.runs[p].Signed?
    ensures Leads(v, longer, w, next)
    ensures var tx := w'.runs[p].tx; next == To(w', p, Persisted(tx)).(file := Whole(tx, true, p))
  {
    var tx := w'.runs[p].tx;
    longer, next := GoesOn(v, ws, w, w', p, tx);
    assert next == To(w', p, Writing(tx)).(file := Torn(p));
    longer, next := GoesOn(v, longer, w, next, p, tx);
    assert next == To(w', p, Syncing(tx)).(file := Whole(tx, false, p));
    longer, next := GoesOn(v, longer, w, next, p, tx);
  }

  /** A run that finds neither the effect nor a receipt can sign, keep the receipt durably, and then send. */
  lemma FirstRunsSend(v: Variant, w: World, p: nat, tx: Tx) returns (ws: seq<World>, w': World)
    requires p !in w.runs && w.file.Absent? && (v.Enrollment? || !w.effect)
    ensures Leads(v, ws, w, w')
    ensures w' == To(w, p, Sent(tx)).(file := Whole(tx, true, p), sent := w.sent + {tx})
  {
    ws, w' := FirstRunsSign(v, w, p, tx);
    ws, w' := SignersKeep(v, ws, w, w', p);
    ws, w' := GoesOn(v, ws, w, w', p, tx);
  }

  /** And once the chain has made it final, the run answers with it; an enrollment does not wait. */
  lemma FirstRunsDeliver(v: Variant, w: World, p: nat, tx: Tx) returns (ws: seq<World>, w': World)
    requires p !in w.runs && w.file.Absent? && (v.Enrollment? || !w.effect)
    ensures Leads(v, ws, w, w')
    ensures w'.file == Whole(tx, true, p) && w'.sent == w.sent + {tx}
    ensures w'.answers == w.answers + {Answer(tx, !v.Enrollment?)}
  {
    ws, w' := FirstRunsSend(v, w, p, tx);
    if !v.Enrollment? {
      SurroundingsMay(w', p, tx, true);
      var final := w'.(finalized := w'.finalized + {tx}, effect := true, everEffect := true);
      ws := LeadsOn(v, ws, w, w', final);
      ws, w' := GoesOn(v, ws, w, final, p, tx);
    }
    ws, w' := GoesOn(v, ws, w, w', p, tx);
  }
}
