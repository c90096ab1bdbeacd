/**
 * One run of the ensure script as the other scripts see it: where it stands, and the recovery
 * actions it has taken. Round 0 is the request read on entry, before the retry rounds.
 */
module SelfHealRuns {
  import opened Bytes
  import opened Ladder

  datatype Conf = Conf(debounce: nat, rounds: nat, tries: nat)

  datatype Pc =
    | Starting                              // before the lock
    | Checking                              // past the lock, before the health check
    | Discarding                            // healthy: about to read the stamp and leave
    | Asking(round: nat, attempt: nat)      // about to call `hard_requested`
    | Recovering(round: nat, attempt: nat)  // the request was honoured: about to reload
    | Trying(round: nat, attempt: nat)      // about to start a bring-up
    | InBringUp(round: nat, attempt: nat)
    | Between(round: nat)                   // about to reload before the next round
    | Gone                                  // has exited
    | Killed                                // was stopped or restarted

  /** `verdict` is what its health check said, once it was made. */
  datatype Proc = Proc(pc: Pc, trace: seq<Action>, verdict: Option<bool>)

  predicate PastLock(pc: Pc) {
    !pc.Starting? && !pc.Gone? && !pc.Killed?
  }

  /** After the health check. */
  function Checked(p: Proc, healthy: bool): Proc {
    p.(pc := if healthy then Discarding else Asking(0, 0), verdict := Some(healthy))
  }

  /** A healthy run has read the stamp and leaves. */
  function Left(p: Proc): Proc {
    p.(pc := Gone)
  }

  /** The top of round `round`. */
  function RoundStart(conf: Conf, round: nat): Pc {
    if round > conf.rounds then Gone
    else if conf.tries > 0 then Asking(round, 1)
    else if round < conf.rounds then Between(round)
    else Gone
  }

  /** Where a failed attempt leads. */
  function AfterAttempt(conf: Conf, round: nat, attempt: nat): Pc {
    if round == 0 then RoundStart(conf, 1)
    else if attempt < conf.tries then Asking(round, attempt + 1)
    else if round < conf.rounds then Between(round)
    else Gone
  }

  /** After `hard_requested`: an honoured request is remembered, and the reload comes next. */
  function Asked(conf: Conf, p: Proc, honoured: bool): Proc
    requires p.pc.Asking?
  {
    if honoured then p.(pc := Recovering(p.pc.round, p.pc.attempt), trace := p.trace + [Honour])
    else p.(pc := if p.pc.round == 0 then RoundStart(conf, 1) else Trying(p.pc.round, p.pc.attempt))
  }

  /** After `hard_recover`. */
  function Reloaded(conf: Conf, p: Proc): Proc
    requires p.pc.Recovering? || p.pc.Between?
  {
    var pc := if p.pc.Recovering? then Trying(p.pc.round, p.pc.attempt) else RoundStart(conf, p.pc.round + 1);
    p.(pc := pc, trace := p.trace + [Reload])
  }

  /** After a bring-up and its check. */
  function Tried(conf: Conf, p: Proc, ok: bool): Proc
    requires p.pc.InBringUp?
  {
    p.(pc := if ok then Gone else AfterAttempt(conf, p.pc.round, p.pc.attempt), trace := p.trace + [BringUp(ok)])
  }

  // ---- What a run has done by the time it stands there ----

  ghost predicate Position(conf: Conf, round: nat, attempt: nat) {
    if round == 0 then attempt == 0 else round <= conf.rounds && 1 <= attempt <= conf.tries
  }

  /** The bring-ups there can have been before attempt `attempt` of round `round`. */
  function Budget(conf: Conf, round: nat, attempt: nat): nat {
    if round == 0 then 0 else (round - 1) * conf.tries + attempt
  }

  /** All attempts so far were made and failed; the one on entry, after a hard request, may be missing. */
  ghost predicate Climbs(trace: seq<Action>, budget: nat, spare: nat) {
    Climbing(trace, BringUps(trace), spare) && BringUps(trace) <= budget <= BringUps(trace) + 1
  }

  /** Every honoured request but one still owed at the end was answered by a reload before anything else. */
  ghost predicate AnsweredAtOnce(trace: seq<Action>) {
    forall i :: 0 <= i < |trace| - 1 && trace[i] == Honour ==> trace[i + 1] == Reload
  }

  ghost predicate Bounded(conf: Conf, trace: seq<Action>) {
    && AnsweredAtOnce(trace) && BringUps(trace) <= conf.rounds * conf.tries + 1
    && Reloads(trace) <= SpareReloads(conf.rounds) + Honours(trace)
  }

  /** No bring-up has succeeded, and every attempt there is was made. */
  ghost predicate Exhausted(conf: Conf, trace: seq<Action>) {
    AllFailed(trace) && conf.rounds * conf.tries <= BringUps(trace)
  }

  /** How a run ends: without the lock or on a healthy link at once, else by success or with all attempts made. */
  ghost predicate Ended(conf: Conf, p: Proc) {
    && Bounded(conf, p.trace)
    && if p.verdict == Some(false) then HonouredFirst(p.trace) && (EndsInSuccess(p.trace) || Exhausted(conf, p.trace))
       else p.trace == []
  }

  ghost predicate RunOk(conf: Conf, p: Proc) {
    match p.pc
    case Starting => p.trace == [] && p.verdict == None
    case Checking => p.trace == [] && p.verdict == None
    case Discarding => p.trace == [] && p.verdict == Some(true)
    case Gone => Ended(conf, p)
    case Killed => Bounded(conf, p.trace) && (p.verdict == Some(false) || p.trace == [])
    case _ => p.verdict == Some(false) && Underway(conf, p.pc, p.trace)
  }

  /** Past a failed health check. */
  ghost predicate Underway(conf: Conf, pc: Pc, trace: seq<Action>) {
    match pc
    case Asking(r, a) => Position(conf, r, a) && Climbs(trace, Budget(conf, r, a), SpareReloads(r))
    case Recovering(r, a) =>
      && Position(conf, r, a) && trace != [] && trace[|trace| - 1] == Honour
      && Climbs(trace[..|trace| - 1], Budget(conf, r, a), SpareReloads(r))
    case Trying(r, a) => Position(conf, r, a) && Climbs(trace, Budget(conf, r, a), SpareReloads(r))
    case InBringUp(r, a) => Position(conf, r, a) && Climbs(trace, Budget(conf, r, a), SpareReloads(r))
    case Between(r) => 1 <= r < conf.rounds && Climbs(trace, r * conf.tries + 1, r - 1)
    case Gone => HonouredFirst(trace) && Bounded(conf, trace) && (EndsInSuccess(trace) || Exhausted(conf, trace))
    case _ => false
  }

  lemma BudgetBound(conf: Conf, round: nat, attempt: nat)
    requires Position(conf, round, attempt)
    ensures Budget(conf, round, attempt) <= conf.rounds * conf.tries + 1
    ensures round > 0 ==> Budget(conf, round, attempt) <= round * conf.tries <= conf.rounds * conf.tries
  {
    if round > 0 {
      MulLe(round, conf.rounds, conf.tries);
    } else {
      MulLe(0, conf.rounds, conf.tries);
    }
  }

  lemma ClimbsBounded(conf: Conf, trace: seq<Action>, budget: nat, round: nat)
    requires Climbs(trace, budget, SpareReloads(round)) && budget <= conf.rounds * conf.tries + 1
             && round <= conf.rounds
    ensures Bounded(conf, trace)
  {
  }

  /** The top of a round, reached with as many reloads as rounds before it. */
  lemma RoundStartOk(conf: Conf, round: nat, trace: seq<Action>)
    requires 1 <= round && (round == 1 || round <= conf.rounds)
    requires Climbs(trace, (round - 1) * conf.tries + 1, round - 1)
    ensures Underway(conf, RoundStart(conf, round), trace)
  {
    MulLe(round, if round <= conf.rounds then conf.rounds else round, conf.tries);
    if RoundStart(conf, round) == Gone {
      MulLe(0, conf.rounds, conf.tries);
      assert round - 1 <= SpareReloads(conf.rounds);
    }
  }

  lemma AskedOk(conf: Conf, p: Proc, honoured: bool)
    requires p.pc.Asking? && RunOk(conf, p)
    ensures RunOk(conf, Asked(conf, p, honoured))
  {
    if honoured {
      assert (p.trace + [Honour])[..|p.trace|] == p.trace;
    } else if p.pc.round == 0 {
      RoundStartOk(conf, 1, p.trace);
    }
  }

  lemma ReloadedOk(conf: Conf, p: Proc)
    requires (p.pc.Recovering? || p.pc.Between?) && RunOk(conf, p)
    ensures RunOk(conf, Reloaded(conf, p))
  {
    if p.pc.Recovering? {
      var front := p.trace[..|p.trace| - 1];
      AnswerClimbs(front, BringUps(front), SpareReloads(p.pc.round));
      assert p.trace + [Reload] == front + [Honour, Reload];
    } else {
      ReloadClimbs(p.trace, BringUps(p.trace), p.pc.round - 1);
      RoundStartOk(conf, p.pc.round + 1, p.trace + [Reload]);
    }
  }

  lemma TriedOk(conf: Conf, p: Proc, ok: bool)
    requires p.pc.InBringUp? && RunOk(conf, p)
    ensures RunOk(conf, Tried(conf, p, ok))
  {
    var r, a := p.pc.round, p.pc.attempt;
    UpClimbs(p.trace, BringUps(p.trace), SpareReloads(r), ok);
    BudgetBound(conf, r, a);
    if ok {
      UpBounded(conf, p.trace, ok);
    } else if r == 0 {
      RoundStartOk(conf, 1, p.trace + [BringUp(false)]);
    } else if a == conf.tries {
      MulLe(r, conf.rounds, conf.tries);
      if r == conf.rounds { ClimbsBounded(conf, p.trace + [BringUp(false)], r * conf.tries + 1, r); }
    }
  }

  lemma UpBounded(conf: Conf, trace: seq<Action>, ok: bool)
    requires var after := trace + [BringUp(ok)];
             && HonouredFirst(after) && BringUps(after) <= conf.rounds * conf.tries + 1
             && Reloads(after) <= SpareReloads(conf.rounds) + Honours(after)
    ensures Bounded(conf, trace + [BringUp(ok)])
  {
  }

  lemma OwedBounded(conf: Conf, trace: seq<Action>, round: nat, attempt: nat)
    requires Position(conf, round, attempt) && trace != [] && trace[|trace| - 1] == Honour
    requires Climbs(trace[..|trace| - 1], Budget(conf, round, attempt), SpareReloads(round))
    ensures Bounded(conf, trace)
  {
    BudgetBound(conf, round, attempt);
    var front := trace[..|trace| - 1];
    CountSnoc(front, Honour);
    assert trace == front + [Honour];
  }

  lemma PlaceBounded(conf: Conf, trace: seq<Action>, round: nat, attempt: nat)
    requires Position(conf, round, attempt) && Climbs(trace, Budget(conf, round, attempt), SpareReloads(round))
    ensures Bounded(conf, trace)
  {
    BudgetBound(conf, round, attempt);
    ClimbsBounded(conf, trace, Budget(conf, round, attempt), round);
  }

  /** A run may be killed anywhere. */
  lemma KilledOk(conf: Conf, p: Proc)
    requires RunOk(conf, p)
    ensures RunOk(conf, p.(pc := Killed)) && Bounded(conf, p.trace)
  {
    MulLe(0, conf.rounds, conf.tries);
    match p.pc
    case Asking(r, a) => PlaceBounded(conf, p.trace, r, a);
    case Trying(r, a) => PlaceBounded(conf, p.trace, r, a);
    case InBringUp(r, a) => PlaceBounded(conf, p.trace, r, a);
    case Recovering(r, a) => OwedBounded(conf, p.trace, r, a);
    case Between(r) =>
      MulLe(r, conf.rounds, conf.tries);
      ClimbsBounded(conf, p.trace, r * conf.tries + 1, r);
    case _ =>
  }
}
