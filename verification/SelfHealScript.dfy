/**
 * The ensure script past the lock, as its two nested loops. The outcomes of the health check,
 * of each `hard_requested` and of each bring-up are the environment's.
 */
module SelfHealScript {
  import opened Bytes
  import opened Ladder
  import opened SelfHealRuns
  import SelfHeal

  /** `k`-th call of `hard_requested` and `n`-th bring-up of the run, counted from 0. */
  datatype Env = Env(healthy: bool, honoured: nat -> bool, succeeds: nat -> bool)

  /** A run on its own, with the numbers of requests asked for and of bring-ups finished. */
  datatype Exec = Exec(p: Proc, asked: nat, ups: nat)

  /** The next step of a run when nothing else happens. */
  function Advance(conf: Conf, env: Env, e: Exec): Exec {
    match e.p.pc
    case Checking => e.(p := Checked(e.p, env.healthy))
    case Discarding => e.(p := Left(e.p), asked := e.asked + 1)
    case Asking(_, _) => Exec(Asked(conf, e.p, env.honoured(e.asked)), e.asked + 1, e.ups)
    case Recovering(_, _) => e.(p := Reloaded(conf, e.p))
    case Between(_) => e.(p := Reloaded(conf, e.p))
    case Trying(r, a) => e.(p := e.p.(pc := InBringUp(r, a)))
    case InBringUp(_, _) => Exec(Tried(conf, e.p, env.succeeds(e.ups)), e.asked, e.ups + 1)
    case _ => e
  }

  function Steps(conf: Conf, env: Env, e: Exec, n: nat): Exec
    decreases n
  {
    if n == 0 then e else Steps(conf, env, Advance(conf, env, e), n - 1)
  }

  const ENTRY := Exec(Proc(Checking, [], None), 0, 0)

  lemma {:induction false} StepsAdd(conf: Conf, env: Env, e: Exec, m: nat, n: nat)
    ensures Steps(conf, env, e, m + n) == Steps(conf, env, Steps(conf, env, e, m), n)
    decreases m
  {
    if m > 0 { StepsAdd(conf, env, Advance(conf, env, e), m - 1, n); }
  }

  /** An attempt of the loops is three or four steps of the run. */
  lemma AttemptSteps(conf: Conf, env: Env, e: Exec) returns (n: nat)
    requires e.p.pc.Asking? && (e.p.pc.round > 0 || env.honoured(e.asked))
    ensures var honoured, ok := env.honoured(e.asked), env.succeeds(e.ups);
            Steps(conf, env, e, n) ==
              Exec(Proc(if ok then Gone else AfterAttempt(conf, e.p.pc.round, e.p.pc.attempt),
                        e.p.trace + Attempt(honoured, ok), e.p.verdict),
                   e.asked + 1, e.ups + 1)
  {
    var e1 := Advance(conf, env, e);
    var e2 := if env.honoured(e.asked) then Advance(conf, env, e1) else e1;
    var e3 := Advance(conf, env, e2);
    var e4 := Advance(conf, env, e3);
    n := if env.honoured(e.asked) then 4 else 3;
    assert Steps(conf, env, e4, 0) == e4;
    assert Steps(conf, env, e3, 1) == e4;
    assert Steps(conf, env, e2, 2) == e4;
    assert Steps(conf, env, e, n) == e4;
    TraceOfAttempt(e.p.trace, env.honoured(e.asked), env.succeeds(e.ups));
  }

  lemma TraceOfAttempt(trace: seq<Action>, honoured: bool, ok: bool)
    ensures (if honoured then trace + [Honour] + [Reload] else trace) + [BringUp(ok)] == trace + Attempt(honoured, ok)
  {
  }

  lemma OneStep(conf: Conf, env: Env, e: Exec)
    ensures Steps(conf, env, e, 1) == Advance(conf, env, e)
  {
    assert Steps(conf, env, Advance(conf, env, e), 0) == Advance(conf, env, e);
  }

  /** The step of the shared model that a run takes next, with the answer of its environment. */
  function StepOf(pid: nat, env: Env, e: Exec): SelfHeal.Step {
    match e.p.pc
    case Checking => SelfHeal.Check(pid, env.healthy)
    case Recovering(_, _) => SelfHeal.Recover(pid)
    case Between(_) => SelfHeal.Recover(pid)
    case Trying(_, _) => SelfHeal.BeginUp(pid)
    case InBringUp(_, _) => SelfHeal.EndUp(pid, env.succeeds(e.ups))
    case _ => SelfHeal.HardRequested(pid)
  }

  /**
   * A step of a run on its own is its step among the others, when the stamp and the lock are as its
   * environment says; no other run is moved.
   */
  lemma AdvanceIsStep(s: SelfHeal.Sys, pid: nat, conf: Conf, env: Env, e: Exec)
    requires pid in s.runs && s.runs[pid] == e.p && PastLock(e.p.pc)
    requires e.p.pc.Asking? ==> env.honoured(e.asked) == SelfHeal.Honoured(s)
    ensures SelfHeal.Next(s, StepOf(pid, env, e), conf).runs == s.runs[pid := Advance(conf, env, e).p]
  {
  }

  /** Where the run stands at the head of the inner loop, `attempt` attempts into round `round`. */
  function LoopHead(conf: Conf, round: nat, attempt: nat): Pc {
    if attempt < conf.tries then Asking(round, attempt + 1)
    else if round < conf.rounds then Between(round)
    else Gone
  }

  /** A run on its own comes by this state. */
  ghost predicate Reached(conf: Conf, env: Env, e: Exec) {
    exists n: nat :: Steps(conf, env, ENTRY, n) == e
  }

  lemma ReachedFurther(conf: Conf, env: Env, e: Exec, m: nat)
    requires Reached(conf, env, e)
    ensures Reached(conf, env, Steps(conf, env, e, m))
  {
    var n: nat :| Steps(conf, env, ENTRY, n) == e;
    StepsAdd(conf, env, ENTRY, n, m);
  }

  /** A run past a failed health check, with its trace. */
  function Failing(pc: Pc, trace: seq<Action>): Proc {
    Proc(pc, trace, Some(false))
  }

  /** The health check, and what follows it. */
  lemma EntryReached(conf: Conf, env: Env)
    ensures env.healthy ==> Reached(conf, env, Exec(Proc(Gone, [], Some(true)), 1, 0))
    ensures !env.healthy && env.honoured(0) ==>
              Reached(conf, env, Exec(Failing(if env.succeeds(0) then Gone else RoundStart(conf, 1),
                                              Attempt(true, env.succeeds(0))), 1, 1))
    ensures !env.healthy && !env.honoured(0) ==> Reached(conf, env, Exec(Failing(RoundStart(conf, 1), []), 1, 0))
  {
    assert Steps(conf, env, ENTRY, 0) == ENTRY;
    OneStep(conf, env, ENTRY);
    ReachedFurther(conf, env, ENTRY, 1);
    var e := Advance(conf, env, ENTRY);
    if !env.healthy && env.honoured(0) {
      var n := AttemptSteps(conf, env, e);
      assert [] + Attempt(true, env.succeeds(0)) == Attempt(true, env.succeeds(0));
      ReachedFurther(conf, env, e, n);
    } else {
      OneStep(conf, env, e);
      ReachedFurther(conf, env, e, 1);
    }
  }

  lemma AttemptReached(conf: Conf, env: Env, e: Exec)
    requires Reached(conf, env, e) && e.p.pc.Asking? && e.p.pc.round > 0
    ensures var ok := env.succeeds(e.ups);
            Reached(conf, env,
              Exec(Proc(if ok then Gone else LoopHead(conf, e.p.pc.round, e.p.pc.attempt),
                        e.p.trace + Attempt(env.honoured(e.asked), ok), e.p.verdict),
                   e.asked + 1, e.ups + 1))
  {
    var n := AttemptSteps(conf, env, e);
    ReachedFurther(conf, env, e, n);
  }

  lemma ReloadReached(conf: Conf, env: Env, e: Exec)
    requires Reached(conf, env, e) && e.p.pc.Between? && e.p.pc.round < conf.rounds
    ensures Reached(conf, env, e.(p := Proc(LoopHead(conf, e.p.pc.round + 1, 0), e.p.trace + [Reload], e.p.verdict)))
  {
    OneStep(conf, env, e);
    ReachedFurther(conf, env, e, 1);
  }

  /** A run on its own comes to its end with these actions. */
  ghost predicate EndsWith(conf: Conf, env: Env, trace: seq<Action>) {
    exists asked, ups :: Reached(conf, env, Exec(Proc(Gone, trace, Some(env.healthy)), asked, ups))
  }

  /** The loops have not ended: the trace so far, and the run of the shared model that stands at `pc` with it. */
  ghost predicate Going(conf: Conf, env: Env, pc: Pc, trace: seq<Action>, asked: nat, ups: nat, spare: nat) {
    Climbing(trace, ups, spare) && !env.healthy && Reached(conf, env, Exec(Failing(pc, trace), asked, ups))
  }

  /** A bring-up has succeeded, and the run has ended with it. */
  ghost predicate Succeeded(conf: Conf, env: Env, trace: seq<Action>, ups: nat, spare: nat) {
    && EndsInSuccess(trace) && HonouredFirst(trace) && BringUps(trace) == ups
    && Reloads(trace) == spare + Honours(trace)
    && EndsWith(conf, env, trace)
  }

  lemma AttemptGoes(conf: Conf, env: Env, round: nat, attempt: nat, trace: seq<Action>, asked: nat, ups: nat,
                    spare: nat)
    requires round > 0 && Going(conf, env, Asking(round, attempt), trace, asked, ups, spare)
    ensures var after := trace + Attempt(env.honoured(asked), env.succeeds(ups));
            if env.succeeds(ups) then Succeeded(conf, env, after, ups + 1, spare)
            else Going(conf, env, LoopHead(conf, round, attempt), after, asked + 1, ups + 1, spare)
  {
    AttemptReached(conf, env, Exec(Failing(Asking(round, attempt), trace), asked, ups));
    AttemptClimbs(trace, ups, spare, env.honoured(asked), env.succeeds(ups));
  }

  lemma ReloadGoes(conf: Conf, env: Env, round: nat, trace: seq<Action>, asked: nat, ups: nat, spare: nat)
    requires round < conf.rounds && Going(conf, env, Between(round), trace, asked, ups, spare)
    ensures Going(conf, env, LoopHead(conf, round + 1, 0), trace + [Reload], asked, ups, spare + 1)
  {
    ReloadReached(conf, env, Exec(Failing(Between(round), trace), asked, ups));
    ReloadClimbs(trace, ups, spare);
    StillGoing(conf, env, LoopHead(conf, round + 1, 0), trace + [Reload], asked, ups, spare + 1);
  }

  lemma StillGoing(conf: Conf, env: Env, pc: Pc, trace: seq<Action>, asked: nat, ups: nat, spare: nat)
    requires Climbing(trace, ups, spare) && !env.healthy && Reached(conf, env, Exec(Failing(pc, trace), asked, ups))
    ensures Going(conf, env, pc, trace, asked, ups, spare)
  {
  }

  /** The request read on entry: `done` when its bring-up succeeded. */
  method AnswerEntry(env: Env, conf: Conf) returns (trace: seq<Action>, ups: nat, done: bool)
    requires !env.healthy
    ensures done ==> env.honoured(0) && ups == 1 && Succeeded(conf, env, trace, ups, 0)
    ensures !done ==> Going(conf, env, RoundStart(conf, 1), trace, 1, ups, 0) && ups == if env.honoured(0) then 1 else 0
    ensures env.honoured(0) ==> trace == Attempt(true, env.succeeds(0))
  {
    EntryGoes(conf, env);
    if !env.honoured(0) { return [], 0, false; }
    trace := [Honour, Reload];
    trace := trace + [BringUp(env.succeeds(0))];
    assert trace == Attempt(true, env.succeeds(0));
    ups, done := 1, env.succeeds(0);
  }

  lemma EntryGoes(conf: Conf, env: Env)
    requires !env.healthy
    ensures var trace := Attempt(true, env.succeeds(0));
            if !env.honoured(0) then Going(conf, env, RoundStart(conf, 1), [], 1, 0, 0)
            else if env.succeeds(0) then Succeeded(conf, env, trace, 1, 0)
            else Going(conf, env, RoundStart(conf, 1), trace, 1, 1, 0)
  {
    EntryReached(conf, env);
    AttemptClimbs([], 0, 0, true, env.succeeds(0));
    assert [] + Attempt(true, env.succeeds(0)) == Attempt(true, env.succeeds(0));
  }

  /** The inner loop: `done` when a bring-up succeeded. */
  method TryRound(env: Env, conf: Conf, round: nat, before: seq<Action>, asked0: nat, ups0: nat)
    returns (trace: seq<Action>, asked: nat, ups: nat, done: bool)
    requires 0 < round && Going(conf, env, LoopHead(conf, round, 0), before, asked0, ups0, round - 1)
    ensures before <= trace && ups <= ups0 + conf.tries
    ensures done ==> Succeeded(conf, env, trace, ups, round - 1)
    ensures !done ==> ups == ups0 + conf.tries
    ensures !done ==> Going(conf, env, LoopHead(conf, round, conf.tries), trace, asked, ups, round - 1)
  {
    trace, asked, ups, done := before, asked0, ups0, false;
    for attempt := 0 to conf.tries
      invariant before <= trace && ups == ups0 + attempt && !done
      invariant Going(conf, env, LoopHead(conf, round, attempt), trace, asked, ups, round - 1)
    {
      AttemptGoes(conf, env, round, attempt + 1, trace, asked, ups, round - 1);
      var actions := if env.honoured(asked) then [Honour, Reload] else [];
      trace := trace + (actions + [BringUp(env.succeeds(ups))]);
      asked, ups, done := asked + 1, ups + 1, env.succeeds(ups);
      if done { return; }
    }
  }

  /** What the exit code of a run past a failed health check says about the actions taken. */
  ghost predicate ExitSays(conf: Conf, env: Env, trace: seq<Action>, exit: nat) {
    if exit == 0 then EndsInSuccess(trace) else
      && exit == 1 && AllFailed(trace)
      && BringUps(trace) == conf.rounds * conf.tries + (if env.honoured(0) then 1 else 0)
      && Reloads(trace) == SpareReloads(conf.rounds) + Honours(trace)
  }

  ghost predicate Outcome(conf: Conf, env: Env, trace: seq<Action>, exit: nat) {
    && HonouredFirst(trace) && BringUps(trace) <= conf.rounds * conf.tries + 1
    && Reloads(trace) <= SpareReloads(conf.rounds) + Honours(trace)
    && ExitSays(conf, env, trace, exit) && EndsWith(conf, env, trace)
  }

  lemma SuccessOutcome(conf: Conf, env: Env, trace: seq<Action>, ups: nat, spare: nat)
    requires Succeeded(conf, env, trace, ups, spare)
    requires ups <= conf.rounds * conf.tries + 1 && spare <= SpareReloads(conf.rounds)
    ensures Outcome(conf, env, trace, 0)
  {
  }

  lemma FailureOutcome(conf: Conf, env: Env, trace: seq<Action>, asked: nat, ups: nat)
    requires Going(conf, env, Gone, trace, asked, ups, SpareReloads(conf.rounds))
    requires ups == conf.rounds * conf.tries + if env.honoured(0) then 1 else 0
    ensures Outcome(conf, env, trace, 1)
  {
  }

  /**
   * The script: the actions taken and the exit code. Its check and its loops take a run of the shared
   * model, undisturbed, from the health check to its end; exit 0 follows a healthy link or the only bring-up
   * that succeeded, and exit 1 the failure of every attempt there is.
   */
  method Ensure(env: Env, conf: Conf) returns (trace: seq<Action>, exit: nat)
    ensures env.healthy ==> exit == 0 && trace == [] && EndsWith(conf, env, trace)
    ensures !env.healthy ==> Outcome(conf, env, trace, exit)
    ensures !env.healthy && env.honoured(0) ==> Attempt(true, env.succeeds(0)) <= trace
  {
    if env.healthy {
      EntryReached(conf, env);
      return [], 0;
    }
    MulLe(0, conf.rounds, conf.tries);
    var ups: nat, done: bool;
    trace, ups, done := AnswerEntry(env, conf);
    if done {
      SuccessOutcome(conf, env, trace, ups, 0);
      return trace, 0;
    }
    var asked := 1;
    ghost var first, base := trace, ups;
    for round := 0 to conf.rounds
      invariant ups == round * conf.tries + base && first <= trace
      invariant Going(conf, env, if round < conf.rounds then LoopHead(conf, round + 1, 0) else Gone, trace, asked, ups,
                      if round < conf.rounds then round else SpareReloads(conf.rounds))
    {
      MulLe(round + 1, conf.rounds, conf.tries);
      trace, asked, ups, done := TryRound(env, conf, round + 1, trace, asked, ups);
      if done {
        SuccessOutcome(conf, env, trace, ups, round);
        return trace, 0;
      }
      if round + 1 < conf.rounds {
        ReloadGoes(conf, env, round + 1, trace, asked, ups, round);
        trace := trace + [Reload];
      }
    }
    FailureOutcome(conf, env, trace, asked, ups);
    exit := 1;
  }
}
