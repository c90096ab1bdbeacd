/** The scripts' actions on the files they share, in place. */
module SelfHealFiles {
  import opened Bytes
  import opened Ladder
  import opened SelfHeal
  import opened SelfHealRuns

  class Machine {
    const conf: Conf
    var now: nat
    var lastFile: Option<nat>
    var hardStamp: Option<Stamp>
    var lockHolder: Option<nat>
    var calls: seq<Call>
    var runs: map<nat, Proc>
    var writes: nat
    ghost var events: seq<Hard>
    ghost var lasts: seq<nat>
    ghost var consumed: seq<Consumed>

    ghost function State(): Sys
      reads this
    {
      Sys(now, lastFile, hardStamp, writes, calls, lockHolder, runs, events, lasts, consumed)
    }

    constructor (now: nat, conf: Conf)
      ensures State() == Boot(now) && this.conf == conf && Inv(State(), conf)
    {
      this.now, this.conf := now, conf;
      lastFile, hardStamp, lockHolder := None, None, None;
      calls, runs := [], map[];
      writes, events, lasts, consumed := 0, [], [], [];
    }

    /** `date +%s > "$HARD_STAMP"` */
    method PutStamp()
      modifies this`hardStamp, this`writes
      ensures State() == WriteStamp(old(State()))
    {
      hardStamp := Some(Stamp(now, writes));
      writes := writes + 1;
    }

    /** `act` of the watcher */
    method WatchAct(hard: bool)
      requires Inv(State(), conf)
      modifies this
      ensures State() == Next(old(State()), Event(hard), conf) && Inv(State(), conf)
      ensures var e := Hard(old(now), old(writes)); hard ==> InFlight(State(), e) || Stamped(State(), e)
    {
      NextKeeps(State(), Event(hard), conf);
      ActCarries(State(), conf);
      if hard { events := events + [Hard(now, writes)]; }
      var last := if lastFile.Some? then lastFile.value else 0;
      if now - last < conf.debounce {
        if hard { PutStamp(); }
        return;
      }
      lastFile := Some(now);
      lasts := lasts + [now];
      calls := calls + [Call(hard, now, writes)];
    }

    /** The start of `ctl on [--hard]` for a pending call. */
    method CtlStart(i: nat)
      requires Inv(State(), conf) && i < |calls|
      modifies this
      ensures State() == Next(old(State()), CtlOn(i), conf) && Inv(State(), conf)
    {
      NextKeeps(State(), CtlOn(i), conf);
      var call := calls[i];
      calls := calls[..i] + calls[i + 1..];
      if call.hard { PutStamp(); }
    }

    /** `hard_requested`: the stamp is removed either way. */
    method ReadStamp(pid: nat, discarded: bool, ghost verdict: Option<bool>) returns (requested: bool)
      modifies this`hardStamp, this`consumed
      ensures State() == Consume(old(State()), pid, discarded, verdict) && requested == Honoured(old(State()))
      ensures hardStamp == None
    {
      if hardStamp.None? { return false; }
      var stamp := hardStamp.value;
      hardStamp := None;
      requested := now - stamp.time <= STAMP_LIFETIME;
      consumed := consumed + [Consumed(stamp, now, requested, lockHolder == Some(pid), pid, discarded, verdict)];
    }

    method MoveOn(pid: nat, p: Proc)
      modifies this`lockHolder, this`runs
      ensures State() == Move(old(State()), pid, p)
    {
      runs := runs[pid := p];
      if !PastLock(p.pc) { lockHolder := None; }
    }

    /** `healthy`, and the branch on it: either way the stamp is read next. */
    method CheckHealth(pid: nat, healthy: bool)
      requires Inv(State(), conf) && At(State(), pid, Checking)
      modifies this`lockHolder, this`runs
      ensures State() == Next(old(State()), Check(pid, healthy), conf) && Inv(State(), conf)
      ensures pid in runs && runs[pid].verdict == Some(healthy) && lockHolder == Some(pid)
      ensures runs[pid].pc == if healthy then Discarding else Asking(0, 0)
    {
      NextKeeps(State(), Check(pid, healthy), conf);
      MoveOn(pid, Checked(runs[pid], healthy));
    }

    /** `hard_requested` by a run that holds the lock, and the branch on its result. */
    method ReadHardRequest(pid: nat) returns (requested: bool)
      requires Inv(State(), conf) && pid in runs && (runs[pid].pc.Asking? || runs[pid].pc.Discarding?)
      modifies this`hardStamp, this`consumed, this`lockHolder, this`runs
      ensures State() == Next(old(State()), HardRequested(pid), conf) && Inv(State(), conf)
      ensures hardStamp == None
      ensures requested <==> old(hardStamp).Some? && now - old(hardStamp).value.time <= STAMP_LIFETIME
      ensures pid in runs
      ensures old(runs)[pid].verdict == Some(false) ==> (runs[pid].pc.Recovering? <==> requested)
      ensures old(runs)[pid].verdict == Some(true) ==> runs[pid].pc.Gone? && runs[pid].trace == []
    {
      NextKeeps(State(), HardRequested(pid), conf);
      RequestDecides(State(), pid, conf);
      var p := runs[pid];
      requested := ReadStamp(pid, p.pc.Discarding?, p.verdict);
      if p.pc.Discarding? {
        MoveOn(pid, Left(p));
      } else {
        MoveOn(pid, Asked(conf, p, requested));
      }
    }

    /** `hard_recover`, after an honoured request or between two rounds. */
    method HardRecover(pid: nat)
      requires Inv(State(), conf) && pid in runs && (runs[pid].pc.Recovering? || runs[pid].pc.Between?)
      modifies this`lockHolder, this`runs
      ensures State() == Next(old(State()), Recover(pid), conf) && Inv(State(), conf)
      ensures pid in runs && HonouredFirst(runs[pid].trace)
    {
      NextKeeps(State(), Recover(pid), conf);
      ReloadedOk(conf, runs[pid]);
      AnsweredNow(conf, runs[pid]);
      MoveOn(pid, Reloaded(conf, runs[pid]));
    }

    /** `flock -n 9`: `false` ends the run. */
    method TryLockFile(pid: nat) returns (got: bool)
      requires Inv(State(), conf) && At(State(), pid, Starting)
      modifies this`lockHolder, this`runs
      ensures State() == Next(old(State()), TryLock(pid), conf) && Inv(State(), conf)
      ensures got <==> old(lockHolder) == None
      ensures got ==> lockHolder == Some(pid) && At(State(), pid, Checking)
      ensures got ==> forall q :: q in runs && q != pid ==> !PastLock(runs[q].pc)
      ensures !got ==> lockHolder == old(lockHolder) && At(State(), pid, Gone)
    {
      NextKeeps(State(), TryLock(pid), conf);
      got := lockHolder == None;
      if got {
        lockHolder := Some(pid);
        runs := runs[pid := runs[pid].(pc := Checking)];
      } else {
        runs := runs[pid := runs[pid].(pc := Gone)];
      }
    }
  }

  /** Where the request leaves a run, by the verdict of its health check. */
  lemma RequestDecides(s: Sys, pid: nat, conf: Conf)
    requires Inv(s, conf) && pid in s.runs && (s.runs[pid].pc.Asking? || s.runs[pid].pc.Discarding?)
    ensures var t := Next(s, HardRequested(pid), conf);
            && pid in t.runs
            && (s.runs[pid].verdict == Some(false) ==> (t.runs[pid].pc.Recovering? <==> Honoured(s)))
            && (s.runs[pid].verdict == Some(true) ==> t.runs[pid].pc.Gone? && t.runs[pid].trace == [])
  {
    assert RunOk(conf, s.runs[pid]);
  }

  /** After a reload no honoured request is owed an answer. */
  lemma AnsweredNow(conf: Conf, p: Proc)
    requires (p.pc.Recovering? || p.pc.Between?) && RunOk(conf, p)
    ensures HonouredFirst(Reloaded(conf, p).trace)
  {
    if p.pc.Recovering? {
      var front := p.trace[..|p.trace| - 1];
      AnswerClimbs(front, BringUps(front), SpareReloads(p.pc.round));
      assert p.trace + [Reload] == front + [Honour, Reload];
    } else {
      ReloadClimbs(p.trace, BringUps(p.trace), p.pc.round - 1);
    }
  }
}
