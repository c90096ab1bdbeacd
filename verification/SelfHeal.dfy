/**
 * The shared state of the recovery scripts: the debounce stamp, the hard-recovery stamp, the
 * lock and the runs of the ensure script. Every script action is one atomic step, and the
 * clock never goes back.
 */
module SelfHeal {
  import opened Bytes
  import opened Ladder
  import opened SelfHealRuns

  const STAMP_LIFETIME: nat := 120

  /** A hard-recovery stamp: the time written into it, and which write it was. */
  datatype Stamp = Stamp(time: nat, id: nat)

  /** A hard event: its time, and how many stamps had been written before it. */
  datatype Hard = Hard(at: nat, mark: nat)

  /** A call of `ctl on` under way, with the time of the event that caused it and the stamps written before that. */
  datatype Call = Call(hard: bool, since: nat, mark: nat)

  /**
   * A stamp read and removed by run `reader`: whether that run leaves without acting on it, and what
   * its health check had said.
   */
  datatype Consumed = Consumed(stamp: Stamp, at: nat, honoured: bool, underLock: bool, reader: nat, discarded: bool,
                               verdict: Option<bool>)

  /** `events` are the hard events so far, `lasts` the values `LAST` has had. */
  datatype Sys = Sys(now: nat, last: Option<nat>, stamp: Option<Stamp>, writes: nat, calls: seq<Call>,
                     lock: Option<nat>, runs: map<nat, Proc>,
                     events: seq<Hard>, lasts: seq<nat>, consumed: seq<Consumed>)

  datatype Step =
    | Tick(seconds: nat)
    | Event(hard: bool)              // `act` of the watcher
    | CtlOn(call: nat)               // a pending `ctl on` call runs
    | UserHard                       // `ctl on --hard` from elsewhere
    | Spawn(pid: nat)                // the ensure service is started
    | TryLock(pid: nat)              // `flock -n 9`
    | Check(pid: nat, healthy: bool) // `healthy`
    | HardRequested(pid: nat)        // `hard_requested`, and the branch on it
    | Recover(pid: nat)              // `hard_recover`
    | BeginUp(pid: nat)
    | EndUp(pid: nat, ok: bool)      // the bring-up and its check
    | Kill(pid: nat)                 // the service is stopped or restarted

  function WriteStamp(s: Sys): Sys {
    s.(stamp := Some(Stamp(s.now, s.writes)), writes := s.writes + 1)
  }

  function Noted(s: Sys): Sys {
    s.(events := s.events + [Hard(s.now, s.writes)])
  }

  /** `now - last < DEBOUNCE`, with 0 for a missing file. */
  predicate Debounced(s: Sys, debounce: nat) {
    s.now - (if s.last.Some? then s.last.value else 0) < debounce
  }

  /** `act`: a debounced hard event still leaves its stamp; any other event is stamped in `LAST` and handed to ctl. */
  function Act(s: Sys, hard: bool, debounce: nat): Sys {
    if Debounced(s, debounce) then (if hard then WriteStamp(s) else s)
    else s.(last := Some(s.now), lasts := s.lasts + [s.now],
         calls := s.calls + [Call(hard, s.now, s.writes)])
  }

  /** The start of `ctl on [--hard]`: the stamp is written before anything is decided. */
  function Ctl(s: Sys, i: nat): Sys
    requires i < |s.calls|
  {
    var s1 := s.(calls := s.calls[..i] + s.calls[i + 1..]);
    if s.calls[i].hard then WriteStamp(s1) else s1
  }

  /** `hard_requested` is true for a stamp at most 120 seconds old. */
  function Honoured(s: Sys): bool {
    s.stamp.Some? && s.now - s.stamp.value.time <= STAMP_LIFETIME
  }

  /** What is noted of the stamp that run `pid` reads. */
  function Entry(s: Sys, pid: nat, discarded: bool, verdict: Option<bool>): Consumed
    requires s.stamp.Some?
  {
    Consumed(s.stamp.value, s.now, Honoured(s), s.lock == Some(pid), pid, discarded, verdict)
  }

  /** The stamp is removed either way. */
  function Consume(s: Sys, pid: nat, discarded: bool, verdict: Option<bool>): Sys {
    if s.stamp.None? then s else
    s.(stamp := None, consumed := s.consumed + [Entry(s, pid, discarded, verdict)])
  }

  /** A run moves on; the lock goes with it when it ends. */
  function Move(s: Sys, pid: nat, p: Proc): Sys {
    s.(runs := s.runs[pid := p], lock := if PastLock(p.pc) then s.lock else None)
  }

  /** `hard_requested` and the branch on its result: a healthy run leaves, another goes on as `Asked`. */
  function Request(s: Sys, pid: nat, conf: Conf): Sys
    requires pid in s.runs && (s.runs[pid].pc.Asking? || s.runs[pid].pc.Discarding?)
  {
    var p := s.runs[pid];
    if p.pc.Discarding? then Move(Consume(s, pid, true, p.verdict), pid, Left(p))
    else Move(Consume(s, pid, false, p.verdict), pid, Asked(conf, p, Honoured(s)))
  }

  function Grab(s: Sys, pid: nat): Sys
    requires pid in s.runs
  {
    if s.lock.None? then s.(lock := Some(pid), runs := s.runs[pid := s.runs[pid].(pc := Checking)])
    else s.(runs := s.runs[pid := s.runs[pid].(pc := Gone)])
  }

  /** A step of run `pid`; one that is not enabled where the run stands leaves the state alone. */
  function RunStep(s: Sys, step: Step, pid: nat, conf: Conf): Sys
    requires pid in s.runs
  {
    var p := s.runs[pid];
    match step
    case TryLock(_) => if p.pc.Starting? then Grab(s, pid) else s
    case Check(_, healthy) => if p.pc.Checking? then Move(s, pid, Checked(p, healthy)) else s
    case HardRequested(_) => if p.pc.Asking? || p.pc.Discarding? then Request(s, pid, conf) else s
    case Recover(_) => if p.pc.Recovering? || p.pc.Between? then Move(s, pid, Reloaded(conf, p)) else s
    case BeginUp(_) => if p.pc.Trying? then Move(s, pid, p.(pc := InBringUp(p.pc.round, p.pc.attempt))) else s
    case EndUp(_, ok) => if p.pc.InBringUp? then Move(s, pid, Tried(conf, p, ok)) else s
    case Kill(_) =>
      if PastLock(p.pc) then Move(s, pid, p.(pc := Killed))
      else if p.pc.Starting? then s.(runs := s.runs[pid := p.(pc := Killed)])
      else s
    case _ => s
  }

  function Next(s: Sys, step: Step, conf: Conf): Sys {
    match step
    case Tick(d) => s.(now := s.now + d)
    case Event(hard) => Act(if hard then Noted(s) else s, hard, conf.debounce)
    case CtlOn(i) => if i < |s.calls| then Ctl(s, i) else s
    case UserHard => WriteStamp(Noted(s))
    case Spawn(pid) => if pid in s.runs then s else s.(runs := s.runs[pid := Proc(Starting, [], None)])
    case _ => if step.pid in s.runs then RunStep(s, step, step.pid, conf) else s
  }

  function Run(s: Sys, steps: seq<Step>, conf: Conf): Sys
    decreases steps
  {
    if steps == [] then s else Run(Next(s, steps[0], conf), steps[1..], conf)
  }

  function Boot(now: nat): Sys {
    Sys(now, None, None, 0, [], None, map[], [], [], [])
  }

  // ---- Hard intent is not lost ----

  /** A hard call that an event at `e` or later caused. */
  ghost predicate InFlight(s: Sys, e: Hard) {
    exists i :: 0 <= i < |s.calls| && Carries(s.calls[i], e)
  }

  predicate Carries(c: Call, e: Hard) {
    c.hard && c.since >= e.at && c.mark >= e.mark
  }

  /** The stamp was written after the event, and its time is no earlier. */
  predicate Covers(st: Stamp, e: Hard) {
    st.time >= e.at && st.id >= e.mark
  }

  ghost predicate Stamped(s: Sys, e: Hard) {
    s.stamp.Some? && Covers(s.stamp.value, e)
  }

  ghost predicate Answered(s: Sys, e: Hard) {
    exists i :: 0 <= i < |s.consumed| && Covers(s.consumed[i].stamp, e)
  }

  /** A hard event is still carried by a ctl call, or by a stamp written after it, or such a stamp was read. */
  ghost predicate Kept(s: Sys, e: Hard) {
    InFlight(s, e) || Stamped(s, e) || Answered(s, e)
  }

  ghost predicate Intent(s: Sys) {
    && (forall i :: 0 <= i < |s.events| ==> Past(s, s.events[i]) && Kept(s, s.events[i]))
    && (forall i :: 0 <= i < |s.calls| ==> Past(s, Hard(s.calls[i].since, s.calls[i].mark)))
  }

  predicate Past(s: Sys, e: Hard) {
    e.at <= s.now && e.mark <= s.writes
  }

  // ---- Stamps are read once and only while young; LAST values are apart; the lock excludes ----

  /** A stamp is honoured exactly when it was at most 120 seconds old when it was read. */
  ghost predicate HonouredYoung(c: Consumed) {
    c.honoured <==> c.stamp.time <= c.at <= c.stamp.time + 120
  }

  ghost predicate ReadOnce(s: Sys) {
    && (s.stamp.Some? ==> s.stamp.value.id < s.writes && s.stamp.value.time <= s.now)
    && (forall i :: 0 <= i < |s.consumed| ==>
          && s.consumed[i].stamp.id < s.writes
          && (s.stamp.Some? ==> s.consumed[i].stamp.id < s.stamp.value.id)
          && HonouredYoung(s.consumed[i]))
    && (forall i, j :: 0 <= i < j < |s.consumed| ==> s.consumed[i].stamp.id < s.consumed[j].stamp.id)
  }

  ghost predicate Spaced(s: Sys, debounce: nat) {
    && (s.last.None? ==> s.lasts == [])
    && (s.last.Some? ==> s.lasts != [] && s.lasts[|s.lasts| - 1] == s.last.value <= s.now)
    && forall i :: 0 < i < |s.lasts| ==> s.lasts[i - 1] + debounce <= s.lasts[i]
  }

  /** Whoever is past the lock holds it, and nobody else does. */
  ghost predicate Locked(s: Sys) {
    && (s.lock.Some? ==> s.lock.value in s.runs && PastLock(s.runs[s.lock.value].pc))
    && (forall pid :: pid in s.runs && PastLock(s.runs[pid].pc) ==> s.lock == Some(pid))
    && (forall i :: 0 <= i < |s.consumed| ==> s.consumed[i].underLock)
  }

  /** Read by run `pid` at most 120 seconds after it was written, its health check having failed. */
  predicate Counts(c: Consumed, pid: nat) {
    c.reader == pid && c.verdict == Some(false) && c.at <= c.stamp.time + 120
  }

  function HonouredBy(consumed: seq<Consumed>, pid: nat): nat {
    if consumed == [] then 0 else
    HonouredBy(consumed[..|consumed| - 1], pid) + if Counts(consumed[|consumed| - 1], pid) then 1 else 0
  }

  /** Every run climbs the ladder, and its trace records each request that it had to honour. */
  ghost predicate Climbed(s: Sys, conf: Conf) {
    && (forall pid :: pid in s.runs ==>
          RunOk(conf, s.runs[pid]) && Honours(s.runs[pid].trace) == HonouredBy(s.consumed, pid))
    && (forall pid: nat :: pid !in s.runs ==> HonouredBy(s.consumed, pid) == 0)
  }

  /** A stamp is discarded exactly by a run whose health check had said that the link is healthy. */
  ghost predicate Judged(s: Sys) {
    forall i :: 0 <= i < |s.consumed| ==> JudgedEntry(s, s.consumed[i])
  }

  ghost predicate JudgedEntry(s: Sys, c: Consumed) {
    && c.reader in s.runs && c.verdict.Some? && s.runs[c.reader].verdict == c.verdict
    && (c.discarded <==> c.verdict == Some(true))
  }

  /** The hard calls that are on their way. */
  function HardCalls(calls: seq<Call>): nat {
    if calls == [] then 0 else HardCalls(calls[..|calls| - 1]) + if calls[|calls| - 1].hard then 1 else 0
  }

  /** Each hard event has written one stamp or is a hard call on its way; nothing else writes one. */
  ghost predicate Written(s: Sys) {
    s.writes + HardCalls(s.calls) == |s.events|
  }

  ghost predicate Inv(s: Sys, conf: Conf) {
    && Intent(s) && ReadOnce(s) && Spaced(s, conf.debounce) && Locked(s)
    && Climbed(s, conf) && Judged(s) && Written(s)
  }

  /** A new stamp carries every event there has been. */
  lemma WriteKeepsIntent(s: Sys)
    requires forall i :: 0 <= i < |s.events| ==> Past(s, s.events[i])
    requires forall i :: 0 <= i < |s.calls| ==> Past(s, Hard(s.calls[i].since, s.calls[i].mark))
    ensures Intent(WriteStamp(s))
  {
    var s' := WriteStamp(s);
    forall i | 0 <= i < |s'.events|
      ensures Past(s', s'.events[i]) && Kept(s', s'.events[i])
    {
      assert Past(s, s.events[i]);
    }
    forall i | 0 <= i < |s'.calls|
      ensures Past(s', Hard(s'.calls[i].since, s'.calls[i].mark))
    {
      assert Past(s, Hard(s.calls[i].since, s.calls[i].mark));
    }
  }

  /** A soft call leaves the list of calls without taking a hard one along. */
  lemma SoftCallKeeps(s: Sys, i: nat)
    requires Intent(s) && i < |s.calls| && !s.calls[i].hard
    ensures Intent(Ctl(s, i))
  {
    var s' := Ctl(s, i);
    forall k | 0 <= k < |s'.events|
      ensures Kept(s', s'.events[k])
    {
      var e := s.events[k];
      if InFlight(s, e) {
        var j :| 0 <= j < |s.calls| && Carries(s.calls[j], e);
        var j' := if j < i then j else j - 1;
        assert s'.calls[j'] == s.calls[j];
      } else if Answered(s, e) {
        var j :| 0 <= j < |s.consumed| && Covers(s.consumed[j].stamp, e);
        assert Covers(s'.consumed[j].stamp, e);
      }
    }
    forall k | 0 <= k < |s'.calls|
      ensures Past(s', Hard(s'.calls[k].since, s'.calls[k].mark))
    {
      assert s'.calls[k] == s.calls[if k < i then k else k + 1];
    }
  }

  lemma MoreCallsKeep(s: Sys, s': Sys, e: Hard)
    requires Kept(s, e) && s.calls <= s'.calls && s.consumed <= s'.consumed && s'.stamp == s.stamp
    ensures Kept(s', e)
  {
    if InFlight(s, e) {
      var j :| 0 <= j < |s.calls| && Carries(s.calls[j], e);
      assert s'.calls[j] == s.calls[j];
    } else if Answered(s, e) {
      var j :| 0 <= j < |s.consumed| && Covers(s.consumed[j].stamp, e);
      assert s'.consumed[j] == s.consumed[j];
    }
  }

  /** No stamp read so far answers an event that is yet to come, even one in the same second. */
  lemma ReadBeforeIsNoAnswer(s: Sys, e: Hard)
    requires ReadOnce(s) && e.mark >= s.writes
    ensures !Answered(s, e) && !Stamped(s, e)
  {
  }

  /** Right after a hard event, debounced or not, a call or a stamp carries it. */
  lemma ActCarries(s: Sys, conf: Conf)
    requires ReadOnce(s)
    ensures var s' := Next(s, Event(true), conf);
            && s'.events == s.events + [Hard(s.now, s.writes)]
            && (InFlight(s', Hard(s.now, s.writes)) || Stamped(s', Hard(s.now, s.writes)))
            && !Answered(s', Hard(s.now, s.writes))
  {
    var s' := Next(s, Event(true), conf);
    if !Debounced(s, conf.debounce) {
      assert Carries(s'.calls[|s.calls|], Hard(s.now, s.writes));
    }
    ReadBeforeIsNoAnswer(s, Hard(s.now, s.writes));
  }

  lemma ActKeeps(s: Sys, hard: bool, conf: Conf)
    requires Intent(s) && ReadOnce(s)
    ensures Intent(Next(s, Event(hard), conf))
  {
    var s' := Next(s, Event(hard), conf);
    if Debounced(s, conf.debounce) {
      if hard { WriteKeepsIntent(Noted(s)); }
    } else {
      if hard { ActCarries(s, conf); }
      forall k | 0 <= k < |s'.events|
        ensures Kept(s', s'.events[k])
      {
        if k < |s.events| { MoreCallsKeep(s, s', s.events[k]); }
      }
    }
  }

  lemma ConsumeKeeps(s: Sys, pid: nat, discarded: bool, verdict: Option<bool>)
    requires Intent(s)
    ensures Intent(Consume(s, pid, discarded, verdict))
  {
    var s' := Consume(s, pid, discarded, verdict);
    forall k | 0 <= k < |s'.events|
      ensures Kept(s', s'.events[k])
    {
      var e := s.events[k];
      if s.stamp.Some? {
        if Stamped(s, e) {
          assert Covers(s'.consumed[|s.consumed|].stamp, e);
        } else {
          MoreCallsKeep(s.(stamp := None), s', e);
        }
      }
    }
  }

  /** Nothing but the runs and the lock differ. */
  ghost predicate SameFiles(s: Sys, t: Sys) {
    t == s.(runs := t.runs, lock := t.lock)
  }

  lemma SameFilesKeep(s: Sys, t: Sys, debounce: nat)
    requires SameFiles(s, t)
    ensures Intent(s) ==> Intent(t)
    ensures ReadOnce(s) ==> ReadOnce(t)
    ensures Spaced(s, debounce) ==> Spaced(t, debounce)
  {
    if Intent(s) {
      forall k | 0 <= k < |t.events|
        ensures Kept(t, t.events[k])
      {
        MoreCallsKeep(s, t, t.events[k]);
      }
    }
  }

  /** What a step of a run does to the files: nothing, or it reads and removes the stamp. */
  function Read(s: Sys, step: Step, pid: nat): Sys
    requires pid in s.runs
  {
    if step.HardRequested? && (s.runs[pid].pc.Asking? || s.runs[pid].pc.Discarding?)
    then Consume(s, pid, s.runs[pid].pc.Discarding?, s.runs[pid].verdict)
    else s
  }

  lemma RunStepFiles(s: Sys, step: Step, pid: nat, conf: Conf)
    requires pid in s.runs
    ensures SameFiles(Read(s, step, pid), RunStep(s, step, pid, conf))
  {
  }

  lemma NextKeepsIntent(s: Sys, step: Step, conf: Conf)
    requires Intent(s) && ReadOnce(s)
    ensures Intent(Next(s, step, conf))
  {
    var s' := Next(s, step, conf);
    match step
    case Tick(d) =>
      forall k | 0 <= k < |s'.events|
        ensures Kept(s', s'.events[k])
      {
        MoreCallsKeep(s, s', s.events[k]);
      }
    case Event(hard) => ActKeeps(s, hard, conf);
    case CtlOn(i) =>
      if i < |s.calls| {
        if s.calls[i].hard {
          WriteKeepsIntent(s.(calls := s.calls[..i] + s.calls[i + 1..]));
        } else {
          SoftCallKeeps(s, i);
        }
      }
    case UserHard => WriteKeepsIntent(Noted(s));
    case Spawn(pid) => SameFilesKeep(s, s', conf.debounce);
    case _ => if step.pid in s.runs { RunStepKeepsIntent(s, step, step.pid, conf); }
  }

  lemma RunStepKeepsIntent(s: Sys, step: Step, pid: nat, conf: Conf)
    requires Intent(s) && pid in s.runs
    ensures Intent(RunStep(s, step, pid, conf))
  {
    ConsumeKeeps(s, pid, s.runs[pid].pc.Discarding?, s.runs[pid].verdict);
    RunStepFiles(s, step, pid, conf);
    SameFilesKeep(Read(s, step, pid), RunStep(s, step, pid, conf), conf.debounce);
  }

  lemma NextReadsOnce(s: Sys, step: Step, conf: Conf)
    requires ReadOnce(s)
    ensures ReadOnce(Next(s, step, conf))
  {
    match step
    case Tick(_) =>
    case Event(_) =>
    case CtlOn(_) =>
    case UserHard =>
    case Spawn(_) =>
    case _ =>
      if step.pid in s.runs { RunStepReadsOnce(s, step, step.pid, conf); }
  }

  lemma RunStepReadsOnce(s: Sys, step: Step, pid: nat, conf: Conf)
    requires ReadOnce(s) && pid in s.runs
    ensures ReadOnce(RunStep(s, step, pid, conf))
  {
    ConsumeReadsOnce(s, pid, s.runs[pid].pc.Discarding?, s.runs[pid].verdict);
    RunStepFiles(s, step, pid, conf);
    SameFilesKeep(Read(s, step, pid), RunStep(s, step, pid, conf), conf.debounce);
  }

  lemma RunStepSpaces(s: Sys, step: Step, pid: nat, conf: Conf)
    requires Spaced(s, conf.debounce) && pid in s.runs
    ensures Spaced(RunStep(s, step, pid, conf), conf.debounce)
  {
    RunStepFiles(s, step, pid, conf);
    SameFilesKeep(Read(s, step, pid), RunStep(s, step, pid, conf), conf.debounce);
  }

  lemma ConsumeReadsOnce(s: Sys, pid: nat, discarded: bool, verdict: Option<bool>)
    requires ReadOnce(s)
    ensures ReadOnce(Consume(s, pid, discarded, verdict))
  {
  }

  lemma NextSpaces(s: Sys, step: Step, conf: Conf)
    requires Spaced(s, conf.debounce)
    ensures Spaced(Next(s, step, conf), conf.debounce)
  {
    match step
    case Tick(_) =>
    case Event(_) =>
    case CtlOn(_) =>
    case UserHard =>
    case Spawn(_) =>
    case _ =>
      if step.pid in s.runs { RunStepSpaces(s, step, step.pid, conf); }
  }

  lemma NextLocks(s: Sys, step: Step, conf: Conf)
    requires Locked(s)
    ensures Locked(Next(s, step, conf))
  {
    match step
    case Tick(_) =>
    case Event(_) =>
    case CtlOn(_) =>
    case UserHard =>
    case Spawn(_) =>
    case _ => if step.pid in s.runs { RunStepLocks(s, step, step.pid, conf); }
  }

  lemma RunStepLocks(s: Sys, step: Step, pid: nat, conf: Conf)
    requires Locked(s) && pid in s.runs
    ensures Locked(RunStep(s, step, pid, conf))
  {
  }

  // ---- The ladder of every run ----

  lemma HonouredBySnoc(consumed: seq<Consumed>, c: Consumed, pid: nat)
    ensures HonouredBy(consumed + [c], pid) == HonouredBy(consumed, pid) + if Counts(c, pid) then 1 else 0
  {
    assert (consumed + [c])[..|consumed|] == consumed;
  }

  /** Reading the stamp counts for the run that reads it, when it is young and the health check had failed. */
  lemma ConsumeCounts(s: Sys, pid: nat, discarded: bool, verdict: Option<bool>, q: nat)
    ensures HonouredBy(Consume(s, pid, discarded, verdict).consumed, q)
            == HonouredBy(s.consumed, q) + if q == pid && Honoured(s) && verdict == Some(false) then 1 else 0
  {
    if s.stamp.Some? { HonouredBySnoc(s.consumed, Entry(s, pid, discarded, verdict), q); }
  }

  /** A run that moves on while nobody reads the stamp. */
  lemma MoveClimbs(s: Sys, t: Sys, pid: nat, p: Proc, conf: Conf)
    requires Climbed(s, conf) && t.runs == s.runs[pid := p] && t.consumed == s.consumed
    requires RunOk(conf, p) && Honours(p.trace) == HonouredBy(s.consumed, pid)
    ensures Climbed(t, conf)
  {
  }

  /** One run after another moved on by reading the stamp, which counts `more` honoured requests for it. */
  lemma CountedRun(s: Sys, t: Sys, pid: nat, p: Proc, more: nat, conf: Conf, q: nat)
    requires Climbed(s, conf) && t.runs == s.runs[pid := p] && q in t.runs
    requires HonouredBy(t.consumed, q) == HonouredBy(s.consumed, q) + if q == pid then more else 0
    requires RunOk(conf, p) && Honours(p.trace) == HonouredBy(s.consumed, pid) + more
    ensures RunOk(conf, t.runs[q]) && Honours(t.runs[q].trace) == HonouredBy(t.consumed, q)
  {
  }

  lemma CountedClimbs(s: Sys, t: Sys, pid: nat, p: Proc, more: nat, conf: Conf)
    requires Climbed(s, conf) && t.runs == s.runs[pid := p]
    requires forall q: nat :: HonouredBy(t.consumed, q) == HonouredBy(s.consumed, q) + if q == pid then more else 0
    requires RunOk(conf, p) && Honours(p.trace) == HonouredBy(s.consumed, pid) + more
    ensures Climbed(t, conf)
  {
    forall q | q in t.runs
      ensures RunOk(conf, t.runs[q]) && Honours(t.runs[q].trace) == HonouredBy(t.consumed, q)
    {
      CountedRun(s, t, pid, p, more, conf, q);
    }
    forall q: nat | q !in t.runs
      ensures HonouredBy(t.consumed, q) == 0
    {
      assert q !in s.runs;
    }
  }

  lemma ConsumeCountsAll(s: Sys, pid: nat, discarded: bool, verdict: Option<bool>)
    ensures var more := if Honoured(s) && verdict == Some(false) then 1 else 0;
            forall q: nat ::
              HonouredBy(Consume(s, pid, discarded, verdict).consumed, q)
              == HonouredBy(s.consumed, q) + if q == pid then more else 0
  {
    forall q: nat
      ensures HonouredBy(Consume(s, pid, discarded, verdict).consumed, q)
              == HonouredBy(s.consumed, q) + if q == pid && Honoured(s) && verdict == Some(false) then 1 else 0
    {
      ConsumeCounts(s, pid, discarded, verdict, q);
    }
  }

  lemma DiscardClimbs(s: Sys, pid: nat, conf: Conf)
    requires Climbed(s, conf) && pid in s.runs && s.runs[pid].pc.Discarding?
    ensures Climbed(Request(s, pid, conf), conf)
  {
    var p := s.runs[pid];
    ConsumeCountsAll(s, pid, true, p.verdict);
    KilledOk(conf, p);
    CountedClimbs(s, Request(s, pid, conf), pid, Left(p), 0, conf);
  }

  lemma AskClimbs(s: Sys, pid: nat, conf: Conf)
    requires Climbed(s, conf) && pid in s.runs && s.runs[pid].pc.Asking?
    ensures Climbed(Request(s, pid, conf), conf)
  {
    var p := s.runs[pid];
    ConsumeCountsAll(s, pid, false, p.verdict);
    AskedOk(conf, p, Honoured(s));
    CountSnoc(p.trace, Honour);
    CountedClimbs(s, Request(s, pid, conf), pid, Asked(conf, p, Honoured(s)), if Honoured(s) then 1 else 0, conf);
  }

  lemma RunStepClimbs(s: Sys, step: Step, pid: nat, conf: Conf)
    requires Climbed(s, conf) && pid in s.runs
    ensures Climbed(RunStep(s, step, pid, conf), conf)
  {
    var p, t := s.runs[pid], RunStep(s, step, pid, conf);
    if step.HardRequested? && (p.pc.Asking? || p.pc.Discarding?) {
      if p.pc.Asking? { AskClimbs(s, pid, conf); } else { DiscardClimbs(s, pid, conf); }
    } else if t != s {
      ProcOk(s, step, pid, conf);
      MoveClimbs(s, t, pid, t.runs[pid], conf);
    }
  }

  lemma ProcOk(s: Sys, step: Step, pid: nat, conf: Conf)
    requires Climbed(s, conf) && pid in s.runs && !step.HardRequested? && RunStep(s, step, pid, conf) != s
    ensures var t := RunStep(s, step, pid, conf);
            && pid in t.runs && t.runs == s.runs[pid := t.runs[pid]] && t.consumed == s.consumed
            && RunOk(conf, t.runs[pid]) && Honours(t.runs[pid].trace) == Honours(s.runs[pid].trace)
  {
    var p := s.runs[pid];
    match step
    case TryLock(_) => KilledOk(conf, p);
    case Check(_, healthy) => MulLe(0, conf.rounds, conf.tries);
    case Recover(_) =>
      ReloadedOk(conf, p);
      CountSnoc(p.trace, Reload);
    case BeginUp(_) =>
    case EndUp(_, ok) =>
      TriedOk(conf, p, ok);
      CountSnoc(p.trace, BringUp(ok));
    case Kill(_) => KilledOk(conf, p);
  }

  lemma NextClimbs(s: Sys, step: Step, conf: Conf)
    requires Climbed(s, conf)
    ensures Climbed(Next(s, step, conf), conf)
  {
    match step
    case Tick(_) =>
    case Event(_) =>
    case CtlOn(_) =>
    case UserHard =>
    case Spawn(pid) => if pid !in s.runs { MoveClimbs(s, Next(s, step, conf), pid, Proc(Starting, [], None), conf); }
    case _ => if step.pid in s.runs { RunStepClimbs(s, step, step.pid, conf); }
  }

  // ---- What the health check decides ----

  /** Once a run has its verdict, a step of any run leaves it. */
  lemma VerdictStays(s: Sys, step: Step, pid: nat, conf: Conf, q: nat)
    requires Climbed(s, conf) && pid in s.runs && q in s.runs && s.runs[q].verdict.Some?
    ensures var t := RunStep(s, step, pid, conf); q in t.runs && t.runs[q].verdict == s.runs[q].verdict
  {
    assert RunOk(conf, s.runs[q]);
  }

  lemma JudgedStays(s: Sys, t: Sys, c: Consumed)
    requires JudgedEntry(s, c) && c.reader in t.runs && t.runs[c.reader].verdict == s.runs[c.reader].verdict
    ensures JudgedEntry(t, c)
  {
  }

  lemma RunStepJudges(s: Sys, step: Step, pid: nat, conf: Conf)
    requires Climbed(s, conf) && Judged(s) && pid in s.runs
    ensures Judged(RunStep(s, step, pid, conf))
  {
    var t := RunStep(s, step, pid, conf);
    RunStepFiles(s, step, pid, conf);
    assert RunOk(conf, s.runs[pid]);
    if s.runs[pid].verdict.Some? { VerdictStays(s, step, pid, conf, pid); }
    forall i | 0 <= i < |t.consumed|
      ensures JudgedEntry(t, t.consumed[i])
    {
      if i < |s.consumed| {
        assert JudgedEntry(s, s.consumed[i]);
        VerdictStays(s, step, pid, conf, s.consumed[i].reader);
        JudgedStays(s, t, s.consumed[i]);
      }
    }
  }

  lemma NextJudges(s: Sys, step: Step, conf: Conf)
    requires Climbed(s, conf) && Judged(s)
    ensures Judged(Next(s, step, conf))
  {
    var t := Next(s, step, conf);
    match step
    case Tick(_) => SameRunsJudge(s, t);
    case Event(_) => SameRunsJudge(s, t);
    case CtlOn(_) => SameRunsJudge(s, t);
    case UserHard => SameRunsJudge(s, t);
    case Spawn(_) => SameRunsJudge(s, t);
    case _ => if step.pid in s.runs { RunStepJudges(s, step, step.pid, conf); }
  }

  lemma SameRunsJudge(s: Sys, t: Sys)
    requires Judged(s) && t.consumed == s.consumed
    requires forall q :: q in s.runs ==> q in t.runs && t.runs[q] == s.runs[q]
    ensures Judged(t)
  {
    forall i | 0 <= i < |t.consumed|
      ensures JudgedEntry(t, t.consumed[i])
    {
      assert JudgedEntry(s, s.consumed[i]);
    }
  }

  // ---- Stamps are written for hard events only ----

  lemma HardCallsSnoc(calls: seq<Call>, c: Call)
    ensures HardCalls(calls + [c]) == HardCalls(calls) + if c.hard then 1 else 0
  {
    assert (calls + [c])[..|calls|] == calls;
  }

  lemma {:induction false} HardCallsWithout(calls: seq<Call>, i: nat)
    requires i < |calls|
    ensures HardCalls(calls) == HardCalls(calls[..i] + calls[i + 1..]) + if calls[i].hard then 1 else 0
    decreases |calls|
  {
    var n := |calls| - 1;
    if i == n {
      assert calls[..i] + calls[i + 1..] == calls[..n];
    } else {
      HardCallsWithout(calls[..n], i);
      assert calls[..i] + calls[i + 1..] == (calls[..n][..i] + calls[..n][i + 1..]) + [calls[n]];
      HardCallsSnoc(calls[..n][..i] + calls[..n][i + 1..], calls[n]);
    }
  }

  lemma NextWrites(s: Sys, step: Step, conf: Conf)
    requires Written(s)
    ensures Written(Next(s, step, conf))
  {
    match step
    case Tick(_) =>
    case Event(hard) => HardCallsSnoc(s.calls, Call(hard, s.now, s.writes));
    case CtlOn(i) => if i < |s.calls| { HardCallsWithout(s.calls, i); }
    case UserHard =>
    case Spawn(_) =>
    case _ => if step.pid in s.runs { RunStepFiles(s, step, step.pid, conf); }
  }

  lemma NextKeeps(s: Sys, step: Step, conf: Conf)
    requires Inv(s, conf)
    ensures Inv(Next(s, step, conf), conf)
  {
    NextKeepsIntent(s, step, conf);
    NextReadsOnce(s, step, conf);
    NextSpaces(s, step, conf);
    NextLocks(s, step, conf);
    NextClimbs(s, step, conf);
    NextJudges(s, step, conf);
    NextWrites(s, step, conf);
  }

  lemma {:induction false} RunKeeps(s: Sys, steps: seq<Step>, conf: Conf)
    requires Inv(s, conf)
    ensures Inv(Run(s, steps, conf), conf)
    decreases steps
  {
    if steps != [] {
      NextKeeps(s, steps[0], conf);
      RunKeeps(Next(s, steps[0], conf), steps[1..], conf);
    }
  }

  // ---- Where verdicts and outcomes come from ----

  /** What a run knows of its health check and its bring-ups is what these steps said. */
  ghost predicate TraceOf(p: Proc, pid: nat, done: seq<Step>) {
    && (p.verdict.Some? ==> Check(pid, p.verdict.value) in done)
    && (forall ok :: BringUp(ok) in p.trace ==> EndUp(pid, ok) in done)
  }

  ghost predicate FromSteps(s: Sys, done: seq<Step>) {
    forall pid :: pid in s.runs ==> TraceOf(s.runs[pid], pid, done)
  }

  lemma RunFromStep(s: Sys, step: Step, conf: Conf, done: seq<Step>, pid: nat)
    requires FromSteps(s, done) && !step.Tick? && !step.Event? && !step.CtlOn? && !step.UserHard? && !step.Spawn?
    requires pid == step.pid && pid in s.runs
    ensures var t := RunStep(s, step, pid, conf);
            && pid in t.runs && t.runs == s.runs[pid := t.runs[pid]] && TraceOf(t.runs[pid], pid, done + [step])
  {
    assert TraceOf(s.runs[pid], pid, done);
    assert step in done + [step];
  }

  lemma NextFromSteps(s: Sys, step: Step, conf: Conf, done: seq<Step>)
    requires FromSteps(s, done)
    ensures FromSteps(Next(s, step, conf), done + [step])
  {
    var t := Next(s, step, conf);
    if !step.Tick? && !step.Event? && !step.CtlOn? && !step.UserHard? && !step.Spawn? && step.pid in s.runs {
      RunFromStep(s, step, conf, done, step.pid);
    }
    forall pid | pid in t.runs
      ensures TraceOf(t.runs[pid], pid, done + [step])
    {
      if pid in s.runs { assert TraceOf(s.runs[pid], pid, done); }
    }
  }

  lemma {:induction false} RunFromSteps(s: Sys, steps: seq<Step>, conf: Conf, done: seq<Step>)
    requires FromSteps(s, done)
    ensures FromSteps(Run(s, steps, conf), done + steps)
    decreases steps
  {
    if steps == [] {
      assert done + steps == done;
    } else {
      NextFromSteps(s, steps[0], conf, done);
      RunFromSteps(Next(s, steps[0], conf), steps[1..], conf, done + [steps[0]]);
      assert done + [steps[0]] + steps[1..] == done + steps;
    }
  }

  // ---- What the environment did ----

  function Elapsed(steps: seq<Step>): nat {
    if steps == [] then 0 else (if steps[0].Tick? then steps[0].seconds else 0) + Elapsed(steps[1..])
  }

  function HardSteps(steps: seq<Step>): nat {
    if steps == [] then 0 else
    (if steps[0].UserHard? || (steps[0].Event? && steps[0].hard) then 1 else 0) + HardSteps(steps[1..])
  }

  lemma NextHistory(s: Sys, step: Step, conf: Conf)
    ensures var t := Next(s, step, conf);
            && t.now == s.now + (if step.Tick? then step.seconds else 0)
            && |t.events| == |s.events| + (if step.UserHard? || (step.Event? && step.hard) then 1 else 0)
            && t.runs.Keys == s.runs.Keys + if step.Spawn? then {step.pid} else {}
  {
  }

  /** Time passes with the ticks, each hard event is on record, and a run is there once it is started. */
  lemma {:induction false} RunHistory(s: Sys, steps: seq<Step>, conf: Conf)
    ensures var t := Run(s, steps, conf);
            && t.now == s.now + Elapsed(steps) && |t.events| == |s.events| + HardSteps(steps)
            && forall pid :: pid in t.runs <==> pid in s.runs || Spawn(pid) in steps
    decreases steps
  {
    if steps != [] {
      NextHistory(s, steps[0], conf);
      RunHistory(Next(s, steps[0], conf), steps[1..], conf);
      assert forall pid :: Spawn(pid) in steps <==> Spawn(pid) == steps[0] || Spawn(pid) in steps[1..];
    }
  }

  predicate At(s: Sys, pid: nat, pc: Pc) {
    pid in s.runs && s.runs[pid].pc == pc
  }

  predicate BringingUp(s: Sys, pid: nat) {
    pid in s.runs && s.runs[pid].pc.InBringUp?
  }

  /**
   * Over every interleaving: a hard event, debounced or not, is carried by a ctl call on its
   * way or by a stamp written after the event until `hard_requested` reads and removes such a
   * stamp under the lock; every stamp is read at most once, and honoured exactly when
   * it is at most 120 seconds old then; stamps are written for hard events only, one for each;
   * values of `LAST` are at least the debounce window apart; and of two runs past the lock, at most
   * one exists.
   */
  lemma HardIntent(start: nat, steps: seq<Step>, conf: Conf)
    ensures var s := Run(Boot(start), steps, conf);
            && (forall i :: 0 <= i < |s.events| ==> Kept(s, s.events[i]))
            && (forall i, j :: 0 <= i < j < |s.consumed| ==> s.consumed[i].stamp.id != s.consumed[j].stamp.id)
            && (forall i :: 0 <= i < |s.consumed| ==> HonouredYoung(s.consumed[i]))
            && (forall i :: 0 <= i < |s.consumed| ==> s.consumed[i].underLock)
            && s.writes + HardCalls(s.calls) == |s.events| == HardSteps(steps)
            && (forall i :: 0 < i < |s.lasts| ==> s.lasts[i - 1] + conf.debounce <= s.lasts[i])
            && (forall p, q :: p in s.runs && q in s.runs && BringingUp(s, p) && PastLock(s.runs[q].pc) ==> p == q)
  {
    BootInv(start, conf);
    RunKeeps(Boot(start), steps, conf);
    RunHistory(Boot(start), steps, conf);
  }

  lemma BootInv(start: nat, conf: Conf)
    ensures Inv(Boot(start), conf)
  {
  }

  /**
   * Over every interleaving, for every run: each stamp it read within 120 seconds after a failed
   * health check is in its trace as an honoured request, and a reload follows it at once; so in every
   * bring-up all of them have been answered by a reload. Bring-ups and reloads stay within the bounds
   * of the ladder.
   */
  lemma HonouredIsReloaded(start: nat, steps: seq<Step>, conf: Conf, pid: nat)
    ensures var s := Run(Boot(start), steps, conf);
            pid in s.runs ==>
              && Honours(s.runs[pid].trace) == HonouredBy(s.consumed, pid)
              && (BringingUp(s, pid) ==> HonouredFirst(s.runs[pid].trace))
              && Bounded(conf, s.runs[pid].trace)
  {
    BootInv(start, conf);
    RunKeeps(Boot(start), steps, conf);
    var s := Run(Boot(start), steps, conf);
    if pid in s.runs { KilledOk(conf, s.runs[pid]); }
  }

  /**
   * Over every interleaving: a stamp is discarded exactly by a run whose health check said that the
   * link is healthy, and that answer was given in a step. A run that was told so does nothing; one
   * that was told otherwise, unless it is killed, ends only after a successful bring-up, or after
   * all ROUNDS*TRIES attempts have failed; it has honoured every request by then.
   */
  lemma HealthDecides(start: nat, steps: seq<Step>, conf: Conf)
    ensures var s := Run(Boot(start), steps, conf);
            && (forall i :: 0 <= i < |s.consumed| ==>
                  var c := s.consumed[i];
                  && c.verdict.Some? && Check(c.reader, c.verdict.value) in steps
                  && (c.discarded <==> c.verdict.value))
            && (forall pid :: pid in s.runs ==> TraceOf(s.runs[pid], pid, steps))
            && (forall pid :: pid in s.runs && s.runs[pid].verdict != Some(false) ==> s.runs[pid].trace == [])
            && (forall pid :: pid in s.runs && s.runs[pid].verdict == Some(false) && s.runs[pid].pc.Gone? ==>
                  var trace := s.runs[pid].trace;
                  && HonouredFirst(trace)
                  && (EndsInSuccess(trace) || (AllFailed(trace) && conf.rounds * conf.tries <= BringUps(trace))))
  {
    BootInv(start, conf);
    RunKeeps(Boot(start), steps, conf);
    RunFromSteps(Boot(start), steps, conf, []);
    assert [] + steps == steps;
    var s := Run(Boot(start), steps, conf);
    forall i | 0 <= i < |s.consumed|
      ensures JudgedEntry(s, s.consumed[i]) && TraceOf(s.runs[s.consumed[i].reader], s.consumed[i].reader, steps)
    {
    }
    forall pid | pid in s.runs
      ensures RunOk(conf, s.runs[pid])
    {
    }
  }

  // ---- What the scripts do when they may ----

  /** A run gets past the lock exactly when nobody holds it, and the lock is free exactly when nobody is past it. */
  lemma LockedOutIff(s: Sys, pid: nat, conf: Conf)
    requires Locked(s) && At(s, pid, Starting)
    ensures At(Next(s, TryLock(pid), conf), pid, Checking) <==> forall q :: q in s.runs ==> !PastLock(s.runs[q].pc)
    ensures !At(Next(s, TryLock(pid), conf), pid, Checking) ==> At(Next(s, TryLock(pid), conf), pid, Gone)
  {
  }

  /** A run that is killed is over with what it has done, and a lock it held is free. */
  lemma KilledFreesLock(s: Sys, pid: nat, conf: Conf)
    requires Locked(s) && pid in s.runs && s.runs[pid].pc != Gone
    ensures var t := Next(s, Kill(pid), conf);
            && At(t, pid, Killed) && t.runs[pid].trace == s.runs[pid].trace && t.stamp == s.stamp
            && t.lock == if s.lock == Some(pid) then None else s.lock
  {
  }

  /**
   * An event is handed to ctl, as hard as it is, exactly when none was in the debounce window
   * before it; and no event of either kind takes a call away.
   */
  lemma PassedOnIff(s: Sys, hard: bool, conf: Conf)
    requires Spaced(s, conf.debounce) && conf.debounce <= s.now
    ensures var s' := Next(s, Event(hard), conf);
            if exists i :: 0 <= i < |s.lasts| && s.now < s.lasts[i] + conf.debounce then
              s'.calls == s.calls && s'.lasts == s.lasts
            else
              s'.calls == s.calls + [Call(hard, s.now, s.writes)] && s'.lasts == s.lasts + [s.now]
  {
    if s.last.Some? { LastIsLargest(s, conf.debounce, |s.lasts| - 1); }
  }

  lemma {:induction false} LastIsLargest(s: Sys, debounce: nat, n: nat)
    requires Spaced(s, debounce) && n < |s.lasts|
    ensures forall i :: 0 <= i <= n ==> s.lasts[i] <= s.lasts[n]
    decreases n
  {
    if n > 0 { LastIsLargest(s, debounce, n - 1); }
  }
}
