/** The recovery actions of one run of the ensure script, and how many of them there can be. */
module Ladder {
  /** `Honour` is a hard request that was read as valid outside the healthy fast path. */
  datatype Action = Honour | Reload | BringUp(ok: bool)

  function Count(trace: seq<Action>, p: Action -> bool): nat {
    if trace == [] then 0 else Count(trace[..|trace| - 1], p) + if p(trace[|trace| - 1]) then 1 else 0
  }

  function BringUps(trace: seq<Action>): nat { Count(trace, (a: Action) => a.BringUp?) }
  function Reloads(trace: seq<Action>): nat { Count(trace, (a: Action) => a.Reload?) }
  function Honours(trace: seq<Action>): nat { Count(trace, (a: Action) => a.Honour?) }

  lemma CountSnoc(trace: seq<Action>, a: Action)
    ensures BringUps(trace + [a]) == BringUps(trace) + if a.BringUp? then 1 else 0
    ensures Reloads(trace + [a]) == Reloads(trace) + if a.Reload? then 1 else 0
    ensures Honours(trace + [a]) == Honours(trace) + if a.Honour? then 1 else 0
  {
    assert (trace + [a])[..|trace|] == trace;
  }

  /** Every honoured request is answered by a reload before anything else happens. */
  ghost predicate HonouredFirst(trace: seq<Action>) {
    forall i :: 0 <= i < |trace| && trace[i] == Honour ==> i + 1 < |trace| && trace[i + 1] == Reload
  }

  /** No bring-up so far has succeeded. */
  ghost predicate AllFailed(trace: seq<Action>) {
    forall i :: 0 <= i < |trace| ==> trace[i] != BringUp(true)
  }

  /** The trace ends with the only bring-up that succeeded. */
  ghost predicate EndsInSuccess(trace: seq<Action>) {
    trace != [] && trace[|trace| - 1] == BringUp(true) && AllFailed(trace[..|trace| - 1])
  }

  /** The actions of one attempt: a fresh hard request is answered first. */
  function Attempt(honoured: bool, ok: bool): seq<Action> {
    (if honoured then [Honour, Reload] else []) + [BringUp(ok)]
  }

  /** A trace with no success yet, with this many bring-ups and this many reloads beside those that answer a request. */
  ghost predicate Climbing(trace: seq<Action>, ups: nat, spare: nat) {
    HonouredFirst(trace) && AllFailed(trace) && BringUps(trace) == ups && Reloads(trace) == spare + Honours(trace)
  }

  /** An honoured request and the reload that answers it. */
  lemma AnswerClimbs(trace: seq<Action>, ups: nat, spare: nat)
    requires Climbing(trace, ups, spare)
    ensures Climbing(trace + [Honour, Reload], ups, spare)
  {
    var t1 := trace + [Honour];
    CountSnoc(trace, Honour);
    CountSnoc(t1, Reload);
    assert t1 + [Reload] == trace + [Honour, Reload];
  }

  lemma UpClimbs(trace: seq<Action>, ups: nat, spare: nat, ok: bool)
    requires Climbing(trace, ups, spare)
    ensures var after := trace + [BringUp(ok)];
            && HonouredFirst(after) && BringUps(after) == ups + 1 && Reloads(after) == spare + Honours(after)
            && (if ok then EndsInSuccess(after) else Climbing(after, ups + 1, spare))
  {
    CountSnoc(trace, BringUp(ok));
    var after := trace + [BringUp(ok)];
    assert after[..|after| - 1] == trace;
  }

  lemma AttemptClimbs(trace: seq<Action>, ups: nat, spare: nat, honoured: bool, ok: bool)
    requires Climbing(trace, ups, spare)
    ensures var after := trace + Attempt(honoured, ok);
            && HonouredFirst(after) && BringUps(after) == ups + 1 && Reloads(after) == spare + Honours(after)
            && (if ok then EndsInSuccess(after) else Climbing(after, ups + 1, spare))
  {
    if honoured {
      AnswerClimbs(trace, ups, spare);
      UpClimbs(trace + [Honour, Reload], ups, spare, ok);
      assert trace + [Honour, Reload] + [BringUp(ok)] == trace + Attempt(true, ok);
    } else {
      UpClimbs(trace, ups, spare, ok);
      assert trace + [BringUp(ok)] == trace + Attempt(false, ok);
    }
  }

  lemma ReloadClimbs(trace: seq<Action>, ups: nat, spare: nat)
    requires Climbing(trace, ups, spare)
    ensures Climbing(trace + [Reload], ups, spare + 1)
  {
    CountSnoc(trace, Reload);
  }

  /** The reloads between rounds: one after each round but the last. */
  function SpareReloads(rounds: nat): nat {
    if rounds == 0 then 0 else rounds - 1
  }

  /** Growing the number of rounds grows the number of attempts. */
  lemma {:induction false} MulLe(a: nat, b: nat, t: nat)
    requires a <= b
    ensures a * t <= b * t && (a > 0 ==> a * t == (a - 1) * t + t)
  {
    if a < b {
      MulLe(a, b - 1, t);
      assert b * t == (b - 1) * t + t;
    }
  }
}
