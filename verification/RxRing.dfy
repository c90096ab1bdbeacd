/**
 * An Rx ring: the poll loop of the driver against the modem, step by step.
 *
 * The loop body is cut into its three visible actions, and the modem may complete
 * descriptors between any two of them.
 */
module RxRing {
  import opened Bytes
  import opened TdRing

  /** Where the driver stands in the body of its poll loop. */
  datatype Pc = Idle | Copied | Posted

  /**
   * `posted` counts the descriptors handed to the modem, `completed` lists what it filled
   * in, `delivered` what the driver passed up and `limits` the reader's buffer sizes.
   * `bug` records that a `BUG_ON` fired.
   */
  datatype Rx = Rx(ring: Ring, pc: Pc, bug: bool, posted: nat,
                   completed: seq<seq<u8>>, delivered: seq<seq<u8>>, limits: seq<nat>)

  /** `td_ring_read`: post the descriptor at the write pointer. */
  function Post(r: Ring): (r': Ring)
    requires RingOk(r)
    ensures RingOk(r')
  {
    r.(tds := r.tds[r.wptr := r.tds[r.wptr].(length := r.pageSize)], wptr := Next(r.wptr, r.depth))
  }

  predicate HasData(r: Ring) {
    r.rptr != r.handled
  }

  /** `qp_start` on a freshly created ring: post descriptors until the ring is full. */
  function PostAll(r: Ring): (r': Ring)
    requires RingOk(r)
    ensures RingOk(r') && Full(r')
    decreases r.depth - 1 - Span(r.depth, r.rptr, r.wptr)
  {
    if Full(r) then r else PostAll(Post(r))
  }

  /** The ring `td_ring_create` leaves behind. */
  ghost predicate Created(r: Ring) {
    RingOk(r) && r.wptr == 0 && r.rptr == 0 && r.handled == 0
  }

  /** The start loop moves nothing but the write pointer, keeps every page and posts full-length descriptors. */
  lemma {:induction false} PostAllPointers(r: Ring)
    requires RingOk(r) && r.rptr == 0 && r.handled == 0
    ensures PostAll(r) == r.(tds := PostAll(r).tds, wptr := r.depth - 1)
    ensures forall i :: 0 <= i < r.depth ==>
              PostAll(r).tds[i] == if r.wptr <= i < r.depth - 1 then r.tds[i].(length := r.pageSize) else r.tds[i]
    decreases r.depth - 1 - Span(r.depth, r.rptr, r.wptr)
  {
    if !Full(r) { PostAllPointers(Post(r)); }
  }

  function Start(r: Ring): Rx
    requires Created(r)
  {
    Rx(PostAll(r), Idle, false, r.depth - 1, [], [], [])
  }

  datatype Step =
    | Complete(msg: seq<u8>)  // the modem fills in the next descriptor
    | Copy(limit: nat)        // the driver sees data and copies out at most `limit` bytes of it
    | Repost                  // `td_ring_read`
    | Advance                 // `last_handled` moves on

  /** A step that is not enabled leaves the state alone. */
  function RxNext(s: Rx, step: Step): (s': Rx)
    requires RingOk(s.ring)
    ensures RingOk(s'.ring)
  {
    var r := s.ring;
    match step
    case Complete(msg) =>
      if r.rptr == r.wptr || |msg| > r.pageSize then s else
      s.(ring := r.(tds := r.tds[r.rptr := Store(r.tds[r.rptr], msg)], rptr := Next(r.rptr, r.depth)),
         completed := s.completed + [msg])
    case Copy(limit) =>
      if s.pc != Idle || !HasData(r) then s else
      s.(pc := Copied, delivered := s.delivered + [Cut(Message(r.tds[r.handled]), limit)], limits := s.limits + [limit])
    case Repost =>
      if s.pc != Copied then s else
      s.(ring := Post(r), pc := Posted, posted := s.posted + 1, bug := s.bug || Next(r.wptr, r.depth) == r.rptr)
    case Advance =>
      if s.pc != Posted then s else
      s.(ring := r.(handled := Next(r.handled, r.depth)), pc := Idle)
  }

  function RxRun(s: Rx, steps: seq<Step>): (s': Rx)
    requires RingOk(s.ring)
    ensures RingOk(s'.ring)
    decreases steps
  {
    if steps == [] then s else RxRun(RxNext(s, steps[0]), steps[1..])
  }

  /** The first slot the driver has still to copy out. */
  function Unread(s: Rx): nat
    requires RingOk(s.ring)
  {
    if s.pc == Idle then s.ring.handled else Next(s.ring.handled, s.ring.depth)
  }

  /** Descriptors posted and neither completed nor needed: what the modem may still fill in. */
  ghost predicate RxInv(s: Rx) {
    && RingOk(s.ring) && !s.bug
    // s_wptr + 1 equals last_handled, except between the re-post and the move of last_handled
    && (if s.pc == Posted then s.ring.wptr else Next(s.ring.wptr, s.ring.depth)) == s.ring.handled
    && (s.pc == Copied ==> s.ring.rptr != s.ring.handled)
    && (s.pc == Posted ==> s.ring.depth > 1)
    // the counters behind the pointers: delivered <= completed <= posted
    && |s.delivered| == |s.limits| <= |s.completed| <= s.posted
    && s.posted == |s.delivered| + s.ring.depth - 1 - (if s.pc == Copied then 1 else 0)
    && |s.completed| - |s.delivered| == Span(s.ring.depth, Unread(s), s.ring.rptr)
    // nothing is lost, repeated or reordered
    && Window(s.ring, Unread(s), s.ring.rptr) == s.completed[|s.delivered|..]
    && (forall i :: 0 <= i < |s.delivered| ==> s.delivered[i] == Cut(s.completed[i], s.limits[i]))
  }

  lemma StartInv(r: Ring)
    requires Created(r)
    ensures RxInv(Start(r))
  {
    PostAllPointers(r);
  }

  lemma CompleteKeepsInv(s: Rx, msg: seq<u8>)
    requires RxInv(s)
    ensures RxInv(RxNext(s, Complete(msg)))
  {
    var r := s.ring;
    if r.rptr != r.wptr && |msg| <= r.pageSize {
      CompleteAppends(r, Unread(s), msg);
      CompletedInv(s, RxNext(s, Complete(msg)), msg);
    }
  }

  lemma CompletedInv(s: Rx, s': Rx, msg: seq<u8>)
    requires RxInv(s) && RingOk(s'.ring) && s.ring.rptr != s.ring.wptr
    requires s' == s.(ring := s.ring.(tds := s'.ring.tds, rptr := Next(s.ring.rptr, s.ring.depth)),
                      completed := s.completed + [msg])
    requires Window(s'.ring, Unread(s), s'.ring.rptr) == Window(s.ring, Unread(s), s.ring.rptr) + [msg]
    ensures RxInv(s')
  {
    assert s'.completed[|s.delivered|..] == s.completed[|s.delivered|..] + [msg];
    assert forall i :: 0 <= i < |s.delivered| ==> s'.completed[i] == s.completed[i];
  }

  /** A completed descriptor joins the end of the unread window and disturbs none of it. */
  lemma CompleteAppends(r: Ring, from: nat, msg: seq<u8>)
    requires RingOk(r) && from < r.depth && |msg| <= r.pageSize && Next(r.rptr, r.depth) != from
    ensures var r' := r.(tds := r.tds[r.rptr := Store(r.tds[r.rptr], msg)], rptr := Next(r.rptr, r.depth));
            RingOk(r') && Window(r', from, r'.rptr) == Window(r, from, r.rptr) + [msg]
  {
    var r' := r.(tds := r.tds[r.rptr := Store(r.tds[r.rptr], msg)], rptr := Next(r.rptr, r.depth));
    WindowFrame(r, r', from, r.rptr, r.rptr);
    WindowGrow(r', from, r.rptr);
    assert Message(r'.tds[r.rptr]) == msg;
  }

  lemma CopyKeepsInv(s: Rx, limit: nat)
    requires RxInv(s)
    ensures RxInv(RxNext(s, Copy(limit)))
  {
    var r := s.ring;
    var s' := RxNext(s, Copy(limit));
    if s.pc == Idle && HasData(r) {
      WindowShrink(r, r.handled, r.rptr);
      assert Message(r.tds[r.handled]) == s.completed[|s.delivered|..][0];
      assert s.completed[|s.delivered|..][1..] == s.completed[|s'.delivered|..];
    }
  }

  lemma RepostKeepsInv(s: Rx)
    requires RxInv(s)
    ensures RxInv(RxNext(s, Repost))
  {
    if s.pc == Copied {
      WindowFrame(s.ring, RxNext(s, Repost).ring, Unread(s), s.ring.rptr, s.ring.wptr);
    }
  }

  lemma AdvanceKeepsInv(s: Rx)
    requires RxInv(s)
    ensures RxInv(RxNext(s, Advance))
  {
    if s.pc == Posted {
      var s' := RxNext(s, Advance);
      WindowFrame(s.ring, s'.ring, Unread(s), s.ring.rptr, s.ring.handled);
    }
  }

  lemma StepKeepsInv(s: Rx, step: Step)
    requires RxInv(s)
    ensures RxInv(RxNext(s, step))
  {
    match step
    case Complete(msg) => CompleteKeepsInv(s, msg);
    case Copy(limit) => CopyKeepsInv(s, limit);
    case Repost => RepostKeepsInv(s);
    case Advance => AdvanceKeepsInv(s);
  }

  lemma {:induction false} RunKeepsInv(s: Rx, steps: seq<Step>)
    requires RxInv(s)
    ensures RxInv(RxRun(s, steps))
    decreases steps
  {
    if steps != [] {
      StepKeepsInv(s, steps[0]);
      RunKeepsInv(RxNext(s, steps[0]), steps[1..]);
    }
  }

  /**
   * From `qp_start` on, whatever the interleaving: no `BUG_ON` fires, the modem never
   * fills in a descriptor it was not given, and what the driver delivered is a prefix
   * of what the modem completed, message by message, cut only to the reader's buffer.
   */
  lemma RxSafety(r: Ring, steps: seq<Step>)
    requires Created(r)
    ensures var s := RxRun(Start(r), steps);
            && !s.bug
            && (s.pc == Idle ==> Next(s.ring.wptr, s.ring.depth) == s.ring.handled)
            && |s.delivered| == |s.limits| <= |s.completed| <= s.posted
            && (forall i :: 0 <= i < |s.delivered| ==> s.delivered[i] == Cut(s.completed[i], s.limits[i]))
            && Window(s.ring, Unread(s), s.ring.rptr) == s.completed[|s.delivered|..]
  {
    StartInv(r);
    RunKeepsInv(Start(r), steps);
  }

  /** The slot `td_ring_read` re-posts holds no message the driver has still to read. */
  lemma RepostSparesUnread(s: Rx, i: nat)
    requires RxInv(s) && s.pc == Copied && i < Span(s.ring.depth, Unread(s), s.ring.rptr)
    ensures Slot(s.ring.depth, Unread(s), i) != s.ring.wptr
  {
  }

  /** The loop guard `qp_has_data` is exact: it fails only when everything completed has been delivered. */
  lemma DrainedWhenNoData(s: Rx)
    requires RxInv(s) && s.pc == Idle
    ensures HasData(s.ring) <==> |s.delivered| < |s.completed|
  {
  }
}
