/** The ring operations of the driver, in place on the descriptor array. */
module RingDevice {
  import opened Bytes
  import opened Mask
  import opened TdRing
  import opened RxRing

  /** One turn of the poll loop with no modem step inside it. */
  function Turn(r: Ring): (r': Ring)
    requires RingOk(r)
    ensures RingOk(r')
  {
    Post(r).(handled := Next(r.handled, r.depth))
  }

  /** The poll loop run to its end. */
  function Drained(r: Ring): (r': Ring)
    requires RingOk(r)
    ensures RingOk(r')
    decreases Span(r.depth, r.handled, r.rptr)
  {
    if HasData(r) then Drained(Turn(r)) else r
  }

  /** A turn of the loop is the steps `Copy`, `Repost`, `Advance` of the interleaving model. */
  lemma TurnIsThreeSteps(s: Rx, limit: nat)
    requires RxInv(s) && s.pc == Idle && HasData(s.ring)
    ensures var s' := RxRun(s, [Copy(limit), Repost, Advance]);
            && s'.pc == Idle && s'.ring == Turn(s.ring)
            && s'.delivered == s.delivered + [Cut(Message(s.ring.tds[s.ring.handled]), limit)]
  {
    var s1 := RxNext(s, Copy(limit));
    var s2 := RxNext(s1, Repost);
    var s3 := RxNext(s2, Advance);
    assert [Copy(limit), Repost, Advance][1..] == [Repost, Advance];
    assert [Repost, Advance][1..] == [Advance];
    assert [Advance][1..] == [];
    assert RxRun(s3, []) == s3;
    assert RxRun(s2, [Advance]) == s3;
    assert RxRun(s1, [Repost, Advance]) == s3;
  }

  /** Between turns the write pointer is one behind `last_handled`; a turn keeps that and spares the unread slots. */
  lemma TurnKeeps(r: Ring)
    requires RingOk(r) && Next(r.wptr, r.depth) == r.handled && HasData(r)
    ensures !Full(r)
    ensures Next(Turn(r).wptr, r.depth) == Turn(r).handled
    ensures Window(r, r.handled, r.rptr) == [Message(r.tds[r.handled])] + Window(Turn(r), Turn(r).handled, r.rptr)
  {
    WindowShrink(r, r.handled, r.rptr);
    WindowFrame(r, Turn(r), Turn(r).handled, r.rptr, r.wptr);
  }

  /** A message is never longer than a page. */
  lemma MessageFits(r: Ring, from: nat, to: nat)
    requires RingOk(r) && from < r.depth && to < r.depth && from != to
    ensures Cut(Window(r, from, to)[0], r.pageSize) == Window(r, from, to)[0]
  {
    WindowShrink(r, from, to);
  }

  lemma HeadAndTail(out: seq<seq<u8>>, window: seq<seq<u8>>)
    requires window != []
    ensures out + window == out + [window[0]] + window[1..]
  {
  }

  class TdRingDevice {
    const depth: nat
    const pageSize: nat
    const tds: array<Td>
    var sWptr: nat
    var sRptr: nat
    var lastHandled: nat

    ghost function State(): Ring
      reads this, tds
    {
      Ring(depth, pageSize, tds[..], sWptr, sRptr, lastHandled)
    }

    ghost predicate Valid()
      reads this, tds
    {
      RingOk(State())
    }

    /** `td_ring_create`; its `BUG_ON`s are the preconditions. */
    constructor Create(depth: nat, pageSize: nat)
      requires 0 < depth < 256 && And(depth, depth - 1) == 0 && pageSize <= TD_MAX_PAGE_SIZE
      ensures Valid() && fresh(tds) && Created(State())
      ensures this.depth == depth && this.pageSize == pageSize
      ensures Pending(State()) == []
    {
      PowerOfTwoTest(depth);
      this.depth, this.pageSize := depth, pageSize;
      tds := new Td[depth](i => Td(Zeros(pageSize), 0));
      sWptr, sRptr, lastHandled := 0, 0, 0;
    }

    /** `td_ring_full` */
    method IsFull() returns (full: bool)
      requires Valid()
      ensures full == Full(State())
      ensures full <==> |Pending(State())| == depth - 1
    {
      var wptr := Next(sWptr, depth);
      full := wptr == sRptr;
      FullIsCapacity(State());
    }

    /** `td_ring_write`: its last `BUG_ON` cannot fire, since the caller checked `td_ring_full`. */
    method Write(buf: seq<u8>)
      requires Valid() && !Full(State()) && |buf| <= pageSize
      modifies this`sWptr, tds
      ensures Valid() && State() == TdWrite(old(State()), buf)
      ensures Pending(State()) == old(Pending(State())) + [buf]
    {
      WriteAppends(State(), buf);
      var wptr := sWptr;
      tds[wptr] := Td(Patch(tds[wptr].page, 0, buf), |buf|);
      wptr := Next(wptr, depth);
      assert wptr != sRptr;
      sWptr := wptr;
    }

    /** `qp_write` */
    method QpWrite(error: bool, buf: seq<u8>) returns (ret: int)
      requires Valid()
      modifies this`sWptr, tds
      ensures Valid() && (State(), ret) == TdRing.QpWrite(old(State()), error, buf)
      ensures Pending(State())
              == old(Pending(State())) + (if error || old(Full(State())) then [] else [Cut(buf, pageSize)])
    {
      if error { return -ENODEV; }
      var full := IsFull();
      if full { return 0; }
      var size := |buf|;
      if size > pageSize { size := pageSize; }
      assert buf[..size] == Cut(buf, pageSize);
      Write(buf[..size]);
      return size;
    }

    /** `td_ring_read`: returns whether its `BUG_ON` would fire. */
    method Read() returns (bug: bool)
      requires Valid()
      modifies this`sWptr, tds
      ensures Valid() && State() == Post(old(State())) && bug == old(Full(State()))
    {
      var wptr := sWptr;
      tds[wptr] := tds[wptr].(length := pageSize);
      wptr := Next(wptr, depth);
      bug := wptr == sRptr;
      sWptr := wptr;
    }

    /** The Rx half of `qp_start`. */
    method QpStart()
      requires Created(State())
      modifies this`sWptr, tds
      ensures Valid() && State() == PostAll(old(State()))
      ensures sWptr == depth - 1 && Next(sWptr, depth) == lastHandled
      ensures forall i :: 0 <= i < depth ==>
                tds[i] == if i < depth - 1 then old(tds[i]).(length := pageSize) else old(tds[i])
    {
      PostAllPointers(State());
      var full := IsFull();
      while !full
        invariant Valid() && full == Full(State())
        invariant PostAll(State()) == old(PostAll(State()))
        invariant sRptr == old(sRptr) && lastHandled == old(lastHandled)
        decreases depth - 1 - Span(depth, sRptr, sWptr), !full
      {
        var bug := Read();
        assert !bug;
        full := IsFull();
      }
    }

    /**
     * The body of the poll loops: copy out at most `size` bytes of the oldest message, re-post,
     * move `last_handled` on.
     */
    method HandleOne(size: nat) returns (out: seq<u8>)
      requires Valid() && Next(sWptr, depth) == lastHandled && sRptr != lastHandled
      modifies this`sWptr, this`lastHandled, tds
      ensures Valid() && State() == Turn(old(State())) && Next(sWptr, depth) == lastHandled
      ensures out == Cut(old(Window(State(), lastHandled, sRptr))[0], size)
      ensures Window(State(), lastHandled, sRptr) == old(Window(State(), lastHandled, sRptr))[1..]
    {
      TurnKeeps(State());
      var idx := lastHandled;
      var nread := tds[idx].length;
      if nread > size { nread := size; }
      out := tds[idx].page[..nread];
      var bug := Read();
      assert !bug;
      lastHandled := Next(idx, depth);
    }

    /** `tty_poll_qp` without a concurrent modem: delivers every completed message, once and in order. */
    method TtyPoll() returns (out: seq<seq<u8>>)
      requires Valid() && Next(sWptr, depth) == lastHandled
      modifies this`sWptr, this`lastHandled, tds
      ensures Valid() && State() == Drained(old(State()))
      ensures Next(sWptr, depth) == lastHandled && !HasData(State())
      ensures out == old(Window(State(), lastHandled, sRptr))
    {
      out := [];
      while sRptr != lastHandled
        invariant Valid() && Next(sWptr, depth) == lastHandled && sRptr == old(sRptr)
        invariant Drained(State()) == Drained(old(State()))
        invariant out + Window(State(), lastHandled, sRptr) == old(Window(State(), lastHandled, sRptr))
        decreases Span(depth, lastHandled, sRptr)
      {
        ghost var window := Window(State(), lastHandled, sRptr);
        MessageFits(State(), lastHandled, sRptr);
        var message := HandleOne(pageSize);
        HeadAndTail(out, window);
        out := out + [message];
      }
    }

    /** `cdev_read` once there is data: what does not fit the reader's buffer is dropped. */
    method CdevRead(size: nat) returns (out: seq<u8>)
      requires Valid() && Next(sWptr, depth) == lastHandled && sRptr != lastHandled
      modifies this`sWptr, this`lastHandled, tds
      ensures Valid() && State() == Turn(old(State())) && Next(sWptr, depth) == lastHandled
      ensures out == Cut(old(Window(State(), lastHandled, sRptr))[0], size)
      ensures Window(State(), lastHandled, sRptr) == old(Window(State(), lastHandled, sRptr))[1..]
    {
      out := HandleOne(size);
    }
  }
}
