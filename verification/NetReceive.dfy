/** The receive side of the network device: the poll loop hands every completed page to the frame decoder. */
module NetReceive {
  import opened Bytes
  import opened TdRing
  import opened RxRing
  import opened RingDevice
  import opened MuxFrame
  import opened MuxDecode

  /**
   * The packets of one page that reach the network stack; the decoder looks at the whole page, not
   * only at its message.
   */
  function Accepted(page: seq<u8>): seq<Packet> {
    var o := Locate(page, false);
    if o.Table? then Scan(page, o.at, o.count, 0).0 else []
  }

  function Received(pages: seq<seq<u8>>): seq<Packet> {
    if pages == [] then [] else Accepted(pages[0]) + Received(pages[1..])
  }

  /** The pages in the slots from `from` up to but not including `to`, in order. */
  function Pages(r: Ring, from: nat, to: nat): (w: seq<seq<u8>>)
    requires RingOk(r) && from < r.depth && to < r.depth
    ensures |w| == Span(r.depth, from, to)
  {
    seq(Span(r.depth, from, to), i requires 0 <= i < Span(r.depth, from, to) => r.tds[Slot(r.depth, from, i)].page)
  }

  /** A turn of the loop takes the oldest page and changes none of the others. */
  lemma TurnTakesPage(r: Ring)
    requires RingOk(r) && Next(r.wptr, r.depth) == r.handled && HasData(r)
    ensures Pages(r, r.handled, r.rptr) == [r.tds[r.handled].page] + Pages(Turn(r), Turn(r).handled, r.rptr)
  {
    var from := Turn(r).handled;
    forall i | 0 <= i < Span(r.depth, from, r.rptr)
      ensures Slot(r.depth, from, i) == Slot(r.depth, r.handled, i + 1) != r.wptr
    {
    }
  }

  /** The receive loop of `net_poll` without a concurrent modem. */
  method PollFrames(ring: TdRingDevice) returns (received: seq<Packet>)
    requires ring.Valid() && Next(ring.sWptr, ring.depth) == ring.lastHandled
    modifies ring`sWptr, ring`lastHandled, ring.tds
    ensures ring.Valid() && ring.State() == Drained(old(ring.State()))
    ensures Next(ring.sWptr, ring.depth) == ring.lastHandled && !HasData(ring.State())
    ensures received == Received(old(Pages(ring.State(), ring.lastHandled, ring.sRptr)))
  {
    received := [];
    ghost var all := Received(Pages(ring.State(), ring.lastHandled, ring.sRptr));
    assert [] + all == all;
    while ring.sRptr != ring.lastHandled
      invariant ring.Valid() && Next(ring.sWptr, ring.depth) == ring.lastHandled && ring.sRptr == old(ring.sRptr)
      invariant Drained(ring.State()) == Drained(old(ring.State()))
      invariant received + Received(Pages(ring.State(), ring.lastHandled, ring.sRptr)) == all
      decreases Span(ring.depth, ring.lastHandled, ring.sRptr)
    {
      ghost var r := ring.State();
      TurnKeeps(r);
      TurnTakesPage(r);
      var idx := ring.lastHandled;
      var page := ring.tds[idx].page;
      var got, located, end := HandleFrame(page);
      var bug := ring.Read();
      assert !bug;
      ring.lastHandled := Next(idx, ring.depth);
      assert ring.State() == Turn(r);
      ReceivedStep(received, page, Pages(Turn(r), Turn(r).handled, r.rptr));
      received := received + got;
    }
    assert received + [] == received;
  }

  lemma ReceivedStep(received: seq<Packet>, page: seq<u8>, rest: seq<seq<u8>>)
    ensures received + Received([page] + rest) == received + Accepted(page) + Received(rest)
  {
    assert ([page] + rest)[1..] == rest;
    Assoc(received, Accepted(page), Received(rest));
  }

  // ---- What a well-formed stream of frames delivers ----

  /** `page` starts with a frame whose ADTH tag is at `a` and whose bounds `bs` cut its body into `cells`. */
  ghost predicate Carries(page: seq<u8>, body: seq<u8>, table: seq<u8>, a: nat, bs: seq<Bound>, cells: seq<Packet>) {
    && Readable(page, body, table, a) && Linked(page, a, false)
    && |table| == BOUND * |bs| && Cells(body, table, bs, cells)
  }

  ghost predicate CarriesSome(page: seq<u8>, cells: seq<Packet>) {
    exists body: seq<u8>, table: seq<u8>, a: nat, bs: seq<Bound> :: Carries(page, body, table, a, bs, cells)
  }

  lemma ScanAccepted(page: seq<u8>, at: nat, count: nat, cells: seq<Packet>)
    requires Locate(page, false) == Table(at, count) && at + BOUND * count <= |page|
    requires Slices(page, at, count, 0) == Some(cells)
    ensures Accepted(page) == NonEmpty(UpToForeign(cells))
    ensures Scan(page, at, count, 0).1 == if |UpToForeign(cells)| == |cells| then Finished else NotIp
  {
    KernelReceives(page, at, count, 0);
  }

  lemma CarriedSlices(page: seq<u8>, body: seq<u8>, table: seq<u8>, a: nat, bs: seq<Bound>, cells: seq<Packet>)
    requires Carries(page, body, table, a, bs, cells)
    ensures var at := a + NEXT_HEADER + 4;
            && Locate(page, false) == Table(at, |bs|) && at + BOUND * |bs| <= |page|
            && Slices(page, at, |bs|, 0) == Some(cells)
  {
    CellsLocated(page, body, table, a, bs, cells, false);
  }

  /** The decoder hands up exactly the nonempty packets in front of the first one that is not IPv4 or IPv6. */
  lemma FrameReceived(page: seq<u8>, cells: seq<Packet>)
    requires CarriesSome(page, cells)
    ensures Accepted(page) == NonEmpty(UpToForeign(cells))
  {
    var body: seq<u8>, table: seq<u8>, a: nat, bs: seq<Bound> :| Carries(page, body, table, a, bs, cells);
    CarriedSlices(page, body, table, a, bs, cells);
    ScanAccepted(page, a + NEXT_HEADER + 4, |bs|, cells);
  }

  /** Packet `k` is the first that is neither empty nor IPv4 nor IPv6. */
  ghost predicate FirstForeign(cells: seq<Packet>, k: nat) {
    k < |cells| && Foreign(cells, k) && forall i :: 0 <= i < k ==> !Foreign(cells, i)
  }

  lemma ForeignCuts(cells: seq<Packet>, k: nat)
    requires FirstForeign(cells, k)
    ensures UpToForeign(cells) == cells[..k] && NonEmpty(UpToForeign(cells)) != NonEmpty(cells)
  {
    UpToForeignIs(cells, k);
    NonEmptyCut(cells, k);
  }

  /** Every nonempty packet starts with a byte in 0x40..0x4f or 0x60..0x6f. */
  ghost predicate AllIp(cells: seq<Packet>) {
    forall i :: 0 <= i < |cells| ==> !Foreign(cells, i)
  }

  /** Either there is no such packet, or a first one. */
  lemma {:induction false} FindForeign(cells: seq<Packet>, from: nat) returns (k: nat)
    requires from <= |cells| && forall i :: 0 <= i < from ==> !Foreign(cells, i)
    ensures if k == |cells| then AllIp(cells) else FirstForeign(cells, k)
    decreases |cells| - from
  {
    k := from;
    if from < |cells| && !Foreign(cells, from) { k := FindForeign(cells, from + 1); }
  }

  lemma IpKept(cells: seq<Packet>)
    ensures NonEmpty(UpToForeign(cells)) == NonEmpty(cells) <==> AllIp(cells)
  {
    var k := FindForeign(cells, 0);
    if k < |cells| {
      ForeignCuts(cells, k);
    } else {
      UpToForeignIs(cells, k);
      assert cells[..k] == cells;
    }
  }

  /** All nonempty packets are received exactly when each of them starts with a byte in 0x40..0x4f or 0x60..0x6f. */
  lemma IpReceivedIff(page: seq<u8>, cells: seq<Packet>)
    requires CarriesSome(page, cells)
    ensures Accepted(page) == NonEmpty(cells) <==> AllIp(cells)
  {
    FrameReceived(page, cells);
    IpKept(cells);
  }

  /** The first packet that does not cuts off itself and everything behind it. */
  lemma ForeignEndsFrame(page: seq<u8>, cells: seq<Packet>, k: nat)
    requires FirstForeign(cells, k) && CarriesSome(page, cells)
    ensures Accepted(page) == NonEmpty(cells[..k])
  {
    FrameReceived(page, cells);
    ForeignCuts(cells, k);
  }

  /** Cutting in front of a nonempty packet leaves fewer of them. */
  lemma {:induction false} NonEmptyCut(ps: seq<Packet>, k: nat)
    requires k < |ps| && ps[k] != []
    ensures |NonEmpty(ps[..k])| < |NonEmpty(ps)|
    decreases k
  {
    if k > 0 {
      assert ps[..k][1..] == ps[1..][..k - 1];
      NonEmptyCut(ps[1..], k - 1);
    }
  }

  /** What the stack gets of a list of frames. */
  function AllReceived(frames: seq<seq<Packet>>): seq<Packet> {
    if frames == [] then [] else NonEmpty(UpToForeign(frames[0])) + AllReceived(frames[1..])
  }

  /**
   * If every completed page starts with a finished frame, whatever stale bytes follow it, the stack
   * receives, frame by frame and in order, exactly the nonempty packets in front of the frame's first
   * one that is not IPv4 or IPv6.
   */
  lemma {:induction false} DownlinkDelivers(pages: seq<seq<u8>>, frames: seq<seq<Packet>>)
    requires |pages| == |frames|
    requires forall i :: 0 <= i < |pages| ==> CarriesSome(pages[i], frames[i])
    ensures Received(pages) == AllReceived(frames)
    decreases |pages|
  {
    if pages != [] {
      FrameReceived(pages[0], frames[0]);
      DownlinkDelivers(pages[1..], frames[1..]);
    }
  }

  // ---- The same in every interleaving with the modem ----

  /** The poll loop against the modem, with the pages the decoder has been called on. */
  datatype NetRx = NetRx(rx: Rx, pages: seq<seq<u8>>)

  /** A step of the ring; where the loop of `net_poll` sees data it decodes the whole page. */
  function NetNext(s: NetRx, step: Step): (s': NetRx)
    requires RingOk(s.rx.ring)
    ensures RingOk(s'.rx.ring)
  {
    var r := s.rx.ring;
    if step.Copy? then
      NetRx(RxNext(s.rx, Copy(r.pageSize)),
            if s.rx.pc == Idle && HasData(r) then s.pages + [r.tds[r.handled].page] else s.pages)
    else s.(rx := RxNext(s.rx, step))
  }

  function NetRun(s: NetRx, steps: seq<Step>): (s': NetRx)
    requires RingOk(s.rx.ring)
    ensures RingOk(s'.rx.ring)
    decreases steps
  {
    if steps == [] then s else NetRun(NetNext(s, steps[0]), steps[1..])
  }

  /** Page by page, the decoder was called on the completed messages, each with stale bytes behind it. */
  ghost predicate Decoding(s: NetRx) {
    && RxInv(s.rx) && |s.pages| == |s.rx.delivered|
    && forall i :: 0 <= i < |s.pages| ==> s.rx.completed[i] <= s.pages[i]
  }

  /** The page at `last_handled` starts with the oldest message that was not delivered. */
  lemma PageOfMessage(s: Rx)
    requires RxInv(s) && s.pc == Idle && HasData(s.ring)
    ensures |s.delivered| < |s.completed| && s.completed[|s.delivered|] <= s.ring.tds[s.ring.handled].page
  {
    WindowShrink(s.ring, s.ring.handled, s.ring.rptr);
    assert s.completed[|s.delivered|..][0] == s.completed[|s.delivered|];
  }

  /** What a step does to the lists of messages. */
  lemma ListsGrow(s: Rx, step: Step)
    requires RxInv(s)
    ensures s.completed <= RxNext(s, step).completed
    ensures |RxNext(s, step).delivered|
            == |s.delivered| + if step.Copy? && s.pc == Idle && HasData(s.ring) then 1 else 0
  {
  }

  lemma StepDecodes(s: NetRx, step: Step)
    requires Decoding(s)
    ensures Decoding(NetNext(s, step))
  {
    var ringStep := if step.Copy? then Copy(s.rx.ring.pageSize) else step;
    StepKeepsInv(s.rx, ringStep);
    ListsGrow(s.rx, ringStep);
    PagesGrow(s, step, NetNext(s, step));
  }

  lemma PagesGrow(s: NetRx, step: Step, s': NetRx)
    requires Decoding(s) && s' == NetNext(s, step)
    requires s.rx.completed <= s'.rx.completed && |s'.pages| <= |s'.rx.completed|
    ensures forall i :: 0 <= i < |s'.pages| ==> s'.rx.completed[i] <= s'.pages[i]
  {
    if step.Copy? && s.rx.pc == Idle && HasData(s.rx.ring) { PageOfMessage(s.rx); }
    forall i | 0 <= i < |s'.pages|
      ensures s'.rx.completed[i] <= s'.pages[i]
    {
      if i < |s.pages| {
        assert s.rx.completed[i] <= s.pages[i];
      }
    }
  }

  lemma {:induction false} RunDecodes(s: NetRx, steps: seq<Step>)
    requires Decoding(s)
    ensures Decoding(NetRun(s, steps))
    decreases steps
  {
    if steps != [] {
      StepDecodes(s, steps[0]);
      RunDecodes(NetNext(s, steps[0]), steps[1..]);
    }
  }

  /** A frame is found on any page that starts with it. */
  lemma CarriedOnPage(message: seq<u8>, page: seq<u8>, cells: seq<Packet>)
    requires CarriesSome(message, cells) && message <= page
    ensures CarriesSome(page, cells)
  {
    var body: seq<u8>, table: seq<u8>, a: nat, bs: seq<Bound> :| Carries(message, body, table, a, bs, cells);
    var rest := page[|message|..];
    assert page == message + rest;
    SliceOfPrefix(message, rest, 0, 4);
    SliceOfPrefix(message, rest, 12, 2);
    FieldLocal(page, message, 12, 12, 2);
    SliceOfPrefix(message, rest, a, 4);
    SliceOfPrefix(message, rest, a + 4, 2);
    FieldLocal(page, message, a + 4, a + 4, 2);
    SliceOfPrefix(message, rest, FIRST_HEADER, |body|);
    SliceOfPrefix(message, rest, a + NEXT_HEADER + 4, |table|);
    assert Carries(page, body, table, a, bs, cells);
  }

  /** The modem completes nothing but finished frames, of any packets. */
  ghost predicate Sends(messages: seq<seq<u8>>, frames: seq<seq<Packet>>) {
    && |messages| == |frames|
    && forall i :: 0 <= i < |messages| ==> CarriesSome(messages[i], frames[i])
  }

  /**
   * From `qp_start` on, whatever the interleaving of modem and poll loop: no `BUG_ON` fires, and
   * when each completed message is a finished frame, the stack has received, frame by frame and in
   * order, of the first so many of them exactly the nonempty packets in front of the frame's first one
   * that is not IPv4 or IPv6; of all of them once the loop has found no more data.
   */
  lemma DownlinkInAnyRun(r: Ring, steps: seq<Step>, frames: seq<seq<Packet>>)
    requires Created(r) && Sends(NetRun(NetRx(Start(r), []), steps).rx.completed, frames)
    ensures var s := NetRun(NetRx(Start(r), []), steps);
            && !s.rx.bug && |s.pages| <= |frames|
            && Received(s.pages) == AllReceived(frames[..|s.pages|])
            && (s.rx.pc == Idle && !HasData(s.rx.ring) ==> |s.pages| == |frames|)
  {
    StartInv(r);
    RunDecodes(NetRx(Start(r), []), steps);
    var s := NetRun(NetRx(Start(r), []), steps);
    PagesDeliver(s.rx.completed, s.pages, frames);
    if s.rx.pc == Idle { DrainedWhenNoData(s.rx); }
  }

  lemma PagesDeliver(messages: seq<seq<u8>>, pages: seq<seq<u8>>, frames: seq<seq<Packet>>)
    requires Sends(messages, frames) && |pages| <= |messages|
    requires forall i :: 0 <= i < |pages| ==> messages[i] <= pages[i]
    ensures Received(pages) == AllReceived(frames[..|pages|])
  {
    forall i | 0 <= i < |pages|
      ensures CarriesSome(pages[i], frames[..|pages|][i])
    {
      CarriedOnPage(messages[i], pages[i], frames[i]);
    }
    DownlinkDelivers(pages, frames[..|pages|]);
  }
}
