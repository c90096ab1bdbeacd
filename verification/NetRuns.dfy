/**
 * Whole runs of the network device: transmissions, timer flushes, polls and re-opens on
 * the driver's side, descriptor reads on the modem's, and a device failure at any time.
 * Every callback or locked section is one step.
 */
module NetRuns {
  import opened Bytes
  import opened TdRing
  import opened MuxFrame
  import opened MuxDecode
  import opened NetQueue

  datatype Step = DoOpen | DoClose | DoXmit(p: Packet) | Deadline | Poll | ModemTake | DeviceFails

  /** What became of packets that left the queue. */
  datatype Event = Flushed(packets: seq<Packet>, fate: Fate) | Discarded(packets: seq<Packet>)

  /** The device, the packets accepted with `NETDEV_TX_OK`, what left the queue, and the frames the modem took. */
  datatype World = World(net: Net, accepted: seq<Packet>, log: seq<Event>, taken: seq<seq<u8>>)

  /** A flush that leaves `rest` of a nonempty queue is one event. */
  function EventsOf(queue: seq<Packet>, rest: seq<Packet>, fate: Fate): seq<Event>
    requires |rest| <= |queue|
  {
    if queue == [] then [] else [Flushed(queue[..|queue| - |rest|], fate)]
  }

  function FlushEvents(net: Net): seq<Event>
    requires NetOk(net)
  {
    EventsOf(net.queue, Flush(net).0.queue, Flush(net).1)
  }

  function XmitEvents(net: Net, p: Packet): seq<Event>
    requires NetOk(net)
  {
    if !net.stopped && MustFlush(net, |p|) && !Full(net.ring) then FlushEvents(net) else []
  }

  function Next(w: World, step: Step): (w': World)
    requires NetOk(w.net)
    ensures NetOk(w'.net) && w'.net.ring.pageSize == w.net.ring.pageSize
    ensures w'.accepted == w.accepted || (step.DoXmit? && w'.accepted == w.accepted + [step.p])
    ensures step != DeviceFails ==> w'.net.error == w.net.error
  {
    match step
    case DoOpen => w.(net := Open(w.net).0, log := w.log + [Discarded(w.net.queue)])
    case DoClose => w.(net := Close(w.net))
    case DoXmit(p) =>
      var (net', status) := Xmit(w.net, p);
      w.(net := net', log := w.log + XmitEvents(w.net, p),
         accepted := if status == Ok then w.accepted + [p] else w.accepted)
    case Deadline => w.(net := Flush(w.net).0, log := w.log + FlushEvents(w.net))
    case Poll => w.(net := Wake(w.net))
    case ModemTake =>
      var r := w.net.ring;
      if r.rptr == r.wptr then w else w.(net := w.net.(ring := Take(r)), taken := w.taken + [Message(r.tds[r.rptr])])
    case DeviceFails => w.(net := w.net.(error := true))
  }

  function Run(w: World, steps: seq<Step>): (w': World)
    requires NetOk(w.net)
    ensures NetOk(w'.net)
    decreases steps
  {
    if steps == [] then w else Run(Next(w, steps[0]), steps[1..])
  }

  /** A device that has just been opened, on a freshly started Tx ring. */
  function Opened(net: Net): World
    requires NetOk(net)
  {
    Next(World(net, [], [], []), DoOpen)
  }

  ghost predicate Fresh(net: Net) {
    NetOk(net) && net.ring.pageSize % 4 == 0 && net.queue == [] && Pending(net.ring) == []
  }

  // ---- Conservation ----

  function Packets(log: seq<Event>): seq<Packet> {
    if log == [] then [] else log[0].packets + Packets(log[1..])
  }

  /** Every accepted packet is in the log or in the queue, once and in order of acceptance. */
  ghost predicate Conserved(w: World) {
    w.accepted == Packets(w.log) + w.net.queue
  }

  lemma {:induction false} PacketsAppend(a: seq<Event>, b: seq<Event>)
    ensures Packets(a + b) == Packets(a) + Packets(b)
  {
    if a == [] {
      assert a + b == b;
    } else {
      assert (a + b)[1..] == a[1..] + b;
      PacketsAppend(a[1..], b);
    }
  }

  lemma PacketsOne(e: Event)
    ensures Packets([e]) == e.packets
  {
    assert Packets([e]) == e.packets + Packets([]);
  }

  lemma Split(queue: seq<Packet>, rest: seq<Packet>, fate: Fate)
    requires |rest| <= |queue| && rest == queue[|queue| - |rest|..]
    ensures Packets(EventsOf(queue, rest, fate)) + rest == queue
  {
    if queue != [] { PacketsOne(Flushed(queue[..|queue| - |rest|], fate)); }
  }

  lemma FlushConserves(net: Net)
    requires NetOk(net)
    ensures Packets(FlushEvents(net)) + Flush(net).0.queue == net.queue
  {
    FlushTakesHead(net);
    Split(net.queue, Flush(net).0.queue, Flush(net).1);
  }

  /** Packets that move from the queue to the log stay accounted for. */
  lemma LogGrows(accepted: seq<Packet>, log: seq<Event>, queue: seq<Packet>,
                 events: seq<Event>, queue': seq<Packet>, more: seq<Packet>)
    requires accepted == Packets(log) + queue && Packets(events) + queue' == queue
    ensures accepted + more == Packets(log + events) + (queue' + more)
  {
    PacketsAppend(log, events);
    Assoc(Packets(log), Packets(events), queue');
    Assoc(Packets(log + events), queue', more);
  }

  lemma FlushStepConserves(w: World)
    requires NetOk(w.net) && Conserved(w)
    ensures Conserved(Next(w, Deadline))
  {
    FlushConserves(w.net);
    var queue' := Flush(w.net).0.queue;
    LogGrows(w.accepted, w.log, w.net.queue, FlushEvents(w.net), queue', []);
    assert w.accepted + [] == w.accepted && queue' + [] == queue';
  }

  lemma XmitStepConserves(w: World, p: Packet)
    requires NetOk(w.net) && Conserved(w)
    ensures Conserved(Next(w, DoXmit(p)))
  {
    var events := XmitEvents(w.net, p);
    if Xmit(w.net, p).1 == Busy {
      assert w.log + events == w.log;
    } else if MustFlush(w.net, |p|) {
      FlushConserves(w.net);
      LogGrows(w.accepted, w.log, w.net.queue, events, Flush(w.net).0.queue, [p]);
    } else {
      LogGrows(w.accepted, w.log, w.net.queue, [], w.net.queue, [p]);
    }
  }

  lemma NextConserves(w: World, step: Step)
    requires NetOk(w.net) && Conserved(w)
    ensures Conserved(Next(w, step))
  {
    match step
    case DoOpen =>
      PacketsOne(Discarded(w.net.queue));
      LogGrows(w.accepted, w.log, w.net.queue, [Discarded(w.net.queue)], [], []);
      assert w.accepted + [] == w.accepted;
    case DoClose =>
    case DoXmit(p) => XmitStepConserves(w, p);
    case Deadline => FlushStepConserves(w);
    case Poll =>
    case ModemTake =>
    case DeviceFails =>
  }

  // ---- What the modem sees ----

  /** The packets of the flushes that put a frame on the ring. */
  function ShippedPackets(log: seq<Event>): seq<Packet> {
    if log == [] then [] else
    (if log[0].Flushed? && log[0].fate == Shipped then log[0].packets else []) + ShippedPackets(log[1..])
  }

  lemma {:induction false} ShippedAppend(a: seq<Event>, b: seq<Event>)
    ensures ShippedPackets(a + b) == ShippedPackets(a) + ShippedPackets(b)
  {
    if a == [] {
      assert a + b == b;
    } else {
      assert (a + b)[1..] == a[1..] + b;
      ShippedAppend(a[1..], b);
    }
  }

  /** All frames put on the ring so far, oldest first. */
  function Sent(w: World): seq<seq<u8>>
    requires NetOk(w.net)
  {
    w.taken + Pending(w.net.ring)
  }

  /** The frames on the wire decode to exactly the shipped packets, each behind 16 zero bytes, in order. */
  ghost predicate Faithful(w: World) {
    NetOk(w.net) && Payloads(Sent(w)) == Framed(ShippedPackets(w.log))
  }

  /** Only packets too long for any frame fail to be packed. */
  ghost predicate OnlyOversizeUnpackable(log: seq<Event>, pageSize: nat) {
    forall e :: e in log && e.Flushed? && e.fate == Unpackable ==> |e.packets| == 1 && |e.packets[0]| + 56 > pageSize
  }

  /** What a push adds to the wire. */
  lemma PushSends(r: Ring, error: bool, bytes: seq<u8>, sent: seq<seq<u8>>)
    requires RingOk(r) && |bytes| <= r.pageSize
    ensures var r' := QpWrite(r, error, bytes).0;
            sent + Pending(r') == (sent + Pending(r)) + (if error || Full(r) then [] else [bytes])
    ensures Payloads([bytes]) == Payload(bytes)
  {
    if !error && !Full(r) { WriteAppends(r, bytes); }
    assert Payloads([bytes]) == Payload(bytes) + Payloads([]);
  }

  /** On an accounted queue a flush is one event that covers the whole queue. */
  lemma FlushIsOneEvent(net: Net)
    requires Accounted(net) && net.queue != []
    ensures FlushEvents(net) == [Flushed(net.queue, Flush(net).1)]
    ensures ShippedPackets(FlushEvents(net)) == if Flush(net).1 == Shipped then net.queue else []
  {
    FlushEmpties(net);
    WholeEvent(net.queue, Flush(net).1);
  }

  lemma WholeEvent(queue: seq<Packet>, fate: Fate)
    requires queue != []
    ensures EventsOf(queue, [], fate) == [Flushed(queue, fate)]
    ensures ShippedPackets(EventsOf(queue, [], fate)) == if fate == Shipped then queue else []
  {
    var e := Flushed(queue, fate);
    assert queue[..|queue|] == queue;
    assert ShippedPackets([e]) == (if fate == Shipped then queue else []) + ShippedPackets([]);
  }

  /** A laid-out frame pushed onto the ring adds its packets to the wire. */
  lemma LayoutSent(r: Ring, error: bool, ps: seq<Packet>, bytes: seq<u8>, sent: seq<seq<u8>>)
    requires RingOk(r) && |bytes| <= r.pageSize && Payload(bytes) == Framed(ps)
    ensures Payloads(sent + Pending(QpWrite(r, error, bytes).0))
            == Payloads(sent + Pending(r)) + Framed(if error || Full(r) then [] else ps)
  {
    PushSends(r, error, bytes, sent);
    PayloadsAppend(sent + Pending(r), [bytes]);
  }

  /** One flush puts on the wire exactly the packets it logs as shipped. */
  lemma FlushSends(net: Net, sent: seq<seq<u8>>)
    requires Accounted(net) && net.ring.pageSize % 4 == 0
    ensures Payloads(sent + Pending(Flush(net).0.ring))
            == Payloads(sent + Pending(net.ring)) + Framed(ShippedPackets(FlushEvents(net)))
  {
    if net.queue != [] {
      FlushIsOneEvent(net);
      UnpackableIff(net);
      if Flush(net).1 != Unpackable {
        AtLeastFirst(net.queue);
        var pad := FlushFits(net);
        var bytes := Layout(net.sequence + 1, net.channel, net.queue, pad);
        LayoutDecodes(net.sequence + 1, net.channel, net.queue, pad, bytes, false);
        LayoutSent(net.ring, net.error, net.queue, bytes, sent);
      }
    }
  }

  lemma FlushUnpackable(net: Net)
    requires Accounted(net) && net.ring.pageSize % 4 == 0
    ensures OnlyOversizeUnpackable(FlushEvents(net), net.ring.pageSize)
  {
    if net.queue != [] {
      FlushIsOneEvent(net);
      UnpackableIff(net);
      OneUnpackable(net.queue, Flush(net).1, net.ring.pageSize);
    }
  }

  lemma OneUnpackable(queue: seq<Packet>, fate: Fate, pageSize: nat)
    requires fate == Unpackable ==> |queue| == 1 && |queue[0]| + 56 > pageSize
    ensures OnlyOversizeUnpackable([Flushed(queue, fate)], pageSize)
  {
  }

  /** The control frame of `net_open` carries no packet. */
  lemma OpenSends(net: Net, sent: seq<seq<u8>>)
    requires NetOk(net)
    ensures Payloads(sent + Pending(Open(net).0.ring)) == Payloads(sent + Pending(net.ring))
  {
    var bytes := Completed(ControlFrame(Emptied(net), OPEN_ARGS));
    ControlIsControl(Emptied(net));
    PushSends(net.ring, net.error, bytes, sent);
    PayloadsAppend(sent + Pending(net.ring), [bytes]);
  }

  lemma ControlIsControl(net: Net)
    requires NetOk(net)
    ensures var bytes := Completed(ControlFrame(net, OPEN_ARGS));
            && bytes == ControlLayout(net.sequence, net.channel, OPEN_ARGS)
            && |bytes| == OPEN_MIN && Locate(bytes, false) == Control
  {
    ControlTags(FrameInit(net.frame, net.ring.pageSize, net.sequence), net.channel, OPEN_ARGS);
    ControlPayload(Completed(ControlFrame(net, OPEN_ARGS)));
  }

  lemma TakeMoves(r: Ring, taken: seq<seq<u8>>)
    requires RingOk(r) && r.rptr != r.wptr
    ensures taken + [Message(r.tds[r.rptr])] + Pending(Take(r)) == taken + Pending(r)
  {
    TakeRemovesOldest(r);
    Assoc(taken, [Message(r.tds[r.rptr])], Pending(Take(r)));
  }

  lemma TakeKeepsSent(w: World)
    requires NetOk(w.net)
    ensures Sent(Next(w, ModemTake)) == Sent(w)
  {
    if w.net.ring.rptr != w.net.ring.wptr { TakeMoves(w.net.ring, w.taken); }
  }

  ghost predicate WorldInv(w: World) {
    && Accounted(w.net) && w.net.ring.pageSize % 4 == 0
    && Conserved(w) && Faithful(w) && OnlyOversizeUnpackable(w.log, w.net.ring.pageSize)
  }

  /** The wire and the log grow together. */
  lemma FaithfulGrows(sent: seq<seq<u8>>, sent': seq<seq<u8>>, log: seq<Event>, events: seq<Event>)
    requires Payloads(sent) == Framed(ShippedPackets(log))
    requires Payloads(sent') == Payloads(sent) + Framed(ShippedPackets(events))
    ensures Payloads(sent') == Framed(ShippedPackets(log + events))
  {
    ShippedAppend(log, events);
    FramedAppend(ShippedPackets(log), ShippedPackets(events));
  }

  lemma FlushFaithful(w: World)
    requires WorldInv(w)
    ensures Faithful(Next(w, Deadline)) && OnlyOversizeUnpackable(Next(w, Deadline).log, w.net.ring.pageSize)
  {
    FlushSends(w.net, w.taken);
    FaithfulGrows(Sent(w), Sent(Next(w, Deadline)), w.log, FlushEvents(w.net));
    FlushUnpackable(w.net);
  }

  lemma FlushStepKeeps(w: World)
    requires WorldInv(w)
    ensures WorldInv(Next(w, Deadline))
  {
    FlushStepConserves(w);
    FlushEmpties(w.net);
    FlushFaithful(w);
  }

  /** A transmission leaves the ring alone, or treats it as a flush does. */
  lemma XmitShape(net: Net, p: Packet)
    requires NetOk(net)
    ensures if !net.stopped && MustFlush(net, |p|) && !Full(net.ring)
            then XmitEvents(net, p) == FlushEvents(net) && Xmit(net, p).0.ring == Flush(net).0.ring
            else XmitEvents(net, p) == [] && Xmit(net, p).0.ring == net.ring
  {
  }

  lemma XmitWorld(w: World, p: Packet)
    requires NetOk(w.net)
    ensures Next(w, DoXmit(p))
            == w.(net := Xmit(w.net, p).0, log := w.log + XmitEvents(w.net, p),
                  accepted := if Xmit(w.net, p).1 == Ok then w.accepted + [p] else w.accepted)
  {
  }

  lemma FlushWorld(w: World)
    requires NetOk(w.net)
    ensures Next(w, Deadline) == w.(net := Flush(w.net).0, log := w.log + FlushEvents(w.net))
  {
  }

  /** A transmission leaves the wire and the log as a flush does, or alone. */
  lemma XmitAsFlush(w: World, p: Packet)
    requires NetOk(w.net)
    ensures var w', f := Next(w, DoXmit(p)), Next(w, Deadline);
            || (w'.log == w.log && w'.net.ring == w.net.ring && w'.taken == w.taken)
            || (w'.log == f.log && w'.net.ring == f.net.ring && w'.taken == f.taken)
  {
    XmitWorld(w, p);
    FlushWorld(w);
    XmitShape(w.net, p);
    assert w.log + [] == w.log;
  }

  /** Faithfulness is about the log, the ring and what was taken from it. */
  lemma WireTransfers(w: World, w': World, pageSize: nat)
    requires Faithful(w) && OnlyOversizeUnpackable(w.log, pageSize)
    requires NetOk(w'.net) && w'.log == w.log && w'.net.ring == w.net.ring && w'.taken == w.taken
    ensures Faithful(w') && OnlyOversizeUnpackable(w'.log, pageSize)
  {
  }

  lemma XmitFaithful(w: World, p: Packet)
    requires WorldInv(w)
    ensures Faithful(Next(w, DoXmit(p))) && OnlyOversizeUnpackable(Next(w, DoXmit(p)).log, w.net.ring.pageSize)
  {
    var w', f := Next(w, DoXmit(p)), Next(w, Deadline);
    XmitAsFlush(w, p);
    if w'.log == w.log && w'.net.ring == w.net.ring {
      WireTransfers(w, w', w.net.ring.pageSize);
    } else {
      FlushFaithful(w);
      WireTransfers(f, w', w.net.ring.pageSize);
    }
  }

  lemma XmitStepKeeps(w: World, p: Packet)
    requires WorldInv(w)
    ensures WorldInv(Next(w, DoXmit(p)))
  {
    XmitStepConserves(w, p);
    XmitKeepsAccounted(w.net, p);
    XmitFaithful(w, p);
  }

  lemma DiscardShipsNothing(packets: seq<Packet>)
    ensures Framed(ShippedPackets([Discarded(packets)])) == []
  {
    assert ShippedPackets([Discarded(packets)]) == [] + ShippedPackets([]);
  }

  lemma OpenFaithful(w: World)
    requires Faithful(w) && OnlyOversizeUnpackable(w.log, w.net.ring.pageSize)
    ensures Faithful(Next(w, DoOpen)) && OnlyOversizeUnpackable(Next(w, DoOpen).log, w.net.ring.pageSize)
  {
    var sent, sent' := Sent(w), w.taken + Pending(Open(w.net).0.ring);
    OpenSends(w.net, w.taken);
    DiscardShipsNothing(w.net.queue);
    assert Payloads(sent) + [] == Payloads(sent);
    FaithfulGrows(sent, sent', w.log, [Discarded(w.net.queue)]);
  }

  lemma OpenStepKeeps(w: World)
    requires NetOk(w.net) && w.net.ring.pageSize % 4 == 0
    requires Conserved(w) && Faithful(w) && OnlyOversizeUnpackable(w.log, w.net.ring.pageSize)
    ensures WorldInv(Next(w, DoOpen))
  {
    NextConserves(w, DoOpen);
    OpenAccounts(w.net);
    OpenFaithful(w);
  }

  lemma NextKeeps(w: World, step: Step)
    requires WorldInv(w)
    ensures WorldInv(Next(w, step))
  {
    match step
    case DoOpen => OpenStepKeeps(w);
    case DoClose =>
    case DoXmit(p) => XmitStepKeeps(w, p);
    case Deadline => FlushStepKeeps(w);
    case Poll =>
    case ModemTake => TakeKeepsSent(w);
    case DeviceFails =>
  }

  lemma {:induction false} RunKeeps(w: World, steps: seq<Step>)
    requires WorldInv(w)
    ensures WorldInv(Run(w, steps))
    decreases steps
  {
    if steps != [] {
      NextKeeps(w, steps[0]);
      RunKeeps(Next(w, steps[0]), steps[1..]);
    }
  }

  lemma OpenedInv(net: Net)
    requires Fresh(net)
    ensures WorldInv(Opened(net))
  {
    var w := World(net, [], [], []);
    assert w.taken + Pending(net.ring) == [];
    OpenStepKeeps(w);
  }

  /**
   * Over every run, with packets of any length: the counters agree with the queue; every
   * accepted packet is accounted for once and in order; the frames the modem took or has
   * still to take decode to exactly the packets logged as shipped; and packing fails only
   * for a packet too long for any frame.
   */
  lemma EndToEnd(net: Net, steps: seq<Step>)
    requires Fresh(net)
    ensures var w := Run(Opened(net), steps);
            && w.net.queuedPackets == |w.net.queue| && w.net.queuedBytes == BodyLen(w.net.queue)
            && w.accepted == Packets(w.log) + w.net.queue
            && Payloads(w.taken + Pending(w.net.ring)) == Framed(ShippedPackets(w.log))
            && OnlyOversizeUnpackable(w.log, w.net.ring.pageSize)
  {
    OpenedInv(net);
    RunKeeps(Opened(net), steps);
  }

  // ---- A stopped device queue ----

  /** A poll while the ring has room, then a transmission: the packet is accepted. */
  lemma PollThenXmit(w: World, p: Packet)
    requires NetOk(w.net) && !Full(w.net.ring)
    ensures Next(Next(w, Poll), DoXmit(p)).accepted == w.accepted + [p]
  {
    FullIsCapacity(w.net.ring);
    WakeIff(w.net);
    XmitWorld(Next(w, Poll), p);
  }

  /** One message taken off a full ring makes room. */
  lemma TakeMakesRoom(r: Ring)
    requires RingOk(r) && 1 < r.depth
    ensures !Full(Take(r))
  {
    FullIsCapacity(r);
    FullIsCapacity(Take(r));
    if r.rptr != r.wptr { TakeRemovesOldest(r); }
  }

  /**
   * A stop is never permanent: whatever has happened, once the modem has taken a frame off a full
   * ring, the next poll wakes the device queue and the next packet is accepted.
   */
  lemma StopEnds(net: Net, steps: seq<Step>, p: Packet)
    requires Fresh(net) && 1 < net.ring.depth
    ensures var w := Run(Opened(net), steps);
            && Next(Next(Next(w, ModemTake), Poll), DoXmit(p)).accepted == w.accepted + [p]
            && (!Full(w.net.ring) ==> Next(Next(w, Poll), DoXmit(p)).accepted == w.accepted + [p])
  {
    var w := Run(Opened(net), steps);
    DepthStays(World(net, [], [], []), DoOpen);
    RunDepth(Opened(net), steps);
    TakeMakesRoom(w.net.ring);
    PollThenXmit(Next(w, ModemTake), p);
    if !Full(w.net.ring) { PollThenXmit(w, p); }
  }

  lemma DepthStays(w: World, step: Step)
    requires NetOk(w.net)
    ensures Next(w, step).net.ring.depth == w.net.ring.depth
  {
    match step
    case DoXmit(p) =>
      XmitWorld(w, p);
      XmitShape(w.net, p);
      FlushDepth(w.net);
    case Deadline =>
      FlushWorld(w);
      FlushDepth(w.net);
    case DoOpen =>
    case _ =>
  }

  lemma FlushDepth(net: Net)
    requires NetOk(net)
    ensures Flush(net).0.ring.depth == net.ring.depth
  {
  }

  lemma {:induction false} RunDepth(w: World, steps: seq<Step>)
    requires NetOk(w.net)
    ensures Run(w, steps).net.ring.depth == w.net.ring.depth
    decreases steps
  {
    if steps != [] {
      DepthStays(w, steps[0]);
      RunDepth(Next(w, steps[0]), steps[1..]);
    }
  }

  /** A closed device refuses every packet until a poll or an open restarts its queue. */
  lemma ClosedRefuses(w: World, p: Packet)
    requires NetOk(w.net)
    ensures var closed := Next(w, DoClose);
            && Next(closed, DoXmit(p)).accepted == w.accepted && Next(closed, DoXmit(p)).net == closed.net
            && (!MustFlush(Next(closed, DoOpen).net, |p|) ==>
                  Next(Next(closed, DoOpen), DoXmit(p)).accepted == w.accepted + [p])
  {
    XmitWorld(Next(w, DoClose), p);
    XmitWorld(Next(Next(w, DoClose), DoOpen), p);
  }

  // ---- A failed device ----

  lemma FailedFlush(net: Net)
    requires NetOk(net) && net.error
    ensures Flush(net).0.ring == net.ring
  {
  }

  lemma FailedStep(w: World, step: Step)
    requires NetOk(w.net) && w.net.error
    ensures Sent(Next(w, step)) == Sent(w) && Next(w, step).net.error
  {
    match step
    case DoOpen => OpenSends(w.net, w.taken);
    case DoXmit(p) =>
      XmitShape(w.net, p);
      FailedFlush(w.net);
    case Deadline => FailedFlush(w.net);
    case ModemTake => TakeKeepsSent(w);
    case _ =>
  }

  /** Once the device has failed, no frame reaches the wire any more, whatever happens; only a reload clears that. */
  lemma {:induction false} FailedIsSilent(w: World, steps: seq<Step>)
    requires NetOk(w.net) && (w.net.error || (steps != [] && steps[0] == DeviceFails))
    ensures Sent(Run(w, steps)) == Sent(w) && Run(w, steps).net.error
    decreases steps
  {
    if steps != [] {
      if w.net.error { FailedStep(w, steps[0]); }
      FailedIsSilent(Next(w, steps[0]), steps[1..]);
    }
  }

  // ---- Packets within the MTU ----

  ghost predicate AllWithin(ps: seq<Packet>, limit: nat) {
    forall p :: p in ps ==> |p| <= limit
  }

  ghost predicate StepsWithin(steps: seq<Step>, limit: nat) {
    forall i :: 0 <= i < |steps| && steps[i].DoXmit? ==> |steps[i].p| <= limit
  }

  lemma {:induction false} AcceptedWithin(w: World, steps: seq<Step>, limit: nat)
    requires NetOk(w.net) && AllWithin(w.accepted, limit) && StepsWithin(steps, limit)
    ensures AllWithin(Run(w, steps).accepted, limit)
    ensures Run(w, steps).net.ring.pageSize == w.net.ring.pageSize
    decreases steps
  {
    if steps != [] {
      NextWithin(w, steps[0], limit);
      forall i | 0 <= i < |steps[1..]| && steps[1..][i].DoXmit?
        ensures |steps[1..][i].p| <= limit
      {
        assert steps[1..][i] == steps[i + 1];
      }
      AcceptedWithin(Next(w, steps[0]), steps[1..], limit);
    }
  }

  lemma NextWithin(w: World, step: Step, limit: nat)
    requires NetOk(w.net) && AllWithin(w.accepted, limit) && (step.DoXmit? ==> |step.p| <= limit)
    ensures AllWithin(Next(w, step).accepted, limit)
    ensures Next(w, step).net.ring.pageSize == w.net.ring.pageSize
  {
  }

  lemma {:induction false} LoggedPacket(log: seq<Event>, e: Event, p: Packet)
    requires e in log && p in e.packets
    ensures p in Packets(log)
  {
    if log[0] != e { LoggedPacket(log[1..], e, p); }
  }

  /**
   * When every packet leaves room for its headers in a frame (an MTU of 1500 on 16384-byte
   * pages does), no packing step of any flush in any run fails, so `drop:` is reached only
   * by a device error.
   */
  lemma PackingNeverFails(net: Net, steps: seq<Step>)
    requires Fresh(net) && 56 <= net.ring.pageSize && StepsWithin(steps, net.ring.pageSize - 56)
    ensures forall e :: e in Run(Opened(net), steps).log && e.Flushed? ==> e.fate != Unpackable
  {
    var w := Run(Opened(net), steps);
    EndToEnd(net, steps);
    OpenedPlain(net);
    AcceptedWithin(Opened(net), steps, net.ring.pageSize - 56);
    NoOversize(w.accepted, w.log, w.net.queue, net.ring.pageSize);
  }

  lemma OpenedPlain(net: Net)
    requires NetOk(net)
    ensures Opened(net).accepted == [] && Opened(net).net.ring.pageSize == net.ring.pageSize
  {
  }

  lemma NoOversize(accepted: seq<Packet>, log: seq<Event>, queue: seq<Packet>, pageSize: nat)
    requires 56 <= pageSize && accepted == Packets(log) + queue && AllWithin(accepted, pageSize - 56)
    requires OnlyOversizeUnpackable(log, pageSize)
    ensures forall e :: e in log && e.Flushed? ==> e.fate != Unpackable
  {
    forall e | e in log && e.Flushed? && e.fate == Unpackable
      ensures false
    {
      LoggedPacket(log, e, e.packets[0]);
    }
  }
}
