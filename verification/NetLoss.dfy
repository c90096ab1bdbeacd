/** Which accepted packets the network device loses, over whole runs, and when. */
module NetLoss {
  import opened Bytes
  import TdRing
  import opened MuxFrame
  import opened MuxDecode
  import opened NetQueue
  import opened NetRuns

  // ---- What is lost ----

  /** The packets of the flushes that put no frame on the ring. */
  function Lost(log: seq<Event>): seq<Packet> {
    if log == [] then [] else
    (if log[0].Flushed? && log[0].fate != Shipped then log[0].packets else []) + Lost(log[1..])
  }

  /** The packets that left the queue by a flush, that is, all but those that `net_open` discarded. */
  function FlushedPackets(log: seq<Event>): seq<Packet> {
    if log == [] then [] else (if log[0].Flushed? then log[0].packets else []) + FlushedPackets(log[1..])
  }

  lemma {:induction false} LostAppend(a: seq<Event>, b: seq<Event>)
    ensures Lost(a + b) == Lost(a) + Lost(b)
  {
    if a == [] {
      assert a + b == b;
    } else {
      assert (a + b)[1..] == a[1..] + b;
      LostAppend(a[1..], b);
    }
  }

  /** Flushed packets are shipped or lost. */
  lemma {:induction false} ShippedOrLost(log: seq<Event>)
    ensures multiset(FlushedPackets(log)) == multiset(ShippedPackets(log)) + multiset(Lost(log))
    ensures |FlushedPackets(log)| == |ShippedPackets(log)| + |Lost(log)|
    ensures Lost(log) == [] ==> FlushedPackets(log) == ShippedPackets(log)
  {
    if log != [] { ShippedOrLost(log[1..]); }
  }

  // ---- When it is lost ----

  /** The step calls `net_flush`. */
  predicate Flushes(net: Net, step: Step)
    requires NetOk(net)
  {
    match step
    case Deadline => true
    case DoXmit(p) => !net.stopped && MustFlush(net, |p|) && !TdRing.Full(net.ring)
    case _ => false
  }

  /** Nothing a flush of this queue builds can reach the ring. */
  predicate Blocked(net: Net)
    requires NetOk(net) && net.queue != []
  {
    net.error || TdRing.Full(net.ring) || |net.queue[0]| + 56 > net.ring.pageSize
  }

  /** What one step loses: the whole queue, when it flushes while blocked. */
  function Loss(w: World, step: Step): seq<Packet>
    requires NetOk(w.net)
  {
    if Flushes(w.net, step) && w.net.queue != [] && Blocked(w.net) then w.net.queue else []
  }

  function Losses(w: World, steps: seq<Step>): seq<Packet>
    requires NetOk(w.net)
    decreases steps
  {
    if steps == [] then [] else Loss(w, steps[0]) + Losses(Next(w, steps[0]), steps[1..])
  }

  lemma FlushLoses(net: Net)
    requires Accounted(net) && net.ring.pageSize % 4 == 0
    ensures Lost(FlushEvents(net)) == if net.queue != [] && Blocked(net) then net.queue else []
  {
    if net.queue != [] {
      FlushShipsIff(net);
      FlushIsOneEvent(net);
      OneLost(net.queue, Flush(net).1);
    }
  }

  lemma OneLost(queue: seq<Packet>, fate: Fate)
    ensures Lost([Flushed(queue, fate)]) == if fate != Shipped then queue else []
    ensures Lost([Discarded(queue)]) == []
  {
    assert Lost([Flushed(queue, fate)]) == (if fate != Shipped then queue else []) + Lost([]);
    assert Lost([Discarded(queue)]) == [] + Lost([]);
  }

  lemma OpenLoses(w: World)
    requires WorldInv(w)
    ensures Lost(Next(w, DoOpen).log) == Lost(w.log)
  {
    LostAppend(w.log, [Discarded(w.net.queue)]);
    OneLost(w.net.queue, Shipped);
    assert Lost(w.log) + [] == Lost(w.log);
  }

  lemma XmitLoses(w: World, p: Packet)
    requires WorldInv(w)
    ensures Lost(Next(w, DoXmit(p)).log) == Lost(w.log) + Loss(w, DoXmit(p))
  {
    XmitWorld(w, p);
    XmitShape(w.net, p);
    LostAppend(w.log, XmitEvents(w.net, p));
    FlushLoses(w.net);
  }

  lemma DeadlineLoses(w: World)
    requires WorldInv(w)
    ensures Lost(Next(w, Deadline).log) == Lost(w.log) + Loss(w, Deadline)
  {
    FlushWorld(w);
    LostAppend(w.log, FlushEvents(w.net));
    FlushLoses(w.net);
  }

  lemma StepLoses(w: World, step: Step)
    requires WorldInv(w)
    ensures Lost(Next(w, step).log) == Lost(w.log) + Loss(w, step)
  {
    assert Lost(w.log) + [] == Lost(w.log);
    match step
    case DoOpen => OpenLoses(w);
    case DoXmit(p) => XmitLoses(w, p);
    case Deadline => DeadlineLoses(w);
    case _ =>
  }

  lemma {:induction false} RunLoses(w: World, steps: seq<Step>)
    requires WorldInv(w)
    ensures Lost(Run(w, steps).log) == Lost(w.log) + Losses(w, steps)
    decreases steps
  {
    if steps == [] {
      assert Lost(w.log) + [] == Lost(w.log);
    } else {
      NextKeeps(w, steps[0]);
      StepLoses(w, steps[0]);
      RunLoses(Next(w, steps[0]), steps[1..]);
      Assoc(Lost(w.log), Loss(w, steps[0]), Losses(Next(w, steps[0]), steps[1..]));
    }
  }

  lemma OpenedLost(net: Net)
    requires Fresh(net)
    ensures Lost(Opened(net).log) == []
  {
    assert [] + [Discarded(net.queue)] == [Discarded(net.queue)];
    OneLost(net.queue, Shipped);
  }

  /**
   * Over every run, with packets of any length and a failure at any time: the packets lost are,
   * in order, exactly the queues that some flush met while the device had failed, the ring was
   * full or the first packet was too long for a frame.
   */
  lemma LostExactly(net: Net, steps: seq<Step>)
    requires Fresh(net)
    ensures Lost(Run(Opened(net), steps).log) == Losses(Opened(net), steps)
  {
    OpenedInv(net);
    RunLoses(Opened(net), steps);
    OpenedLost(net);
    assert [] + Losses(Opened(net), steps) == Losses(Opened(net), steps);
  }

  // ---- A working device and packets within the MTU ----

  /** The timer fires on a nonempty queue while the ring is full. */
  predicate Overrun(w: World, step: Step)
    requires NetOk(w.net)
  {
    step == Deadline && w.net.queue != [] && TdRing.Full(w.net.ring)
  }

  ghost predicate SomeOverrun(w: World, steps: seq<Step>)
    requires NetOk(w.net)
  {
    exists k :: 0 <= k < |steps| && Overrun(Run(w, steps[..k]), steps[k])
  }

  ghost predicate Healthy(w: World, steps: seq<Step>, limit: nat) {
    && WorldInv(w) && !w.net.error && w.net.ring.pageSize == limit + 56 && AllWithin(w.accepted, limit)
    && StepsWithin(steps, limit) && DeviceFails !in steps
  }

  lemma QueueWithin(w: World, limit: nat)
    requires Conserved(w) && AllWithin(w.accepted, limit) && w.net.queue != []
    ensures |w.net.queue[0]| <= limit
  {
    assert w.net.queue[0] in w.accepted;
  }

  /** On a working device only the timer can lose packets, and only to a full ring. */
  lemma HealthyLoss(w: World, steps: seq<Step>, limit: nat)
    requires Healthy(w, steps, limit) && steps != []
    ensures Loss(w, steps[0]) == if Overrun(w, steps[0]) then w.net.queue else []
  {
    if w.net.queue != [] { QueueWithin(w, limit); }
  }

  lemma ErrorStays(w: World, step: Step)
    requires NetOk(w.net) && step != DeviceFails
    ensures Next(w, step).net.error == w.net.error
  {
  }

  lemma HealthyNext(w: World, steps: seq<Step>, limit: nat)
    requires Healthy(w, steps, limit) && steps != []
    ensures Healthy(Next(w, steps[0]), steps[1..], limit)
  {
    NextKeeps(w, steps[0]);
    NextWithin(w, steps[0], limit);
    assert steps[0] in steps;
    ErrorStays(w, steps[0]);
    forall i | 0 <= i < |steps[1..]| && steps[1..][i].DoXmit?
      ensures |steps[1..][i].p| <= limit
    {
      assert steps[1..][i] == steps[i + 1];
    }
    assert forall s :: s in steps[1..] ==> s in steps;
  }

  lemma RunCons(w: World, steps: seq<Step>, first: Step, rest: seq<Step>)
    requires NetOk(w.net) && steps == [first] + rest
    ensures Run(w, steps) == Run(Next(w, first), rest)
  {
    assert steps[1..] == rest;
  }

  lemma RunPrefix(w: World, steps: seq<Step>, k: nat)
    requires NetOk(w.net) && k < |steps|
    ensures Run(w, steps[..k + 1]) == Run(Next(w, steps[0]), steps[1..][..k])
  {
    RunCons(w, steps[..k + 1], steps[0], steps[1..][..k]);
  }

  lemma OverrunFirst(w: World, steps: seq<Step>)
    requires NetOk(w.net) && steps != []
    ensures SomeOverrun(w, steps) <==> Overrun(w, steps[0]) || SomeOverrun(Next(w, steps[0]), steps[1..])
  {
    var w', rest := Next(w, steps[0]), steps[1..];
    assert Run(w, steps[..0]) == w;
    if SomeOverrun(w, steps) {
      var k :| 0 <= k < |steps| && Overrun(Run(w, steps[..k]), steps[k]);
      if k > 0 {
        RunPrefix(w, steps, k - 1);
        assert Overrun(Run(w', rest[..k - 1]), rest[k - 1]);
      }
    }
    if SomeOverrun(w', rest) {
      var k :| 0 <= k < |rest| && Overrun(Run(w', rest[..k]), rest[k]);
      RunPrefix(w, steps, k);
      assert Overrun(Run(w, steps[..k + 1]), steps[k + 1]);
    }
  }

  lemma {:induction false} HealthyLosses(w: World, steps: seq<Step>, limit: nat)
    requires Healthy(w, steps, limit)
    ensures Losses(w, steps) != [] <==> SomeOverrun(w, steps)
    decreases steps
  {
    if steps != [] {
      HealthyLoss(w, steps, limit);
      HealthyNext(w, steps, limit);
      OverrunFirst(w, steps);
      HealthyLosses(Next(w, steps[0]), steps[1..], limit);
    }
  }

  lemma OpenedHealthy(net: Net, steps: seq<Step>, limit: nat)
    requires Fresh(net) && !net.error && net.ring.pageSize == limit + 56
    requires StepsWithin(steps, limit) && DeviceFails !in steps
    ensures Healthy(Opened(net), steps, limit)
  {
    OpenedInv(net);
    OpenedPlain(net);
    ErrorStays(World(net, [], [], []), DoOpen);
  }

  /** Nothing is missing from wire and queue exactly when no flush lost anything. */
  lemma MissingIsLost(w: World)
    requires Faithful(w)
    ensures Payloads(Sent(w)) + Framed(w.net.queue) == Framed(FlushedPackets(w.log) + w.net.queue)
            <==> Lost(w.log) == []
  {
    ShippedOrLost(w.log);
    FramedAppend(FlushedPackets(w.log), w.net.queue);
  }

  /**
   * Over every run of a working device, with packets within the page size less 56: the accepted
   * packets that `net_open` did not discard are all on the wire or in the queue, in order,
   * exactly when the timer never fired on a nonempty queue while the ring was full.
   */
  lemma LosslessIff(net: Net, steps: seq<Step>)
    requires Fresh(net) && !net.error && 56 <= net.ring.pageSize
    requires StepsWithin(steps, net.ring.pageSize - 56) && DeviceFails !in steps
    ensures var w := Run(Opened(net), steps);
            && (Payloads(Sent(w)) + Framed(w.net.queue) == Framed(FlushedPackets(w.log) + w.net.queue)
                <==> !SomeOverrun(Opened(net), steps))
            && multiset(FlushedPackets(w.log)) == multiset(ShippedPackets(w.log)) + multiset(Losses(Opened(net), steps))
  {
    var w := Run(Opened(net), steps);
    OpenedHealthy(net, steps, net.ring.pageSize - 56);
    HealthyLosses(Opened(net), steps, net.ring.pageSize - 56);
    LostExactly(net, steps);
    RunKeeps(Opened(net), steps);
    MissingIsLost(w);
    ShippedOrLost(w.log);
  }

  // ---- The loss is silent, and every device can be brought to it ----

  /** The timer on a full ring: the queue is gone, and nothing but the log of this model shows it. */
  lemma SilentStep(w: World)
    requires WorldInv(w) && Overrun(w, Deadline) && !w.net.error && !w.net.stopped
    requires |w.net.queue[0]| + 56 <= w.net.ring.pageSize
    ensures var w' := Next(w, Deadline);
            && w'.net.queue == [] && w'.net.queuedPackets == 0 && w'.net.queuedBytes == 0
            && !w'.net.error && !w'.net.stopped && w'.net.ring == w.net.ring && w'.taken == w.taken
            && Lost(w'.log) == Lost(w.log) + w.net.queue
  {
    FlushWorld(w);
    SilentFlush(w.net);
    OverrunLoses(w);
  }

  lemma OverrunLoses(w: World)
    requires WorldInv(w) && Overrun(w, Deadline)
    ensures Lost(Next(w, Deadline).log) == Lost(w.log) + w.net.queue
  {
    StepLoses(w, Deadline);
  }

  lemma SilentFlush(net: Net)
    requires Accounted(net) && net.ring.pageSize % 4 == 0 && net.queue != [] && |net.queue[0]| + 56 <= net.ring.pageSize
    requires !net.error && !net.stopped && TdRing.Full(net.ring)
    ensures var net' := Flush(net).0;
            && net'.queue == [] && net'.queuedPackets == 0 && net'.queuedBytes == 0
            && !net'.error && !net'.stopped && net'.ring == net.ring
  {
    FlushEmpties(net);
    FlushShipsIff(net);
  }

  /** A working, running device with an empty queue. */
  ghost predicate Quiet(w: World) {
    WorldInv(w) && w.net.queue == [] && !w.net.error && !w.net.stopped
  }

  lemma QuietXmit(w: World, p: Packet)
    requires Quiet(w) && |p| + 56 <= w.net.ring.pageSize
    ensures Next(w, DoXmit(p)) == w.(net := Enqueue(w.net, p), accepted := w.accepted + [p])
    ensures Enqueue(w.net, p).queue == [p]
  {
    XmitWorld(w, p);
    XmitShape(w.net, p);
    assert w.log + [] == w.log && [] + [p] == [p];
  }

  lemma FlushOne(net: Net, p: Packet)
    requires Accounted(net) && net.queue == [p] && net.ring.pageSize % 4 == 0 && !net.error
    requires !TdRing.Full(net.ring) && |p| + 56 <= net.ring.pageSize
    ensures |TdRing.Pending(Flush(net).0.ring)| == |TdRing.Pending(net.ring)| + 1
            && Flush(net).0.ring.depth == net.ring.depth
  {
    AtLeastFirst(net.queue);
    var pad := FlushFits(net);
    TdRing.WriteAppends(net.ring, Layout(net.sequence + 1, net.channel, net.queue, pad));
  }

  /** A flush of one packet on a working, running device fills a slot if there is one. */
  lemma FlushOneQuietly(net: Net, p: Packet)
    requires Accounted(net) && net.queue == [p] && net.ring.pageSize % 4 == 0 && !net.error && !net.stopped
    requires |p| + 56 <= net.ring.pageSize
    ensures var net' := Flush(net).0;
            && net'.queue == [] && !net'.error && !net'.stopped && net'.ring.pageSize == net.ring.pageSize
            && (!TdRing.Full(net.ring) ==> Room(net'.ring) == Room(net.ring) - 1)
  {
    FlushEmpties(net);
    FlushShipsIff(net);
    if !TdRing.Full(net.ring) { FlushOne(net, p); }
  }

  lemma BurstXmit(w: World, p: Packet) returns (w': World)
    requires Quiet(w) && |p| + 56 <= w.net.ring.pageSize
    ensures w' == Next(w, DoXmit(p)) && WorldInv(w') && !w'.net.error && !w'.net.stopped
    ensures w'.net.queue == [p] && w'.net.ring == w.net.ring && Lost(w'.log) == Lost(w.log)
  {
    w' := Next(w, DoXmit(p));
    NextKeeps(w, DoXmit(p));
    QuietXmit(w, p);
  }

  lemma BurstFlush(w: World, p: Packet) returns (w': World)
    requires WorldInv(w) && !w.net.error && !w.net.stopped && w.net.queue == [p] && |p| + 56 <= w.net.ring.pageSize
    ensures w' == Next(w, Deadline) && Quiet(w') && w'.net.ring.pageSize == w.net.ring.pageSize
    ensures if TdRing.Full(w.net.ring) then Lost(w'.log) == Lost(w.log) + [p]
            else Lost(w'.log) == Lost(w.log) + [] && Room(w'.net.ring) == Room(w.net.ring) - 1
  {
    w' := Next(w, Deadline);
    NextKeeps(w, Deadline);
    BurstLoses(w, p);
    FlushWorld(w);
    FlushOneQuietly(w.net, p);
  }

  lemma BurstLoses(w: World, p: Packet)
    requires WorldInv(w) && !w.net.error && w.net.queue == [p] && |p| + 56 <= w.net.ring.pageSize
    ensures Lost(Next(w, Deadline).log) == Lost(w.log) + if TdRing.Full(w.net.ring) then [p] else []
  {
    DeadlineLoses(w);
  }

  /** One burst fills one slot, or on a full ring loses its packet. */
  lemma BurstStep(w: World, p: Packet) returns (w': World)
    requires Quiet(w) && |p| + 56 <= w.net.ring.pageSize
    ensures w' == Next(Next(w, DoXmit(p)), Deadline) && Quiet(w') && w'.net.ring.pageSize == w.net.ring.pageSize
    ensures if TdRing.Full(w.net.ring) then Lost(w'.log) == Lost(w.log) + [p]
            else Lost(w'.log) == Lost(w.log) && Room(w'.net.ring) == Room(w.net.ring) - 1
  {
    var w1 := BurstXmit(w, p);
    w' := BurstFlush(w1, p);
  }

  function Room(r: TdRing.Ring): (room: nat)
    requires TdRing.RingOk(r)
    ensures room > 0 && (TdRing.Full(r) <==> room == 1)
  {
    TdRing.FullIsCapacity(r);
    r.depth - |TdRing.Pending(r)|
  }

  lemma {:induction false} RunSnoc(w: World, steps: seq<Step>, last: Step)
    requires NetOk(w.net)
    ensures Run(w, steps + [last]) == Next(Run(w, steps), last)
    decreases |steps|
  {
    if steps == [] {
      RunCons(w, steps + [last], last, []);
    } else {
      RunCons(w, steps + [last], steps[0], steps[1..] + [last]);
      RunSnoc(Next(w, steps[0]), steps[1..], last);
    }
  }

  /** Nothing but this packet and the timer. */
  ghost predicate OnlyBursts(steps: seq<Step>, p: Packet) {
    forall s :: s in steps ==> s == DoXmit(p) || s == Deadline
  }

  /** A run of bursts that ends in `w`. */
  ghost predicate Burstly(w0: World, steps: seq<Step>, w: World, p: Packet) {
    NetOk(w0.net) && Run(w0, steps) == w && OnlyBursts(steps, p)
  }

  lemma BurstlyMore(w0: World, steps: seq<Step>, w: World, p: Packet)
    requires Burstly(w0, steps, w, p) && NetOk(w.net)
    ensures Burstly(w0, steps + [DoXmit(p)] + [Deadline], Next(Next(w, DoXmit(p)), Deadline), p)
  {
    RunSnoc(w0, steps, DoXmit(p));
    RunSnoc(w0, steps + [DoXmit(p)], Deadline);
  }

  lemma LastBurst(w0: World, steps: seq<Step>, w: World, p: Packet) returns (steps': seq<Step>, w': World)
    requires Burstly(w0, steps, w, p) && Quiet(w) && |p| + 56 <= w.net.ring.pageSize && Room(w.net.ring) == 1
    ensures Burstly(w0, steps', w', p) && Quiet(w') && Lost(w'.log) == Lost(w.log) + [p]
  {
    w' := BurstStep(w, p);
    steps' := steps + [DoXmit(p)] + [Deadline];
    BurstlyMore(w0, steps, w, p);
  }

  lemma FillBurst(w0: World, steps: seq<Step>, w: World, p: Packet) returns (steps': seq<Step>, w': World)
    requires Burstly(w0, steps, w, p) && Quiet(w) && |p| + 56 <= w.net.ring.pageSize && Room(w.net.ring) > 1
    ensures Burstly(w0, steps', w', p) && Quiet(w') && w'.net.ring.pageSize == w.net.ring.pageSize
    ensures Lost(w'.log) == Lost(w.log) && Room(w'.net.ring) == Room(w.net.ring) - 1
  {
    w' := BurstStep(w, p);
    steps' := steps + [DoXmit(p)] + [Deadline];
    BurstlyMore(w0, steps, w, p);
  }

  /** Bursts fill the ring slot by slot, and then lose a packet. */
  lemma {:induction false} BurstsOverrun(w0: World, steps: seq<Step>, w: World, p: Packet)
    returns (steps': seq<Step>, w': World)
    requires Burstly(w0, steps, w, p) && Quiet(w) && |p| + 56 <= w.net.ring.pageSize
    ensures Burstly(w0, steps', w', p) && Quiet(w') && Lost(w'.log) == Lost(w.log) + [p]
    decreases Room(w.net.ring)
  {
    if Room(w.net.ring) == 1 {
      steps', w' := LastBurst(w0, steps, w, p);
    } else {
      steps', w' := FillBurst(w0, steps, w, p);
      steps', w' := BurstsOverrun(w0, steps', w', p);
    }
  }

  /**
   * Every freshly opened, working device can be brought to lose a packet in silence: enough copies
   * of any packet that fits, one to a flush, while the modem reads nothing. One of them was accepted
   * and is then neither on the wire nor queued, with no error and the device queue running.
   */
  lemma SilentLoss(net: Net, p: Packet) returns (steps: seq<Step>)
    requires Fresh(net) && !net.error && |p| + 56 <= net.ring.pageSize
    ensures OnlyBursts(steps, p)
    ensures var w := Run(Opened(net), steps);
            && Lost(w.log) == [p] && w.net.queue == [] && !w.net.error && !w.net.stopped
            && |Payloads(Sent(w))| < |w.accepted|
  {
    OpenedInv(net);
    OpenedPlain(net);
    ErrorStays(World(net, [], [], []), DoOpen);
    OpenedLost(net);
    var w: World;
    steps, w := BurstsOverrun(Opened(net), [], Opened(net), p);
    QuietLost(w, p);
  }

  lemma QuietLost(w: World, p: Packet)
    requires Quiet(w) && Lost(w.log) == [] + [p]
    ensures Lost(w.log) == [p] && |Payloads(Sent(w))| < |w.accepted|
  {
    assert [] + [p] == [p];
    ShippedOrLost(w.log);
    FlushedBounded(w.log);
  }

  lemma {:induction false} FlushedBounded(log: seq<Event>)
    ensures |FlushedPackets(log)| <= |Packets(log)|
  {
    if log != [] { FlushedBounded(log[1..]); }
  }
}
