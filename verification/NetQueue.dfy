/**
 * The coalescing transmit queue of the network device, on values: admission, packing into
 * one frame, and the push onto Tx ring 0.
 */
module NetQueue {
  import opened Bytes
  import opened TdRing
  import opened MuxFrame
  import opened MuxReservation

  datatype Net = Net(queue: seq<Packet>, queuedPackets: nat, queuedBytes: nat, sequence: nat, channel: nat,
                     frame: Frame, ring: Ring, error: bool, stopped: bool)

  /** What a call of `net_flush` came to. */
  datatype Fate = Idle | Shipped | RingFull | DeviceError | Unpackable

  datatype Status = Ok | Busy

  /** The kernel's frame buffer and a Tx ring; `OPEN_MIN` bytes hold the frame that `net_open` sends. */
  const OPEN_MIN: nat := 44

  ghost predicate NetOk(net: Net) {
    && FrameOk(net.frame) && !net.frame.wide && |net.frame.used| + |net.frame.spare| == TD_MAX_PAGE_SIZE
    && RingOk(net.ring) && OPEN_MIN <= net.ring.pageSize
  }

  /** The size of the frame that would hold the queue and one more packet. */
  function WouldBe(net: Net, newBytes: nat): nat {
    FIRST_HEADER + net.queuedBytes + NEXT_HEADER + 4 + BOUND * net.queuedPackets + (16 + newBytes + BOUND)
  }

  predicate MustFlush(net: Net, newBytes: nat) {
    net.queuedPackets >= MUX_MAX_PACKETS || WouldBe(net, newBytes) > net.frame.maxSize
  }

  /** Packs the queue from its head: the frame, what is left of the queue, and whether every step succeeded. */
  function Pack(f: Frame, queue: seq<Packet>): (res: (Frame, seq<Packet>, bool))
    requires FrameOk(f) && f.used != []
    ensures FrameOk(res.0) && res.0.used != [] && SameFrame(f, res.0)
    ensures |res.1| <= |queue| && (queue != [] ==> |res.1| < |queue|) && res.1 == queue[|queue| - |res.1|..]
    decreases queue
  {
    if queue == [] then (f, [], true) else
    var (f', ok) := AppendPacket(f, queue[0], MUX_MAX_PACKETS);
    if !ok then (f', queue[1..], false) else Pack(f', queue[1..])
  }

  /** `mux_frame_push`: the full ring is not an error, although the frame is not sent. */
  function Push(net: Net): (res: (Net, int))
    requires NetOk(net) && |net.frame.used| >= FIRST_HEADER
    ensures NetOk(res.0) && res.0.ring.pageSize == net.ring.pageSize && res.0.frame.maxSize == net.frame.maxSize
    ensures res.0 == net.(frame := res.0.frame, ring := res.0.ring)
  {
    var bytes := Completed(net.frame);
    var (ring', ret) := QpWrite(net.ring, net.error, bytes);
    (net.(frame := net.frame.(used := bytes), ring := ring'), if ret < 0 then ret else 0)
  }

  function PushFate(net: Net): Fate
    requires RingOk(net.ring)
  {
    if net.error then DeviceError else if Full(net.ring) then RingFull else Shipped
  }

  /** The `drop:` exit of `net_flush`. */
  function Drop(net: Net): Net {
    net.(queuedPackets := 0, queuedBytes := 0, stopped := true)
  }

  /** A re-initialised frame with its first tag. */
  function StartOf(net: Net, sequence: nat, tag: seq<u8>): (f: Frame)
    requires NetOk(net) && |tag| == 4
    ensures FrameOk(f) && f.used != [] && |f.used| + |f.spare| == TD_MAX_PAGE_SIZE && !f.wide
    ensures f.maxSize == net.ring.pageSize && f.sequence == sequence
  {
    AddTag(FrameInit(net.frame, net.ring.pageSize, sequence), tag, 0, []).0
  }

  /** The frame `net_flush` starts from. */
  function FlushFrame(net: Net): (f: Frame)
    requires NetOk(net)
    ensures FrameOk(f) && f.used != [] && |f.used| + |f.spare| == TD_MAX_PAGE_SIZE && !f.wide
    ensures f.maxSize == net.ring.pageSize && f.sequence == net.sequence + 1
  {
    StartOf(net, net.sequence + 1, ADBH)
  }

  /** The packing part of `net_flush`: the frame, what is left of the queue, and whether every step succeeded. */
  function Build(net: Net): (res: (Frame, seq<Packet>, bool))
    requires NetOk(net) && net.queue != []
    ensures FrameOk(res.0) && SameFrame(FlushFrame(net), res.0)
    ensures |res.1| < |net.queue| && res.1 == net.queue[|net.queue| - |res.1|..]
    ensures res.2 ==> |res.0.used| >= FIRST_HEADER
  {
    var (f1, rest, ok) := Pack(FlushFrame(net), net.queue);
    if !ok then (f1, rest, false) else
    var (f2, ok2) := AppendAdth(f1, net.channel);
    (f2, rest, ok2)
  }

  /** The device once the packing part of `net_flush` has run. */
  function Built(net: Net, f: Frame, rest: seq<Packet>): Net {
    net.(sequence := net.sequence + 1, queue := rest, frame := f)
  }

  /** The end of `net_flush` once the frame is built: the push, and what follows its result. */
  function Ship(net: Net): (net': Net)
    requires NetOk(net) && |net.frame.used| >= FIRST_HEADER
    ensures NetOk(net') && net'.queue == net.queue && net'.ring.pageSize == net.ring.pageSize
    ensures net'.queuedPackets == 0 && net'.queuedBytes == 0
    ensures net'.ring == QpWrite(net.ring, net.error, Completed(net.frame)).0
    ensures net'.frame.maxSize == net.frame.maxSize && net'.error == net.error
  {
    var (pushed, ret) := Push(net);
    if ret != 0 then Drop(pushed) else pushed.(queuedPackets := 0, queuedBytes := 0)
  }

  /** The two exits of `net_flush`: the push of a frame that was built, and `drop:`. */
  function Settle(net: Net, ok: bool): (net': Net)
    requires NetOk(net) && (ok ==> |net.frame.used| >= FIRST_HEADER)
    ensures NetOk(net') && net'.queue == net.queue && net'.ring.pageSize == net.ring.pageSize && net'.error == net.error
  {
    if ok then Ship(net) else Drop(net)
  }

  /** `net_flush` */
  function Flush(net: Net): (res: (Net, Fate))
    requires NetOk(net)
    ensures NetOk(res.0) && res.0.ring.pageSize == net.ring.pageSize && |res.0.queue| <= |net.queue|
    ensures res.0.error == net.error
  {
    if net.queue == [] then (net, Idle) else
    var (f, rest, ok) := Build(net);
    (Settle(Built(net, f, rest), ok), if ok then PushFate(net) else Unpackable)
  }

  lemma FlushRemainder(net: Net)
    requires NetOk(net) && net.queue != []
    ensures Flush(net).0.queue == Build(net).1
  {
  }

  /** A flush takes packets off the head of the queue. */
  lemma FlushTakesHead(net: Net)
    requires NetOk(net)
    ensures Flush(net).0.queue == net.queue[|net.queue| - |Flush(net).0.queue|..]
  {
    if net.queue != [] {
      FlushRemainder(net);
      SuffixOf(net.queue, Build(net).1, Flush(net).0.queue);
    }
  }

  lemma SuffixOf(queue: seq<Packet>, rest: seq<Packet>, left: seq<Packet>)
    requires |rest| <= |queue| && rest == queue[|queue| - |rest|..] && left == rest
    ensures left == queue[|queue| - |left|..]
  {
  }

  function Enqueue(net: Net, p: Packet): Net {
    net.(queuedPackets := net.queuedPackets + 1, queuedBytes := net.queuedBytes + 16 + |p|, queue := net.queue + [p])
  }

  /** `net_xmit` */
  function Xmit(net: Net, p: Packet): (res: (Net, Status))
    requires NetOk(net)
    ensures NetOk(res.0) && res.0.ring.pageSize == net.ring.pageSize && res.0.error == net.error
  {
    if net.stopped then (net, Busy)
    else if MustFlush(net, |p|) && Full(net.ring) then (net.(stopped := true), Busy)
    else
      var n := if MustFlush(net, |p|) then Flush(net).0 else net;
      (Enqueue(n, p), Ok)
  }

  /** The frame of `mux_control`: an ACBH tag and a CMDH tag with its four arguments. */
  function ControlFrame(net: Net, args: seq<u8>): (f: Frame)
    requires NetOk(net) && |args| == 16
    ensures FrameOk(f) && |f.used| >= FIRST_HEADER && |f.used| + |f.spare| == TD_MAX_PAGE_SIZE
    ensures !f.wide && f.maxSize == net.ring.pageSize
  {
    AddTag(StartOf(net, net.sequence, ACBH), CMDH, net.channel, args).0
  }

  const OPEN_ARGS: seq<u8> := [1, 0, 0, 0, 0, 0, 0, 0, 0, 0, 0, 0, 0, 0, 0, 0]

  /** `mux_control`, whose result `net_open` passes on. */
  function Control(net: Net, args: seq<u8>): (res: (Net, int))
    requires NetOk(net) && |args| == 16
    ensures NetOk(res.0) && res.0.frame.maxSize == res.0.ring.pageSize == net.ring.pageSize
    ensures res.0 == net.(frame := res.0.frame, ring := res.0.ring)
    ensures res.1 == if net.error then -ENODEV else 0
  {
    Push(net.(frame := ControlFrame(net, args)))
  }

  function Emptied(net: Net): Net {
    net.(queue := [], queuedPackets := 0, queuedBytes := 0, stopped := false)
  }

  /** `net_open`: empties the queue, starts the device queue and sends a control frame. */
  function Open(net: Net): (res: (Net, int))
    requires NetOk(net)
    ensures NetOk(res.0) && res.0.ring.pageSize == net.ring.pageSize == res.0.frame.maxSize
    ensures res.0 == Emptied(net).(frame := res.0.frame, ring := res.0.ring)
    ensures res.1 == if net.error then -ENODEV else 0
  {
    Control(Emptied(net), OPEN_ARGS)
  }

  /** `net_close`: stops the device queue and leaves everything else; a later poll may wake it again. */
  function Close(net: Net): (net': Net)
    requires NetOk(net)
    ensures NetOk(net') && net'.ring.pageSize == net.ring.pageSize
  {
    net.(stopped := true)
  }

  /** The first step of `net_poll`: wakes the device queue once the ring has room. */
  function Wake(net: Net): (net': Net)
    requires NetOk(net)
    ensures NetOk(net') && net'.ring.pageSize == net.ring.pageSize
  {
    if net.stopped && !Full(net.ring) then net.(stopped := false) else net
  }

  /** After the poll the device queue is stopped only if it was before and the ring has no free slot left. */
  lemma WakeIff(net: Net)
    requires NetOk(net)
    ensures Wake(net) == net.(stopped := net.stopped && |Pending(net.ring)| == net.ring.depth - 1)
  {
    FullIsCapacity(net.ring);
  }

  /**
   * A packet is refused exactly when the device queue is stopped, or the frame has no room for it and the
   * ring none for the frame. A refusal changes nothing but to stop the device queue; an accepted packet is
   * last in the queue.
   */
  lemma XmitAcceptsIff(net: Net, p: Packet)
    requires Accounted(net)
    ensures Xmit(net, p).1 == Ok
            <==> !net.stopped
                 && (|Pending(net.ring)| < net.ring.depth - 1
                     || (|net.queue| < 64 && FrameBytes(net.queue + [p]) <= net.ring.pageSize))
    ensures Xmit(net, p).1 == Busy ==> Xmit(net, p).0 == net.(stopped := true)
    ensures Xmit(net, p).1 == Ok ==>
              var queue := Xmit(net, p).0.queue; queue != [] && queue[|queue| - 1] == p
  {
    FullIsCapacity(net.ring);
    BodyLenConcat(net.queue, [p]);
    BodyLenOne(p);
  }

  // ---- The accounting of the queue ----

  lemma {:induction false} BodyLenConcat(a: seq<Packet>, b: seq<Packet>)
    ensures BodyLen(a + b) == BodyLen(a) + BodyLen(b)
    decreases |b|
  {
    if b == [] {
      assert a + b == a;
    } else {
      assert (a + b)[..|a + b| - 1] == a + b[..|b| - 1];
      BodyLenConcat(a, b[..|b| - 1]);
    }
  }

  lemma BodyLenOne(p: Packet)
    ensures BodyLen([p]) == 16 + |p|
  {
    var none: seq<Packet> := [];
    assert [p][..0] == none;
  }

  /** The frame that would hold exactly these packets. */
  function FrameBytes(ps: seq<Packet>): nat {
    FIRST_HEADER + BodyLen(ps) + NEXT_HEADER + 4 + BOUND * |ps|
  }

  /**
   * The counters are true, and the queue fits one frame unless it is a single packet
   * that fits none.
   */
  ghost predicate Accounted(net: Net) {
    && NetOk(net) && net.frame.maxSize == net.ring.pageSize
    && net.queuedPackets == |net.queue| <= MUX_MAX_PACKETS
    && net.queuedBytes == BodyLen(net.queue)
    && (|net.queue| <= 1 || FrameBytes(net.queue) <= net.ring.pageSize)
  }

  /** A queue that fits one frame is packed whole, step by step. */
  lemma {:induction false} PackAll(f: Frame, done: seq<Packet>, queue: seq<Packet>)
    requires Holds(f, done) && |done + queue| <= MUX_MAX_PACKETS
    requires queue == [] || FrameBytes(done + queue) <= f.maxSize
    ensures Pack(f, queue).2 && Pack(f, queue).1 == []
    ensures Holds(Pack(f, queue).0, done + queue)
    decreases queue
  {
    if queue == [] {
      assert done + queue == done;
    } else {
      var p := queue[0];
      assert done + queue == (done + [p]) + queue[1..];
      BodyLenConcat(done + [p], queue[1..]);
      BodyLenConcat(done, [p]);
      BodyLenOne(p);
      AppendPacketHolds(f, done, p, MUX_MAX_PACKETS);
      PackAll(AppendPacket(f, p, MUX_MAX_PACKETS).0, done + [p], queue[1..]);
    }
  }

  /** A queue that fits one frame is built into one laid-out frame; no packing step can fail. */
  lemma BuildFits(net: Net) returns (pad: seq<u8>)
    requires NetOk(net) && net.queue != [] && |net.queue| <= MUX_MAX_PACKETS
    requires FrameBytes(net.queue) <= net.ring.pageSize && net.ring.pageSize % 4 == 0
    ensures Build(net).1 == [] && Build(net).2 && |Build(net).0.used| <= net.ring.pageSize
    ensures Completed(Build(net).0) == Layout(net.sequence + 1, net.channel, net.queue, pad)
  {
    var f1 := PackWhole(net);
    pad := FinishFits(f1, net.queue, net.channel);
    BuildIs(net, f1);
  }

  lemma BuildIs(net: Net, f: Frame)
    requires NetOk(net) && net.queue != [] && FrameOk(f) && f.used != []
    requires Pack(FlushFrame(net), net.queue) == (f, [], true)
    ensures Build(net) == (AppendAdth(f, net.channel).0, [], AppendAdth(f, net.channel).1)
  {
  }

  /** A packed frame of a maximum size divisible by 4 can always be finished. */
  lemma FinishFits(f: Frame, ps: seq<Packet>, channel: nat) returns (pad: seq<u8>)
    requires Holds(f, ps) && ps != [] && f.maxSize % 4 == 0
    ensures AppendAdth(f, channel).1 && FIRST_HEADER <= |AppendAdth(f, channel).0.used| <= f.maxSize
    ensures Completed(AppendAdth(f, channel).0) == Layout(f.sequence, channel, ps, pad)
  {
    ReservationCoversAlignment(f, ps);
    AdthLayout(f, ps, channel);
    pad := Padding(f);
    assert |f.bounds| == |ps|;
  }

  /** A flush whose frame was built pushes exactly these bytes. */
  lemma FlushBuilt(net: Net, bytes: seq<u8>)
    requires NetOk(net) && net.queue != [] && Build(net).2 && Completed(Build(net).0) == bytes
    ensures Flush(net).1 == PushFate(net)
    ensures Flush(net).0.ring == QpWrite(net.ring, net.error, bytes).0
  {
  }

  lemma BuildEmpties(net: Net)
    requires Accounted(net) && net.queue != []
    ensures Build(net).1 == []
  {
    if |net.queue| > 1 { var f := PackWhole(net); }
    BuildRest(net);
  }

  lemma BuildRest(net: Net)
    requires NetOk(net) && net.queue != []
    ensures Build(net).1 == Pack(FlushFrame(net), net.queue).1
  {
  }

  /** The frame after the packing loop of `net_flush`, for a queue that fits. */
  lemma PackWhole(net: Net) returns (f: Frame)
    requires NetOk(net) && net.queue != [] && |net.queue| <= MUX_MAX_PACKETS
    requires FrameBytes(net.queue) <= net.ring.pageSize
    ensures Pack(FlushFrame(net), net.queue) == (f, [], true) && Holds(f, net.queue)
    ensures f.maxSize == net.ring.pageSize && f.sequence == net.sequence + 1
  {
    StartHolds(net);
    f := PackFrom(FlushFrame(net), net.queue);
  }

  /** The frame a flush opens holds no packets yet. */
  lemma StartHolds(net: Net)
    requires NetOk(net)
    ensures Holds(FlushFrame(net), [])
  {
    OpenHolds(FrameInit(net.frame, net.ring.pageSize, net.sequence + 1));
  }

  lemma PackFrom(f0: Frame, queue: seq<Packet>) returns (f: Frame)
    requires Holds(f0, []) && queue != [] && |queue| <= MUX_MAX_PACKETS && FrameBytes(queue) <= f0.maxSize
    ensures Pack(f0, queue) == (f, [], true) && Holds(f, queue) && f.maxSize == f0.maxSize && f.sequence == f0.sequence
  {
    f := Pack(f0, queue).0;
    assert [] + queue == queue;
    PackAll(f0, [], queue);
  }

  /** What `net_flush` does to everything but the frame's bytes and the ring. */
  lemma FlushShape(net: Net)
    requires NetOk(net) && net.queue != []
    ensures var net' := Flush(net).0;
            && net'.queue == Build(net).1 && net'.queuedPackets == 0 && net'.queuedBytes == 0
            && net'.frame.maxSize == net.ring.pageSize == net'.ring.pageSize
  {
  }

  /** A flush always empties an accounted queue, and leaves both counters zero; so `drop:` never strands a packet. */
  lemma FlushEmpties(net: Net)
    requires Accounted(net)
    ensures var net' := Flush(net).0;
            Accounted(net') && net'.queue == [] && net'.queuedPackets == 0 && net'.queuedBytes == 0
    ensures net.queue == [] ==> Flush(net) == (net, Idle)
  {
    if net.queue != [] {
      BuildEmpties(net);
      FlushShape(net);
    }
  }

  /** A flush of an accounted queue that fits ships one laid-out frame, or meets an error or a full ring. */
  lemma FlushFits(net: Net) returns (pad: seq<u8>)
    requires Accounted(net) && net.queue != [] && FrameBytes(net.queue) <= net.ring.pageSize
             && net.ring.pageSize % 4 == 0
    ensures var bytes := Layout(net.sequence + 1, net.channel, net.queue, pad);
            && Flush(net).1 == PushFate(net)
            && |bytes| <= net.ring.pageSize && Flush(net).0.ring == QpWrite(net.ring, net.error, bytes).0
  {
    pad := BuildFits(net);
    FlushBuilt(net, Layout(net.sequence + 1, net.channel, net.queue, pad));
  }

  /**
   * Packing fails exactly for a queue that fits no frame, which is then one packet too
   * long for any frame.
   */
  lemma UnpackableIff(net: Net)
    requires Accounted(net) && net.queue != [] && net.ring.pageSize % 4 == 0
    ensures Flush(net).1 == Unpackable <==> |net.queue[0]| + 56 > net.ring.pageSize
    ensures Flush(net).1 == Unpackable ==> |net.queue| == 1 && Flush(net).0.ring == net.ring
  {
    if FrameBytes(net.queue) <= net.ring.pageSize {
      var pad := FlushFits(net);
      AtLeastFirst(net.queue);
    } else {
      AtLeastFirst(net.queue);
      assert net.queue == [net.queue[0]];
      OversizeFails(net, net.queue[0]);
    }
  }

  lemma AtLeastFirst(queue: seq<Packet>)
    requires queue != []
    ensures FrameBytes(queue) >= |queue[0]| + 56
    ensures |queue| == 1 ==> FrameBytes(queue) == |queue[0]| + 56
  {
    assert queue == [queue[0]] + queue[1..];
    BodyLenConcat([queue[0]], queue[1..]);
    BodyLenOne(queue[0]);
  }

  lemma OversizeFails(net: Net, p: Packet)
    requires NetOk(net) && net.queue == [p] && |p| + 56 > net.ring.pageSize
    ensures !Build(net).2 && Flush(net).1 == Unpackable && Flush(net).0.ring == net.ring
  {
    OpenHolds(FrameInit(net.frame, net.ring.pageSize, net.sequence + 1));
    assert !PacketFits(FlushFrame(net), |p|, MUX_MAX_PACKETS);
  }

  /** The admission test of `net_xmit` is the packer's own test on the frame that already holds the queue. */
  lemma MustFlushIsPackerTest(net: Net, f: Frame, p: Packet)
    requires Accounted(net) && Holds(f, net.queue) && f.maxSize == net.ring.pageSize
    ensures MustFlush(net, |p|) <==> !PacketFits(f, |p|, MUX_MAX_PACKETS)
  {
  }

  // ---- Every operation keeps the accounting, whatever the packets ----

  lemma EnqueueKeepsAccounted(net: Net, p: Packet)
    requires Accounted(net) && (net.queue == [] || !MustFlush(net, |p|))
    ensures Accounted(Enqueue(net, p))
  {
    BodyLenConcat(net.queue, [p]);
    BodyLenOne(p);
  }

  lemma XmitKeepsAccounted(net: Net, p: Packet)
    requires Accounted(net)
    ensures Accounted(Xmit(net, p).0)
  {
    if Xmit(net, p).1 == Ok {
      if MustFlush(net, |p|) {
        FlushEmpties(net);
        EnqueueKeepsAccounted(Flush(net).0, p);
      } else {
        EnqueueKeepsAccounted(net, p);
      }
    }
  }

  lemma OpenAccounts(net: Net)
    requires NetOk(net)
    ensures Accounted(Open(net).0) && Open(net).0.queue == []
    ensures Open(net).1 == if net.error then -19 else 0
  {
    EmptyAccounted(Open(net).0);
  }

  lemma EmptyAccounted(net: Net)
    requires NetOk(net) && net.frame.maxSize == net.ring.pageSize
    requires net.queue == [] && net.queuedPackets == 0 && net.queuedBytes == 0
    ensures Accounted(net)
  {
  }

  /** A queue within one frame is packed unless its first packet is too long, and then it ends as its push does. */
  lemma FlushFate(net: Net)
    requires Accounted(net) && net.queue != [] && net.ring.pageSize % 4 == 0
    ensures Flush(net).1 == if |net.queue[0]| + 56 > net.ring.pageSize then Unpackable else PushFate(net)
  {
    UnpackableIff(net);
  }

  /**
   * A flush sends the queue exactly when the device works, the ring has room and the first packet
   * fits a frame. Only a device error and an oversize packet are reported; on a full ring the
   * packets vanish with the device queue running and no error.
   */
  lemma FlushShipsIff(net: Net)
    requires Accounted(net) && net.queue != [] && net.ring.pageSize % 4 == 0
    ensures Flush(net).1 == Shipped <==> !net.error && !Full(net.ring) && |net.queue[0]| + 56 <= net.ring.pageSize
    ensures Flush(net).1 != Shipped ==> Flush(net).0.ring == net.ring
    ensures Flush(net).0.stopped <==> net.stopped || net.error || |net.queue[0]| + 56 > net.ring.pageSize
  {
    FlushFate(net);
    FlushRest(net);
  }

  lemma FlushRest(net: Net)
    requires NetOk(net) && net.queue != []
    ensures Flush(net).1 != Shipped ==> Flush(net).0.ring == net.ring
    ensures Flush(net).0.stopped <==> net.stopped || Flush(net).1 == DeviceError || Flush(net).1 == Unpackable
  {
  }

  /**
   * A flush inside `net_xmit` on a working device never meets a full ring: it ships the queue
   * unless its packet fits no frame, and the new packet is then alone in the queue.
   */
  lemma XmitFlushShips(net: Net, p: Packet)
    requires Accounted(net) && net.ring.pageSize % 4 == 0 && !net.error
    requires MustFlush(net, |p|) && Xmit(net, p).1 == Ok
    ensures Flush(net).1 == if net.queue == [] then Idle
                            else if |net.queue[0]| + 56 <= net.ring.pageSize then Shipped else Unpackable
    ensures Xmit(net, p).0.queue == [p]
  {
    if net.queue != [] { FlushFate(net); }
    FlushEmpties(net);
    assert [] + [p] == [p];
  }
}
