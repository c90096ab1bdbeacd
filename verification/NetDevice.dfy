/** The network device in place: the packet queue with its counters, the frame buffer and Tx ring 0. */
module NetDevice {
  import opened Bytes
  import opened TdRing
  import opened MuxFrame
  import opened NetQueue
  import opened FrameBuffer
  import opened RingDevice

  // The value-level operations taken apart, one lemma per way out of a method below.

  lemma PackStep(f: Frame, queue: seq<Packet>, f': Frame, ok: bool)
    requires FrameOk(f) && f.used != [] && queue != [] && FrameOk(f') && f'.used != []
    requires AppendPacket(f, queue[0], MUX_MAX_PACKETS) == (f', ok)
    ensures Pack(f, queue) == if ok then Pack(f', queue[1..]) else (f', queue[1..], false)
  {
  }

  lemma FlushFrameIs(net: Net)
    requires NetOk(net)
    ensures FlushFrame(net) == StartOf(net, net.sequence + 1, ADBH)
  {
  }

  lemma BuildEnds(net: Net, f1: Frame, rest: seq<Packet>, packed: bool, f2: Frame, ok: bool)
    requires NetOk(net) && net.queue != [] && Pack(FlushFrame(net), net.queue) == (f1, rest, packed)
    requires FrameOk(f1) && f1.used != [] && (f2, ok) == if packed then AppendAdth(f1, net.channel) else (f1, false)
    ensures Build(net) == (f2, rest, ok)
  {
  }

  lemma FlushFails(net: Net, f: Frame, rest: seq<Packet>)
    requires NetOk(net) && net.queue != [] && Build(net) == (f, rest, false)
    ensures Flush(net).0 == Drop(Built(net, f, rest))
  {
  }

  lemma FlushShips(net: Net, f: Frame, rest: seq<Packet>)
    requires NetOk(net) && net.queue != [] && Build(net) == (f, rest, true)
    requires NetOk(Built(net, f, rest)) && |f.used| >= FIRST_HEADER
    ensures Flush(net).0 == Ship(Built(net, f, rest))
  {
  }

  lemma XmitEnqueues(net: Net, p: Packet, n: Net)
    requires NetOk(net) && !net.stopped && !(MustFlush(net, |p|) && Full(net.ring))
    requires n == if MustFlush(net, |p|) then Flush(net).0 else net
    ensures Xmit(net, p) == (Enqueue(n, p), Ok)
  {
  }

  class XmmNet {
    const frame: MuxFrameBuffer
    const ring: TdRingDevice
    const channel: nat
    var queue: seq<Packet>
    var queuedPackets: nat
    var queuedBytes: nat
    var sequence: nat
    var error: bool
    var stopped: bool

    ghost predicate Valid()
      reads this, frame, frame.data, frame.bounds, ring, ring.tds
    {
      && frame.Valid() && ring.Valid() && !frame.wide && frame.data.Length == TD_MAX_PAGE_SIZE
      && frame.bounds.Length == MUX_MAX_PACKETS && OPEN_MIN <= ring.pageSize
    }

    ghost function State(): (net: Net)
      requires Valid()
      reads this, frame, frame.data, frame.bounds, ring, ring.tds
      ensures NetOk(net)
    {
      Net(queue, queuedPackets, queuedBytes, sequence, channel, frame.State(), ring.State(), error, stopped)
    }

    /** `alloc_netdev` and `qp_start`: a zeroed device that the stack has not opened yet. */
    constructor (channel: nat)
      ensures Valid() && fresh(frame) && fresh(frame.data) && fresh(frame.bounds) && fresh(ring) && fresh(ring.tds)
      ensures queue == [] && ring.depth == 128 && ring.pageSize == 16384 && !error
      ensures Pending(ring.State()) == []
    {
      frame := new MuxFrameBuffer(false, TD_MAX_PAGE_SIZE, MUX_MAX_PACKETS);
      ring := new TdRingDevice.Create(128, TD_MAX_PAGE_SIZE);
      this.channel := channel;
      queue, queuedPackets, queuedBytes, sequence := [], 0, 0, 0;
      error, stopped := false, true;
    }

    /** `mux_frame_push` */
    method PushFrame() returns (ret: int)
      requires Valid() && frame.nBytes >= FIRST_HEADER
      modifies frame, frame.data, ring, ring.tds
      ensures Valid() && (State(), ret) == Push(old(State()))
    {
      var bytes := frame.Complete();
      var written := ring.QpWrite(error, bytes);
      ret := if written < 0 then written else 0;
    }

    /** `net_must_flush` */
    method MustFlushNow(newPacketBytes: nat) returns (must: bool)
      requires Valid()
      ensures must == MustFlush(State(), newPacketBytes)
    {
      if queuedPackets >= MUX_MAX_PACKETS { return true; }
      var frameSize := FIRST_HEADER + queuedBytes + NEXT_HEADER + 4 + BOUND * queuedPackets;
      frameSize := frameSize + 16 + newPacketBytes + BOUND;
      must := frameSize > frame.maxSize;
    }

    /** The packing loop of `net_flush`. */
    method PackQueue() returns (ok: bool)
      requires Valid() && frame.nBytes > 0
      modifies this`queue, frame, frame.data, frame.bounds
      ensures Valid()
      ensures Pack(old(State()).frame, old(queue)) == (frame.State(), queue, ok) && frame.nBytes > 0
      ensures State() == old(State()).(queue := queue, frame := frame.State())
    {
      ok := true;
      ghost var packed := Pack(frame.State(), queue);
      while queue != []
        invariant Valid() && frame.nBytes > 0 && ok
        invariant Pack(frame.State(), queue) == packed
        invariant State() == old(State()).(queue := queue, frame := frame.State())
        decreases queue
      {
        ghost var f, q := frame.State(), queue;
        var skb := queue[0];
        queue := queue[1..];
        ok := frame.AppendPacket(skb);
        PackStep(f, q, frame.State(), ok);
        if !ok { return; }
      }
    }

    /** The `drop:` exit of `net_flush` */
    method DropFrame()
      requires Valid()
      modifies this`queuedPackets, this`queuedBytes, this`stopped
      ensures Valid() && State() == Drop(old(State()))
    {
      queuedPackets, queuedBytes := 0, 0;
      stopped := true;
    }

    /** A re-initialised frame with its first tag. */
    method StartFrame(sequence: nat, tag: seq<u8>)
      requires Valid() && |tag| == 4
      modifies frame, frame.data
      ensures Valid()
      ensures State() == old(State()).(frame := StartOf(old(State()), sequence, tag))
    {
      frame.Start(ring.pageSize, sequence, tag);
    }

    /** Initialises the frame, opens it with an ADBH tag and packs the queue. */
    method PackFrame() returns (ok: bool)
      requires Valid() && queue != []
      modifies this`queue, this`sequence, frame, frame.data, frame.bounds
      ensures Valid() && frame.nBytes > 0
      ensures Pack(FlushFrame(old(State())), old(queue)) == (frame.State(), queue, ok)
      ensures State() == Built(old(State()), frame.State(), queue)
    {
      FlushFrameIs(State());
      StartFrame(sequence + 1, ADBH);
      sequence := sequence + 1;
      ok := PackQueue();
    }

    /** Initialises the frame, opens it with an ADBH tag, packs the queue and finishes the frame. */
    method BuildFrame() returns (ok: bool)
      requires Valid() && queue != []
      modifies this`queue, this`sequence, frame, frame.data, frame.bounds
      ensures Valid()
      ensures Build(old(State())) == (frame.State(), queue, ok)
      ensures State() == Built(old(State()), frame.State(), queue)
      ensures ok ==> frame.nBytes >= FIRST_HEADER
    {
      ghost var net := State();
      var packed := PackFrame();
      ghost var f1, rest := frame.State(), queue;
      ok := FinishFrame(packed);
      BuildEnds(net, f1, rest, packed, frame.State(), ok);
    }

    /** Adds the ADTH tag and the bounds table to a frame that was packed. */
    method FinishFrame(packed: bool) returns (ok: bool)
      requires Valid() && frame.nBytes > 0
      modifies frame, frame.data
      ensures Valid()
      ensures (frame.State(), ok)
              == if packed then AppendAdth(old(State()).frame, channel) else (old(State()).frame, false)
      ensures State() == old(State()).(frame := frame.State())
    {
      if !packed { return false; }
      ok := frame.AppendAdth(channel);
    }

    /** `net_flush` */
    method FlushQueue()
      requires Valid()
      modifies this`queue, this`queuedPackets, this`queuedBytes, this`sequence, this`stopped,
               frame, frame.data, frame.bounds, ring, ring.tds
      ensures Valid() && State() == Flush(old(State())).0
    {
      if queue == [] { return; }
      ghost var net := State();
      var ok := BuildFrame();
      ghost var f, rest := frame.State(), queue;
      if !ok {
        FlushFails(net, f, rest);
        DropFrame();
        return;
      }
      FlushShips(net, f, rest);
      ShipFrame();
    }

    /** The end of `net_flush`: the push, and what follows its result. */
    method ShipFrame()
      requires Valid() && frame.nBytes >= FIRST_HEADER
      modifies this`queuedPackets, this`queuedBytes, this`stopped, frame, frame.data, ring, ring.tds
      ensures Valid() && State() == Ship(old(State()))
    {
      var ret := PushFrame();
      if ret != 0 {
        DropFrame();
        return;
      }
      queuedPackets, queuedBytes := 0, 0;
    }

    /** `net_xmit` */
    method XmitPacket(skb: Packet) returns (status: Status)
      requires Valid()
      modifies this`queue, this`queuedPackets, this`queuedBytes, this`sequence, this`stopped,
               frame, frame.data, frame.bounds, ring, ring.tds
      ensures Valid() && Xmit(old(State()), skb) == (State(), status)
    {
      if stopped { return Busy; }
      ghost var net := State();
      var must := MustFlushNow(|skb|);
      if must {
        var full := ring.IsFull();
        if full {
          stopped := true;
          return Busy;
        }
        FlushQueue();
      }
      XmitEnqueues(net, skb, State());
      EnqueuePacket(skb);
      status := Ok;
    }

    method EnqueuePacket(skb: Packet)
      requires Valid()
      modifies this`queue, this`queuedPackets, this`queuedBytes
      ensures Valid() && State() == Enqueue(old(State()), skb)
    {
      queuedPackets := queuedPackets + 1;
      queuedBytes := queuedBytes + 16 + |skb|;
      queue := queue + [skb];
    }

    method FreeQueue()
      modifies this`queue
      ensures queue == []
    {
      while queue != []
        decreases queue
      {
        queue := queue[1..];
      }
    }

    /** `mux_control` */
    method SendControl(args: seq<u8>) returns (ret: int)
      requires Valid() && |args| == 16
      modifies frame, frame.data, ring, ring.tds
      ensures Valid() && Control(old(State()), args) == (State(), ret)
    {
      ghost var net := State();
      StartFrame(sequence, ACBH);
      var cmdh := frame.AddTag(CMDH, channel, args);
      assert frame.State() == ControlFrame(net, args);
      ret := PushFrame();
    }

    /** `net_open` */
    method OpenDevice() returns (ret: int)
      requires Valid()
      modifies this`queue, this`queuedPackets, this`queuedBytes, this`stopped,
               frame, frame.data, frame.bounds, ring, ring.tds
      ensures Valid() && Open(old(State())) == (State(), ret)
    {
      ghost var net := State();
      queuedPackets, queuedBytes := 0, 0;
      FreeQueue();
      stopped := false;
      assert State() == Emptied(net);
      ret := SendControl(OPEN_ARGS);
    }

    /** `net_close` */
    method CloseDevice()
      requires Valid()
      modifies this`stopped
      ensures Valid() && State() == Close(old(State()))
    {
      stopped := true;
    }

    /** The wake-up step of `net_poll` */
    method WakeQueue()
      requires Valid()
      modifies this`stopped
      ensures Valid() && State() == Wake(old(State()))
      ensures stopped <==> old(stopped) && |TdRing.Pending(ring.State())| == ring.depth - 1
    {
      WakeIff(State());
      var full := ring.IsFull();
      if stopped && !full { stopped := false; }
    }
  }
}
