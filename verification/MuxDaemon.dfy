/** mux.c in place: the global frame, the sequence counter and the two event handlers. */
module MuxDaemon {
  import opened Bytes
  import opened MuxFrame
  import opened MuxDecode
  import opened FrameBuffer
  import opened UserMux

  // The value-level handlers taken apart, one lemma per way through `HandleTunFrame`.

  lemma TunStays(m: Mux, p: Packet, f: Frame)
    requires MuxOk(m) && |m.frame.used| >= FIRST_HEADER
    requires AppendPacket(m.frame, p, MaxPackets(m)) == (f, true) && |f.bounds| < MaxPackets(m)
    ensures HandleTun(m, p) == m.(frame := f)
  {
  }

  lemma TunPushes(m: Mux, p: Packet, f: Frame)
    requires MuxOk(m) && |m.frame.used| >= FIRST_HEADER
    requires AppendPacket(m.frame, p, MaxPackets(m)) == (f, true) && |f.bounds| >= MaxPackets(m)
    requires FrameOk(f) && |f.used| >= FIRST_HEADER && SameFrame(m.frame, f)
    ensures HandleTun(m, p) == PushFrame(m.(frame := f))
  {
  }

  lemma TunTriesAgain(m: Mux, p: Packet, f: Frame, m2: Mux, f3: Frame, ok: bool)
    requires MuxOk(m) && |m.frame.used| >= FIRST_HEADER && AppendPacket(m.frame, p, MaxPackets(m)) == (f, false)
    requires FrameOk(f) && |f.used| >= FIRST_HEADER && SameFrame(m.frame, f)
    requires PushFrame(m.(frame := f)) == m2 && AppendPacket(m2.frame, p, MaxPackets(m)) == (f3, ok)
    ensures HandleTun(m, p) == m2.(frame := f3, dead := m2.dead || !ok)
  {
  }

  lemma PushBegins(m: Mux, f: Frame, ok: bool)
    requires MuxOk(m) && |m.frame.used| >= FIRST_HEADER && AppendAdth(m.frame, 0) == (f, ok)
    requires |f.used| >= FIRST_HEADER && MuxOk(Written(m.(frame := f), f))
    ensures PushFrame(m) == Begin(Written(m.(frame := f), f), ADBH)
  {
  }

  class Daemon {
    const maxFrame: nat
    const frame: MuxFrameBuffer
    var sequence: nat
    var written: seq<seq<u8>>
    var dead: bool

    ghost predicate Valid()
      reads this, frame, frame.data, frame.bounds
    {
      && frame.Valid() && frame.wide && FIRST_HEADER <= maxFrame < 65536 && frame.maxSize == maxFrame
      && frame.data.Length == AlignUp(maxFrame) && frame.bounds.Length == maxFrame / 1024
    }

    ghost function State(): (m: Mux)
      requires Valid()
      reads this, frame, frame.data, frame.bounds
      ensures MuxOk(m)
    {
      Mux(maxFrame, frame.State(), sequence, written, dead)
    }

    /** `frame_alloc` and the start of `main`. */
    constructor (maxFrame: nat)
      requires FIRST_HEADER <= maxFrame < 65536
      ensures Valid() && fresh(frame) && fresh(frame.data) && fresh(frame.bounds)
      ensures written == [] && !dead && sequence == 0 && this.maxFrame == maxFrame
    {
      this.maxFrame := maxFrame;
      frame := new MuxFrameBuffer(true, AlignUp(maxFrame), maxFrame / 1024);
      sequence, written, dead := 0, [], false;
      new;
      frame.Init(maxFrame, 0);
    }

    /** `frame_init`, then the first tag of the next frame. */
    method BeginFrame(tag: seq<u8>)
      requires Valid() && |tag| == 4
      modifies this`sequence, frame, frame.data
      ensures Valid() && State() == Begin(old(State()), tag) && frame.nBytes >= FIRST_HEADER
    {
      frame.Start(maxFrame, sequence, tag);
      sequence := (sequence + 1) % 65536;
    }

    /** `frame_complete` and `write` */
    method WriteFrame()
      requires Valid() && frame.nBytes >= FIRST_HEADER
      modifies this`written, frame.data
      ensures Valid() && State() == Written(old(State()), old(State()).frame)
    {
      var bytes := frame.Complete();
      written := written + [bytes];
    }

    /** `frame_append_adth`, `frame_push` and the next ADBH tag. */
    method FlushFrame()
      requires Valid() && frame.nBytes >= FIRST_HEADER
      modifies this`sequence, this`written, frame, frame.data
      ensures Valid() && State() == PushFrame(old(State())) && frame.nBytes >= FIRST_HEADER
    {
      ghost var m := State();
      AdthGrows(m.frame);
      var ok := frame.AppendAdth(0);
      ghost var f := frame.State();
      WriteFrame();
      BeginFrame(ADBH);
      PushBegins(m, f, ok);
    }

    /** `frame_append_packet` on the global frame. */
    method TryAppend(packet: Packet) returns (ok: bool)
      requires Valid() && frame.nBytes >= FIRST_HEADER
      modifies frame, frame.data, frame.bounds
      ensures Valid() && frame.nBytes >= FIRST_HEADER
      ensures AppendPacket(old(State()).frame, packet, MaxPackets(old(State()))) == (frame.State(), ok)
      ensures State() == old(State()).(frame := frame.State())
    {
      PacketGrows(frame.State(), packet, frame.bounds.Length);
      ok := frame.AppendPacket(packet);
    }

    /** `handle_tun_frame` */
    method HandleTunFrame(packet: Packet)
      requires Valid() && frame.nBytes >= FIRST_HEADER
      modifies this`sequence, this`written, this`dead, frame, frame.data, frame.bounds
      ensures Valid() && frame.nBytes >= FIRST_HEADER
      ensures HandleTun(old(State()), packet) == State()
    {
      ghost var m := State();
      var ok := TryAppend(packet);
      ghost var f := frame.State();
      if ok && frame.nPackets < frame.bounds.Length {
        TunStays(m, packet, f);
        return;
      }
      FlushFrame();
      if ok {
        TunPushes(m, packet, f);
        return;
      }
      ghost var m2 := State();
      ok := TryAgain(packet);
      TunTriesAgain(m, packet, f, m2, frame.State(), ok);
    }

    /** The second attempt of `handle_tun_frame`, whose failure is the FATAL exit. */
    method TryAgain(packet: Packet) returns (ok: bool)
      requires Valid() && frame.nBytes >= FIRST_HEADER
      modifies this`dead, frame, frame.data, frame.bounds
      ensures Valid() && frame.nBytes >= FIRST_HEADER
      ensures AppendPacket(old(State()).frame, packet, MaxPackets(old(State()))) == (frame.State(), ok)
      ensures State() == old(State()).(frame := frame.State(), dead := old(dead) || !ok)
    {
      ok := TryAppend(packet);
      if !ok { dead := true; }
    }

    /** The flush branch of `main`, which runs when the deadline has passed. */
    method TimerFlush()
      requires Valid() && frame.nBytes >= FIRST_HEADER
      modifies this`sequence, this`written, frame, frame.data
      ensures Valid() && State() == HandleTimer(old(State())) && frame.nBytes >= FIRST_HEADER
    {
      if frame.nPackets > 0 { FlushFrame(); }
    }

    /**
     * `handle_mux_frame`: what is written to the tun device for a frame from the modem, up to the
     * first bound that leaves the page, where the C code would write other memory.
     */
    method HandleMuxFrame(page: seq<u8>) returns (tun: seq<Packet>)
      ensures var o := Locate(page, true); tun == if o.Table? then InPageSlices(page, o.at, o.count, 0) else []
      ensures Unmux(page, true).Some? ==> tun == Unmux(page, true).value
    {
      tun := [];
      var located := Locate(page, true);
      if !located.Table? { return; }
      if Unmux(page, true).Some? { AllInPage(page, located.at, located.count, 0); }
      ghost var all := InPageSlices(page, located.at, located.count, 0);
      assert [] + all == all;
      var i := 0;
      while i < located.count
        invariant i <= located.count
        invariant tun + InPageSlices(page, located.at, located.count, i) == all
      {
        InPageStep(page, located.at, located.count, i, tun);
        var b := BoundAt(page, located.at, i);
        if !InPage(page, b) { return; }
        var slice := Slice(page, b);
        tun := tun + [slice];
        i := i + 1;
      }
      assert tun + [] == tun;
    }
  }
}
