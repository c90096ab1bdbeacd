/**
 * The user-space multiplexer (mux.c), on values: it batches packets read from the tun
 * device into frames written to the mux device. The clock only decides when the timer
 * step happens.
 */
module UserMux {
  import opened Bytes
  import opened MuxFrame
  import opened MuxReservation
  import opened MuxDecode

  /** `written` are the frames passed to `write`, `dead` that the process took its FATAL exit. */
  datatype Mux = Mux(maxFrame: nat, frame: Frame, sequence: nat, written: seq<seq<u8>>, dead: bool)

  function MaxPackets(m: Mux): nat {
    m.maxFrame / 1024
  }

  /** Room for the header of a frame; the kernel hands out 16-bit page sizes. */
  ghost predicate MuxOk(m: Mux) {
    && FIRST_HEADER <= m.maxFrame < 65536
    && FrameOk(m.frame) && m.frame.wide && m.frame.maxSize == m.maxFrame
    && AlignUp(m.maxFrame) <= |m.frame.used| + |m.frame.spare|
  }

  /** `frame_init`, and `frame_add_tag` on the empty frame, which uses up a sequence number. */
  function Begin(m: Mux, tag: seq<u8>): (m': Mux)
    requires MuxOk(m) && |tag| == 4
    ensures MuxOk(m') && m' == m.(frame := m'.frame, sequence := (m.sequence + 1) % 65536)
            && |m'.frame.used| >= FIRST_HEADER
  {
    var f := AddTag(FrameInit(m.frame, m.maxFrame, m.sequence), tag, 0, []).0;
    m.(frame := f, sequence := (m.sequence + 1) % 65536)
  }

  /** `frame_complete` and `write`. */
  function Written(m: Mux, f: Frame): Mux
    requires |f.used| >= FIRST_HEADER
  {
    m.(frame := f.(used := Completed(f)), written := m.written + [Completed(f)])
  }

  /** `frame_append_adth` (its result is ignored), `frame_push`, and the next ADBH tag. */
  function PushFrame(m: Mux): (m': Mux)
    requires MuxOk(m) && |m.frame.used| >= FIRST_HEADER
    ensures MuxOk(m') && m'.maxFrame == m.maxFrame && |m'.frame.used| >= FIRST_HEADER
  {
    AdthGrows(m.frame);
    var f := AppendAdth(m.frame, 0).0;
    Begin(Written(m, f), ADBH)
  }

  lemma AdthGrows(f: Frame)
    requires FrameOk(f) && f.used != []
    ensures |AppendAdth(f, 0).0.used| >= |f.used|
  {
  }

  lemma TagGrows(f: Frame, tag: seq<u8>, data: seq<u8>)
    requires FrameOk(f) && |tag| == 4
    ensures |AddTag(f, tag, 0, data).0.used| >= |f.used|
  {
  }

  lemma PacketGrows(f: Frame, p: Packet, maxPackets: nat)
    requires FrameOk(f) && f.used != []
    ensures |AppendPacket(f, p, maxPackets).0.used| >= |f.used|
  {
  }

  /** `handle_tun_frame` for one packet read from the tun device. */
  function HandleTun(m: Mux, p: Packet): (m': Mux)
    requires MuxOk(m) && |m.frame.used| >= FIRST_HEADER
    ensures MuxOk(m') && m'.maxFrame == m.maxFrame && |m'.frame.used| >= FIRST_HEADER
  {
    PacketGrows(m.frame, p, MaxPackets(m));
    var (f1, ok1) := AppendPacket(m.frame, p, MaxPackets(m));
    var m1 := m.(frame := f1);
    var m2 := if !ok1 || |f1.bounds| >= MaxPackets(m) then PushFrame(m1) else m1;
    if ok1 then m2 else
    PacketGrows(m2.frame, p, MaxPackets(m));
    var (f3, ok3) := AppendPacket(m2.frame, p, MaxPackets(m));
    m2.(frame := f3, dead := m2.dead || !ok3)
  }

  /** The flush branch of `main`. */
  function HandleTimer(m: Mux): (m': Mux)
    requires MuxOk(m) && |m.frame.used| >= FIRST_HEADER
    ensures MuxOk(m') && m'.maxFrame == m.maxFrame && |m'.frame.used| >= FIRST_HEADER
  {
    if m.frame.bounds != [] then PushFrame(m) else m
  }

  /** The start of `main`: the control frame, then an open data frame. */
  function Startup(m: Mux, args: seq<u8>): (m': Mux)
    requires MuxOk(m) && |args| == 16
    ensures MuxOk(m') && m'.maxFrame == m.maxFrame && |m'.frame.used| >= FIRST_HEADER
  {
    var m1 := Begin(m, ACBH);
    TagGrows(m1.frame, CMDH, args);
    var f := AddTag(m1.frame, CMDH, 0, args).0;
    Begin(Written(m1, f), ADBH)
  }

  datatype Step = Tun(p: Packet) | Timer

  /** The process, with the packets read so far and those in the open frame. */
  datatype World = World(mux: Mux, read: seq<Packet>, open: seq<Packet>)

  predicate WorldOk(w: World) {
    |w.mux.frame.used| >= FIRST_HEADER
  }

  function Next(w: World, step: Step): (w': World)
    requires MuxOk(w.mux) && WorldOk(w)
    ensures MuxOk(w'.mux) && WorldOk(w')
  {
    if w.mux.dead then w else
    match step
    case Tun(p) =>
      var m := HandleTun(w.mux, p);
      var appended := if PacketFits(w.mux.frame, |p|, MaxPackets(w.mux)) then w.open + [p] else [p];
      World(m, w.read + [p], if m.frame.bounds == [] then [] else appended)
    case Timer => w.(mux := HandleTimer(w.mux), open := [])
  }

  function Run(w: World, steps: seq<Step>): (w': World)
    requires MuxOk(w.mux) && WorldOk(w)
    ensures MuxOk(w'.mux) && WorldOk(w')
    decreases steps
  {
    if steps == [] then w else Run(Next(w, steps[0]), steps[1..])
  }

  /** Both limits on one written frame. */
  ghost predicate WithinLimits(bytes: seq<u8>, maxFrame: nat, maxPackets: nat) {
    |bytes| <= maxFrame && |Payload(bytes)| <= maxPackets
  }

  ghost predicate Inv(w: World) {
    && MuxOk(w.mux) && w.mux.maxFrame % 4 == 0 && 1024 <= w.mux.maxFrame && !w.mux.dead
    && Holds(w.mux.frame, w.open) && |w.open| < MaxPackets(w.mux)
    && Payloads(w.mux.written) + Framed(w.open) == Framed(w.read)
    && (forall i :: 0 <= i < |w.mux.written| ==> WithinLimits(w.mux.written[i], w.mux.maxFrame, MaxPackets(w.mux)))
  }

  lemma BeginHolds(m: Mux)
    requires MuxOk(m)
    ensures Holds(Begin(m, ADBH).frame, [])
  {
    OpenHolds(FrameInit(m.frame, m.maxFrame, m.sequence));
  }

  /** The first frame with no packet at all is still well formed and holds none. */
  lemma AdthAlwaysFits(f: Frame, ps: seq<Packet>)
    requires Holds(f, ps) && f.maxSize % 4 == 0 && 32 <= f.maxSize
    ensures AdthFits(f)
  {
    if ps != [] { ReservationCoversAlignment(f, ps); }
  }

  /** The bytes of a finished frame carry exactly its packets. */
  lemma FinishedFrame(f: Frame, ps: seq<Packet>)
    requires Holds(f, ps) && f.maxSize % 4 == 0 && 32 <= f.maxSize
    ensures var f' := AppendAdth(f, 0).0;
            FIRST_HEADER <= |f'.used| <= f.maxSize && Payload(Completed(f')) == Framed(ps)
  {
    AdthAlwaysFits(f, ps);
    AdthLayout(f, ps, 0);
    FrameRoundTrip(f, ps, 0, Completed(AppendAdth(f, 0).0), false);
  }

  lemma PushIs(m: Mux)
    requires MuxOk(m) && |m.frame.used| >= FIRST_HEADER
    ensures var f := AppendAdth(m.frame, 0).0;
            && |f.used| >= FIRST_HEADER && PushFrame(m).written == m.written + [Completed(f)]
            && PushFrame(m).dead == m.dead
            && MuxOk(Written(m, f)) && PushFrame(m) == Begin(Written(m, f), ADBH)
  {
    AdthGrows(m.frame);
  }

  /** Pushing an open frame writes exactly its packets, within the limits, and opens an empty one. */
  lemma PushWrites(m: Mux, ps: seq<Packet>)
    requires MuxOk(m) && Holds(m.frame, ps) && m.maxFrame % 4 == 0 && 32 <= m.maxFrame && |ps| <= MaxPackets(m)
    ensures var m' := PushFrame(m);
            && Holds(m'.frame, []) && m'.dead == m.dead
            && |m'.written| == |m.written| + 1 && m'.written[..|m.written|] == m.written
            && Payload(m'.written[|m.written|]) == Framed(ps)
            && WithinLimits(m'.written[|m.written|], m.maxFrame, MaxPackets(m))
  {
    FinishedFrame(m.frame, ps);
    PushIs(m);
    BeginHolds(Written(m, AppendAdth(m.frame, 0).0));
  }

  /** Writing one more frame that carries the open packets. */
  lemma WrittenGrows(written: seq<seq<u8>>, written': seq<seq<u8>>, open: seq<Packet>, read: seq<Packet>)
    requires Payloads(written) + Framed(open) == Framed(read)
    requires |written'| == |written| + 1 && written'[..|written|] == written
    requires Payload(written'[|written|]) == Framed(open)
    ensures Payloads(written') == Framed(read)
  {
    var last := written'[|written|];
    LastOf(written', written);
    PayloadsSnoc(written, last);
  }

  lemma LastOf(a: seq<seq<u8>>, front: seq<seq<u8>>)
    requires |a| == |front| + 1 && a[..|front|] == front
    ensures a == front + [a[|front|]]
  {
  }

  lemma TimerKeeps(w: World)
    requires Inv(w)
    ensures Inv(Next(w, Timer))
  {
    if w.mux.frame.bounds != [] {
      PushKeeps(w.mux, w.open, w.read);
    } else {
      assert w.open == [];
    }
  }

  /** Pushing a full frame between two packets. */
  lemma PushKeeps(m: Mux, open: seq<Packet>, read: seq<Packet>)
    requires MuxOk(m) && m.maxFrame % 4 == 0 && 1024 <= m.maxFrame && !m.dead
    requires Holds(m.frame, open) && |open| <= MaxPackets(m) && Payloads(m.written) + Framed(open) == Framed(read)
    requires forall i :: 0 <= i < |m.written| ==> WithinLimits(m.written[i], m.maxFrame, MaxPackets(m))
    ensures Inv(World(PushFrame(m), read, []))
  {
    PushWrites(m, open);
    WrittenGrows(m.written, PushFrame(m).written, open, read);
    LimitsGrow(m.written, PushFrame(m).written, m.maxFrame, MaxPackets(m));
    EmptyInv(PushFrame(m), read);
  }

  /** All that was read is written, and the open frame is empty. */
  lemma EmptyInv(m: Mux, read: seq<Packet>)
    requires MuxOk(m) && m.maxFrame % 4 == 0 && 1024 <= m.maxFrame && !m.dead && Holds(m.frame, [])
    requires Payloads(m.written) == Framed(read)
    requires forall i :: 0 <= i < |m.written| ==> WithinLimits(m.written[i], m.maxFrame, MaxPackets(m))
    ensures Inv(World(m, read, []))
  {
    assert Payloads(m.written) + Framed([]) == Payloads(m.written);
  }

  lemma LimitsGrow(written: seq<seq<u8>>, written': seq<seq<u8>>, maxFrame: nat, maxPackets: nat)
    requires |written'| == |written| + 1 && written'[..|written|] == written
    requires forall i :: 0 <= i < |written| ==> WithinLimits(written[i], maxFrame, maxPackets)
    requires WithinLimits(written'[|written|], maxFrame, maxPackets)
    ensures forall i :: 0 <= i < |written'| ==> WithinLimits(written'[i], maxFrame, maxPackets)
  {
    forall i | 0 <= i < |written'|
      ensures WithinLimits(written'[i], maxFrame, maxPackets)
    {
      if i < |written| { assert written'[i] == written[i]; }
    }
  }

  lemma ReadGrows(written: seq<seq<u8>>, open: seq<Packet>, read: seq<Packet>, p: Packet)
    requires Payloads(written) + Framed(open) == Framed(read)
    ensures Payloads(written) + Framed(open + [p]) == Framed(read + [p])
  {
    FramedAppend(open, [p]);
    FramedAppend(read, [p]);
    assert Payloads(written) + (Framed(open) + Framed([p])) == (Payloads(written) + Framed(open)) + Framed([p]);
  }

  /** The frame once a packet that fits has joined it. */
  lemma TunHolds(w: World, p: Packet)
    requires Inv(w) && PacketFits(w.mux.frame, |p|, MaxPackets(w.mux))
    ensures var m1 := w.mux.(frame := AppendPacket(w.mux.frame, p, MaxPackets(w.mux)).0);
            && MuxOk(m1) && Holds(m1.frame, w.open + [p])
            && Payloads(m1.written) + Framed(w.open + [p]) == Framed(w.read + [p])
  {
    AppendPacketHolds(w.mux.frame, w.open, p, MaxPackets(w.mux));
    ReadGrows(w.mux.written, w.open, w.read, p);
  }

  lemma TunJoins(w: World, p: Packet)
    requires Inv(w) && PacketFits(w.mux.frame, |p|, MaxPackets(w.mux)) && |w.open| + 1 < MaxPackets(w.mux)
    ensures Inv(Next(w, Tun(p)))
  {
    TunHolds(w, p);
  }

  lemma TunFills(w: World, p: Packet)
    requires Inv(w) && PacketFits(w.mux.frame, |p|, MaxPackets(w.mux)) && |w.open| + 1 == MaxPackets(w.mux)
    ensures Inv(Next(w, Tun(p)))
  {
    TunHolds(w, p);
    PushKeeps(w.mux.(frame := AppendPacket(w.mux.frame, p, MaxPackets(w.mux)).0), w.open + [p], w.read + [p]);
  }

  /** A packet that fits joins the open frame, which is pushed once it is full. */
  lemma TunAppends(w: World, p: Packet)
    requires Inv(w) && PacketFits(w.mux.frame, |p|, MaxPackets(w.mux))
    ensures Inv(Next(w, Tun(p)))
  {
    if |w.open| + 1 < MaxPackets(w.mux) { TunJoins(w, p); } else { TunFills(w, p); }
  }

  /** A packet that does not fit closes the open frame and starts the next one. */
  lemma TunRetries(w: World, p: Packet)
    requires Inv(w) && !PacketFits(w.mux.frame, |p|, MaxPackets(w.mux)) && |p| + 56 <= w.mux.maxFrame
    ensures Inv(Next(w, Tun(p)))
  {
    var n := MaxPackets(w.mux);
    PushKeeps(w.mux, w.open, w.read);
    var m2 := PushFrame(w.mux);
    AppendPacketHolds(m2.frame, [], p, n);
    assert [] + [p] == [p];
    ReadGrows(m2.written, [], w.read, p);
  }

  /** From a good state the process dies on a packet exactly when it leaves no room for the headers of a frame. */
  lemma FatalIff(w: World, p: Packet)
    requires Inv(w)
    ensures Next(w, Tun(p)).mux.dead <==> |p| + 56 > w.mux.maxFrame
  {
    if PacketFits(w.mux.frame, |p|, MaxPackets(w.mux)) {
      TunAppends(w, p);
    } else if |p| + 56 <= w.mux.maxFrame {
      TunRetries(w, p);
    } else {
      PushWrites(w.mux, w.open);
    }
  }

  ghost predicate Readable(steps: seq<Step>, maxFrame: nat) {
    forall i :: 0 <= i < |steps| && steps[i].Tun? ==> |steps[i].p| + 56 <= maxFrame
  }

  lemma NextKeeps(w: World, step: Step)
    requires Inv(w) && (step.Tun? ==> |step.p| + 56 <= w.mux.maxFrame)
    ensures Inv(Next(w, step)) && Next(w, step).mux.maxFrame == w.mux.maxFrame
  {
    match step
    case Timer => TimerKeeps(w);
    case Tun(p) =>
      if PacketFits(w.mux.frame, |p|, MaxPackets(w.mux)) { TunAppends(w, p); } else { TunRetries(w, p); }
  }

  lemma {:induction false} RunKeeps(w: World, steps: seq<Step>)
    requires Inv(w) && Readable(steps, w.mux.maxFrame)
    ensures Inv(Run(w, steps)) && Run(w, steps).mux.maxFrame == w.mux.maxFrame
    decreases steps
  {
    if steps != [] {
      NextKeeps(w, steps[0]);
      forall i | 0 <= i < |steps[1..]| && steps[1..][i].Tun?
        ensures |steps[1..][i].p| + 56 <= w.mux.maxFrame
      {
        assert steps[1..][i] == steps[i + 1];
      }
      RunKeeps(Next(w, steps[0]), steps[1..]);
    }
  }

  /** Nothing is lost or doubled, and the process is alive. */
  ghost predicate Sound(w: World) {
    !w.mux.dead && Payloads(w.mux.written) + Framed(w.open) == Framed(w.read)
  }

  /** A process that has written nothing yet. */
  ghost predicate Unstarted(m: Mux, args: seq<u8>) {
    MuxOk(m) && |args| == 16 && m.written == [] && !m.dead
  }

  function Started(m: Mux, args: seq<u8>): (w: World)
    requires MuxOk(m) && |args| == 16
    ensures MuxOk(w.mux) && WorldOk(w) && w.mux.maxFrame == m.maxFrame && w.read == w.open == []
  {
    World(Startup(m, args), [], [])
  }

  lemma ControlBytes(m: Mux, args: seq<u8>)
    requires MuxOk(m) && |args| == 16
    ensures var bytes := Completed(AddTag(Begin(m, ACBH).frame, CMDH, 0, args).0);
            |bytes| == (if m.maxFrame < 44 then 16 else 44) && Payload(bytes) == []
  {
    ControlTags(FrameInit(m.frame, m.maxFrame, m.sequence), 0, args);
    ControlPayload(Completed(AddTag(Begin(m, ACBH).frame, CMDH, 0, args).0));
  }

  /** The start writes one frame without packets and leaves an empty open frame, whatever the frame size. */
  lemma StartedHolds(m: Mux, args: seq<u8>)
    requires Unstarted(m, args)
    ensures var w := Started(m, args);
            Holds(w.mux.frame, []) && Payloads(w.mux.written) == [] && !w.mux.dead && w.mux.frame.bounds == []
  {
    var m1 := Begin(m, ACBH);
    TagGrows(m1.frame, CMDH, args);
    var f := AddTag(m1.frame, CMDH, 0, args).0;
    BeginHolds(Written(m1, f));
    ControlBytes(m, args);
    assert Payloads([Completed(f)]) == Payload(Completed(f)) + Payloads([]);
  }

  /** The control frame has the arguments of `main`, and is all that is written by then. */
  lemma StartedAnnounces(m: Mux, args: seq<u8>)
    requires Unstarted(m, args) && 44 <= m.maxFrame
    ensures Started(m, args).mux.written == [ControlLayout(m.sequence, 0, args)]
  {
    var m1 := Begin(m, ACBH);
    TagGrows(m1.frame, CMDH, args);
    ControlTags(FrameInit(m.frame, m.maxFrame, m.sequence), 0, args);
  }

  /** The control frame of the start-up carries no packet, and the data frame after it is empty. */
  lemma StartupInv(m: Mux, args: seq<u8>)
    requires Unstarted(m, args) && m.maxFrame % 4 == 0 && 1024 <= m.maxFrame
    ensures Inv(Started(m, args))
  {
    StartedHolds(m, args);
    LimitsAtStart(m, args);
    assert [] + Framed([]) == Framed([]);
  }

  lemma LimitsAtStart(m: Mux, args: seq<u8>)
    requires Unstarted(m, args) && 1024 <= m.maxFrame
    ensures forall i :: 0 <= i < |Startup(m, args).written| ==>
              WithinLimits(Startup(m, args).written[i], m.maxFrame, m.maxFrame / 1024)
  {
    ControlBytes(m, args);
  }

  /**
   * For every sequence of packets that leave room for the headers, with timer flushes
   * anywhere: the process never exits, the packets in the written frames followed by those
   * in the open frame are the packets read, none lost or doubled, and every frame keeps
   * both limits.
   */
  lemma Batching(m: Mux, args: seq<u8>, steps: seq<Step>)
    requires Unstarted(m, args) && m.maxFrame % 4 == 0 && 1024 <= m.maxFrame
    requires Readable(steps, m.maxFrame)
    ensures var w := Run(Started(m, args), steps);
            && Sound(w) && Holds(w.mux.frame, w.open)
            && (forall i :: 0 <= i < |w.mux.written| ==> WithinLimits(w.mux.written[i], m.maxFrame, m.maxFrame / 1024))
  {
    StartupInv(m, args);
    RunKeeps(Started(m, args), steps);
  }

  // ---- Every other frame size ----

  ghost predicate AlwaysSound(maxFrame: nat)
    requires FIRST_HEADER <= maxFrame
  {
    forall m, args, steps {:trigger Run(Started(m, args), steps)} ::
      Unstarted(m, args) && m.maxFrame == maxFrame && Readable(steps, maxFrame) ==> Sound(Run(Started(m, args), steps))
  }

  /** The frame the daemon allocates. */
  function Allocated(maxFrame: nat): Mux {
    Mux(maxFrame, Frame(true, maxFrame, 0, [], Zeros(AlignUp(maxFrame)), [], None, None), 0, [], false)
  }

  /** Without room for a single packet no step is possible but the timer's, which does nothing. */
  lemma {:induction false} OnlyTimers(w: World, steps: seq<Step>)
    requires MuxOk(w.mux) && WorldOk(w) && w.mux.maxFrame < 56 && Readable(steps, w.mux.maxFrame)
    requires w.mux.frame.bounds == [] && w.open == []
    ensures Run(w, steps) == w
    decreases |steps|
  {
    if steps != [] {
      assert steps[0] == Timer && Next(w, Timer) == w;
      ReadableTail(steps, w.mux.maxFrame);
      OnlyTimers(w, steps[1..]);
    }
  }

  lemma ReadableTail(steps: seq<Step>, maxFrame: nat)
    requires Readable(steps, maxFrame) && steps != []
    ensures Readable(steps[1..], maxFrame)
  {
    forall i | 0 <= i < |steps[1..]| && steps[1..][i].Tun?
      ensures |steps[1..][i].p| + 56 <= maxFrame
    {
      assert steps[1..][i] == steps[i + 1];
    }
  }

  /** Below 1024 no packet is allowed in a frame, so the first one ends the process. */
  lemma NoPacketAllowed(w: World, p: Packet)
    requires MuxOk(w.mux) && WorldOk(w) && w.mux.maxFrame < 1024
    ensures Next(w, Tun(p)).mux.dead
  {
    assert MaxPackets(w.mux) == 0;
  }

  /** An ADTH tag without a table behind it, as `frame_append_adth` leaves it when the table does not fit. */
  lemma BareTail(f: Frame, tail: seq<u8>)
    requires OneTag(f, tail) && TagFits(f, 4)
    ensures var g := AddTag(f, ADTH, 0, Zeros(4)).0;
            |g.used| >= FIRST_HEADER && Completed(g) == TwoTags(f.sequence, 0, tail, Padding(f), [])
  {
    AdthTag(f, tail, 0);
    PaddedLength(f, tail);
    BareTailOf(AddTag(f, ADTH, 0, Zeros(4)).0, f.sequence, |f.used|, AlignUp(|f.used|), tail, Padding(f));
  }

  lemma BareTailOf(g: Frame, sequence: nat, length: nat, at: nat, tail: seq<u8>, pad: seq<u8>)
    requires at == FIRST_HEADER + |tail| + |pad|
    requires g.used == Header(true, ADBH, sequence, length, 0, at) + (tail + pad)
                       + Header(false, ADTH, sequence, NEXT_HEADER + 4, 0, 0) + Zeros(4)
    ensures |g.used| >= FIRST_HEADER && Completed(g) == TwoTags(sequence, 0, tail, pad, [])
  {
    var front := Header(true, ADBH, sequence, length, 0, at) + (tail + pad);
    var adth := Header(false, ADTH, 0, NEXT_HEADER + 4, 0, 0);
    assert front + adth + Zeros(4) == front + (adth + Zeros(4) + []);
    CompletedFrame(g, sequence, length, at, 0, tail, pad, []);
  }

  /** Such a frame is written all the same, and carries nothing. */
  lemma BareTailIsEmpty(sequence: nat, tail: seq<u8>, pad: seq<u8>, bytes: seq<u8>)
    requires bytes == TwoTags(sequence, 0, tail, pad, []) && |bytes| < 65536
    ensures Payload(bytes) == []
  {
    TwoTagsReadable(sequence, 0, tail, pad, [], bytes);
    CellsDecode(bytes, tail, [], FIRST_HEADER + |tail| + |pad|, [], [], false);
  }

  lemma UnalignedTail(f: Frame, p: Packet)
    requires Holds(f, [p]) && f.maxSize % 4 != 0 && |p| + 56 == f.maxSize
    ensures AppendAdth(f, 0).0 == AddTag(f, ADTH, 0, Zeros(4)).0 && TagFits(f, 4)
  {
    TooTight(f, p);
    assert |f.bounds| == 1;
    var none: seq<Packet> := [];
    assert [p][..0] == none;
    assert |f.used| == f.maxSize - 24;
  }

  lemma UnalignedPush(m: Mux, p: Packet)
    requires MuxOk(m) && Holds(m.frame, [p]) && m.maxFrame % 4 != 0 && |p| + 56 == m.maxFrame
    ensures Payloads(PushFrame(m).written) == Payloads(m.written) && PushFrame(m).frame.bounds == []
  {
    var f := m.frame;
    PushIs(m);
    UnalignedTail(f, p);
    BareTail(f, Body([p]));
    var bytes := Completed(AppendAdth(f, 0).0);
    assert |bytes| <= f.maxSize;
    BareTailIsEmpty(f.sequence, Body([p]), Padding(f), bytes);
    PayloadsSnoc(m.written, bytes);
    BeginHolds(Written(m, AppendAdth(f, 0).0));
  }

  /** For a size not divisible by 4, the longest packet is read and lost: its frame has no bounds table. */
  lemma UnalignedLoses(w: World, p: Packet)
    requires MuxOk(w.mux) && Holds(w.mux.frame, []) && Payloads(w.mux.written) == [] && !w.mux.dead
    requires w.read == w.open == [] && w.mux.maxFrame % 4 != 0 && 1024 <= w.mux.maxFrame && |p| + 56 == w.mux.maxFrame
    ensures var w' := Next(Next(w, Tun(p)), Timer);
            !w'.mux.dead && Payloads(w'.mux.written) == [] && w'.open == [] && w'.read == [p]
  {
    var n := MaxPackets(w.mux);
    AppendPacketHolds(w.mux.frame, [], p, n);
    assert [] + [p] == [p];
    UnalignedPush(w.mux.(frame := AppendPacket(w.mux.frame, p, n).0), p);
  }

  lemma RunTwo(w: World, a: Step, b: Step)
    requires MuxOk(w.mux) && WorldOk(w)
    ensures Run(w, [a, b]) == Next(Next(w, a), b)
  {
    assert [a, b][1..] == [b] && [b][1..] == [];
    assert Run(Next(Next(w, a), b), []) == Next(Next(w, a), b);
    assert Run(Next(w, a), [b]) == Next(Next(w, a), b);
  }

  lemma SmallUnsound(maxFrame: nat, p: Packet)
    requires FIRST_HEADER <= maxFrame < 1024
    ensures Unstarted(Allocated(maxFrame), Zeros(16))
    ensures !Sound(Run(Started(Allocated(maxFrame), Zeros(16)), [Tun(p), Timer]))
  {
    var w := Started(Allocated(maxFrame), Zeros(16));
    RunTwo(w, Tun(p), Timer);
    NoPacketAllowed(w, p);
  }

  lemma UnalignedUnsound(maxFrame: nat, p: Packet)
    requires 1024 <= maxFrame < 65536 && maxFrame % 4 != 0 && |p| + 56 == maxFrame
    ensures Unstarted(Allocated(maxFrame), Zeros(16))
    ensures !Sound(Run(Started(Allocated(maxFrame), Zeros(16)), [Tun(p), Timer]))
  {
    var w := Started(Allocated(maxFrame), Zeros(16));
    StartedHolds(Allocated(maxFrame), Zeros(16));
    RunTwo(w, Tun(p), Timer);
    UnalignedLoses(w, p);
    assert [] + Framed([]) == [] && |Framed([p])| == 1;
  }

  /** From 56 on, a size that is not divisible by 4 or is below 1024 has a run that is not sound. */
  lemma Unsound(maxFrame: nat) returns (steps: seq<Step>)
    requires 56 <= maxFrame < 65536 && (maxFrame % 4 != 0 || maxFrame < 1024)
    ensures Readable(steps, maxFrame) && Unstarted(Allocated(maxFrame), Zeros(16))
    ensures !Sound(Run(Started(Allocated(maxFrame), Zeros(16)), steps))
  {
    var p := Zeros(maxFrame - 56);
    steps := [Tun(p), Timer];
    if maxFrame < 1024 { SmallUnsound(maxFrame, p); } else { UnalignedUnsound(maxFrame, p); }
  }

  /**
   * The batching is sound exactly for the frame sizes of at least 1024 that are divisible by 4,
   * and for those so small that no packet leaves room for the headers.
   */
  lemma SoundIff(maxFrame: nat)
    requires FIRST_HEADER <= maxFrame < 65536
    ensures AlwaysSound(maxFrame) <==> maxFrame < 56 || (maxFrame >= 1024 && maxFrame % 4 == 0)
  {
    if 56 <= maxFrame && (maxFrame % 4 != 0 || maxFrame < 1024) {
      var steps := Unsound(maxFrame);
    } else {
      forall m, args, steps | Unstarted(m, args) && m.maxFrame == maxFrame && Readable(steps, maxFrame)
        ensures Sound(Run(Started(m, args), steps))
      {
        if maxFrame < 56 {
          StartedHolds(m, args);
          OnlyTimers(Started(m, args), steps);
          assert [] + Framed([]) == Framed([]);
        } else {
          Batching(m, args, steps);
        }
      }
    }
  }
}
