/** The sequence numbers of the frames that mux.c writes, over whole runs and for every frame size. */
module UserMuxNumbers {
  import opened Bytes
  import opened MuxFrame
  import opened UserMux

  /** The first header shows the frame's number, and no saved pointer points into it from the front. */
  ghost predicate Stamped(f: Frame) {
    && FrameOk(f) && |f.used| >= FIRST_HEADER && f.used[6..8] == Le16(f.sequence)
    && f.lenAt.Some? && f.lenAt.value >= 8 && f.nextAt.Some? && f.nextAt.value >= 8
  }

  lemma PatchBehind(s: seq<u8>, at: nat, field: seq<u8>)
    requires 8 <= at && at + |field| <= |s|
    ensures Patch(s, at, field)[6..8] == s[6..8]
  {
  }

  lemma TagStamps(f: Frame, tag: seq<u8>, data: seq<u8>)
    requires FrameOk(f) && |tag| == 4
    requires Stamped(f) || (f.used == [] && FIRST_HEADER + |data| <= f.maxSize)
    ensures Stamped(AddTag(f, tag, 0, data).0) && AddTag(f, tag, 0, data).0.sequence == f.sequence
  {
    assert AlignUp(0) == 0;
    if f.used != [] {
      var p := Padded(f);
      assert p.used[6..8] == f.used[6..8];
      PatchBehind(p.used, f.nextAt.value, if f.wide then Le32(|p.used|) else Le16(|p.used|));
    }
  }

  lemma DataStamps(f: Frame, data: seq<u8>)
    requires Stamped(f)
    ensures Stamped(AppendData(f, data).0) && AppendData(f, data).0.sequence == f.sequence
  {
    PatchBehind(f.used, f.lenAt.value, Le16(U16(f.used, f.lenAt.value) + |data|));
  }

  lemma PacketStamps(f: Frame, p: Packet, maxPackets: nat)
    requires Stamped(f)
    ensures Stamped(AppendPacket(f, p, maxPackets).0) && AppendPacket(f, p, maxPackets).0.sequence == f.sequence
  {
    var f1 := f.(bounds := f.bounds + [Bound(|f.used|, |p| + 16)]);
    DataStamps(f1, Zeros(16));
    DataStamps(AppendData(f1, Zeros(16)).0, p);
  }

  lemma AdthStamps(f: Frame)
    requires Stamped(f)
    ensures Stamped(AppendAdth(f, 0).0) && AppendAdth(f, 0).0.sequence == f.sequence
  {
    TagStamps(f, ADTH, Zeros(4));
    DataStamps(AddTag(f, ADTH, 0, Zeros(4)).0, BoundsBytes(f.bounds));
  }

  predicate HasNumber(bytes: seq<u8>, n: nat) {
    |bytes| >= FIRST_HEADER && U16(bytes, 6) == n % 65536
  }

  lemma CompletedNumber(f: Frame)
    requires Stamped(f)
    ensures HasNumber(Completed(f), f.sequence)
  {
    PatchBehind(f.used, 8, Le16(|f.used|));
    Le16Inverse(f.sequence);
    FieldLocal(Completed(f), Le16(f.sequence), 6, 0, 2);
  }

  ghost predicate AllNumbered(written: seq<seq<u8>>, start: nat) {
    forall i :: 0 <= i < |written| ==> HasNumber(written[i], start + i)
  }

  /** Written frame `i` has the `i`-th number, the open frame the next one, and the counter is one further. */
  ghost predicate Counted(m: Mux, start: nat) {
    && MuxOk(m) && Stamped(m.frame) && m.frame.sequence % 65536 == (start + |m.written|) % 65536
    && m.sequence == (start + |m.written| + 1) % 65536
    && AllNumbered(m.written, start)
  }

  /** A frame is written and the next one begun. */
  lemma WriteCounts(m: Mux, f: Frame, tag: seq<u8>, start: nat)
    requires Counted(m, start) && Stamped(f) && f.sequence == m.frame.sequence && |tag| == 4
    requires MuxOk(Written(m, f))
    ensures Counted(Begin(Written(m, f), tag), start)
  {
    CompletedNumber(f);
    var w := Written(m, f);
    TagStamps(FrameInit(w.frame, w.maxFrame, w.sequence), tag, []);
    NextNumber(start + |m.written|, m.sequence);
  }

  lemma NextNumber(n: nat, sequence: nat)
    requires sequence == (n + 1) % 65536
    ensures (sequence + 1) % 65536 == (n + 2) % 65536 && sequence % 65536 == (n + 1) % 65536
  {
  }

  lemma PushCounts(m: Mux, start: nat)
    requires Counted(m, start)
    ensures Counted(PushFrame(m), start)
  {
    AdthStamps(m.frame);
    PushIs(m);
    WriteCounts(m, AppendAdth(m.frame, 0).0, ADBH, start);
  }

  lemma PacketCounts(m: Mux, p: Packet, start: nat, dead: bool)
    requires Counted(m, start)
    ensures Counted(m.(frame := AppendPacket(m.frame, p, MaxPackets(m)).0, dead := dead), start)
  {
    PacketStamps(m.frame, p, MaxPackets(m));
  }

  lemma TunCounts(m: Mux, p: Packet, start: nat)
    requires Counted(m, start)
    ensures Counted(HandleTun(m, p), start)
  {
    var (f1, ok1) := AppendPacket(m.frame, p, MaxPackets(m));
    PacketCounts(m, p, start, m.dead);
    var m1 := m.(frame := f1);
    PushCounts(m1, start);
    var m2 := if !ok1 || |f1.bounds| >= MaxPackets(m) then PushFrame(m1) else m1;
    if !ok1 { PacketCounts(m2, p, start, m2.dead || !AppendPacket(m2.frame, p, MaxPackets(m)).1); }
  }

  lemma {:induction false} RunCounts(w: World, steps: seq<Step>, start: nat)
    requires WorldOk(w) && Counted(w.mux, start)
    ensures Counted(Run(w, steps).mux, start)
    decreases steps
  {
    if steps != [] {
      if !w.mux.dead {
        match steps[0]
        case Tun(p) => TunCounts(w.mux, p, start);
        case Timer => PushCounts(w.mux, start);
      }
      RunCounts(Next(w, steps[0]), steps[1..], start);
    }
  }

  lemma StartCounts(m: Mux, args: seq<u8>)
    requires Unstarted(m, args)
    ensures Counted(Startup(m, args), m.sequence)
  {
    var m1 := Begin(m, ACBH);
    TagStamps(FrameInit(m.frame, m.maxFrame, m.sequence), ACBH, []);
    TagStamps(m1.frame, CMDH, args);
    TagGrows(m1.frame, CMDH, args);
    WriteCounts(m1, AddTag(m1.frame, CMDH, 0, args).0, ADBH, m.sequence);
  }

  /**
   * For every frame size, every sequence of packets and timer flushes: the frames written, the
   * control frame first, carry successive sequence numbers modulo 65536.
   */
  lemma FramesNumbered(m: Mux, args: seq<u8>, steps: seq<Step>)
    requires Unstarted(m, args)
    ensures AllNumbered(Run(Started(m, args), steps).mux.written, m.sequence)
  {
    StartCounts(m, args);
    RunCounts(Started(m, args), steps, m.sequence);
  }
}
