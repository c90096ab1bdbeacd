/** The sequence numbers of the frames on the wire, and the control frame, over whole runs of the network device. */
module NetSequence {
  import opened Bytes
  import TdRing
  import opened MuxFrame
  import opened MuxDecode
  import opened NetQueue
  import opened NetRuns

  // ---- The control frame of `net_open` ----

  /** What a reader finds in a control frame, field by field. */
  lemma ControlRead(sequence: nat, channel: nat, args: seq<u8>)
    requires |args| == 16
    ensures var b := ControlLayout(sequence, channel, args);
            && |b| == 44 && b[..4] == [0x41, 0x43, 0x42, 0x48] && b[8..10] == [44, 0] && b[12..14] == [16, 0]
            && U16(b, 6) == sequence % 65536 && U16(b, 8) == 44 && U16(b, 12) == 16
            && b[16..20] == [0x43, 0x4d, 0x44, 0x48] && U16(b, 20) == 28 && U16(b, 22) == channel % 65536
            && b[28..] == args
  {
    var h, h' := Header(true, ACBH, sequence, 44, 0, 16), Header(false, CMDH, 0, 28, channel, 0);
    FirstFields(ACBH, sequence, 44, 0, 16, h' + args);
    var b := h + (h' + args);
    assert b == h + h' + args;
    assert b[16..20] == CMDH && b[28..] == args;
    Le16Inverse(28);
    Le16Inverse(channel);
    assert b[20..22] == Le16(28)[0..2] && b[22..24] == Le16(channel)[0..2];
    FieldLocal(b, Le16(28), 20, 0, 2);
    FieldLocal(b, Le16(channel), 22, 0, 2);
  }

  /** The fields of a first header. */
  lemma FirstFields(tag: seq<u8>, sequence: nat, length: nat, extra: nat, next: nat, rest: seq<u8>)
    requires |tag| == 4 && next < 65536
    ensures var b := Header(true, tag, sequence, length, extra, next) + rest;
            && b[..4] == tag && U16(b, 6) == sequence % 65536 && U16(b, 8) == length % 65536 && U16(b, 12) == next
  {
    var b := Header(true, tag, sequence, length, extra, next) + rest;
    Le16Inverse(sequence);
    Le16Inverse(length);
    Le16Inverse(next);
    Le32OfShort(next);
    assert b[6..8] == Le16(sequence)[0..2] && b[8..10] == Le16(length)[0..2] && b[12..14] == Le16(next)[0..2];
    FieldLocal(b, Le16(sequence), 6, 0, 2);
    FieldLocal(b, Le16(length), 8, 0, 2);
    FieldLocal(b, Le16(next), 12, 0, 2);
  }

  /**
   * `net_open` puts one control frame on the wire, with the arguments 1, 0, 0, 0 and the number of
   * the last flush, unless the device has failed or the ring is full.
   */
  lemma OpenAnnounces(w: World)
    requires NetOk(w.net)
    ensures Sent(Next(w, DoOpen))
            == Sent(w) + if w.net.error || TdRing.Full(w.net.ring) then []
                         else [ControlLayout(w.net.sequence, w.net.channel, [1, 0, 0, 0] + Zeros(12))]
  {
    ControlIsControl(Emptied(w.net));
    assert OPEN_ARGS == [1, 0, 0, 0] + Zeros(12);
    PushSends(w.net.ring, w.net.error, ControlLayout(w.net.sequence, w.net.channel, OPEN_ARGS), w.taken);
    Assoc(w.taken, TdRing.Pending(w.net.ring), []);
  }

  // ---- Sequence numbers ----

  /** The numbers of the data frames among these frames, in order. */
  function Numbers(frames: seq<seq<u8>>): seq<nat> {
    if frames == [] then [] else
    (if |frames[0]| >= FIRST_HEADER && frames[0][..4] == ADBH then [U16(frames[0], 6)] else []) + Numbers(frames[1..])
  }

  function Flushes(log: seq<Event>): nat {
    if log == [] then 0 else (if log[0].Flushed? then 1 else 0) + Flushes(log[1..])
  }

  /** Every flush uses up a number, and a shipped one shows it. */
  function ShippedNumbers(log: seq<Event>, start: nat): seq<nat>
    decreases |log|
  {
    if log == [] then []
    else if log[0].Discarded? then ShippedNumbers(log[1..], start)
    else (if log[0].fate == Shipped then [(start + 1) % 65536] else []) + ShippedNumbers(log[1..], start + 1)
  }

  lemma {:induction false} NumbersAppend(a: seq<seq<u8>>, b: seq<seq<u8>>)
    ensures Numbers(a + b) == Numbers(a) + Numbers(b)
  {
    if a == [] {
      assert a + b == b;
    } else {
      assert (a + b)[1..] == a[1..] + b;
      NumbersAppend(a[1..], b);
    }
  }

  lemma {:induction false} FlushesAppend(a: seq<Event>, b: seq<Event>, start: nat)
    ensures Flushes(a + b) == Flushes(a) + Flushes(b)
    ensures ShippedNumbers(a + b, start) == ShippedNumbers(a, start) + ShippedNumbers(b, start + Flushes(a))
    decreases |a|
  {
    if a == [] {
      assert a + b == b;
    } else {
      assert (a + b)[1..] == a[1..] + b;
      FlushesAppend(a[1..], b, if a[0].Flushed? then start + 1 else start);
    }
  }

  lemma NumbersOne(bytes: seq<u8>)
    ensures Numbers([bytes]) == if |bytes| >= FIRST_HEADER && bytes[..4] == ADBH then [U16(bytes, 6)] else []
  {
    assert Numbers([bytes]) == (if |bytes| >= FIRST_HEADER && bytes[..4] == ADBH then [U16(bytes, 6)] else [])
                               + Numbers([]);
  }

  lemma LayoutNumber(sequence: nat, channel: nat, ps: seq<Packet>, pad: seq<u8>)
    requires |Layout(sequence, channel, ps, pad)| < 65536
    ensures Numbers([Layout(sequence, channel, ps, pad)]) == [sequence % 65536]
  {
    LayoutHead(sequence, channel, Body(ps), pad, BoundsBytes(BoundsOf(ps)), Layout(sequence, channel, ps, pad));
    NumbersOne(Layout(sequence, channel, ps, pad));
  }

  lemma LayoutHead(sequence: nat, channel: nat, tail: seq<u8>, pad: seq<u8>, table: seq<u8>, bytes: seq<u8>)
    requires bytes == TwoTags(sequence, channel, tail, pad, table) && |bytes| < 65536
    ensures |bytes| >= FIRST_HEADER && bytes[..4] == ADBH && U16(bytes, 6) == sequence % 65536
  {
    var a := FIRST_HEADER + |tail| + |pad|;
    var length := NEXT_HEADER + 4 + |table|;
    var back := Header(false, ADTH, 0, length, channel, 0) + Zeros(4) + table;
    FirstFields(ADBH, sequence, a + length, 0, a, (tail + pad) + back);
    Assoc(Header(true, ADBH, sequence, a + length, 0, a), tail + pad, back);
  }

  lemma OneFlush(queue: seq<Packet>, fate: Fate, start: nat)
    ensures Flushes([Flushed(queue, fate)]) == 1 && Flushes([Discarded(queue)]) == 0
    ensures ShippedNumbers([Flushed(queue, fate)], start) == if fate == Shipped then [(start + 1) % 65536] else []
    ensures ShippedNumbers([Discarded(queue)], start) == []
  {
    var log := [Flushed(queue, fate)];
    assert log[1..] == [] && [Discarded(queue)][1..] == [];
    assert Flushes(log) == 1 + Flushes(log[1..]);
    assert Flushes([Discarded(queue)]) == Flushes([Discarded(queue)][1..]);
  }

  lemma FlushSequence(net: Net)
    requires NetOk(net)
    ensures Flush(net).0.sequence == if net.queue == [] then net.sequence else net.sequence + 1
  {
  }

  /** The frame a flush offers to the ring, if it packs one, carries the next number. */
  lemma FlushOffers(net: Net) returns (bytes: seq<u8>)
    requires Accounted(net) && net.ring.pageSize % 4 == 0 && net.queue != [] && Flush(net).1 != Unpackable
    ensures |bytes| <= net.ring.pageSize && Numbers([bytes]) == [(net.sequence + 1) % 65536]
    ensures Flush(net).0.ring == TdRing.QpWrite(net.ring, net.error, bytes).0 && Flush(net).1 == PushFate(net)
  {
    UnpackableIff(net);
    AtLeastFirst(net.queue);
    var pad := FlushFits(net);
    bytes := Layout(net.sequence + 1, net.channel, net.queue, pad);
    LayoutNumber(net.sequence + 1, net.channel, net.queue, pad);
  }

  lemma FlushRing(net: Net, sent: seq<seq<u8>>)
    requires Accounted(net) && net.ring.pageSize % 4 == 0 && net.queue != []
    ensures Numbers(sent + TdRing.Pending(Flush(net).0.ring))
            == Numbers(sent + TdRing.Pending(net.ring))
               + if Flush(net).1 == Shipped then [(net.sequence + 1) % 65536] else []
  {
    if Flush(net).1 == Unpackable {
      UnpackableIff(net);
    } else {
      var bytes := FlushOffers(net);
      PushNumbers(net.ring, net.error, bytes, sent);
    }
  }

  /** One flush uses up one number, and puts it on the wire if it ships. */
  lemma FlushNumbers(net: Net, sent: seq<seq<u8>>)
    requires Accounted(net) && net.ring.pageSize % 4 == 0
    ensures Flush(net).0.sequence == net.sequence + Flushes(FlushEvents(net))
    ensures Numbers(sent + TdRing.Pending(Flush(net).0.ring))
            == Numbers(sent + TdRing.Pending(net.ring)) + ShippedNumbers(FlushEvents(net), net.sequence)
  {
    FlushSequence(net);
    if net.queue != [] {
      FlushIsOneEvent(net);
      OneFlush(net.queue, Flush(net).1, net.sequence);
      FlushRing(net, sent);
    }
  }

  lemma PushNumbers(r: TdRing.Ring, error: bool, bytes: seq<u8>, sent: seq<seq<u8>>)
    requires TdRing.RingOk(r) && |bytes| <= r.pageSize
    ensures Numbers(sent + TdRing.Pending(TdRing.QpWrite(r, error, bytes).0))
            == Numbers(sent + TdRing.Pending(r)) + if error || TdRing.Full(r) then [] else Numbers([bytes])
  {
    PushSends(r, error, bytes, sent);
    NumbersAppend(sent + TdRing.Pending(r), [bytes]);
    Assoc(sent, TdRing.Pending(r), []);
  }

  /** The device's counter is the number of flushes, and the wire shows those of the shipped ones. */
  ghost predicate Numbered(w: World, start: nat) {
    && NetOk(w.net) && w.net.sequence == start + Flushes(w.log)
    && Numbers(Sent(w)) == ShippedNumbers(w.log, start)
  }

  lemma GrowsNumbered(w: World, w': World, events: seq<Event>, start: nat)
    requires Numbered(w, start) && NetOk(w'.net) && w'.log == w.log + events
    requires w'.net.sequence == w.net.sequence + Flushes(events)
    requires Numbers(Sent(w')) == Numbers(Sent(w)) + ShippedNumbers(events, w.net.sequence)
    ensures Numbered(w', start)
  {
    FlushesAppend(w.log, events, start);
  }

  lemma DeadlineNumbered(w: World, start: nat)
    requires WorldInv(w) && Numbered(w, start)
    ensures Numbered(Next(w, Deadline), start)
  {
    FlushWorld(w);
    FlushNumbers(w.net, w.taken);
    GrowsNumbered(w, Next(w, Deadline), FlushEvents(w.net), start);
  }

  lemma XmitSequence(net: Net, p: Packet)
    requires NetOk(net)
    ensures Xmit(net, p).0.sequence
            == if !net.stopped && MustFlush(net, |p|) && !TdRing.Full(net.ring) then Flush(net).0.sequence
               else net.sequence
  {
  }

  lemma XmitNumbered(w: World, p: Packet, start: nat)
    requires WorldInv(w) && Numbered(w, start)
    ensures Numbered(Next(w, DoXmit(p)), start)
  {
    var w' := Next(w, DoXmit(p));
    XmitWorld(w, p);
    XmitShape(w.net, p);
    XmitSequence(w.net, p);
    if !w.net.stopped && MustFlush(w.net, |p|) && !TdRing.Full(w.net.ring) {
      FlushNumbers(w.net, w.taken);
    }
    GrowsNumbered(w, w', XmitEvents(w.net, p), start);
  }

  lemma OpenNumbered(w: World, start: nat)
    requires Numbered(w, start)
    ensures Numbered(Next(w, DoOpen), start)
  {
    OpenAnnounces(w);
    var bytes := ControlLayout(w.net.sequence, w.net.channel, [1, 0, 0, 0] + Zeros(12));
    ControlRead(w.net.sequence, w.net.channel, [1, 0, 0, 0] + Zeros(12));
    NumbersOne(bytes);
    NumbersAppend(Sent(w), [bytes]);
    Assoc(w.taken, TdRing.Pending(w.net.ring), []);
    OneFlush(w.net.queue, Shipped, w.net.sequence);
    GrowsNumbered(w, Next(w, DoOpen), [Discarded(w.net.queue)], start);
  }

  lemma NextNumbered(w: World, step: Step, start: nat)
    requires WorldInv(w) && Numbered(w, start)
    ensures Numbered(Next(w, step), start)
  {
    match step
    case DoOpen => OpenNumbered(w, start);
    case DoClose =>
    case DoXmit(p) => XmitNumbered(w, p, start);
    case Deadline => DeadlineNumbered(w, start);
    case Poll =>
    case ModemTake => TakeKeepsSent(w);
    case DeviceFails =>
  }

  lemma {:induction false} RunNumbered(w: World, steps: seq<Step>, start: nat)
    requires WorldInv(w) && Numbered(w, start)
    ensures Numbered(Run(w, steps), start)
    decreases steps
  {
    if steps != [] {
      NextKeeps(w, steps[0]);
      NextNumbered(w, steps[0], start);
      RunNumbered(Next(w, steps[0]), steps[1..], start);
    }
  }

  /**
   * Over every run: the n-th flush has the n-th number after the first, modulo 65536; the data
   * frames on the wire carry, in order, the numbers of the shipped flushes, and a lost one leaves a
   * gap.
   */
  lemma SequenceNumbers(net: Net, steps: seq<Step>)
    requires Fresh(net)
    ensures var w := Run(Opened(net), steps);
            && w.net.sequence == net.sequence + Flushes(w.log)
            && Numbers(Sent(w)) == ShippedNumbers(w.log, net.sequence)
  {
    var w0 := World(net, [], [], []);
    assert Sent(w0) == [];
    OpenNumbered(w0, net.sequence);
    OpenedInv(net);
    RunNumbered(Opened(net), steps, net.sequence);
  }

  /** When every flush ships, successive data frames carry successive numbers. */
  lemma {:induction false} SuccessiveNumbers(log: seq<Event>, start: nat, i: nat)
    requires forall e :: e in log && e.Flushed? ==> e.fate == Shipped
    requires i < Flushes(log)
    ensures |ShippedNumbers(log, start)| == Flushes(log) && ShippedNumbers(log, start)[i] == (start + 1 + i) % 65536
    decreases |log|
  {
    var rest := log[1..];
    assert forall e :: e in rest ==> e in log;
    assert log[0] in log;
    if log[0].Discarded? {
      SuccessiveNumbers(rest, start, i);
    } else if i > 0 {
      SuccessiveNumbers(rest, start + 1, i - 1);
    } else if Flushes(rest) > 0 {
      SuccessiveNumbers(rest, start + 1, 0);
    } else {
      NoNumbers(rest, start + 1);
    }
  }

  lemma {:induction false} NoNumbers(log: seq<Event>, start: nat)
    requires Flushes(log) == 0
    ensures ShippedNumbers(log, start) == []
    decreases |log|
  {
    if log != [] { NoNumbers(log[1..], start); }
  }
}
