/**
 * The mux frame builder, on values.
 *
 * A frame buffer is split at `n_bytes`: `used` is what has been written (alignment padding
 * included, which the code skips and does not clear), `spare` is whatever earlier frames
 * left in the rest of the buffer. `lenAt` and `nextAt` are the saved pointers to the last
 * tag's `length` and `next` fields. `wide` tells the user-space layout, whose `next` is a
 * 32-bit field, from the kernel's 16-bit `next` and 16-bit pad.
 */
module MuxFrame {
  import opened Bytes

  const MUX_MAX_PACKETS: nat := 64
  const FIRST_HEADER: nat := 16
  const NEXT_HEADER: nat := 12
  const BOUND: nat := 8

  const ACBH: seq<u8> := [0x41, 0x43, 0x42, 0x48]
  const CMDH: seq<u8> := [0x43, 0x4d, 0x44, 0x48]
  const ADBH: seq<u8> := [0x41, 0x44, 0x42, 0x48]
  const ADTH: seq<u8> := [0x41, 0x44, 0x54, 0x48]

  type Packet = seq<u8>

  datatype Bound = Bound(offset: nat, length: nat)

  datatype Frame = Frame(wide: bool, maxSize: nat, sequence: nat, used: seq<u8>, spare: seq<u8>,
                         bounds: seq<Bound>, lenAt: Option<nat>, nextAt: Option<nat>)

  function AlignUp(n: nat): (a: nat)
    ensures n <= a < n + 4 && a % 4 == 0
  {
    (n + 3) / 4 * 4
  }

  /** The saved pointers point into the frame, and exist once it has a tag; the buffer can hold `maxSize` bytes. */
  ghost predicate FrameOk(f: Frame) {
    && f.maxSize < 65536
    && |f.used| <= AlignUp(f.maxSize) <= |f.used| + |f.spare|
    && (f.lenAt.None? <==> f.used == []) && (f.nextAt.None? <==> f.used == [])
    && (f.lenAt.Some? ==> f.lenAt.value + 2 <= |f.used|)
    && (f.nextAt.Some? ==> f.nextAt.value + 4 <= |f.used|)
  }

  /** Building changes neither the size of the buffer nor the frame's parameters. */
  ghost predicate SameFrame(f: Frame, g: Frame) {
    && |g.used| + |g.spare| == |f.used| + |f.spare|
    && g.wide == f.wide && g.maxSize == f.maxSize && g.sequence == f.sequence
  }

  function FrameInit(f: Frame, maxSize: nat, sequence: nat): (f': Frame)
    requires maxSize < 65536 && AlignUp(maxSize) <= |f.used| + |f.spare|
    ensures FrameOk(f')
  {
    Frame(f.wide, maxSize, sequence, [], f.used + f.spare, [], None, None)
  }

  function Header(first: bool, tag: seq<u8>, sequence: nat, length: nat, extra: nat, next: nat): (h: seq<u8>)
    requires |tag| == 4
    ensures |h| == if first then FIRST_HEADER else NEXT_HEADER
  {
    tag + (if first then Le16(0) + Le16(sequence) else []) + Le16(length) + Le16(extra) + Le32(next)
  }

  function HeaderSize(f: Frame): nat {
    if f.used == [] then FIRST_HEADER else NEXT_HEADER
  }

  predicate TagFits(f: Frame, dataLen: nat) {
    AlignUp(|f.used|) + HeaderSize(f) + dataLen <= f.maxSize
  }

  /** The frame once `n_bytes` has been rounded up: stale bytes of the buffer become padding. */
  function Padded(f: Frame): (f': Frame)
    requires FrameOk(f)
    ensures FrameOk(f') && SameFrame(f, f') && |f'.used| == AlignUp(|f.used|)
  {
    var pad := AlignUp(|f.used|) - |f.used|;
    f.(used := f.used + f.spare[..pad], spare := f.spare[pad..])
  }

  function Link(f: Frame, next: nat): seq<u8>
    requires FrameOk(f)
  {
    if f.nextAt.Some? then Patch(f.used, f.nextAt.value, if f.wide then Le32(next) else Le16(next)) else f.used
  }

  /** `mux_frame_add_tag`: the new frame, and whether it succeeded. */
  function AddTag(f: Frame, tag: seq<u8>, extra: nat, data: seq<u8>): (res: (Frame, bool))
    requires FrameOk(f) && |tag| == 4
    ensures FrameOk(res.0) && SameFrame(f, res.0)
    ensures res.1 == TagFits(f, |data|)
  {
    var p := Padded(f);
    if !TagFits(f, |data|) then (p, false) else
    var a := |p.used|;
    var first := f.used == [];
    var hdr := Header(first, tag, f.sequence, HeaderSize(f) + |data|, extra, 0);
    (p.(used := Link(p, a) + hdr + data, spare := p.spare[|hdr| + |data|..],
        lenAt := Some(a + if first then 8 else 4), nextAt := Some(a + if first then 12 else 8)), true)
  }

  predicate DataFits(f: Frame, dataLen: nat) {
    |f.used| + dataLen <= f.maxSize
  }

  /** `mux_frame_append_data`: the last tag's length grows by what is appended. */
  function AppendData(f: Frame, data: seq<u8>): (res: (Frame, bool))
    requires FrameOk(f) && f.used != []
    ensures FrameOk(res.0) && res.0.used != [] && SameFrame(f, res.0)
    ensures res.1 == DataFits(f, |data|)
  {
    if !DataFits(f, |data|) then (f, false) else
    var length := Le16(U16(f.used, f.lenAt.value) + |data|);
    (f.(used := Patch(f.used, f.lenAt.value, length) + data, spare := f.spare[|data|..]), true)
  }

  /** The size test of `mux_frame_append_packet`, which reserves room for the bounds table to come. */
  predicate PacketFits(f: Frame, packetLen: nat, maxPackets: nat) {
    && |f.bounds| < maxPackets
    && |f.used| + packetLen + 16 + NEXT_HEADER + 4 + (|f.bounds| + 1) * BOUND <= f.maxSize
  }

  /** `mux_frame_append_packet`: 16 zero bytes and the packet, recorded as one bound. */
  function AppendPacket(f: Frame, packet: Packet, maxPackets: nat): (res: (Frame, bool))
    requires FrameOk(f) && f.used != []
    ensures FrameOk(res.0) && res.0.used != [] && SameFrame(f, res.0)
    ensures res.1 == PacketFits(f, |packet|, maxPackets)
  {
    if !PacketFits(f, |packet|, maxPackets) then (f, false) else
    var f1 := f.(bounds := f.bounds + [Bound(|f.used|, |packet| + 16)]);
    var (f2, ok2) := AppendData(f1, Zeros(16));
    AppendData(f2, packet)
  }

  /** The bounds array as it lies in memory. */
  function BoundsBytes(bs: seq<Bound>): (s: seq<u8>)
    ensures |s| == BOUND * |bs|
  {
    if bs == [] then [] else BoundsBytes(bs[..|bs| - 1]) + Le32(bs[|bs| - 1].offset) + Le32(bs[|bs| - 1].length)
  }

  /** The ADTH tag with its zero word, then the bounds table. */
  function AppendAdth(f: Frame, channel: nat): (res: (Frame, bool))
    requires FrameOk(f) && f.used != []
    ensures FrameOk(res.0) && SameFrame(f, res.0)
  {
    var (f1, ok1) := AddTag(f, ADTH, channel, Zeros(4));
    if !ok1 then (f1, false) else AppendData(f1, BoundsBytes(f.bounds))
  }

  /** The bytes `mux_frame_push` sends: the first tag's length becomes the frame's. */
  function Completed(f: Frame): seq<u8>
    requires |f.used| >= FIRST_HEADER
  {
    Patch(f.used, 8, Le16(|f.used|))
  }

  // ---- What the finished frame looks like ----

  function BodyLen(ps: seq<Packet>): (n: nat) {
    if ps == [] then 0 else BodyLen(ps[..|ps| - 1]) + 16 + |ps[|ps| - 1]|
  }

  /** Every packet after 16 zero bytes. */
  function Body(ps: seq<Packet>): (s: seq<u8>)
    ensures |s| == BodyLen(ps)
  {
    if ps == [] then [] else Body(ps[..|ps| - 1]) + Zeros(16) + ps[|ps| - 1]
  }

  function BoundsOf(ps: seq<Packet>): (bs: seq<Bound>)
    ensures |bs| == |ps|
  {
    if ps == [] then [] else
    BoundsOf(ps[..|ps| - 1]) + [Bound(FIRST_HEADER + BodyLen(ps[..|ps| - 1]), |ps[|ps| - 1]| + 16)]
  }

  /** A frame of one ADBH tag whose data is `tail` and whose length field is up to date. */
  ghost predicate OneTag(f: Frame, tail: seq<u8>) {
    && FrameOk(f)
    && f.used == Header(true, ADBH, f.sequence, FIRST_HEADER + |tail|, 0, 0) + tail
    && f.lenAt == Some(8) && f.nextAt == Some(12)
  }

  /** An open frame holding exactly the packets `ps`, with the room the size test reserved. */
  ghost predicate Holds(f: Frame, ps: seq<Packet>) {
    && OneTag(f, Body(ps)) && f.bounds == BoundsOf(ps)
    && |f.used| + (if ps == [] then 0 else NEXT_HEADER + 4 + BOUND * |ps|) <= f.maxSize
  }

  lemma OpenHolds(f: Frame)
    requires FrameOk(f) && f.used == [] && f.bounds == [] && FIRST_HEADER <= f.maxSize
    ensures AddTag(f, ADBH, 0, []).1 && Holds(AddTag(f, ADBH, 0, []).0, [])
  {
    assert AlignUp(0) == 0;
    var f' := AddTag(f, ADBH, 0, []).0;
    assert f'.used == Header(true, ADBH, f.sequence, FIRST_HEADER, 0, 0);
  }

  /** The first tag of a frame. */
  lemma FirstTag(f: Frame, tag: seq<u8>)
    requires FrameOk(f) && f.used == [] && FIRST_HEADER <= f.maxSize && |tag| == 4
    ensures var g := AddTag(f, tag, 0, []).0;
            && g.used == Header(true, tag, f.sequence, FIRST_HEADER, 0, 0)
            && g.nextAt == Some(12) && g.maxSize == f.maxSize && g.sequence == f.sequence
  {
    assert AlignUp(0) == 0;
  }

  /** A second tag behind a first one without data. */
  lemma SecondTag(f: Frame, first: seq<u8>, tag: seq<u8>, extra: nat, data: seq<u8>)
    requires FrameOk(f) && |tag| == |first| == 4 && f.nextAt == Some(12)
    requires f.used == Header(true, first, f.sequence, FIRST_HEADER, 0, 0)
    ensures AddTag(f, tag, extra, data).0.used ==
              if !TagFits(f, |data|) then f.used else
              Header(true, first, f.sequence, FIRST_HEADER, 0, FIRST_HEADER)
              + Header(false, tag, f.sequence, NEXT_HEADER + |data|, extra, 0) + data
  {
    assert AlignUp(16) == 16;
    HeaderNext(first, f.sequence, FIRST_HEADER, 0, FIRST_HEADER, []);
    WithoutTail(Header(true, first, f.sequence, FIRST_HEADER, 0, 0));
    WithoutTail(Header(true, first, f.sequence, FIRST_HEADER, 0, FIRST_HEADER));
    assert Padded(f).used == f.used;
    if TagFits(f, |data|) { LinkTo(f, f.used, Header(true, first, f.sequence, FIRST_HEADER, 0, FIRST_HEADER)); }
  }

  lemma WithoutTail(s: seq<u8>)
    ensures s + [] == s
  {
  }

  /** The bytes of a control frame: an ACBH tag that links to a CMDH tag with its arguments. */
  function ControlLayout(sequence: nat, extra: nat, args: seq<u8>): (bytes: seq<u8>)
    ensures |bytes| == FIRST_HEADER + NEXT_HEADER + |args|
  {
    Header(true, ACBH, sequence, FIRST_HEADER + NEXT_HEADER + |args|, 0, FIRST_HEADER)
    + (Header(false, CMDH, 0, NEXT_HEADER + |args|, extra, 0) + args)
  }

  /** A control frame is an ACBH tag and a CMDH tag with 16 bytes, if it has room. */
  lemma ControlTags(f: Frame, extra: nat, args: seq<u8>)
    requires FrameOk(f) && f.used == [] && FIRST_HEADER <= f.maxSize && |args| == 16
    ensures var g := AddTag(AddTag(f, ACBH, 0, []).0, CMDH, extra, args).0;
            && |g.used| == (if f.maxSize < 44 then 16 else 44)
            && Completed(g) == if f.maxSize < 44 then Header(true, ACBH, f.sequence, FIRST_HEADER, 0, 0)
                               else ControlLayout(f.sequence, extra, args)
  {
    var h := Header(true, ACBH, f.sequence, FIRST_HEADER, 0, 0);
    var rest := Header(false, CMDH, f.sequence, NEXT_HEADER + |args|, extra, 0) + args;
    FirstTag(f, ACBH);
    SecondTag(AddTag(f, ACBH, 0, []).0, ACBH, CMDH, extra, args);
    if f.maxSize < 44 {
      HeaderLength(true, ACBH, f.sequence, FIRST_HEADER, 0, 0, FIRST_HEADER, []);
      WithoutTail(h);
    } else {
      var front := Header(true, ACBH, f.sequence, FIRST_HEADER, 0, FIRST_HEADER);
      Assoc(front, Header(false, CMDH, f.sequence, NEXT_HEADER + |args|, extra, 0), args);
      HeaderLength(true, ACBH, f.sequence, FIRST_HEADER, 0, FIRST_HEADER, 44, rest);
    }
  }

  /** Patching a header's length field gives the header with the new length. */
  lemma HeaderLength(first: bool, tag: seq<u8>, sequence: nat, length: nat, extra: nat, next: nat, length': nat,
                     tail: seq<u8>)
    requires |tag| == 4
    ensures var at := if first then 8 else 4;
            && Patch(Header(first, tag, sequence, length, extra, next) + tail, at, Le16(length'))
               == Header(first, tag, sequence, length', extra, next) + tail
            && U16(Header(first, tag, sequence, length, extra, next) + tail, at) == length % 65536
  {
    var at := if first then 8 else 4;
    var s := Header(first, tag, sequence, length, extra, next) + tail;
    Le16Inverse(length);
    assert s[at..at + 2] == Le16(length)[0..2];
    FieldLocal(s, Le16(length), at, 0, 2);
  }

  /** Patching the first header's `next` field, at either width, gives the header with the new `next`. */
  lemma HeaderNext(tag: seq<u8>, sequence: nat, length: nat, extra: nat, next: nat, tail: seq<u8>)
    requires |tag| == 4 && next < 65536
    ensures var s := Header(true, tag, sequence, length, extra, 0) + tail;
            && Patch(s, 12, Le32(next)) == Header(true, tag, sequence, length, extra, next) + tail
            && Patch(s, 12, Le16(next)) == Header(true, tag, sequence, length, extra, next) + tail
  {
    Le32OfShort(next);
    Le32OfShort(0);
  }

  lemma AppendDataOpen(f: Frame, tail: seq<u8>, data: seq<u8>)
    requires OneTag(f, tail) && DataFits(f, |data|)
    ensures OneTag(AppendData(f, data).0, tail + data)
    ensures AppendData(f, data).0 == f.(used := AppendData(f, data).0.used, spare := f.spare[|data|..])
  {
    var n := FIRST_HEADER + |tail|;
    HeaderLength(true, ADBH, f.sequence, n, 0, 0, n + |data|, tail);
    assert U16(f.used, 8) == n;
    assert AppendData(f, data).0.used == Patch(f.used, 8, Le16(n + |data|)) + data;
    Assoc(Header(true, ADBH, f.sequence, n + |data|, 0, 0), tail, data);
  }

  lemma AppendPacketHolds(f: Frame, ps: seq<Packet>, p: Packet, maxPackets: nat)
    requires Holds(f, ps) && PacketFits(f, |p|, maxPackets)
    ensures Holds(AppendPacket(f, p, maxPackets).0, ps + [p])
    ensures var f' := AppendPacket(f, p, maxPackets).0;
            f' == f.(used := f'.used, spare := f'.spare, bounds := f'.bounds)
  {
    var f1 := f.(bounds := f.bounds + [Bound(|f.used|, |p| + 16)]);
    AppendDataOpen(f1, Body(ps), Zeros(16));
    AppendDataOpen(AppendData(f1, Zeros(16)).0, Body(ps) + Zeros(16), p);
    HoldsMore(f, ps, p, maxPackets, AppendData(AppendData(f1, Zeros(16)).0, p).0);
  }

  lemma HoldsMore(f: Frame, ps: seq<Packet>, p: Packet, maxPackets: nat, g: Frame)
    requires Holds(f, ps) && PacketFits(f, |p|, maxPackets) && OneTag(g, Body(ps) + Zeros(16) + p)
    requires g.bounds == f.bounds + [Bound(|f.used|, |p| + 16)] && g.maxSize == f.maxSize
    ensures Holds(g, ps + [p])
  {
    assert (ps + [p])[..|ps|] == ps;
  }

  /** A finished frame of an ADBH tag with data `tail` and an ADTH tag with `table`, laid out from scratch. */
  function TwoTags(sequence: nat, channel: nat, tail: seq<u8>, pad: seq<u8>, table: seq<u8>): seq<u8> {
    var a := FIRST_HEADER + |tail| + |pad|;
    var length := NEXT_HEADER + 4 + |table|;
    Header(true, ADBH, sequence, a + length, 0, a) + (tail + pad)
    + (Header(false, ADTH, 0, length, channel, 0) + Zeros(4) + table)
  }

  function Layout(sequence: nat, channel: nat, ps: seq<Packet>, pad: seq<u8>): seq<u8> {
    TwoTags(sequence, channel, Body(ps), pad, BoundsBytes(BoundsOf(ps)))
  }

  /** The alignment padding the ADTH tag will be preceded by. */
  function Padding(f: Frame): seq<u8>
    requires FrameOk(f)
  {
    f.spare[..AlignUp(|f.used|) - |f.used|]
  }

  /** Adding the ADTH tag and the bounds table succeeds exactly when the aligned tag and the table fit. */
  predicate AdthFits(f: Frame) {
    AlignUp(|f.used|) + NEXT_HEADER + 4 + BOUND * |f.bounds| <= f.maxSize
  }

  lemma AdthLayout(f: Frame, ps: seq<Packet>, channel: nat)
    requires Holds(f, ps)
    ensures AppendAdth(f, channel).1 <==> AdthFits(f)
    ensures AdthFits(f) ==>
      && |AppendAdth(f, channel).0.used| == AlignUp(|f.used|) + NEXT_HEADER + 4 + BOUND * |ps|
      && Completed(AppendAdth(f, channel).0) == Layout(f.sequence, channel, ps, Padding(f))
  {
    if AdthFits(f) {
      TwoTagsBuilt(f, Body(ps), channel, BoundsBytes(f.bounds));
    }
  }

  lemma TwoTagsBuilt(f: Frame, tail: seq<u8>, channel: nat, table: seq<u8>)
    requires OneTag(f, tail) && AlignUp(|f.used|) + NEXT_HEADER + 4 + |table| <= f.maxSize
    ensures var f2 := AppendData(AddTag(f, ADTH, channel, Zeros(4)).0, table);
            && f2.1 && |f2.0.used| == AlignUp(|f.used|) + NEXT_HEADER + 4 + |table|
            && Completed(f2.0) == TwoTags(f.sequence, channel, tail, Padding(f), table)
  {
    TableAppended(f, tail, channel, table);
    PaddedLength(f, tail);
    CompletedFrame(AppendData(AddTag(f, ADTH, channel, Zeros(4)).0, table).0, f.sequence, |f.used|, AlignUp(|f.used|),
                   channel, tail, Padding(f), table);
  }

  lemma PaddedLength(f: Frame, tail: seq<u8>)
    requires OneTag(f, tail)
    ensures AlignUp(|f.used|) == FIRST_HEADER + |tail| + |Padding(f)|
  {
  }

  lemma CompletedFrame(g: Frame, sequence: nat, length: nat, at: nat, channel: nat, tail: seq<u8>, pad: seq<u8>,
                       table: seq<u8>)
    requires at == FIRST_HEADER + |tail| + |pad|
    requires g.used == Header(true, ADBH, sequence, length, 0, at) + (tail + pad)
                       + (Header(false, ADTH, 0, NEXT_HEADER + 4 + |table|, channel, 0) + Zeros(4) + table)
    ensures |g.used| == at + NEXT_HEADER + 4 + |table|
    ensures Completed(g) == TwoTags(sequence, channel, tail, pad, table)
  {
    CompletedTwoTags(sequence, length, channel, tail, pad, table, g.used);
  }

  lemma CompletedTwoTags(sequence: nat, length: nat, channel: nat, tail: seq<u8>, pad: seq<u8>, table: seq<u8>,
                         used: seq<u8>)
    requires used == Header(true, ADBH, sequence, length, 0, FIRST_HEADER + |tail| + |pad|) + (tail + pad)
                     + (Header(false, ADTH, 0, NEXT_HEADER + 4 + |table|, channel, 0) + Zeros(4) + table)
    ensures Patch(used, 8, Le16(|used|)) == TwoTags(sequence, channel, tail, pad, table)
  {
    FirstLength(sequence, length, FIRST_HEADER + |tail| + |pad|, tail + pad,
                Header(false, ADTH, 0, NEXT_HEADER + 4 + |table|, channel, 0) + Zeros(4) + table, used);
  }

  lemma TableAppended(f: Frame, tail: seq<u8>, channel: nat, table: seq<u8>)
    requires OneTag(f, tail) && AlignUp(|f.used|) + NEXT_HEADER + 4 + |table| <= f.maxSize
    ensures AppendData(AddTag(f, ADTH, channel, Zeros(4)).0, table).0.used
            == Header(true, ADBH, f.sequence, |f.used|, 0, AlignUp(|f.used|)) + (tail + Padding(f))
               + (Header(false, ADTH, 0, NEXT_HEADER + 4 + |table|, channel, 0) + Zeros(4) + table)
    ensures AppendData(AddTag(f, ADTH, channel, Zeros(4)).0, table).1
  {
    AdthTag(f, tail, channel);
    TableBehind(AddTag(f, ADTH, channel, Zeros(4)).0,
                Header(true, ADBH, f.sequence, |f.used|, 0, AlignUp(|f.used|)) + (tail + Padding(f)),
                f.sequence, channel, table);
  }

  /** The table appended to an ADTH tag behind `front`. */
  lemma TableBehind(f: Frame, front: seq<u8>, sequence: nat, channel: nat, table: seq<u8>)
    requires FrameOk(f) && f.used != [] && f.lenAt == Some(|front| + 4)
    requires f.used == front + Header(false, ADTH, sequence, NEXT_HEADER + 4, channel, 0) + Zeros(4)
    requires |front| + NEXT_HEADER + 4 + |table| <= f.maxSize
    ensures AppendData(f, table).1
    ensures AppendData(f, table).0.used
            == front + (Header(false, ADTH, 0, NEXT_HEADER + 4 + |table|, channel, 0) + Zeros(4) + table)
  {
    TailLength(front, sequence, channel, |table|, Zeros(4));
    AppendDataAfter(f, front, Header(false, ADTH, sequence, NEXT_HEADER + 4, channel, 0),
                    Header(false, ADTH, 0, NEXT_HEADER + 4 + |table|, channel, 0), Zeros(4), table, NEXT_HEADER + 4);
  }

  /** Appending to the last tag, whose header `h` becomes `h'`. */
  lemma AppendDataAfter(f: Frame, front: seq<u8>, h: seq<u8>, h': seq<u8>, word: seq<u8>, data: seq<u8>, length: nat)
    requires FrameOk(f) && f.used != [] && DataFits(f, |data|)
    requires f.used == front + h + word && f.lenAt == Some(|front| + 4)
    requires U16(f.used, |front| + 4) == length
    requires Patch(f.used, |front| + 4, Le16(length + |data|)) == front + h' + word
    ensures AppendData(f, data).0.used == front + (h' + word + data)
  {
    Assoc(front, h', word);
    Assoc(front, h' + word, data);
  }

  /** The ADTH tag added to an open frame, and the link to it. */
  lemma AdthTag(f: Frame, tail: seq<u8>, channel: nat)
    requires OneTag(f, tail) && TagFits(f, 4)
    ensures var a := AlignUp(|f.used|);
            var f1 := AddTag(f, ADTH, channel, Zeros(4)).0;
            && f1.used == Header(true, ADBH, f.sequence, |f.used|, 0, a) + (tail + Padding(f))
                          + Header(false, ADTH, f.sequence, NEXT_HEADER + 4, channel, 0) + Zeros(4)
            && f1.lenAt == Some(a + 4) && f1.bounds == f.bounds && f1.maxSize == f.maxSize
  {
    var a, pad := AlignUp(|f.used|), Padding(f);
    var h0 := Header(true, ADBH, f.sequence, |f.used|, 0, 0);
    HeaderNext(ADBH, f.sequence, |f.used|, 0, a, tail + pad);
    Assoc(h0, tail, pad);
    LinkTo(f, h0 + (tail + pad), Header(true, ADBH, f.sequence, |f.used|, 0, a) + (tail + pad));
  }

  lemma LinkTo(f: Frame, before: seq<u8>, after: seq<u8>)
    requires FrameOk(f) && f.nextAt.Some? && before == Padded(f).used
    requires |before| < 65536 && f.nextAt.value + 4 <= |before|
    requires Patch(before, f.nextAt.value, Le32(|before|)) == after
    requires Patch(before, f.nextAt.value, Le16(|before|)) == after
    ensures Link(Padded(f), |before|) == after
  {
  }

  /** Completing a frame changes nothing but the first tag's length. */
  lemma FirstLength(sequence: nat, length: nat, next: nat, middle: seq<u8>, rest: seq<u8>, used: seq<u8>)
    requires used == Header(true, ADBH, sequence, length, 0, next) + middle + rest
    ensures Patch(used, 8, Le16(|used|)) == Header(true, ADBH, sequence, |used|, 0, next) + middle + rest
  {
    assert used == Header(true, ADBH, sequence, length, 0, next) + (middle + rest);
    HeaderLength(true, ADBH, sequence, length, 0, next, |used|, middle + rest);
  }

  /** Growing the length of the ADTH tag leaves everything in front of it alone. */
  lemma TailLength(front: seq<u8>, sequence: nat, channel: nat, grow: nat, word: seq<u8>)
    requires NEXT_HEADER + 4 + grow < 65536
    ensures var s := front + Header(false, ADTH, sequence, NEXT_HEADER + 4, channel, 0) + word;
            && U16(s, |front| + 4) == NEXT_HEADER + 4
            && Patch(s, |front| + 4, Le16(NEXT_HEADER + 4 + grow))
               == front + Header(false, ADTH, 0, NEXT_HEADER + 4 + grow, channel, 0) + word
  {
    var h := Header(false, ADTH, sequence, NEXT_HEADER + 4, channel, 0);
    var s := front + h + word;
    HeaderLength(false, ADTH, sequence, NEXT_HEADER + 4, channel, 0, NEXT_HEADER + 4 + grow, word);
    assert s[|front| + 4..|front| + 6] == (h + word)[4..6];
    FieldLocal(s, h + word, |front| + 4, 4, 2);
  }
}
