/** Decoding a mux frame, and the round trip through the builder. */
module MuxDecode {
  import opened Bytes
  import opened MuxFrame

  /**
   * `n_packets` of the decoders: a length below 16 makes the unsigned (64-bit) subtraction wrap to
   * a negative `int`.
   */
  function PacketCount(adthLength: nat): nat {
    if adthLength < NEXT_HEADER + 4 then 0 else (adthLength - NEXT_HEADER - 4) / BOUND
  }

  function BoundAt(page: seq<u8>, table: nat, i: nat): Bound
    requires table + BOUND * (i + 1) <= |page|
  {
    Bound(U32(page, table + BOUND * i), U32(page, table + BOUND * i + 4))
  }

  predicate InPage(page: seq<u8>, b: Bound) {
    b.offset + b.length <= |page|
  }

  function Slice(page: seq<u8>, b: Bound): seq<u8>
    requires InPage(page, b)
  {
    page[b.offset..b.offset + b.length]
  }

  /** `Fault`: the frame points outside the page, where the C code would read other memory. */
  datatype Located = Control | BadTag | BadAdth | Fault | Table(at: nat, count: nat)

  /** The tag checks shared by the decoders: where the bounds table is, and how many entries it has. */
  function Locate(page: seq<u8>, wide: bool): (o: Located)
    ensures o.Table? ==> o.at + BOUND * o.count <= |page|
  {
    if |page| < FIRST_HEADER then Fault
    else if page[..4] == ACBH then Control
    else if page[..4] != ADBH then BadTag
    else
      var next := if wide then U32(page, 12) else U16(page, 12);
      if next + NEXT_HEADER > |page| then Fault
      else if page[next..next + 4] != ADTH then BadAdth
      else
        var n := PacketCount(U16(page, next + 4));
        if next + NEXT_HEADER + 4 + BOUND * n > |page| then Fault else Table(next + NEXT_HEADER + 4, n)
  }

  /** A page gives packets only if it starts with an ADBH tag that links to an ADTH tag whose table lies in the page. */
  lemma TableOnlyIf(page: seq<u8>, wide: bool)
    ensures Locate(page, wide).Table? ==>
              && |page| >= 16 && page[..4] == [0x41, 0x44, 0x42, 0x48]
              && var a := if wide then U32(page, 12) else U16(page, 12);
              && a + 16 <= |page| && page[a..a + 4] == [0x41, 0x44, 0x54, 0x48]
              && Locate(page, wide).at == a + 16
              && Locate(page, wide).count == (if U16(page, a + 4) < 16 then 0 else (U16(page, a + 4) - 16) / 8)
              && a + 16 + 8 * Locate(page, wide).count <= |page|
  {
  }

  // ---- User space: every bound is a packet ----

  /** The slices of bounds `i..count`, or `None` when one leaves the page. */
  function Slices(page: seq<u8>, table: nat, count: nat, i: nat): Option<seq<Packet>>
    requires i <= count && table + BOUND * count <= |page|
    decreases count - i
  {
    if i == count then Some([])
    else if !InPage(page, BoundAt(page, table, i)) then None
    else
      var rest := Slices(page, table, count, i + 1);
      if rest.None? then None else Some([Slice(page, BoundAt(page, table, i))] + rest.value)
  }

  /** The packets of a frame as `handle_mux_frame` of mux.c writes them to the tun device. */
  function Unmux(page: seq<u8>, wide: bool): Option<seq<Packet>> {
    var o := Locate(page, wide);
    if !o.Table? then None else Slices(page, o.at, o.count, 0)
  }

  /** The slices of bounds `i..count` up to the first one that leaves the page. */
  function InPageSlices(page: seq<u8>, table: nat, count: nat, i: nat): seq<Packet>
    requires i <= count && table + BOUND * count <= |page|
    decreases count - i
  {
    if i == count || !InPage(page, BoundAt(page, table, i)) then []
    else [Slice(page, BoundAt(page, table, i))] + InPageSlices(page, table, count, i + 1)
  }

  lemma InPageStep(page: seq<u8>, table: nat, count: nat, i: nat, before: seq<Packet>)
    requires i < count && table + BOUND * count <= |page|
    ensures var b := BoundAt(page, table, i);
            before + InPageSlices(page, table, count, i)
            == if InPage(page, b) then before + [Slice(page, b)] + InPageSlices(page, table, count, i + 1) else before
  {
    var b := BoundAt(page, table, i);
    if InPage(page, b) {
      Assoc(before, [Slice(page, b)], InPageSlices(page, table, count, i + 1));
    } else {
      assert before + [] == before;
    }
  }

  lemma {:induction false} AllInPage(page: seq<u8>, table: nat, count: nat, i: nat)
    requires i <= count && table + BOUND * count <= |page| && Slices(page, table, count, i).Some?
    ensures InPageSlices(page, table, count, i) == Slices(page, table, count, i).value
    decreases count - i
  {
    if i < count { AllInPage(page, table, count, i + 1); }
  }

  // ---- The kernel: empty bounds are skipped, and a packet that is not IPv4 or IPv6 ends the frame ----

  predicate IsIp(p: Packet)
    requires p != []
  {
    p[0] / 16 == 4 || p[0] / 16 == 6
  }

  datatype End = Finished | NotIp | OffPage

  function Scan(page: seq<u8>, table: nat, count: nat, i: nat): (seq<Packet>, End)
    requires i <= count && table + BOUND * count <= |page|
    decreases count - i
  {
    if i == count then ([], Finished) else
    var b := BoundAt(page, table, i);
    if b.length == 0 then Scan(page, table, count, i + 1)
    else if !InPage(page, b) then ([], OffPage)
    else if !IsIp(Slice(page, b)) then ([], NotIp)
    else
      var (rest, end) := Scan(page, table, count, i + 1);
      ([Slice(page, b)] + rest, end)
  }

  /** `net_mux_handle_frame`: the packets handed to the network stack, in order. */
  method HandleFrame(page: seq<u8>) returns (received: seq<Packet>, located: Located, end: End)
    ensures located == Locate(page, false)
    ensures located.Table? ==> (received, end) == Scan(page, located.at, located.count, 0)
    ensures !located.Table? ==> received == []
  {
    received, end := [], Finished;
    located := Locate(page, false);
    assert located.Table? ==>
        [] + Scan(page, located.at, located.count, 0).0 == Scan(page, located.at, located.count, 0).0;
    if !located.Table? { return; }
    var i := 0;
    while i < located.count
      invariant i <= located.count
      invariant received + Scan(page, located.at, located.count, i).0 == Scan(page, located.at, located.count, 0).0
      invariant Scan(page, located.at, located.count, i).1 == Scan(page, located.at, located.count, 0).1
      invariant end == Finished
    {
      var b := BoundAt(page, located.at, i);
      if b.length != 0 {
        if !InPage(page, b) {
          end := OffPage;
          assert received + [] == received;
          return;
        }
        var p := Slice(page, b);
        if !IsIp(p) {
          end := NotIp;
          assert received + [] == received;
          return;
        }
        Assoc(received, [p], Scan(page, located.at, located.count, i + 1).0);
        received := received + [p];
      }
      i := i + 1;
    }
    assert received + [] == received;
  }

  function NonEmpty(ps: seq<Packet>): seq<Packet> {
    if ps == [] then [] else (if ps[0] == [] then [] else [ps[0]]) + NonEmpty(ps[1..])
  }

  /** The first byte of an IPv4 or IPv6 packet. */
  predicate IpStart(b: u8) {
    0x40 <= b <= 0x4f || 0x60 <= b <= 0x6f
  }

  lemma IpByItsFirstByte(p: Packet)
    requires p != []
    ensures IsIp(p) <==> IpStart(p[0])
  {
  }

  /** The packets in front of the first nonempty one that is not IPv4 or IPv6. */
  function UpToForeign(ps: seq<Packet>): seq<Packet> {
    if ps == [] || (ps[0] != [] && !IpStart(ps[0][0])) then [] else [ps[0]] + UpToForeign(ps[1..])
  }

  predicate Foreign(ps: seq<Packet>, k: nat)
    requires k < |ps|
  {
    ps[k] != [] && !IpStart(ps[k][0])
  }

  /** They are all the packets, or those in front of the first foreign one. */
  lemma {:induction false} UpToForeignIs(ps: seq<Packet>, k: nat)
    requires k <= |ps| && (forall i :: 0 <= i < k ==> !Foreign(ps, i)) && (k < |ps| ==> Foreign(ps, k))
    ensures UpToForeign(ps) == ps[..k]
    decreases |ps|
  {
    if k > 0 {
      assert !Foreign(ps, 0);
      assert forall i :: 0 <= i < |ps[1..]| ==> Foreign(ps[1..], i) == Foreign(ps, i + 1);
      UpToForeignIs(ps[1..], k - 1);
      assert ps[..k] == [ps[0]] + ps[1..][..k - 1];
    }
  }

  /**
   * On any frame the kernel receives what user space would write in front of the first packet that is
   * not IPv4 or IPv6, less the empty ones, and ends on that packet if there is one.
   */
  lemma {:induction false} KernelReceives(page: seq<u8>, table: nat, count: nat, i: nat)
    requires i <= count && table + BOUND * count <= |page|
    requires Slices(page, table, count, i).Some?
    ensures var all := Slices(page, table, count, i).value;
            Scan(page, table, count, i)
            == (NonEmpty(UpToForeign(all)), if |UpToForeign(all)| == |all| then Finished else NotIp)
    decreases count - i
  {
    if i < count {
      var all, rest := Slices(page, table, count, i).value, Slices(page, table, count, i + 1).value;
      assert all[0] == Slice(page, BoundAt(page, table, i)) && all[1..] == rest;
      KernelReceives(page, table, count, i + 1);
      if all[0] == [] {
        EmptyFirst(rest);
      } else {
        IpByItsFirstByte(all[0]);
      }
    }
  }

  lemma EmptyFirst(rest: seq<Packet>)
    ensures UpToForeign([[]] + rest) == [[]] + UpToForeign(rest)
    ensures NonEmpty([[]] + UpToForeign(rest)) == NonEmpty(UpToForeign(rest))
  {
    assert ([[]] + rest)[1..] == rest && ([[]] + UpToForeign(rest))[1..] == UpToForeign(rest);
    assert [] + NonEmpty(UpToForeign(rest)) == NonEmpty(UpToForeign(rest));
  }

  // ---- The round trip ----

  /** What the receiver of a transmitted packet sees: the builder counts 16 zero bytes as part of it. */
  function Framed(ps: seq<Packet>): (fs: seq<Packet>)
    ensures |fs| == |ps| && forall i :: 0 <= i < |ps| ==> fs[i] == Zeros(16) + ps[i]
  {
    seq(|ps|, i requires 0 <= i < |ps| => Zeros(16) + ps[i])
  }

  /** Where packet `i` lies in the body, and its bound. */
  lemma {:induction false} BodySlice(ps: seq<Packet>, i: nat)
    requires i < |ps|
    ensures BoundsOf(ps)[i].offset >= FIRST_HEADER
    ensures var b := BoundsOf(ps)[i];
            && b.length == 16 + |ps[i]|
            && b.offset - FIRST_HEADER + b.length <= |Body(ps)|
            && Body(ps)[b.offset - FIRST_HEADER..b.offset - FIRST_HEADER + b.length] == Zeros(16) + ps[i]
    decreases |ps|
  {
    var front, last := ps[..|ps| - 1], ps[|ps| - 1];
    Assoc(Body(front), Zeros(16), last);
    if i < |ps| - 1 {
      BodySlice(front, i);
      var b := BoundsOf(ps)[i];
      SliceOfPrefix(Body(front), Zeros(16) + last, b.offset - FIRST_HEADER, b.length);
    } else {
      assert BoundsOf(ps)[i] == Bound(FIRST_HEADER + BodyLen(front), |last| + 16);
      SliceAtEnd(Body(front), Zeros(16) + last);
    }
  }

  lemma SliceAtEnd(a: seq<u8>, b: seq<u8>)
    ensures (a + b)[|a|..|a| + |b|] == b
  {
  }

  lemma SliceOfPrefix(a: seq<u8>, b: seq<u8>, from: nat, len: nat)
    requires from + len <= |a|
    ensures (a + b)[from..from + len] == a[from..from + len]
  {
  }

  lemma SliceInside(a: seq<u8>, b: seq<u8>, c: seq<u8>, from: nat, len: nat)
    requires from + len <= |b|
    ensures (a + b + c)[|a| + from..|a| + from + len] == b[from..from + len]
  {
  }

  /** Reading entry `i` back from the table. */
  lemma {:induction false} TableEntry(bs: seq<Bound>, i: nat)
    requires i < |bs| && bs[i].offset < 0x1_0000_0000 && bs[i].length < 0x1_0000_0000
    ensures BoundAt(BoundsBytes(bs), 0, i) == bs[i]
    decreases |bs|
  {
    var front, last := bs[..|bs| - 1], bs[|bs| - 1];
    var s := BoundsBytes(bs);
    if i < |bs| - 1 {
      TableEntry(front, i);
      Assoc(BoundsBytes(front), Le32(last.offset), Le32(last.length));
      SliceOfPrefix(BoundsBytes(front), Le32(last.offset) + Le32(last.length), BOUND * i, 8);
      EntryLocal(s, BoundsBytes(front), BOUND * i, BOUND * i);
    } else {
      Le32Inverse(last.offset);
      Le32Inverse(last.length);
      var n := BOUND * i;
      assert s[n..n + 4] == Le32(last.offset)[0..4];
      assert s[n + 4..n + 8] == Le32(last.length)[0..4];
      FieldLocal(s, Le32(last.offset), n, 0, 4);
      FieldLocal(s, Le32(last.length), n + 4, 0, 4);
    }
  }

  /** A table entry depends only on its eight bytes. */
  lemma EntryLocal(s: seq<u8>, t: seq<u8>, at: nat, from: nat)
    requires at + 8 <= |s| && from + 8 <= |t| && s[at..at + 8] == t[from..from + 8]
    ensures U32(s, at) == U32(t, from) && U32(s, at + 4) == U32(t, from + 4)
  {
    assert s[at..at + 4] == s[at..at + 8][..4] && t[from..from + 4] == t[from..from + 8][..4];
    assert s[at + 4..at + 8] == s[at..at + 8][4..] && t[from + 4..from + 8] == t[from..from + 8][4..];
    FieldLocal(s, t, at, from, 4);
    FieldLocal(s, t, at + 4, from + 4, 4);
  }

  /** All the decoders need to know of a page that starts with a frame whose ADTH tag is at `a`. */
  ghost predicate Readable(page: seq<u8>, body: seq<u8>, table: seq<u8>, a: nat) {
    && |page| >= a + NEXT_HEADER + 4 + |table|
    && FIRST_HEADER + |body| <= a && a + NEXT_HEADER + 4 + |table| < 65536
    && page[..4] == ADBH
    && page[a..a + 4] == ADTH && U16(page, a + 4) == NEXT_HEADER + 4 + |table|
    && page[FIRST_HEADER..FIRST_HEADER + |body|] == body
    && page[a + NEXT_HEADER + 4..a + NEXT_HEADER + 4 + |table|] == table
  }

  /** The first tag's `next` field leads to `a`; the kernel reads 16 bits of it and leaves the pad behind them alone. */
  ghost predicate Linked(page: seq<u8>, a: nat, wide: bool) {
    |page| >= FIRST_HEADER && a == if wide then U32(page, 12) else U16(page, 12)
  }

  lemma TwoTagsReadable(sequence: nat, channel: nat, tail: seq<u8>, pad: seq<u8>, table: seq<u8>, page: seq<u8>)
    requires TwoTags(sequence, channel, tail, pad, table) <= page
    requires FIRST_HEADER + |tail| + |pad| + NEXT_HEADER + 4 + |table| < 65536
    ensures var a := FIRST_HEADER + |tail| + |pad|;
            Readable(page, tail, table, a) && Linked(page, a, false) && Linked(page, a, true)
  {
    var a := FIRST_HEADER + |tail| + |pad|;
    var length := NEXT_HEADER + 4 + |table|;
    var h := Header(true, ADBH, sequence, a + length, 0, a);
    var h' := Header(false, ADTH, 0, length, channel, 0);
    HeaderRead(h, sequence, a + length, a);
    AdthRead(h', channel, length);
    SectionsOf(h, tail + pad, h' + Zeros(4) + table, page);
    FrontRead(page, h, a);
    SectionsOf(tail, pad, [], tail + pad);
    SubSlice(page, FIRST_HEADER, tail + pad, 0, |tail|);
    SectionsOf(h', Zeros(4), table, h' + Zeros(4) + table);
    BackRead(page, h' + Zeros(4) + table, h', a, length);
    SubSlice(page, a, h' + Zeros(4) + table, 16, |table|);
  }

  lemma FrontRead(page: seq<u8>, h: seq<u8>, a: nat)
    requires |h| == 16 <= |page| && page[..16] == h
    requires h[..4] == ADBH && U16(h, 12) == a && U32(h, 12) == a
    ensures page[..4] == ADBH && U16(page, 12) == a && U32(page, 12) == a
  {
    assert page[..4] == page[..16][..4];
    assert page[12..16] == page[..16][12..16];
    FieldLocal(page, h, 12, 12, 4);
  }

  lemma BackRead(page: seq<u8>, rest: seq<u8>, h: seq<u8>, a: nat, length: nat)
    requires |h| == 12 <= |rest| && rest[..12] == h && a + |rest| <= |page| && page[a..a + |rest|] == rest
    requires h[..4] == ADTH && U16(h, 4) == length
    ensures page[a..a + 4] == ADTH && U16(page, a + 4) == length
  {
    SubSlice(page, a, rest, 0, 4);
    SubSlice(page, a, rest, 4, 2);
    assert rest[..4] == rest[..12][..4] && rest[4..6] == rest[..12][4..6];
    FieldLocal(page, h, a + 4, 4, 2);
  }

  lemma SectionsOf(a: seq<u8>, b: seq<u8>, c: seq<u8>, page: seq<u8>)
    requires a + b + c <= page
    ensures page[..|a|] == a && page[|a|..|a| + |b|] == b && page[|a| + |b|..|a| + |b| + |c|] == c
  {
    assert page[..|a| + |b| + |c|] == a + b + c;
  }

  lemma HeaderRead(h: seq<u8>, sequence: nat, length: nat, next: nat)
    requires h == Header(true, ADBH, sequence, length, 0, next) && next < 65536
    ensures h[..4] == ADBH && U16(h, 12) == next && U32(h, 12) == next
  {
    Le32Inverse(next);
    Le32OfShort(next);
    assert h[12..16] == Le32(next)[0..4];
    FieldLocal(h, Le32(next), 12, 0, 4);
    Le16Inverse(next);
    assert h[12..14] == Le16(next)[0..2];
    FieldLocal(h, Le16(next), 12, 0, 2);
  }

  lemma AdthRead(h: seq<u8>, channel: nat, length: nat)
    requires h == Header(false, ADTH, 0, length, channel, 0) && length < 65536
    ensures h[..4] == ADTH && U16(h, 4) == length
  {
    Le16Inverse(length);
    assert h[4..6] == Le16(length)[0..2];
    FieldLocal(h, Le16(length), 4, 0, 2);
  }

  lemma ReadableLocated(page: seq<u8>, body: seq<u8>, table: seq<u8>, count: nat, a: nat, wide: bool)
    requires Readable(page, body, table, a) && Linked(page, a, wide) && |table| == BOUND * count
    ensures Locate(page, wide) == Table(a + NEXT_HEADER + 4, count)
  {
    assert ADBH[1] == 0x44 && ACBH[1] == 0x43;
  }

  /** Entry `i` of the table is `b` and cuts `want` out of the body. */
  ghost predicate CellAt(body: seq<u8>, table: seq<u8>, i: nat, b: Bound, want: seq<u8>) {
    && BOUND * (i + 1) <= |table| && BoundAt(table, 0, i) == b
    && FIRST_HEADER <= b.offset && b.offset - FIRST_HEADER + b.length <= |body|
    && body[b.offset - FIRST_HEADER..b.offset - FIRST_HEADER + b.length] == want
  }

  ghost predicate Cells(body: seq<u8>, table: seq<u8>, bs: seq<Bound>, cells: seq<seq<u8>>) {
    |cells| == |bs| && forall i :: 0 <= i < |bs| ==> CellAt(body, table, i, bs[i], cells[i])
  }

  /** The table the builder writes cuts the body into the packets, each behind its 16 zero bytes. */
  lemma CellsOfPackets(ps: seq<Packet>)
    requires BodyLen(ps) < 65536
    ensures Cells(Body(ps), BoundsBytes(BoundsOf(ps)), BoundsOf(ps), Framed(ps))
  {
    forall i | 0 <= i < |ps|
      ensures CellAt(Body(ps), BoundsBytes(BoundsOf(ps)), i, BoundsOf(ps)[i], Framed(ps)[i])
    {
      BodySlice(ps, i);
      TableEntry(BoundsOf(ps), i);
    }
  }

  /** The decoders find the same cell on the page. */
  lemma EntryOf(page: seq<u8>, body: seq<u8>, table: seq<u8>, a: nat, i: nat, b: Bound, want: seq<u8>)
    requires Readable(page, body, table, a) && CellAt(body, table, i, b, want)
    ensures BoundAt(page, a + NEXT_HEADER + 4, i) == b && InPage(page, b) && Slice(page, b) == want
  {
    SubSlice(page, a + NEXT_HEADER + 4, table, BOUND * i, 8);
    EntryLocal(page, table, a + NEXT_HEADER + 4 + BOUND * i, BOUND * i);
    SubSlice(page, FIRST_HEADER, body, b.offset - FIRST_HEADER, b.length);
  }

  lemma SubSlice(page: seq<u8>, at: nat, s: seq<u8>, from: nat, len: nat)
    requires at + |s| <= |page| && page[at..at + |s|] == s && from + len <= |s|
    ensures page[at + from..at + from + len] == s[from..from + len]
  {
    assert page == page[..at] + s + page[at + |s|..];
    SliceInside(page[..at], s, page[at + |s|..], from, len);
  }

  lemma {:induction false} SlicesRead(page: seq<u8>, body: seq<u8>, table: seq<u8>, a: nat, bs: seq<Bound>,
                                      cells: seq<seq<u8>>, i: nat)
    requires Readable(page, body, table, a) && Cells(body, table, bs, cells) && |table| == BOUND * |bs| && i <= |bs|
    ensures Slices(page, a + NEXT_HEADER + 4, |bs|, i) == Some(cells[i..])
    decreases |bs| - i
  {
    if i < |bs| {
      EntryOf(page, body, table, a, i, bs[i], cells[i]);
      SlicesRead(page, body, table, a, bs, cells, i + 1);
      assert cells[i..] == [cells[i]] + cells[i + 1..];
    } else {
      assert cells[i..] == [];
    }
  }

  /** Both decoders, on any page that starts with a laid-out frame, give back its packets in order. */
  lemma LayoutDecodes(sequence: nat, channel: nat, ps: seq<Packet>, pad: seq<u8>, page: seq<u8>, wide: bool)
    requires Layout(sequence, channel, ps, pad) <= page && |Layout(sequence, channel, ps, pad)| < 65536
    ensures Unmux(page, wide) == Some(Framed(ps))
  {
    LayoutBytesDecode(sequence, channel, ps, pad, page, wide, Layout(sequence, channel, ps, pad));
  }

  lemma LayoutBytesDecode(sequence: nat, channel: nat, ps: seq<Packet>, pad: seq<u8>, page: seq<u8>, wide: bool,
                          bytes: seq<u8>)
    requires bytes == TwoTags(sequence, channel, Body(ps), pad, BoundsBytes(BoundsOf(ps)))
    requires bytes <= page && |bytes| < 65536
    ensures Unmux(page, wide) == Some(Framed(ps))
  {
    TwoTagsFound(sequence, channel, Body(ps), pad, BoundsBytes(BoundsOf(ps)), page, bytes);
    ReadableDecodes(page, ps, FIRST_HEADER + |Body(ps)| + |pad|, wide);
  }

  lemma TwoTagsFound(sequence: nat, channel: nat, tail: seq<u8>, pad: seq<u8>, table: seq<u8>, page: seq<u8>,
                     bytes: seq<u8>)
    requires bytes == TwoTags(sequence, channel, tail, pad, table) && bytes <= page && |bytes| < 65536
    ensures var a := FIRST_HEADER + |tail| + |pad|;
            Readable(page, tail, table, a) && Linked(page, a, false) && Linked(page, a, true)
  {
    TwoTagsReadable(sequence, channel, tail, pad, table, page);
  }

  lemma ReadableDecodes(page: seq<u8>, ps: seq<Packet>, a: nat, wide: bool)
    requires Readable(page, Body(ps), BoundsBytes(BoundsOf(ps)), a) && Linked(page, a, wide)
    ensures Unmux(page, wide) == Some(Framed(ps))
  {
    CellsOfPackets(ps);
    CellsDecode(page, Body(ps), BoundsBytes(BoundsOf(ps)), a, BoundsOf(ps), Framed(ps), wide);
  }

  lemma CellsDecode(page: seq<u8>, body: seq<u8>, table: seq<u8>, a: nat, bs: seq<Bound>, cells: seq<seq<u8>>,
                    wide: bool)
    requires Readable(page, body, table, a) && Cells(body, table, bs, cells) && |table| == BOUND * |bs|
    requires Linked(page, a, wide)
    ensures Unmux(page, wide) == Some(cells)
  {
    CellsLocated(page, body, table, a, bs, cells, wide);
    UnmuxTable(page, wide, a + NEXT_HEADER + 4, |bs|);
  }

  /** The table of a frame on a page is found, and its slices are the frame's cells. */
  lemma CellsLocated(page: seq<u8>, body: seq<u8>, table: seq<u8>, a: nat, bs: seq<Bound>, cells: seq<seq<u8>>,
                     wide: bool)
    requires Readable(page, body, table, a) && Cells(body, table, bs, cells) && |table| == BOUND * |bs|
    requires Linked(page, a, wide)
    ensures var at := a + NEXT_HEADER + 4;
            && Locate(page, wide) == Table(at, |bs|) && at + BOUND * |bs| <= |page|
            && Slices(page, at, |bs|, 0) == Some(cells)
  {
    ReadableLocated(page, body, table, |bs|, a, wide);
    CellsSlices(page, body, table, a, bs, cells);
  }

  lemma CellsSlices(page: seq<u8>, body: seq<u8>, table: seq<u8>, a: nat, bs: seq<Bound>, cells: seq<seq<u8>>)
    requires Readable(page, body, table, a) && Cells(body, table, bs, cells) && |table| == BOUND * |bs|
    ensures Slices(page, a + NEXT_HEADER + 4, |bs|, 0) == Some(cells)
  {
    SlicesRead(page, body, table, a, bs, cells, 0);
    assert cells[0..] == cells;
  }

  lemma UnmuxTable(page: seq<u8>, wide: bool, at: nat, count: nat)
    requires Locate(page, wide) == Table(at, count)
    ensures Unmux(page, wide) == Slices(page, at, count, 0)
  {
  }

  /** Frame round trip: what the builder completes, the decoders take apart again. */
  lemma FrameRoundTrip(f: Frame, ps: seq<Packet>, channel: nat, page: seq<u8>, wide: bool)
    requires Holds(f, ps) && AdthFits(f)
    requires Completed(AppendAdth(f, channel).0) <= page
    ensures Unmux(page, wide) == Some(Framed(ps))
  {
    AdthLayout(f, ps, channel);
    LayoutDecodes(f.sequence, channel, ps, Padding(f), page, wide);
  }

  /** The kernel's own receive path would take none of the packets the kernel sends: each starts with a zero byte. */
  lemma TransmittedIsNotReceived(f: Frame, ps: seq<Packet>, channel: nat, page: seq<u8>)
    requires Holds(f, ps) && ps != [] && AdthFits(f)
    requires Completed(AppendAdth(f, channel).0) <= page
    ensures Locate(page, false).Table?
    ensures Scan(page, Locate(page, false).at, Locate(page, false).count, 0) == ([], NotIp)
  {
    AdthLayout(f, ps, channel);
    LayoutNotReceived(f.sequence, channel, ps, Padding(f), page);
  }

  lemma LayoutNotReceived(sequence: nat, channel: nat, ps: seq<Packet>, pad: seq<u8>, page: seq<u8>)
    requires Layout(sequence, channel, ps, pad) <= page && |Layout(sequence, channel, ps, pad)| < 65536 && ps != []
    ensures Locate(page, false).Table?
    ensures Scan(page, Locate(page, false).at, Locate(page, false).count, 0) == ([], NotIp)
  {
    TwoTagsFound(sequence, channel, Body(ps), pad, BoundsBytes(BoundsOf(ps)), page, Layout(sequence, channel, ps, pad));
    ReadableNotReceived(page, ps, FIRST_HEADER + |Body(ps)| + |pad|);
  }

  lemma ReadableNotReceived(page: seq<u8>, ps: seq<Packet>, a: nat)
    requires Readable(page, Body(ps), BoundsBytes(BoundsOf(ps)), a) && Linked(page, a, false) && ps != []
    ensures Locate(page, false).Table?
    ensures Scan(page, Locate(page, false).at, Locate(page, false).count, 0) == ([], NotIp)
  {
    CellsOfPackets(ps);
    ZerosFirst(ps);
    CellsStop(page, Body(ps), BoundsBytes(BoundsOf(ps)), a, BoundsOf(ps), Framed(ps));
  }

  lemma CellsStop(page: seq<u8>, body: seq<u8>, table: seq<u8>, a: nat, bs: seq<Bound>, cells: seq<seq<u8>>)
    requires Readable(page, body, table, a) && Cells(body, table, bs, cells) && |table| == BOUND * |bs|
    requires Linked(page, a, false) && cells != [] && Foreign(cells, 0)
    ensures Locate(page, false).Table?
    ensures Scan(page, Locate(page, false).at, Locate(page, false).count, 0) == ([], NotIp)
  {
    CellsLocated(page, body, table, a, bs, cells, false);
    LocatedStops(page, a + NEXT_HEADER + 4, |bs|, cells);
  }

  lemma LocatedStops(page: seq<u8>, at: nat, count: nat, cells: seq<Packet>)
    requires Locate(page, false) == Table(at, count) && at + BOUND * count <= |page|
    requires Slices(page, at, count, 0) == Some(cells) && cells != [] && Foreign(cells, 0)
    ensures Locate(page, false).Table?
    ensures Scan(page, Locate(page, false).at, Locate(page, false).count, 0) == ([], NotIp)
  {
    KernelReceives(page, at, count, 0);
  }

  lemma ZerosFirst(ps: seq<Packet>)
    requires ps != []
    ensures Framed(ps) != [] && Foreign(Framed(ps), 0)
  {
    assert Framed(ps)[0] == Zeros(16) + ps[0];
  }

  // ---- Streams of frames ----

  /** The packets in a transmitted frame; a control frame carries none. */
  function Payload(bytes: seq<u8>): seq<Packet> {
    if Unmux(bytes, false).Some? then Unmux(bytes, false).value else []
  }

  lemma ControlPayload(bytes: seq<u8>)
    requires |bytes| >= FIRST_HEADER && bytes[..4] == ACBH
    ensures Locate(bytes, false) == Control && Payload(bytes) == []
  {
  }

  function Payloads(frames: seq<seq<u8>>): seq<Packet> {
    if frames == [] then [] else Payload(frames[0]) + Payloads(frames[1..])
  }

  lemma {:induction false} PayloadsAppend(a: seq<seq<u8>>, b: seq<seq<u8>>)
    ensures Payloads(a + b) == Payloads(a) + Payloads(b)
  {
    if a == [] {
      assert a + b == b;
    } else {
      assert (a + b)[1..] == a[1..] + b;
      PayloadsAppend(a[1..], b);
    }
  }

  lemma PayloadsSnoc(a: seq<seq<u8>>, last: seq<u8>)
    ensures Payloads(a + [last]) == Payloads(a) + Payload(last)
  {
    PayloadsAppend(a, [last]);
    assert Payloads([last]) == Payload(last) + Payloads([]);
  }

  lemma FramedAppend(a: seq<Packet>, b: seq<Packet>)
    ensures Framed(a + b) == Framed(a) + Framed(b)
  {
  }
}
