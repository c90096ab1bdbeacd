/** The trace deframer (trace.py): cutting a chunked byte stream at flags and undoing the byte stuffing. */
module Trace {
  import opened Bytes

  const FLAG: u8 := 0x7e
  const ESCAPE: u8 := 0x7d

  predicate Bit5(b: u8) {
    b / 32 % 2 == 1
  }

  /** `b | (1 << 5)`, as trace.py undoes an escape. */
  function SetBit5(b: u8): u8 {
    if Bit5(b) then b else b + 32
  }

  /** `b ^ 0x20`, as section 4.2 of RFC 1662 stuffs an octet. */
  function FlipBit5(b: u8): u8 {
    if Bit5(b) then b - 32 else b + 32
  }

  /** `unescape`; `None` where `next` raises `StopIteration` after a trailing escape. */
  function Unescape(s: seq<u8>): (r: Option<seq<u8>>)
    decreases |s|
  {
    if s == [] then Some([])
    else if s[0] == ESCAPE then
      if |s| == 1 then None else Prefixed([SetBit5(s[1])], Unescape(s[2..]))
    else Prefixed([s[0]], Unescape(s[1..]))
  }

  function Prefixed(a: seq<u8>, r: Option<seq<u8>>): Option<seq<u8>> {
    if r.None? then None else Some(a + r.value)
  }

  /** How many escape octets the packet ends with. */
  function TrailingEscapes(s: seq<u8>): (n: nat)
    ensures n <= |s|
    decreases |s|
  {
    if s == [] || s[|s| - 1] != ESCAPE then 0 else 1 + TrailingEscapes(s[..|s| - 1])
  }

  /** `unescape` raises exactly on a packet whose last octet is an escape that is not escaped itself. */
  lemma {:induction false} RaisesIff(s: seq<u8>)
    ensures Unescape(s).None? <==> TrailingEscapes(s) % 2 == 1
    decreases |s|
  {
    if s != [] {
      var k := if s[0] == ESCAPE then 2 else 1;
      if k <= |s| {
        RaisesIff(s[k..]);
        TrailingBehind(s, k);
      }
    }
  }

  /** Escapes at the end, seen from behind one octet that is none or behind a pair. */
  lemma {:induction false} TrailingBehind(s: seq<u8>, k: nat)
    requires (k == 1 <= |s| && s[0] != ESCAPE) || (k == 2 <= |s| && s[0] == ESCAPE)
    ensures TrailingEscapes(s) % 2 == TrailingEscapes(s[k..]) % 2
    decreases |s|
  {
    var n := |s| - 1;
    if n >= k {
      assert s[k..][..n - k] == s[..n][k..];
      TrailingBehind(s[..n], k);
    } else if k == 2 {
      assert s[..n] == [s[0]] && s[..n][..0] == [];
    }
  }

  /** Without an escape the packet comes out as it is. */
  lemma {:induction false} PlainStays(s: seq<u8>)
    requires ESCAPE !in s
    ensures Unescape(s) == Some(s)
  {
    if s != [] {
      assert s[0] != ESCAPE && ESCAPE !in s[1..];
      PlainStays(s[1..]);
      assert s == [s[0]] + s[1..];
    }
  }

  method UnescapePacket(packet: seq<u8>) returns (out: Option<seq<u8>>)
    ensures out == Unescape(packet)
  {
    var bytes: seq<u8> := [];
    var i := 0;
    assert packet[0..] == packet;
    assert Prefixed([], Unescape(packet)) == Unescape(packet) by {
      if Unescape(packet).Some? { assert [] + Unescape(packet).value == Unescape(packet).value; }
    }
    while i < |packet|
      invariant i <= |packet| && Prefixed(bytes, Unescape(packet[i..])) == Unescape(packet)
    {
      var ch := packet[i];
      ghost var rest := packet[i..];
      i := i + 1;
      if ch == ESCAPE {
        if i == |packet| { return None; }
        ch := SetBit5(packet[i]);
        i := i + 1;
        assert rest[2..] == packet[i..];
      } else {
        assert rest[1..] == packet[i..];
      }
      PrefixedTwice(bytes, [ch], Unescape(packet[i..]));
      bytes := bytes + [ch];
    }
    assert packet[i..] == [] && bytes + [] == bytes;
    out := Some(bytes);
  }

  lemma PrefixedTwice(a: seq<u8>, b: seq<u8>, r: Option<seq<u8>>)
    ensures Prefixed(a, Prefixed(b, r)) == Prefixed(a + b, r)
  {
    if r.Some? { Assoc(a, b, r.value); }
  }

  // ---- Octet stuffing (section 4.2 of RFC 1662) ----

  /** Stuffs every octet of `escaped`. */
  function Stuff(p: seq<u8>, escaped: set<u8>): seq<u8> {
    if p == [] then [] else (if p[0] in escaped then [ESCAPE, FlipBit5(p[0])] else [p[0]]) + Stuff(p[1..], escaped)
  }

  lemma {:induction false} StuffInverse(p: seq<u8>, escaped: set<u8>)
    requires ESCAPE in escaped && forall b :: b in escaped ==> Bit5(b)
    ensures Unescape(Stuff(p, escaped)) == Some(p)
  {
    if p != [] {
      StuffInverse(p[1..], escaped);
      var s, rest := Stuff(p, escaped), Stuff(p[1..], escaped);
      assert p == [p[0]] + p[1..];
      if p[0] in escaped {
        assert s[2..] == rest && SetBit5(FlipBit5(p[0])) == p[0];
      } else {
        assert s[1..] == rest;
      }
    }
  }

  /** The OR of the code undoes the XOR of the RFC exactly for escape sets whose octets all have bit 5 set. */
  lemma StuffInverseIff(escaped: set<u8>)
    requires ESCAPE in escaped
    ensures (forall p :: Unescape(Stuff(p, escaped)) == Some(p)) <==> (forall b :: b in escaped ==> Bit5(b))
  {
    if forall b :: b in escaped ==> Bit5(b) {
      forall p
        ensures Unescape(Stuff(p, escaped)) == Some(p)
      {
        StuffInverse(p, escaped);
      }
    } else {
      var b :| b in escaped && !Bit5(b);
      EscapedControl(b, escaped);
      assert Unescape(Stuff([b], escaped)) != Some([b]);
    }
  }

  lemma EscapedControl(b: u8, escaped: set<u8>)
    requires b in escaped && !Bit5(b)
    ensures Unescape(Stuff([b], escaped)) == Some([b + 32])
  {
    var s := Stuff([b], escaped);
    var none: seq<u8> := [];
    assert [b][1..] == none;
    assert Stuff(none, escaped) == none;
    assert s == [ESCAPE, FlipBit5(b)];
    assert s[2..] == none;
    assert SetBit5(FlipBit5(b)) == b + 32;
    assert [s[1]] + none == [s[1]];
  }

  // ---- Cutting at flags: one octet at a time ----

  /** Before the first flag, or inside a frame with the octets since the last flag. */
  datatype Scan = Hunting | Inside(octets: seq<u8>)

  /** The reference deframer: the state and the raw segments after one more octet. */
  function ScanOctet(st: Scan, b: u8): (Scan, seq<seq<u8>>) {
    match st
    case Hunting => (if b == FLAG then Inside([]) else Hunting, [])
    case Inside(octets) =>
      if b != FLAG then (Inside(octets + [b]), [])
      else (Inside([]), if octets == [] then [] else [octets])
  }

  function ScanAll(st: Scan, s: seq<u8>): (Scan, seq<seq<u8>>)
    decreases s
  {
    if s == [] then (st, []) else
    var (st1, segs1) := ScanOctet(st, s[0]);
    var (st2, segs2) := ScanAll(st1, s[1..]);
    (st2, segs1 + segs2)
  }

  lemma {:induction false} ScanConcat(st: Scan, a: seq<u8>, b: seq<u8>)
    ensures var (st1, segs1) := ScanAll(st, a);
            var (st2, segs2) := ScanAll(st1, b);
            ScanAll(st, a + b) == (st2, segs1 + segs2)
    decreases |a|
  {
    if a == [] {
      assert a + b == b;
      assert [] + ScanAll(st, b).1 == ScanAll(st, b).1;
    } else {
      assert (a + b)[1..] == a[1..] + b;
      var (st1, segs1) := ScanOctet(st, a[0]);
      ScanConcat(st1, a[1..], b);
      var (st2, segs2) := ScanAll(st1, a[1..]);
      Assoc(segs1, segs2, ScanAll(st2, b).1);
    }
  }

  // ---- Cutting at flags: what trace.py does with each chunk ----

  /** `buf.find(b'\x7e', from)`, or the length when there is none. */
  function Find(s: seq<u8>, from: nat): (i: nat)
    requires from <= |s|
    ensures from <= i <= |s| && (forall k :: from <= k < i ==> s[k] != FLAG) && (i < |s| ==> s[i] == FLAG)
    decreases |s| - from
  {
    if from == |s| || s[from] == FLAG then from else Find(s, from + 1)
  }

  /** The inner loop on a buffer that starts with a flag: the segments cut and the buffer left. */
  function CutLoop(buf: seq<u8>): (res: (seq<seq<u8>>, seq<u8>))
    requires buf != [] && buf[0] == FLAG
    ensures res.1 != [] && res.1[0] == FLAG && Find(res.1, 1) == |res.1|
    decreases |buf|
  {
    var end := Find(buf, 1);
    if end == |buf| then ([], buf) else
    var (segs, rest) := CutLoop(buf[end..]);
    ((if end == 1 then [] else [buf[1..end]]) + segs, rest)
  }

  /** One turn of the outer loop. */
  function CutChunk(buf: seq<u8>, chunk: seq<u8>): (seq<seq<u8>>, seq<u8>) {
    var all := buf + chunk;
    var start := Find(all, 0);
    if start == |all| then ([], []) else CutLoop(all[start..])
  }

  /** The buffer kept between chunks is empty, or starts with a flag and holds no other. */
  predicate BufferOk(buf: seq<u8>) {
    buf == [] || (buf[0] == FLAG && FLAG !in buf[1..])
  }

  /** What the buffer stands for in the reference deframer. */
  function StateOf(buf: seq<u8>): Scan
    requires BufferOk(buf)
  {
    if buf == [] then Hunting else Inside(buf[1..])
  }

  lemma NoneThen<T>(s: seq<T>)
    ensures [] + s == s
  {
  }

  lemma {:induction false} ScanNoFlag(octets: seq<u8>, s: seq<u8>)
    requires FLAG !in s
    ensures ScanAll(Inside(octets), s) == (Inside(octets + s), [])
    decreases |s|
  {
    if s == [] {
      assert octets + s == octets;
    } else {
      assert s[0] != FLAG && FLAG !in s[1..];
      ScanNoFlag(octets + [s[0]], s[1..]);
      assert octets + [s[0]] + s[1..] == octets + s;
      NoneThen(ScanAll(Inside(octets + [s[0]]), s[1..]).1);
    }
  }

  lemma {:induction false} ScanHunting(s: seq<u8>)
    requires FLAG !in s
    ensures ScanAll(Hunting, s) == (Hunting, [])
    decreases |s|
  {
    if s != [] {
      assert s[0] != FLAG && FLAG !in s[1..];
      ScanHunting(s[1..]);
      NoneThen(ScanAll(Hunting, s[1..]).1);
    }
  }

  /** The inner loop cuts exactly what the reference deframer cuts from the octets after the first flag. */
  lemma {:induction false} CutLoopScans(buf: seq<u8>)
    requires buf != [] && buf[0] == FLAG
    ensures var (segs, rest) := CutLoop(buf);
            BufferOk(rest) && ScanAll(Inside([]), buf[1..]) == (StateOf(rest), segs)
    decreases |buf|
  {
    var end := Find(buf, 1);
    var head, tail := buf[1..end], buf[end..];
    assert [] + head == head;
    ScanNoFlag([], head);
    if end == |buf| {
      assert buf[1..] == head;
    } else {
      assert buf[1..] == head + tail && tail[0] == FLAG;
      ScanConcat(Inside([]), head, tail);
      CutLoopScans(tail);
      assert [] + ScanAll(Inside(head), tail).1 == ScanAll(Inside(head), tail).1;
    }
  }

  /**
   * One chunk, whatever the buffer holds: the reference deframer's segments, and a buffer that
   * stands for its state.
   */
  lemma ChunkScans(buf: seq<u8>, chunk: seq<u8>)
    requires BufferOk(buf)
    ensures var (segs, buf') := CutChunk(buf, chunk);
            BufferOk(buf') && ScanAll(StateOf(buf), chunk) == (StateOf(buf'), segs)
  {
    var all := buf + chunk;
    var start := Find(all, 0);
    if buf != [] {
      assert start == 0 && all[0..] == all;
      CutLoopScans(all);
      assert all[1..] == buf[1..] + chunk;
      assert [] + buf[1..] == buf[1..];
      ScanNoFlag([], buf[1..]);
      ScanConcat(Inside([]), buf[1..], chunk);
      assert [] + ScanAll(Inside(buf[1..]), chunk).1 == ScanAll(Inside(buf[1..]), chunk).1;
    } else {
      assert all == chunk;
      ScanHunting(chunk[..start]);
      assert chunk == chunk[..start] + chunk[start..];
      ScanConcat(Hunting, chunk[..start], chunk[start..]);
      assert [] + ScanAll(Hunting, chunk[start..]).1 == ScanAll(Hunting, chunk[start..]).1;
      if start < |chunk| {
        CutLoopScans(chunk[start..]);
        var s := chunk[start..];
        assert [] + ScanAll(Inside([]), s[1..]).1 == ScanAll(Inside([]), s[1..]).1;
      }
    }
  }

  /** The reads up to the first empty one, which ends the outer loop. */
  function UpToEnd(chunks: seq<seq<u8>>): (r: seq<seq<u8>>)
    ensures [] !in chunks ==> r == chunks
  {
    if chunks == [] || chunks[0] == [] then [] else [chunks[0]] + UpToEnd(chunks[1..])
  }

  /** The octets read before the end of the input. */
  function Stream(chunks: seq<seq<u8>>): seq<u8> {
    Concat(UpToEnd(chunks))
  }

  lemma StreamFirst(chunks: seq<seq<u8>>)
    ensures Stream(chunks) == if chunks == [] || chunks[0] == [] then [] else chunks[0] + Stream(chunks[1..])
  {
    if chunks != [] && chunks[0] != [] { assert UpToEnd(chunks)[1..] == UpToEnd(chunks[1..]); }
  }

  /** The segments cut from a list of reads, and the buffer left at the end. */
  function CutAll(buf: seq<u8>, chunks: seq<seq<u8>>): (seq<seq<u8>>, seq<u8>)
    decreases chunks
  {
    if chunks == [] || chunks[0] == [] then ([], buf) else
    var (segs, buf') := CutChunk(buf, chunks[0]);
    var (more, last) := CutAll(buf', chunks[1..]);
    (segs + more, last)
  }

  lemma {:induction false} CutAllScans(buf: seq<u8>, chunks: seq<seq<u8>>)
    requires BufferOk(buf)
    ensures var (segs, last) := CutAll(buf, chunks);
            BufferOk(last) && ScanAll(StateOf(buf), Stream(chunks)) == (StateOf(last), segs)
    decreases |chunks|
  {
    StreamFirst(chunks);
    if chunks != [] && chunks[0] != [] {
      ChunkScans(buf, chunks[0]);
      CutAllScans(CutChunk(buf, chunks[0]).1, chunks[1..]);
      ScanConcat(StateOf(buf), chunks[0], Stream(chunks[1..]));
    }
  }

  /** For any octets, even malformed: segments and final buffer depend only on the stream, not on how it was read. */
  lemma ChunkIndependence(chunks: seq<seq<u8>>, others: seq<seq<u8>>)
    requires Stream(chunks) == Stream(others)
    ensures CutAll([], chunks) == CutAll([], others)
  {
    CutAllScans([], chunks);
    CutAllScans([], others);
    SameBuffer(CutAll([], chunks).1, CutAll([], others).1);
  }

  lemma SameBuffer(a: seq<u8>, b: seq<u8>)
    requires BufferOk(a) && BufferOk(b) && StateOf(a) == StateOf(b)
    ensures a == b
  {
    if a != [] { assert a == [FLAG] + a[1..] && b == [FLAG] + b[1..]; }
  }

  // ---- Handing segments over ----

  /** The arguments `handle_packet` is called with, and whether the process died: `unescape` raises on a trailing
      escape, and `handle_packet` on a packet of fewer than two octets. */
  function Deliver(segs: seq<seq<u8>>): (seq<seq<u8>>, bool) {
    if segs == [] then ([], false)
    else if Unescape(segs[0]).None? then ([], true)
    else
      var p := Unescape(segs[0]).value;
      if |p| < 2 then ([p], true) else
      var (rest, died) := Deliver(segs[1..]);
      ([p] + rest, died)
  }

  /** The process survives this segment. */
  predicate Survives(seg: seq<u8>) {
    Unescape(seg).Some? && |Unescape(seg).value| >= 2
  }

  function AllUnescaped(segs: seq<seq<u8>>): (ps: seq<seq<u8>>)
    requires forall seg :: seg in segs ==> Survives(seg)
    ensures |ps| == |segs| && forall i :: 0 <= i < |segs| ==> Some(ps[i]) == Unescape(segs[i])
  {
    if segs == [] then [] else
    assert segs[0] in segs && Survives(segs[0]);
    [Unescape(segs[0]).value] + AllUnescaped(segs[1..])
  }

  /** Every segment is handed over while the process survives them. */
  lemma {:induction false} DeliverAll(segs: seq<seq<u8>>)
    requires forall seg :: seg in segs ==> Survives(seg)
    ensures Deliver(segs) == (AllUnescaped(segs), false)
  {
    if segs != [] {
      assert segs[0] in segs;
      DeliverAll(segs[1..]);
    }
  }

  /**
   * The first segment it does not survive is the last: it is handed over if it is unescaped to
   * fewer than two octets, and not if it ends inside an escape; none behind it is.
   */
  lemma DeliverDies(segs: seq<seq<u8>>, seg: seq<u8>, more: seq<seq<u8>>)
    requires (forall s :: s in segs ==> Survives(s)) && !Survives(seg)
    ensures Deliver(segs + ([seg] + more))
            == (AllUnescaped(segs) + if Unescape(seg).None? then [] else [Unescape(seg).value], true)
  {
    DeliverAll(segs);
    DeliverConcat(segs, [seg] + more);
  }

  lemma {:induction false} DeliverConcat(a: seq<seq<u8>>, b: seq<seq<u8>>)
    ensures Deliver(a + b) == if Deliver(a).1 then Deliver(a) else (Deliver(a).0 + Deliver(b).0, Deliver(b).1)
    decreases |a|
  {
    if a == [] {
      assert a + b == b;
      assert [] + Deliver(b).0 == Deliver(b).0;
    } else {
      assert (a + b)[1..] == a[1..] + b;
      DeliverConcat(a[1..], b);
      if Unescape(a[0]).Some? {
        Assoc([Unescape(a[0]).value], Deliver(a[1..]).0, Deliver(b).0);
      }
    }
  }

  /** The deframer process: the buffer, the packets handed over, whether it died and whether its input ended. */
  datatype Process = Process(buf: seq<u8>, handled: seq<seq<u8>>, died: bool, ended: bool)

  const START := Process([], [], false, false)

  /** One read: an empty one ends the process. */
  function Feed(s: Process, chunk: seq<u8>): Process {
    if s.died || s.ended then s
    else if chunk == [] then s.(ended := true)
    else
      var (segs, buf') := CutChunk(s.buf, chunk);
      var (delivered, died) := Deliver(segs);
      s.(buf := if died then s.buf else buf', handled := s.handled + delivered, died := died)
  }

  function FeedAll(s: Process, chunks: seq<seq<u8>>): Process
    decreases chunks
  {
    if chunks == [] then s else FeedAll(Feed(s, chunks[0]), chunks[1..])
  }

  lemma {:induction false} FeedAllDelivers(s: Process, chunks: seq<seq<u8>>)
    requires BufferOk(s.buf) && !s.died && !s.ended
    ensures var segs := ScanAll(StateOf(s.buf), Stream(chunks)).1;
            FeedAll(s, chunks).handled == s.handled + Deliver(segs).0 && FeedAll(s, chunks).died == Deliver(segs).1
    decreases |chunks|
  {
    StreamFirst(chunks);
    if chunks == [] || chunks[0] == [] {
      assert s.handled + [] == s.handled;
      if chunks != [] { StaysOver(s.(ended := true), chunks[1..]); }
    } else {
      var (segs1, buf') := CutChunk(s.buf, chunks[0]);
      ChunkScans(s.buf, chunks[0]);
      ScanConcat(StateOf(s.buf), chunks[0], Stream(chunks[1..]));
      var segs2 := ScanAll(StateOf(buf'), Stream(chunks[1..])).1;
      DeliverConcat(segs1, segs2);
      if Deliver(segs1).1 {
        StaysOver(Feed(s, chunks[0]), chunks[1..]);
      } else {
        FeedAllDelivers(Feed(s, chunks[0]), chunks[1..]);
        Assoc(s.handled, Deliver(segs1).0, Deliver(segs2).0);
      }
    }
  }

  lemma {:induction false} StaysOver(s: Process, chunks: seq<seq<u8>>)
    requires s.died || s.ended
    ensures FeedAll(s, chunks) == s
    decreases |chunks|
  {
    if chunks != [] { StaysOver(s, chunks[1..]); }
  }

  // ---- End to end ----

  const ESCAPED: set<u8> := {ESCAPE, FLAG}

  /** The sender: a flag, then every packet stuffed and followed by a flag. */
  function SendAll(ps: seq<seq<u8>>): seq<u8> {
    if ps == [] then [] else Stuff(ps[0], ESCAPED) + [FLAG] + SendAll(ps[1..])
  }

  function Stuffed(ps: seq<seq<u8>>): (segs: seq<seq<u8>>)
    ensures |segs| == |ps|
  {
    if ps == [] then [] else [Stuff(ps[0], ESCAPED)] + Stuffed(ps[1..])
  }

  lemma {:induction false} StuffedHasNoFlag(p: seq<u8>)
    ensures FLAG !in Stuff(p, ESCAPED) && (p != [] ==> Stuff(p, ESCAPED) != [])
  {
    if p != [] {
      StuffedHasNoFlag(p[1..]);
      assert FlipBit5(ESCAPE) == 0x5d && FlipBit5(FLAG) == 0x5e;
    }
  }

  lemma {:induction false} SentSegments(ps: seq<seq<u8>>)
    requires forall i :: 0 <= i < |ps| ==> ps[i] != []
    ensures ScanAll(Inside([]), SendAll(ps)) == (Inside([]), Stuffed(ps))
    decreases |ps|
  {
    if ps != [] {
      var p := Stuff(ps[0], ESCAPED);
      StuffedHasNoFlag(ps[0]);
      ScanNoFlag([], p);
      assert [] + p == p;
      OneFlag(p);
      ScanConcat(Inside([]), p, [FLAG]);
      assert [] + [p] == [p];
      SentSegments(ps[1..]);
      ScanConcat(Inside([]), p + [FLAG], SendAll(ps[1..]));
    }
  }

  lemma OneFlag(p: seq<u8>)
    requires p != []
    ensures ScanAll(Inside(p), [FLAG]) == (Inside([]), [p])
  {
    var none: seq<u8> := [];
    assert [FLAG][1..] == none;
    assert ScanAll(Inside([]), none) == (Inside([]), []);
    assert [p] + [] == [p];
  }

  /** The packets up to and including the first of a single octet, on which `handle_packet` raises. */
  function UpToShort(ps: seq<seq<u8>>): seq<seq<u8>> {
    if ps == [] then [] else if |ps[0]| < 2 then [ps[0]] else [ps[0]] + UpToShort(ps[1..])
  }

  predicate HasShort(ps: seq<seq<u8>>) {
    exists i :: 0 <= i < |ps| && |ps[i]| < 2
  }

  lemma {:induction false} DeliverStuffed(ps: seq<seq<u8>>)
    ensures Deliver(Stuffed(ps)) == (UpToShort(ps), HasShort(ps))
    decreases |ps|
  {
    if ps != [] {
      assert Bit5(ESCAPE) && Bit5(FLAG);
      StuffInverse(ps[0], ESCAPED);
      DeliverStuffed(ps[1..]);
      assert HasShort(ps[1..]) ==> HasShort(ps) by {
        if HasShort(ps[1..]) {
          var i :| 0 <= i < |ps[1..]| && |ps[1..][i]| < 2;
          assert |ps[i + 1]| < 2;
        }
      }
      assert |ps[0]| >= 2 && HasShort(ps) ==> HasShort(ps[1..]) by {
        if |ps[0]| >= 2 && HasShort(ps) {
          var i :| 0 <= i < |ps| && |ps[i]| < 2;
          assert |ps[1..][i - 1]| < 2;
        }
      }
    }
  }

  /**
   * Any list of nonempty packets, stuffed and separated by flags, after any noise without
   * a flag, cut into any reads: the process hands over exactly these packets in order,
   * and dies exactly when one of them is a single octet, right after handing that one over.
   */
  lemma EndToEnd(noise: seq<u8>, ps: seq<seq<u8>>, chunks: seq<seq<u8>>)
    requires FLAG !in noise && (forall i :: 0 <= i < |ps| ==> ps[i] != [])
    requires Stream(chunks) == noise + ([FLAG] + SendAll(ps))
    ensures FeedAll(START, chunks).handled == UpToShort(ps)
    ensures FeedAll(START, chunks).died == HasShort(ps)
  {
    FeedAllDelivers(START, chunks);
    ScanHunting(noise);
    ScanConcat(Hunting, noise, [FLAG] + SendAll(ps));
    assert ([FLAG] + SendAll(ps))[1..] == SendAll(ps);
    SentSegments(ps);
    DeliverStuffed(ps);
    var segs := ScanAll(Hunting, [FLAG] + SendAll(ps)).1;
    assert segs == [] + Stuffed(ps) == Stuffed(ps);
    assert [] + segs == segs;
    assert [] + UpToShort(ps) == UpToShort(ps);
  }

  /** With no single-octet packet, everything is delivered. */
  lemma {:induction false} UpToShortAll(ps: seq<seq<u8>>)
    requires forall i :: 0 <= i < |ps| ==> |ps[i]| >= 2
    ensures UpToShort(ps) == ps
  {
    if ps != [] {
      UpToShortAll(ps[1..]);
      assert ps == [ps[0]] + ps[1..];
    }
  }

  /** trace.py's global buffer and loop, in place. */
  class Deframer {
    var buf: seq<u8>
    var handled: seq<seq<u8>>
    var died: bool
    var ended: bool

    ghost function State(): Process
      reads this
    {
      Process(buf, handled, died, ended)
    }

    constructor ()
      ensures State() == START
    {
      buf, handled, died, ended := [], [], false, false;
    }

    /** One turn of the outer loop; an empty read or a raised exception ends the process. */
    method Receive(chunk: seq<u8>)
      requires BufferOk(buf) && !died && !ended
      modifies this
      ensures var s := Feed(old(State()), chunk); died == s.died && ended == s.ended && handled == s.handled
      ensures !died ==> BufferOk(buf) && buf == Feed(old(State()), chunk).buf
    {
      if chunk == [] {
        ended := true;
        return;
      }
      ChunkScans(buf, chunk);
      buf := buf + chunk;
      var start := Find(buf, 0);
      if start == |buf| {
        buf := [];
        assert handled + [] == handled;
        return;
      }
      buf := buf[start..];
      CutSegments();
    }

    /** The inner loop. */
    method CutSegments()
      requires buf != [] && buf[0] == FLAG && !died
      modifies this`buf, this`handled, this`died
      ensures var (segs, rest) := CutLoop(old(buf));
              handled == old(handled) + Deliver(segs).0 && died == Deliver(segs).1 && (!died ==> buf == rest)
    {
      ghost var cut := CutLoop(buf);
      ghost var segs: seq<seq<u8>> := [];
      NoneThen(cut.0);
      assert handled + [] == handled;
      var end := Find(buf, 1);
      while end < |buf|
        invariant buf != [] && buf[0] == FLAG && !died && 1 <= end == Find(buf, 1)
        invariant cut == (segs + CutLoop(buf).0, CutLoop(buf).1)
        invariant !Deliver(segs).1 && handled == old(handled) + Deliver(segs).0
        decreases |buf|
      {
        var packet := buf[1..end];
        buf := buf[end..];
        if packet != [] {
          SegmentJoins(old(handled), segs, packet, CutLoop(buf).0);
          HandleSegment(packet);
          if died { return; }
          segs := segs + [packet];
        } else {
          NoneThen(CutLoop(buf).0);
        }
        end := Find(buf, 1);
      }
      assert segs + [] == segs;
    }

    /** `handle_packet(unescape(packet))` */
    method HandleSegment(packet: seq<u8>)
      requires !died
      modifies this`handled, this`died
      ensures handled == old(handled) + Deliver([packet]).0 && died == Deliver([packet]).1
    {
      OneDelivery(packet);
      var out := UnescapePacket(packet);
      if out.None? {
        died := true;
        assert handled + [] == handled;
        return;
      }
      handled := handled + [out.value];
      died := |out.value| < 2;
    }
  }

  /** How one more segment changes what is delivered. */
  lemma SegmentJoins(before: seq<seq<u8>>, segs: seq<seq<u8>>, packet: seq<u8>, rest: seq<seq<u8>>)
    requires !Deliver(segs).1
    ensures segs + ([packet] + rest) == (segs + [packet]) + rest
    ensures before + Deliver(segs).0 + Deliver([packet]).0 == before + Deliver(segs + [packet]).0
    ensures Deliver(segs + [packet]).1 == Deliver([packet]).1
    ensures Deliver([packet]).1 ==> Deliver(segs + [packet] + rest) == Deliver(segs + [packet])
  {
    DeliverConcat(segs, [packet]);
    DeliverConcat(segs + [packet], rest);
    Assoc(segs, [packet], rest);
    Assoc(before, Deliver(segs).0, Deliver([packet]).0);
  }

  lemma OneDelivery(packet: seq<u8>)
    ensures Deliver([packet]) == match Unescape(packet) case None => ([], true) case Some(p) => ([p], |p| < 2)
  {
    var none: seq<seq<u8>> := [];
    assert [packet][1..] == none;
    assert Deliver(none) == ([], false);
    if Unescape(packet).Some? { assert [Unescape(packet).value] + none == [Unescape(packet).value]; }
  }
}
