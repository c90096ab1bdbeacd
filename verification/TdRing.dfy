/**
 * The transfer-descriptor rings shared with the modem, on values.
 *
 * A ring holds the messages in the slots from `rptr` up to but not including `wptr`.
 * For a Tx ring those are written by the driver and not yet taken by the modem; for an
 * Rx ring those are empty descriptors posted by the driver for the modem to complete.
 */
module TdRing {
  import opened Bytes
  import opened Mask

  const TD_MAX_PAGE_SIZE: nat := 16384
  const ENODEV: int := 19

  /** A descriptor with the page it points to. */
  datatype Td = Td(page: seq<u8>, length: nat)

  datatype Ring = Ring(depth: nat, pageSize: nat, tds: seq<Td>, wptr: nat, rptr: nat, handled: nat)

  ghost predicate TdOk(td: Td, pageSize: nat) {
    |td.page| == pageSize && td.length <= pageSize
  }

  /** What `td_ring_create` asserts and sets up. */
  ghost predicate RingOk(r: Ring) {
    && PowerOfTwo(r.depth) && r.depth < 256 && r.pageSize <= TD_MAX_PAGE_SIZE
    && |r.tds| == r.depth && (forall i :: 0 <= i < r.depth ==> TdOk(r.tds[i], r.pageSize))
    && r.wptr < r.depth && r.rptr < r.depth && r.handled < r.depth
  }

  /** The driver's index step `(i + 1) & (depth - 1)`. */
  function Next(i: nat, depth: nat): (n: nat)
    requires PowerOfTwo(depth) && i < depth
    ensures n == if i + 1 == depth then 0 else i + 1
  {
    NextIsCyclic(i, depth);
    And(i + 1, depth - 1)
  }

  lemma NextIsCyclic(i: nat, depth: nat)
    requires PowerOfTwo(depth) && i < depth
    ensures And(i + 1, depth - 1) == if i + 1 == depth then 0 else i + 1
  {
    MaskIsModulo(i + 1, depth);
    if i + 1 == depth {
      ModUnique(i + 1, depth, 1, 0);
    } else {
      ModUnique(i + 1, depth, 0, i + 1);
    }
  }

  function Span(depth: nat, from: nat, to: nat): nat
    requires from < depth && to < depth
  {
    if from <= to then to - from else to + depth - from
  }

  function Slot(depth: nat, from: nat, i: nat): (s: nat)
    requires from < depth && i < depth
    ensures s < depth
  {
    if from + i < depth then from + i else from + i - depth
  }

  function Message(td: Td): seq<u8>
    requires td.length <= |td.page|
  {
    td.page[..td.length]
  }

  /** The messages in the slots from `from` up to but not including `to`, in order. */
  function Window(r: Ring, from: nat, to: nat): (w: seq<seq<u8>>)
    requires RingOk(r) && from < r.depth && to < r.depth
    ensures |w| == Span(r.depth, from, to)
  {
    seq(Span(r.depth, from, to), i requires 0 <= i < Span(r.depth, from, to) => Message(r.tds[Slot(r.depth, from, i)]))
  }

  function Pending(r: Ring): seq<seq<u8>>
    requires RingOk(r)
  {
    Window(r, r.rptr, r.wptr)
  }

  predicate Full(r: Ring)
    requires RingOk(r)
  {
    Next(r.wptr, r.depth) == r.rptr
  }

  function Store(td: Td, buf: seq<u8>): Td
    requires |buf| <= |td.page|
  {
    Td(Patch(td.page, 0, buf), |buf|)
  }

  function TdWrite(r: Ring, buf: seq<u8>): (r': Ring)
    requires RingOk(r) && !Full(r) && |buf| <= r.pageSize
    ensures RingOk(r')
  {
    r.(tds := r.tds[r.wptr := Store(r.tds[r.wptr], buf)], wptr := Next(r.wptr, r.depth))
  }

  /** The bytes a write is cut to. */
  function Cut(buf: seq<u8>, limit: nat): (s: seq<u8>)
    ensures s <= buf
  {
    if |buf| > limit then buf[..limit] else buf
  }

  /** `qp_write`: the ring after the call, and the value returned. */
  function QpWrite(r: Ring, error: bool, buf: seq<u8>): (res: (Ring, int))
    requires RingOk(r)
    ensures RingOk(res.0) && res.0.pageSize == r.pageSize
  {
    if error then (r, -ENODEV)
    else if Full(r) then (r, 0)
    else (TdWrite(r, Cut(buf, r.pageSize)), |Cut(buf, r.pageSize)|)
  }

  /** The modem takes the oldest message off a Tx ring. */
  function Take(r: Ring): (r': Ring)
    requires RingOk(r)
    ensures RingOk(r') && r'.pageSize == r.pageSize
  {
    if r.rptr == r.wptr then r else r.(rptr := Next(r.rptr, r.depth))
  }

  /** Growing a window by one slot appends that slot's message. */
  lemma WindowGrow(r: Ring, from: nat, to: nat)
    requires RingOk(r) && from < r.depth && to < r.depth && Next(to, r.depth) != from
    ensures Window(r, from, Next(to, r.depth)) == Window(r, from, to) + [Message(r.tds[to])]
  {
    var n := Span(r.depth, from, to);
    assert Span(r.depth, from, Next(to, r.depth)) == n + 1;
    assert Slot(r.depth, from, n) == to;
  }

  /** Dropping the first slot of a window drops the first message. */
  lemma WindowShrink(r: Ring, from: nat, to: nat)
    requires RingOk(r) && from < r.depth && to < r.depth && from != to
    ensures Window(r, from, to) == [Message(r.tds[from])] + Window(r, Next(from, r.depth), to)
  {
    var from' := Next(from, r.depth);
    var n := Span(r.depth, from', to);
    assert Span(r.depth, from, to) == n + 1;
    forall i | 0 <= i < n
      ensures Slot(r.depth, from', i) == Slot(r.depth, from, i + 1)
    {
    }
  }

  /** A window does not depend on the slots outside it. */
  lemma WindowFrame(r: Ring, s: Ring, from: nat, to: nat, k: nat)
    requires RingOk(r) && RingOk(s) && s.depth == r.depth && from < r.depth && to < r.depth
    requires k < r.depth && Span(r.depth, from, k) >= Span(r.depth, from, to)
    requires forall i :: 0 <= i < r.depth && i != k ==> s.tds[i] == r.tds[i]
    ensures Window(s, from, to) == Window(r, from, to)
  {
    forall i | 0 <= i < Span(r.depth, from, to)
      ensures Slot(r.depth, from, i) != k
    {
    }
  }

  /** A Tx ring is a FIFO: a write that is let in appends, and nothing else is disturbed. */
  lemma WriteAppends(r: Ring, buf: seq<u8>)
    requires RingOk(r) && !Full(r) && |buf| <= r.pageSize
    ensures Pending(TdWrite(r, buf)) == Pending(r) + [buf]
  {
    var r' := TdWrite(r, buf);
    WindowFrame(r, r', r.rptr, r.wptr, r.wptr);
    WindowGrow(r', r.rptr, r.wptr);
    assert Message(r'.tds[r.wptr]) == buf;
  }

  lemma TakeRemovesOldest(r: Ring)
    requires RingOk(r) && r.rptr != r.wptr
    ensures Pending(r) == [Message(r.tds[r.rptr])] + Pending(Take(r))
  {
    WindowShrink(r, r.rptr, r.wptr);
    var r' := Take(r);
    WindowFrame(r, r', r'.rptr, r.wptr, r.wptr);
  }

  /** `td_ring_full` says that all but one slot is in use. */
  lemma FullIsCapacity(r: Ring)
    requires RingOk(r)
    ensures Full(r) <==> |Pending(r)| == r.depth - 1
    ensures |Pending(r)| < r.depth
    ensures r.rptr == r.wptr <==> Pending(r) == []
  {
  }

  // ---- Whole runs of a Tx ring ----

  datatype TxStep = Offer(buf: seq<u8>) | Consume | Break

  /** A Tx ring with the device's error flag and what went in and what came out. */
  datatype TxRun = TxRun(ring: Ring, error: bool, accepted: seq<seq<u8>>, taken: seq<seq<u8>>)

  function TxNext(s: TxRun, step: TxStep): (s': TxRun)
    requires RingOk(s.ring)
    ensures RingOk(s'.ring)
  {
    match step
    case Offer(buf) =>
      var (ring', ret) := QpWrite(s.ring, s.error, buf);
      s.(ring := ring', accepted := if !s.error && !Full(s.ring) then s.accepted + [buf[..ret]] else s.accepted)
    case Consume =>
      if s.ring.rptr == s.ring.wptr then s
      else s.(ring := Take(s.ring), taken := s.taken + [Message(s.ring.tds[s.ring.rptr])])
    case Break => s.(error := true)
  }

  function TxRunAll(s: TxRun, steps: seq<TxStep>): (s': TxRun)
    requires RingOk(s.ring)
    ensures RingOk(s'.ring)
    decreases steps
  {
    if steps == [] then s else TxRunAll(TxNext(s, steps[0]), steps[1..])
  }

  lemma TxStepKeepsFifo(s: TxRun, step: TxStep)
    requires RingOk(s.ring) && s.accepted == s.taken + Pending(s.ring)
    ensures TxNext(s, step).accepted == TxNext(s, step).taken + Pending(TxNext(s, step).ring)
  {
    match step
    case Offer(buf) =>
      if !s.error && !Full(s.ring) {
        var cut := Cut(buf, s.ring.pageSize);
        assert buf[..|cut|] == cut;
        WriteAppends(s.ring, cut);
      }
    case Consume =>
      if s.ring.rptr != s.ring.wptr { TakeRemovesOldest(s.ring); }
    case Break =>
  }

  /**
   * Over any interleaving of writes, modem reads and a device failure, with any number of
   * wraps, what the modem took followed by what is on the ring is what `qp_write` accepted.
   */
  lemma {:induction false} TxFifo(s: TxRun, steps: seq<TxStep>)
    requires RingOk(s.ring) && s.accepted == s.taken + Pending(s.ring)
    ensures TxRunAll(s, steps).accepted == TxRunAll(s, steps).taken + Pending(TxRunAll(s, steps).ring)
    decreases steps
  {
    if steps != [] {
      TxStepKeepsFifo(s, steps[0]);
      TxFifo(TxNext(s, steps[0]), steps[1..]);
    }
  }
}
