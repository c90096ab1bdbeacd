/** The frame builder in place: a byte buffer, a cursor and the saved positions of the last tag's fields. */
module FrameBuffer {
  import opened Bytes
  import opened MuxFrame

  /**
   * The frame with a tag behind the used bytes, whose `length` and `next` fields are at these
   * offsets of its header.
   */
  function Tagged(f: Frame, header: seq<u8>, data: seq<u8>, lengthAt: nat, nextAt: nat): (f': Frame)
    requires |header| + |data| <= |f.spare|
  {
    f.(used := f.used + header + data, spare := f.spare[|header| + |data|..],
       lenAt := Some(|f.used| + lengthAt), nextAt := Some(|f.used| + nextAt))
  }

  function Headed(f: Frame, header: seq<u8>, lengthAt: nat, nextAt: nat): Frame
    requires |header| <= |f.spare|
  {
    f.(used := f.used + header, spare := f.spare[|header|..],
       lenAt := Some(|f.used| + lengthAt), nextAt := Some(|f.used| + nextAt))
  }

  /** `AddTag` taken apart: align, link, write. */
  lemma AddTagParts(f: Frame, tag: seq<u8>, extra: nat, data: seq<u8>, header: seq<u8>)
    requires FrameOk(f) && |tag| == 4 && TagFits(f, |data|)
    requires header == Header(f.used == [], tag, f.sequence, HeaderSize(f) + |data|, extra, 0)
    ensures var p, first := Padded(f), f.used == [];
            MuxFrame.AddTag(f, tag, extra, data)
            == (Tagged(p.(used := Link(p, |p.used|)), header, data, if first then 8 else 4, if first then 12 else 8),
                true)
  {
  }

  /** The header as the code makes it: cleared, then stored field by field at the offsets of the C declarations. */
  method MakeHeader(first: bool, tag: seq<u8>, sequence: nat, length: nat, extra: nat) returns (hdr: seq<u8>)
    requires |tag| == 4
    ensures hdr == Header(first, tag, sequence, length, extra, 0)
  {
    hdr := Zeros(if first then FIRST_HEADER else NEXT_HEADER);
    hdr := Patch(hdr, 0, tag);
    if first {
      hdr := Patch(hdr, 6, Le16(sequence));
      hdr := Patch(hdr, 8, Le16(length));
      hdr := Patch(hdr, 10, Le16(extra));
    } else {
      hdr := Patch(hdr, 4, Le16(length));
      hdr := Patch(hdr, 6, Le16(extra));
    }
  }

  class MuxFrameBuffer {
    const wide: bool
    const data: array<u8>
    const bounds: array<Bound>
    var maxSize: nat
    var sequence: nat
    var nBytes: nat
    var nPackets: nat
    var lastTagLength: Option<nat>
    var lastTagNext: Option<nat>

    /** The value-level frame this buffer holds. */
    ghost function State(): Frame
      requires nBytes <= data.Length && nPackets <= bounds.Length
      reads this, data, bounds
    {
      Frame(wide, maxSize, sequence, data[..nBytes], data[nBytes..], bounds[..nPackets], lastTagLength, lastTagNext)
    }

    ghost predicate Valid()
      reads this, data, bounds
    {
      nBytes <= data.Length && nPackets <= bounds.Length && FrameOk(State())
    }

    constructor (wide: bool, size: nat, maxPackets: nat)
      ensures Valid() && fresh(data) && fresh(bounds)
      ensures this.wide == wide && data.Length == size && bounds.Length == maxPackets && maxSize == 0 && nBytes == 0
    {
      this.wide := wide;
      data := new u8[size](i => 0);
      bounds := new Bound[maxPackets](i => Bound(0, 0));
      maxSize, sequence, nBytes, nPackets := 0, 0, 0, 0;
      lastTagLength, lastTagNext := None, None;
    }

    /** `memcpy` into the buffer. */
    method Put(at: nat, bytes: seq<u8>)
      requires at + |bytes| <= data.Length
      modifies data
      ensures data[..] == Patch(old(data[..]), at, bytes)
    {
      forall i | 0 <= i < |bytes| {
        data[at + i] := bytes[i];
      }
      assert data[..] == old(data[..])[..at] + bytes + old(data[..])[at + |bytes|..];
    }

    /** `mux_frame_init` */
    method Init(maxSize: nat, sequence: nat)
      requires nBytes <= data.Length && nPackets <= bounds.Length && maxSize < 65536 && AlignUp(maxSize) <= data.Length
      modifies this
      ensures Valid() && State() == FrameInit(old(State()), maxSize, sequence)
    {
      assert data[..nBytes] + data[nBytes..] == data[..];
      this.maxSize, this.sequence := maxSize, sequence;
      nPackets, nBytes := 0, 0;
      lastTagNext, lastTagLength := None, None;
    }

    /** The alignment loop of `mux_frame_add_tag`: the skipped bytes stay as they were. */
    method Align()
      requires Valid()
      modifies this`nBytes
      ensures Valid() && State() == Padded(old(State()))
    {
      ghost var n := nBytes;
      while nBytes % 4 != 0
        invariant n <= nBytes <= AlignUp(n)
        decreases AlignUp(n) - nBytes
      {
        nBytes := nBytes + 1;
      }
      assert nBytes == AlignUp(n);
      assert data[..nBytes] == data[..n] + data[n..][..nBytes - n];
      assert data[nBytes..] == data[n..][nBytes - n..];
    }

    /** Points the last tag's `next` at the cursor. */
    method LinkHere()
      requires Valid() && nBytes < 65536
      modifies data
      ensures Valid() && State() == old(State()).(used := Link(old(State()), nBytes))
    {
      if lastTagNext.Some? {
        ghost var f := State();
        assert data[..] == f.used + f.spare;
        var field := if wide then Le32(nBytes) else Le16(nBytes);
        Put(lastTagNext.value, field);
        PatchFront(f.used, f.spare, lastTagNext.value, field);
      }
    }

    /** Writes at the cursor and moves it on. */
    method PutRaw(bytes: seq<u8>)
      requires nBytes + |bytes| <= data.Length
      modifies this`nBytes, data
      ensures nBytes == old(nBytes) + |bytes|
      ensures data[..nBytes] == old(data[..nBytes]) + bytes && data[nBytes..] == old(data[nBytes..])[|bytes|..]
    {
      ghost var used, spare := data[..nBytes], data[nBytes..];
      assert data[..] == used + spare;
      Put(nBytes, bytes);
      PatchBack(used, spare, bytes);
      nBytes := nBytes + |bytes|;
    }

    /** Writes behind the used bytes. */
    method PutNext(bytes: seq<u8>)
      requires Valid() && nBytes + |bytes| <= data.Length && nBytes + |bytes| <= maxSize && (nBytes > 0 || bytes == [])
      modifies this`nBytes, data
      ensures Valid()
      ensures State() == old(State()).(used := old(State()).used + bytes, spare := old(State()).spare[|bytes|..])
    {
      PutRaw(bytes);
    }

    /** Writes a tag's header at the cursor, and saves where its fields are. */
    method PutHeader(header: seq<u8>, lengthAt: nat, nextAt: nat)
      requires Valid() && nBytes + |header| <= maxSize && lengthAt + 2 <= |header| && nextAt + 4 <= |header|
      modifies this`nBytes, this`lastTagLength, this`lastTagNext, data
      ensures Valid() && State() == Headed(old(State()), header, lengthAt, nextAt)
    {
      lastTagLength, lastTagNext := Some(nBytes + lengthAt), Some(nBytes + nextAt);
      PutRaw(header);
    }

    /** A header and its data. */
    method PutTag(header: seq<u8>, payload: seq<u8>, lengthAt: nat, nextAt: nat)
      requires Valid() && nBytes + |header| + |payload| <= maxSize
      requires lengthAt + 2 <= |header| && nextAt + 4 <= |header|
      modifies this`nBytes, this`lastTagLength, this`lastTagNext, data
      ensures Valid() && State() == Tagged(old(State()), header, payload, lengthAt, nextAt)
    {
      ghost var f := State();
      PutHeader(header, lengthAt, nextAt);
      PutNext(payload);
      TaggedTwice(f, header, payload, lengthAt, nextAt);
    }

    /** Links the tag before to the cursor and writes the tag there. */
    method PlaceTag(header: seq<u8>, payload: seq<u8>, lengthAt: nat, nextAt: nat)
      requires Valid() && nBytes + |header| + |payload| <= maxSize
      requires lengthAt + 2 <= |header| && nextAt + 4 <= |header|
      modifies this`nBytes, this`lastTagLength, this`lastTagNext, data
      ensures Valid()
      ensures State()
              == Tagged(old(State()).(used := Link(old(State()), old(nBytes))), header, payload, lengthAt, nextAt)
    {
      LinkHere();
      PutTag(header, payload, lengthAt, nextAt);
    }

    /** `mux_frame_add_tag` */
    method AddTag(tag: seq<u8>, extra: nat, payload: seq<u8>) returns (ok: bool)
      requires Valid() && |tag| == 4
      modifies this`nBytes, this`lastTagLength, this`lastTagNext, data
      ensures Valid() && MuxFrame.AddTag(old(State()), tag, extra, payload) == (State(), ok)
    {
      ghost var f := State();
      var first := nBytes == 0;
      var total := (if first then FIRST_HEADER else NEXT_HEADER) + |payload|;
      Align();
      if nBytes + total > maxSize {
        return false;
      }
      var header := MakeHeader(first, tag, sequence, total, extra);
      AddTagParts(f, tag, extra, payload, header);
      PlaceTag(header, payload, if first then 8 else 4, if first then 12 else 8);
      ok := true;
    }

    /** `mux_frame_init`, and the first tag of the frame. */
    method Start(maxSize: nat, sequence: nat, tag: seq<u8>)
      requires nBytes <= data.Length && nPackets <= bounds.Length && maxSize < 65536 && AlignUp(maxSize) <= data.Length
      requires |tag| == 4
      modifies this, data
      ensures Valid() && State() == MuxFrame.AddTag(FrameInit(old(State()), maxSize, sequence), tag, 0, []).0
    {
      Init(maxSize, sequence);
      var ok := AddTag(tag, 0, []);
    }

    /** `*last_tag_length += grow` */
    method BumpLength(grow: nat)
      requires Valid() && nBytes > 0
      modifies data
      ensures Valid()
      ensures var f := old(State());
              State() == f.(used := Patch(f.used, f.lenAt.value, Le16(U16(f.used, f.lenAt.value) + grow)))
    {
      ghost var f := State();
      assert data[..] == f.used + f.spare;
      var at := lastTagLength.value;
      var grown := U16(data[..nBytes], at) + grow;
      Put(at, Le16(grown));
      PatchFront(f.used, f.spare, at, Le16(grown));
    }

    /** `mux_frame_append_data` */
    method AppendData(payload: seq<u8>) returns (ok: bool)
      requires Valid() && nBytes > 0
      modifies this`nBytes, data
      ensures Valid() && (State(), ok) == MuxFrame.AppendData(old(State()), payload)
    {
      if nBytes + |payload| > maxSize {
        return false;
      }
      ghost var f := State();
      PutNext(payload);
      BumpLength(|payload|);
      BumpBehind(f.used, payload, f.lenAt.value, |payload|);
      ok := true;
    }

    /** `mux_frame_append_packet` */
    method AppendPacket(packet: Packet) returns (ok: bool)
      requires Valid() && nBytes > 0
      modifies this`nBytes, this`nPackets, data, bounds
      ensures Valid() && (State(), ok) == MuxFrame.AppendPacket(old(State()), packet, bounds.Length)
    {
      var expected := NEXT_HEADER + 4 + (nPackets + 1) * BOUND;
      if nPackets >= bounds.Length {
        return false;
      }
      if nBytes + |packet| + 16 + expected > maxSize {
        return false;
      }
      bounds[nPackets] := Bound(nBytes, |packet| + 16);
      nPackets := nPackets + 1;
      assert bounds[..nPackets] == old(State()).bounds + [Bound(nBytes, |packet| + 16)];
      var pad := AppendData(Zeros(16));
      assert pad;
      ok := AppendData(packet);
    }

    /** The ADTH tag and the bounds table, as `net_flush` and `frame_append_adth` add them. */
    method AppendAdth(channel: nat) returns (ok: bool)
      requires Valid() && nBytes > 0
      modifies this`nBytes, this`lastTagLength, this`lastTagNext, data
      ensures Valid() && (State(), ok) == MuxFrame.AppendAdth(old(State()), channel)
    {
      ok := AddTag(ADTH, channel, Zeros(4));
      if !ok { return; }
      ok := AppendData(BoundsBytes(bounds[..nPackets]));
    }

    /** The first tag's length becomes the frame's, and the bytes are handed out. */
    method Complete() returns (bytes: seq<u8>)
      requires Valid() && nBytes >= FIRST_HEADER
      modifies data
      ensures Valid() && bytes == Completed(old(State())) && State() == old(State()).(used := bytes)
    {
      ghost var f := State();
      assert data[..] == f.used + f.spare;
      Put(8, Le16(nBytes));
      PatchFront(f.used, f.spare, 8, Le16(nBytes));
      bytes := data[..nBytes];
    }
  }

  lemma PatchFront(a: seq<u8>, b: seq<u8>, at: nat, field: seq<u8>)
    requires at + |field| <= |a|
    ensures Patch(a + b, at, field) == Patch(a, at, field) + b
  {
  }

  /** A write behind `a` eats into the spare bytes. */
  lemma PatchBack(a: seq<u8>, b: seq<u8>, x: seq<u8>)
    requires |x| <= |b|
    ensures Patch(a + b, |a|, x) == a + x + b[|x|..]
  {
  }

  lemma TaggedTwice(f: Frame, header: seq<u8>, data: seq<u8>, lengthAt: nat, nextAt: nat)
    requires |header| + |data| <= |f.spare|
    ensures var g := Headed(f, header, lengthAt, nextAt);
            Tagged(f, header, data, lengthAt, nextAt) == g.(used := g.used + data, spare := g.spare[|data|..])
  {
  }

  lemma BumpBehind(a: seq<u8>, b: seq<u8>, at: nat, grow: nat)
    requires at + 2 <= |a|
    ensures Patch(a + b, at, Le16(U16(a + b, at) + grow)) == Patch(a, at, Le16(U16(a, at) + grow)) + b
  {
    PatchFront(a, b, at, Le16(U16(a, at) + grow));
  }
}
