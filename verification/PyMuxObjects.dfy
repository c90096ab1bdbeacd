/** The objects of mux.py, updated in place. */
module PyMuxObjects {
  import opened Bytes
  import opened MuxFrame
  import opened PyMux

  /** The bytes `append_tag` writes are those of `AppendTag`. */
  lemma Finished(c: Chain, t: Tag, header: seq<u8>, linked: seq<u8>)
    requires ChainOk(c) && |t.name| == 4 && TagPacks(c, t)
    requires header == (if c.packet == [] then t.name + (Le16(0) + Le16(c.sequence)) else t.name)
                       + Le16(HeaderLen(c.packet == []) + |t.data|) + Le16(t.extra) + Le32(0)
    requires |linked| == AlignUp(|c.packet|)
    requires c.packet != [] ==> linked == Patch(c.packet + Zeros(|linked| - |c.packet|), c.forward, Le32(|linked|))
    ensures AppendTag(c, t) == Chain(c.sequence, linked + (header + t.data), |linked| + |header| - 4)
  {
    var first := c.packet == [];
    assert header + t.data == TagBytes(c.sequence, t, first, 0) by {
      assert header == Header(first, t.name, c.sequence, HeaderLen(first) + |t.data|, t.extra, 0);
    }
    AppendLinked(c, t, linked);
  }

  class MuxPacket {
    const sequence: nat
    var packet: seq<u8>
    var forward: nat

    ghost function State(): Chain
      reads this
    {
      Chain(sequence, packet, forward)
    }

    ghost predicate Valid()
      reads this
    {
      ChainOk(State())
    }

    constructor (sequence: nat)
      ensures Valid() && State() == Chain(sequence, [], 0)
    {
      this.sequence := sequence;
      packet, forward := [], 0;
    }

    /** The padding loop of `append_tag`. */
    method Pad()
      modifies this`packet
      ensures packet == old(packet) + Zeros(AlignUp(|old(packet)|) - |old(packet)|)
    {
      ghost var n := |packet|;
      while |packet| % 4 != 0
        invariant n <= |packet| <= AlignUp(n) && packet == old(packet) + Zeros(|packet| - n)
        decreases AlignUp(n) - |packet|
      {
        packet := packet + [0];
      }
    }

    /** Pads to the next tag and points the last tag at it. */
    method LinkNext()
      requires Valid() && packet != []
      modifies this`packet
      ensures |packet| == AlignUp(|old(packet)|)
      ensures var n := AlignUp(|old(packet)|);
              packet == Patch(old(packet) + Zeros(n - |old(packet)|), forward, Le32(n))
    {
      Pad();
      packet := Patch(packet, forward, Le32(|packet|));
    }

    /** `append_tag`: `ok` is false where `struct.pack` raises, by which time a later tag has been linked already. */
    method Append(tag: seq<u8>, data: seq<u8>, extra: nat) returns (ok: bool)
      requires Valid() && |tag| == 4
      modifies this
      ensures ok == TagPacks(old(State()), Tag(tag, data, extra))
      ensures ok ==> Valid() && State() == AppendTag(old(State()), Tag(tag, data, extra))
      ensures !ok ==> |packet| == AlignUp(old(|packet|)) && forward == old(forward)
    {
      ghost var c := State();
      var first := packet == [];
      var header := tag;
      if first {
        if sequence >= 65536 { return false; }
        header := header + (Le16(0) + Le16(sequence));
      } else {
        LinkNext();
      }
      var headerLen := |header| + 8;
      if headerLen + |data| >= 65536 || extra >= 65536 { return false; }
      header := header + Le16(headerLen + |data|) + Le16(extra) + Le32(0);
      Finished(c, Tag(tag, data, extra), header, packet);
      forward := |packet| + |header| - 4;
      packet := packet + (header + data);
      ok := true;
    }

    /** `get_packet`, called once a tag has been appended. */
    method Finish() returns (bytes: seq<u8>)
      requires Valid() && packet != []
      modifies this`packet
      ensures bytes == packet == GetPacket(old(State()))
    {
      packet := packet[..8] + Le32(|packet|) + packet[12..];
      bytes := packet;
    }
  }

  class XmmMux {
    var sequence: nat

    /** `package`: `None` where `struct.pack` raises. */
    method PackageNext(p: Packet) returns (bytes: Option<seq<u8>>)
      requires sequence < 256
      modifies this
      ensures sequence == (old(sequence) + 1) % 256
      ensures bytes == if Packable(p) then Some(Package(sequence, p)) else None
    {
      sequence := (sequence + 1) % 256;
      var packet := new MuxPacket(sequence);
      var tags := PackageTags(p);
      ghost var c0 := packet.State();
      var ok := packet.Append(tags[0].name, tags[0].data, 0);
      if !ok { return None; }
      ghost var c1 := packet.State();
      ok := packet.Append(tags[1].name, tags[1].data, 0);
      if !ok { return None; }
      TwoAppends(sequence, tags, c0, c1, packet.State());
      var out := packet.Finish();
      bytes := Some(out);
    }
  }

  lemma TwoAppends(sequence: nat, tags: seq<Tag>, c0: Chain, c1: Chain, c2: Chain)
    requires Encodable(sequence, tags) && |tags| == 2 && c0 == Chain(sequence, [], 0)
    requires ChainOk(c0) && TagPacks(c0, tags[0]) && c1 == AppendTag(c0, tags[0])
    requires ChainOk(c1) && TagPacks(c1, tags[1]) && c2 == AppendTag(c1, tags[1])
    ensures Build(sequence, tags, 2) == c2
  {
    assert Build(sequence, tags, 0) == c0;
    assert Build(sequence, tags, 1) == c1;
  }
}
