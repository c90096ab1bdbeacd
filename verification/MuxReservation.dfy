/** Whether the room the size test of a packet reserves is enough for the aligned ADTH tag. */
module MuxReservation {
  import opened Bytes
  import opened MuxFrame

  /**
   * The size test counts no padding, yet for a maximum size divisible by 4 the aligned
   * ADTH tag and its table always fit.
   */
  lemma ReservationCoversAlignment(f: Frame, ps: seq<Packet>)
    requires Holds(f, ps) && ps != [] && f.maxSize % 4 == 0
    ensures AdthFits(f)
  {
    assert |f.bounds| == |ps|;
    var room := f.maxSize - NEXT_HEADER - 4 - BOUND * |ps|;
    assert |f.used| <= room && room % 4 == 0;
    assert AlignUp(|f.used|) <= room;
  }

  /** An empty kernel frame buffer of a given maximum size. */
  function Blank(maxSize: nat): Frame {
    Frame(false, maxSize, 0, [], Zeros(AlignUp(maxSize)), [], None, None)
  }

  /** For any other maximum size, one packet that passes the size test leaves no room for the aligned tag. */
  lemma AlignmentOverflow(maxSize: nat, p: Packet)
    requires 56 <= maxSize < 65536 && maxSize % 4 != 0 && |p| == maxSize - 56
    ensures var f := AddTag(Blank(maxSize), ADBH, 0, []).0;
            && PacketFits(f, |p|, MUX_MAX_PACKETS)
            && Holds(AppendPacket(f, p, MUX_MAX_PACKETS).0, [p])
            && AppendPacket(f, p, MUX_MAX_PACKETS).0.maxSize == maxSize
            && !AdthFits(AppendPacket(f, p, MUX_MAX_PACKETS).0)
  {
    OpenHolds(Blank(maxSize));
    OverflowOne(AddTag(Blank(maxSize), ADBH, 0, []).0, p);
  }

  lemma OverflowOne(f: Frame, p: Packet)
    requires Holds(f, []) && f.maxSize % 4 != 0 && |p| + 56 == f.maxSize
    ensures PacketFits(f, |p|, MUX_MAX_PACKETS)
    ensures var f' := AppendPacket(f, p, MUX_MAX_PACKETS).0;
            Holds(f', [p]) && f'.maxSize == f.maxSize && !AdthFits(f')
  {
    AppendPacketHolds(f, [], p, MUX_MAX_PACKETS);
    var none: seq<Packet> := [];
    assert none + [p] == [p] && [p][..0] == none;
    TooTight(AppendPacket(f, p, MUX_MAX_PACKETS).0, p);
  }

  lemma TooTight(f: Frame, p: Packet)
    requires Holds(f, [p]) && f.maxSize % 4 != 0 && |p| + 56 == f.maxSize
    ensures !AdthFits(f)
  {
    var none: seq<Packet> := [];
    assert [p][..0] == none;
    assert |f.used| == f.maxSize - 24;
  }

  ghost predicate AlwaysFinishes(maxSize: nat) {
    forall f, ps {:trigger Holds(f, ps)} :: Holds(f, ps) && ps != [] && f.maxSize == maxSize ==> AdthFits(f)
  }

  /** So the reservation is sound exactly for the maximum sizes divisible by 4. */
  lemma ReservationSoundIff(maxSize: nat)
    requires 56 <= maxSize < 65536
    ensures AlwaysFinishes(maxSize) <==> maxSize % 4 == 0
  {
    if maxSize % 4 == 0 {
      forall f, ps | Holds(f, ps) && ps != [] && f.maxSize == maxSize
        ensures AdthFits(f)
      {
        ReservationCoversAlignment(f, ps);
      }
    } else {
      AlignmentOverflow(maxSize, Zeros(maxSize - 56));
    }
  }
}
