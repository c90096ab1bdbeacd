/** The Python multiplexer (mux.py): the tag-chain packet, its writer and its reader. */
module PyMux {
  import opened Bytes
  import opened MuxFrame
  import opened MuxDecode

  datatype Tag = Tag(name: seq<u8>, data: seq<u8>, extra: nat)

  /** `MuxPacket`: the bytes so far and the offset of the last tag's next-tag pointer. */
  datatype Chain = Chain(sequence: nat, packet: seq<u8>, forward: nat)

  function HeaderLen(first: bool): nat {
    if first then FIRST_HEADER else NEXT_HEADER
  }

  /** `struct.pack` raises when a 16-bit field overflows. */
  predicate TagPacks(c: Chain, t: Tag) {
    && HeaderLen(c.packet == []) + |t.data| < 65536 && t.extra < 65536 && (c.packet == [] ==> c.sequence < 65536)
  }

  ghost predicate ChainOk(c: Chain) {
    c.packet != [] ==> FIRST_HEADER <= |c.packet| && c.forward + 4 <= |c.packet|
  }

  /** `append_tag`, when `struct.pack` accepts the fields. */
  function AppendTag(c: Chain, t: Tag): (c': Chain)
    requires ChainOk(c) && |t.name| == 4 && TagPacks(c, t)
    ensures ChainOk(c') && c'.packet != []
  {
    var first := c.packet == [];
    var padded := c.packet + Zeros(AlignUp(|c.packet|) - |c.packet|);
    var linked := if first then [] else Patch(padded, c.forward, Le32(|padded|));
    var header := Header(first, t.name, c.sequence, HeaderLen(first) + |t.data|, t.extra, 0);
    Chain(c.sequence, linked + header + t.data, |linked| + |header| - 4)
  }

  /** `get_packet`: the total length goes over the first tag's length and extra fields. */
  function GetPacket(c: Chain): (bytes: seq<u8>)
    requires |c.packet| >= FIRST_HEADER
    ensures |bytes| == |c.packet|
  {
    Patch(c.packet, 8, Le32(|c.packet|))
  }

  // ---- The chain of any list of tags ----

  /** The bytes of one tag: its header with the pointer to the next tag, then its data. */
  function TagBytes(sequence: nat, t: Tag, first: bool, next: nat): seq<u8>
    requires |t.name| == 4
  {
    Header(first, t.name, sequence, HeaderLen(first) + |t.data|, t.extra, next) + t.data
  }

  ghost predicate Named(tags: seq<Tag>) {
    forall i :: 0 <= i < |tags| ==> |tags[i].name| == 4
  }

  /** The length of the first `k` tags laid out. */
  function EncodedLen(tags: seq<Tag>, k: nat): nat
    requires k <= |tags|
  {
    if k == 0 then 0 else AlignUp(EncodedLen(tags, k - 1)) + HeaderLen(k == 1) + |tags[k - 1].data|
  }

  /** Where tag `i` starts: tags are aligned to 4 bytes. */
  function Offset(tags: seq<Tag>, i: nat): (at: nat)
    requires i <= |tags|
    ensures at % 4 == 0
  {
    AlignUp(EncodedLen(tags, i))
  }

  function Gap(tags: seq<Tag>, i: nat): seq<u8>
    requires i <= |tags|
  {
    Zeros(Offset(tags, i) - EncodedLen(tags, i))
  }

  /** The first `k` tags laid out, with `next` in the last one's pointer. */
  function Encode(sequence: nat, tags: seq<Tag>, k: nat, next: nat): (s: seq<u8>)
    requires Named(tags) && k <= |tags|
    ensures |s| == EncodedLen(tags, k)
  {
    if k == 0 then [] else
    Encode(sequence, tags, k - 1, Offset(tags, k - 1)) + Gap(tags, k - 1)
        + TagBytes(sequence, tags[k - 1], k == 1, next)
  }

  ghost predicate Encodable(sequence: nat, tags: seq<Tag>) {
    && sequence < 65536 && Named(tags)
    && forall i :: 0 <= i < |tags| ==> HeaderLen(i == 0) + |tags[i].data| < 65536 && tags[i].extra < 65536
  }

  /** The object holds exactly the first `k` tags, with the saved pointer at the last one. */
  ghost predicate Encodes(c: Chain, sequence: nat, tags: seq<Tag>, k: nat)
    requires Named(tags) && k <= |tags|
  {
    && ChainOk(c) && c.sequence == sequence && c.packet == Encode(sequence, tags, k, 0)
    && (k > 0 ==> c.forward == PointerAt(tags, k))
  }

  /** The object after the first `k` of a list of `append_tag` calls: exactly their encoding. */
  function Build(sequence: nat, tags: seq<Tag>, k: nat): (c: Chain)
    requires Encodable(sequence, tags) && k <= |tags|
    ensures Encodes(c, sequence, tags, k)
    decreases k
  {
    if k == 0 then Chain(sequence, [], 0) else
    var c := Build(sequence, tags, k - 1);
    EncodedLenPositive(tags, k - 1);
    AppendEncodes(sequence, tags, k, c);
    AppendTag(c, tags[k - 1])
  }

  lemma EncodedLenPositive(tags: seq<Tag>, k: nat)
    requires k <= |tags|
    ensures k > 0 ==> EncodedLen(tags, k) >= FIRST_HEADER
    decreases k
  {
    if k > 1 { EncodedLenPositive(tags, k - 1); }
  }

  /** The bytes `get_packet` returns after appending all the tags. */
  function Packet(sequence: nat, tags: seq<Tag>): seq<u8>
    requires Encodable(sequence, tags) && tags != []
  {
    EncodedLenPositive(tags, |tags|);
    GetPacket(Build(sequence, tags, |tags|))
  }

  /** Re-pointing the last tag of an encoding. */
  lemma Repoint(sequence: nat, tags: seq<Tag>, k: nat, next: nat, pad: seq<u8>)
    requires Named(tags) && 0 < k <= |tags|
    ensures PointerAt(tags, k) + 4 <= EncodedLen(tags, k)
    ensures Patch(Encode(sequence, tags, k, 0) + pad, PointerAt(tags, k), Le32(next))
            == Encode(sequence, tags, k, next) + pad
  {
    RepointTag(Encode(sequence, tags, k - 1, Offset(tags, k - 1)) + Gap(tags, k - 1), sequence, tags[k - 1],
               k == 1, next, pad);
  }

  /** Where the pointer of the `k`-th tag is. */
  function PointerAt(tags: seq<Tag>, k: nat): nat
    requires 0 < k <= |tags|
  {
    Offset(tags, k - 1) + HeaderLen(k == 1) - 4
  }

  lemma RepointTag(a: seq<u8>, sequence: nat, t: Tag, first: bool, next: nat, pad: seq<u8>)
    requires |t.name| == 4
    ensures Patch(a + TagBytes(sequence, t, first, 0) + pad, |a| + HeaderLen(first) - 4, Le32(next))
            == a + TagBytes(sequence, t, first, next) + pad
  {
    var h := t.name + (if first then Le16(0) + Le16(sequence) else []) + Le16(HeaderLen(first) + |t.data|)
        + Le16(t.extra);
    assert TagBytes(sequence, t, first, 0) == h + Le32(0) + t.data;
    assert TagBytes(sequence, t, first, next) == h + Le32(next) + t.data;
    PatchMiddle(a, h, Le32(0), Le32(next), t.data, pad);
  }

  lemma PatchMiddle(a: seq<u8>, h: seq<u8>, x: seq<u8>, y: seq<u8>, data: seq<u8>, pad: seq<u8>)
    requires |x| == |y|
    ensures Patch(a + (h + x + data) + pad, |a| + |h|, y) == a + (h + y + data) + pad
  {
  }

  /** One `append_tag` on an object whose pointer, re-pointed at the padded end, turns the bytes into `body`. */
  lemma AppendLinked(c: Chain, t: Tag, body: seq<u8>)
    requires ChainOk(c) && |t.name| == 4 && TagPacks(c, t)
    requires |body| == AlignUp(|c.packet|)
    requires c.packet == [] ==> body == []
    requires c.packet != [] ==> Patch(c.packet + Zeros(|body| - |c.packet|), c.forward, Le32(|body|)) == body
    ensures var first := c.packet == [];
            AppendTag(c, t)
            == Chain(c.sequence, body + TagBytes(c.sequence, t, first, 0), |body| + HeaderLen(first) - 4)
  {
    var first := c.packet == [];
    Assoc(body, Header(first, t.name, c.sequence, HeaderLen(first) + |t.data|, t.extra, 0), t.data);
  }

  lemma AppendPacks(sequence: nat, tags: seq<Tag>, k: nat, c: Chain)
    requires Encodable(sequence, tags) && 0 < k <= |tags| && Encodes(c, sequence, tags, k - 1)
    ensures TagPacks(c, tags[k - 1]) && (c.packet == [] <==> k == 1)
  {
    EncodedLenPositive(tags, k - 1);
  }

  /** The bytes in front of tag `k`, once the tag before it points there. */
  lemma FrontLinked(sequence: nat, tags: seq<Tag>, k: nat, c: Chain)
    requires Named(tags) && 1 < k <= |tags| && Encodes(c, sequence, tags, k - 1)
    ensures var body := Encode(sequence, tags, k - 1, Offset(tags, k - 1)) + Gap(tags, k - 1);
            |body| == Offset(tags, k - 1) == AlignUp(|c.packet|)
            && Patch(c.packet + Zeros(|body| - |c.packet|), c.forward, Le32(|body|)) == body
  {
    Repoint(sequence, tags, k - 1, Offset(tags, k - 1), Gap(tags, k - 1));
  }

  lemma AppendEncodes(sequence: nat, tags: seq<Tag>, k: nat, c: Chain)
    requires Encodable(sequence, tags) && 0 < k <= |tags| && Encodes(c, sequence, tags, k - 1)
    ensures TagPacks(c, tags[k - 1]) && Encodes(AppendTag(c, tags[k - 1]), sequence, tags, k)
  {
    AppendPacks(sequence, tags, k, c);
    var body := Encode(sequence, tags, k - 1, Offset(tags, k - 1)) + Gap(tags, k - 1);
    if k > 1 { FrontLinked(sequence, tags, k, c); }
    AppendLinked(c, tags[k - 1], body);
    AppendedIs(sequence, tags, k, AppendTag(c, tags[k - 1]), body);
  }

  lemma AppendedIs(sequence: nat, tags: seq<Tag>, k: nat, c: Chain, body: seq<u8>)
    requires Named(tags) && 0 < k <= |tags|
    requires body == Encode(sequence, tags, k - 1, Offset(tags, k - 1)) + Gap(tags, k - 1)
    requires c == Chain(sequence, body + TagBytes(sequence, tags[k - 1], k == 1, 0), |body| + HeaderLen(k == 1) - 4)
    ensures Encodes(c, sequence, tags, k)
  {
  }

  // ---- Walking the chain ----

  /** A tag as it is found on the wire: its offset, its name, its data. */
  datatype Visit = Visit(at: nat, name: seq<u8>, next: nat)

  /** What is found at offset `at`, if a header fits there. */
  function VisitAt(packet: seq<u8>, at: nat): Option<Visit> {
    if at + HeaderLen(at == 0) > |packet| then None
    else Some(Visit(at, packet[at..at + 4], U32(packet, at + HeaderLen(at == 0) - 4)))
  }

  /** The tags met by following the next-tag pointers from `at`; a pointer that does not lead on ends the chain. */
  function Walk(packet: seq<u8>, at: nat): (vs: seq<Visit>)
    decreases |packet| - at
  {
    match VisitAt(packet, at)
    case None => []
    case Some(v) => [v] + if v.next <= at then [] else Walk(packet, v.next)
  }

  /** Tag `i` of a list, as the walk should meet it. */
  function VisitOf(tags: seq<Tag>, i: nat): Visit
    requires i < |tags|
  {
    Visit(Offset(tags, i), tags[i].name, NextOf(tags, i))
  }

  function VisitsFrom(tags: seq<Tag>, i: nat): (vs: seq<Visit>)
    requires i <= |tags|
    ensures |vs| == |tags| - i
    decreases |tags| - i
  {
    if i == |tags| then [] else [VisitOf(tags, i)] + VisitsFrom(tags, i + 1)
  }

  /** `part` lies in `s` at `at`. */
  predicate Sits(s: seq<u8>, at: nat, part: seq<u8>) {
    at + |part| <= |s| && s[at..at + |part|] == part
  }

  lemma SitsBefore(a: seq<u8>, b: seq<u8>, at: nat, part: seq<u8>)
    requires Sits(a, at, part)
    ensures Sits(a + b, at, part)
  {
    SliceOfPrefix(a, b, at, |part|);
  }

  lemma SitsEnd(a: seq<u8>, b: seq<u8>)
    ensures Sits(a + b, |a|, b)
  {
  }

  lemma SitsWithin(s: seq<u8>, at: nat, a: seq<u8>, b: seq<u8>, c: seq<u8>)
    requires Sits(s, at, a + b + c)
    ensures Sits(s, at, a) && Sits(s, at + |a|, b) && Sits(s, at + |a| + |b|, c)
  {
    var part := a + b + c;
    SubSlice(s, at, part, 0, |a|);
    SubSlice(s, at, part, |a|, |b|);
    SubSlice(s, at, part, |a| + |b|, |c|);
    assert part[0..|a|] == a && part[|a|..|a| + |b|] == b && part[|a| + |b|..|a| + |b| + |c|] == c;
  }

  /** Every tag of an encoding sits at its offset, complete, with the pointer of the next one. */
  lemma {:induction false} EncodeHolds(sequence: nat, tags: seq<Tag>, k: nat, next: nat, i: nat)
    requires Named(tags) && i < k <= |tags|
    ensures Sits(Encode(sequence, tags, k, next), Offset(tags, i),
                 TagBytes(sequence, tags[i], i == 0, if i + 1 < k then Offset(tags, i + 1) else next))
    decreases k
  {
    var e, gap := Encode(sequence, tags, k - 1, Offset(tags, k - 1)), Gap(tags, k - 1);
    var last := TagBytes(sequence, tags[k - 1], k == 1, next);
    if i == k - 1 {
      SitsEnd(e + gap, last);
    } else {
      EncodeHolds(sequence, tags, k - 1, Offset(tags, k - 1), i);
      var part := TagBytes(sequence, tags[i], i == 0, Offset(tags, i + 1));
      SitsBefore(e, gap, Offset(tags, i), part);
      SitsBefore(e + gap, last, Offset(tags, i), part);
    }
  }

  /** Offsets strictly increase past each tag's bytes. */
  lemma {:induction false} OffsetsIncrease(tags: seq<Tag>, i: nat, k: nat)
    requires i < k <= |tags|
    ensures Offset(tags, i) + HeaderLen(i == 0) + |tags[i].data| <= EncodedLen(tags, k) <= Offset(tags, k)
    decreases k
  {
    if i + 1 < k { OffsetsIncrease(tags, i, k - 1); }
  }

  /** The parts of a tag, where the walk and the decoders look for them. */
  ghost predicate Parts(s: seq<u8>, at: nat, t: Tag, first: bool, next: nat) {
    && Sits(s, at, t.name) && Sits(s, at + HeaderLen(first) - 4, Le32(next)) && Sits(s, at + HeaderLen(first), t.data)
    && (!first ==> Sits(s, at + 4, Le16(NEXT_HEADER + |t.data|)))
  }

  lemma TagParts(s: seq<u8>, at: nat, sequence: nat, t: Tag, first: bool, next: nat)
    requires |t.name| == 4 && Sits(s, at, TagBytes(sequence, t, first, next))
    ensures Parts(s, at, t, first, next)
  {
    var fields := Le16(HeaderLen(first) + |t.data|) + Le16(t.extra);
    var middle := (if first then Le16(0) + Le16(sequence) else []) + fields;
    assert TagBytes(sequence, t, first, next) == t.name + middle + (Le32(next) + t.data);
    SitsWithin(s, at, t.name, middle, Le32(next) + t.data);
    assert Le32(next) + t.data + [] == Le32(next) + t.data;
    SitsWithin(s, at + 4 + |middle|, Le32(next), t.data, []);
    if !first {
      assert middle == Le16(NEXT_HEADER + |t.data|) + Le16(t.extra) + [];
      SitsWithin(s, at + 4, Le16(NEXT_HEADER + |t.data|), Le16(t.extra), []);
    }
  }

  lemma EncodeParts(sequence: nat, tags: seq<Tag>, i: nat)
    requires Named(tags) && i < |tags|
    ensures Parts(Encode(sequence, tags, |tags|, 0), Offset(tags, i), tags[i], i == 0, NextOf(tags, i))
  {
    EncodeHolds(sequence, tags, |tags|, 0, i);
    TagParts(Encode(sequence, tags, |tags|, 0), Offset(tags, i), sequence, tags[i], i == 0, NextOf(tags, i));
  }

  lemma PointerRead(s: seq<u8>, at: nat, next: nat)
    requires next < 0x1_0000_0000 && Sits(s, at, Le32(next))
    ensures U32(s, at) == next
  {
    Le32Inverse(next);
    FieldLocal(s, Le32(next), at, 0, 4);
  }

  lemma LengthRead(s: seq<u8>, at: nat, length: nat)
    requires length < 65536 && Sits(s, at, Le16(length))
    ensures U16(s, at) == length
  {
    Le16Inverse(length);
    FieldLocal(s, Le16(length), at, 0, 2);
  }

  /** Everything but bytes 8 to 11 survives `get_packet`. */
  lemma SitsInPacket(c: Chain, at: nat, part: seq<u8>)
    requires |c.packet| >= FIRST_HEADER && Sits(c.packet, at, part) && (at + |part| <= 8 || 12 <= at)
    ensures Sits(GetPacket(c), at, part)
  {
  }

  lemma OffsetFacts(tags: seq<Tag>, i: nat)
    requires i < |tags|
    ensures i == 0 ==> Offset(tags, i) == 0
    ensures i > 0 ==> Offset(tags, i) >= FIRST_HEADER
    ensures Offset(tags, i) < Offset(tags, i + 1) && Offset(tags, i) <= EncodedLen(tags, |tags|)
  {
    if i > 0 { OffsetsIncrease(tags, 0, i); }
    OffsetsIncrease(tags, i, i + 1);
    OffsetsIncrease(tags, i, |tags|);
  }

  /** The pointer stored in tag `i`. */
  function NextOf(tags: seq<Tag>, i: nat): nat
    requires i < |tags|
  {
    if i + 1 < |tags| then Offset(tags, i + 1) else 0
  }

  /** What the walk needs of one tag in the final bytes. */
  ghost predicate TagOn(packet: seq<u8>, at: nat, t: Tag, first: bool, next: nat) {
    && Sits(packet, at, t.name)
    && at + HeaderLen(first) <= |packet| && U32(packet, at + HeaderLen(first) - 4) == next
    && Sits(packet, at + HeaderLen(first), t.data)
    && (!first ==> U16(packet, at + 4) == NEXT_HEADER + |t.data|)
  }

  /** The final bytes hold, at the offset of every tag, its name, the pointer to the next tag and its data. */
  lemma PacketParts(sequence: nat, tags: seq<Tag>, i: nat, c: Chain)
    requires Encodable(sequence, tags) && i < |tags| && EncodedLen(tags, |tags|) < 0x1_0000_0000
    requires c.packet == Encode(sequence, tags, |tags|, 0) && |c.packet| >= FIRST_HEADER
    ensures TagOn(GetPacket(c), Offset(tags, i), tags[i], i == 0, NextOf(tags, i))
  {
    EncodeParts(sequence, tags, i);
    OffsetFacts(tags, i);
    if i + 1 < |tags| { OffsetFacts(tags, i + 1); }
    TagSurvives(c, Offset(tags, i), tags[i], i == 0, NextOf(tags, i));
  }

  /** `get_packet` leaves every part of a tag that the walk reads. */
  lemma TagSurvives(c: Chain, at: nat, t: Tag, first: bool, next: nat)
    requires |t.name| == 4 && NEXT_HEADER + |t.data| < 65536 && next < 0x1_0000_0000 && |c.packet| >= FIRST_HEADER
    requires Parts(c.packet, at, t, first, next) && if first then at == 0 else at >= 12
    ensures TagOn(GetPacket(c), at, t, first, next)
  {
    NameSurvives(c, at, t, first);
    PointerSurvives(c, at + HeaderLen(first) - 4, next);
    if !first { LengthSurvives(c, at + 4, NEXT_HEADER + |t.data|); }
  }

  lemma NameSurvives(c: Chain, at: nat, t: Tag, first: bool)
    requires |c.packet| >= FIRST_HEADER && |t.name| == 4 && if first then at == 0 else at >= 12
    requires Sits(c.packet, at, t.name) && Sits(c.packet, at + HeaderLen(first), t.data)
    ensures Sits(GetPacket(c), at, t.name) && Sits(GetPacket(c), at + HeaderLen(first), t.data)
  {
    SitsInPacket(c, at, t.name);
    SitsInPacket(c, at + HeaderLen(first), t.data);
  }

  lemma PointerSurvives(c: Chain, at: nat, next: nat)
    requires |c.packet| >= FIRST_HEADER && 12 <= at && next < 0x1_0000_0000 && Sits(c.packet, at, Le32(next))
    ensures at + 4 <= |GetPacket(c)| && U32(GetPacket(c), at) == next
  {
    SitsInPacket(c, at, Le32(next));
    PointerRead(GetPacket(c), at, next);
  }

  lemma LengthSurvives(c: Chain, at: nat, length: nat)
    requires |c.packet| >= FIRST_HEADER && 12 <= at && length < 65536 && Sits(c.packet, at, Le16(length))
    ensures at + 2 <= |GetPacket(c)| && U16(GetPacket(c), at) == length
  {
    SitsInPacket(c, at, Le16(length));
    LengthRead(GetPacket(c), at, length);
  }

  ghost predicate TagAt(packet: seq<u8>, tags: seq<Tag>, i: nat)
    requires i < |tags|
  {
    TagOn(packet, Offset(tags, i), tags[i], i == 0, NextOf(tags, i))
  }

  ghost predicate AllOn(packet: seq<u8>, tags: seq<Tag>) {
    Named(tags) && forall i :: 0 <= i < |tags| ==> TagAt(packet, tags, i)
  }

  lemma {:induction false} WalkFrom(packet: seq<u8>, tags: seq<Tag>, i: nat)
    requires AllOn(packet, tags) && i < |tags|
    ensures Walk(packet, Offset(tags, i)) == VisitsFrom(tags, i)
    decreases |tags| - i
  {
    VisitOfTag(packet, tags, i);
    NextAhead(tags, i);
    WalkStep(packet, Offset(tags, i), VisitOf(tags, i));
    if i + 1 < |tags| {
      WalkFrom(packet, tags, i + 1);
    } else {
      assert VisitsFrom(tags, i + 1) == [];
    }
  }

  lemma VisitOfTag(packet: seq<u8>, tags: seq<Tag>, i: nat)
    requires AllOn(packet, tags) && i < |tags|
    ensures VisitAt(packet, Offset(tags, i)) == Some(VisitOf(tags, i))
  {
    OffsetFacts(tags, i);
    assert TagAt(packet, tags, i);
    VisitRead(packet, Offset(tags, i), tags[i], i == 0, NextOf(tags, i));
  }

  lemma NextAhead(tags: seq<Tag>, i: nat)
    requires i < |tags|
    ensures if i + 1 < |tags| then VisitOf(tags, i).next == Offset(tags, i + 1) > Offset(tags, i)
            else VisitOf(tags, i).next == 0
  {
    OffsetFacts(tags, i);
  }

  lemma VisitRead(packet: seq<u8>, at: nat, t: Tag, first: bool, next: nat)
    requires |t.name| == 4 && TagOn(packet, at, t, first, next) && (first <==> at == 0)
    ensures VisitAt(packet, at) == Some(Visit(at, t.name, next))
  {
  }

  lemma WalkStep(packet: seq<u8>, at: nat, v: Visit)
    requires VisitAt(packet, at) == Some(v)
    ensures Walk(packet, at) == [v] + if v.next <= at then [] else Walk(packet, v.next)
  {
  }

  /**
   * After any sequence of `append_tag` calls and `get_packet`, following the next-tag
   * pointers from offset 0 meets exactly the appended tags, in order, at strictly
   * increasing offsets divisible by 4, each with its data and (after the first) its length;
   * the first tag holds the total length.
   */
  lemma TagChain(sequence: nat, tags: seq<Tag>)
    requires Encodable(sequence, tags) && tags != [] && EncodedLen(tags, |tags|) < 0x1_0000_0000
    ensures Walk(Packet(sequence, tags), 0) == VisitsFrom(tags, 0)
    ensures forall i :: 0 <= i < |tags| ==> Offset(tags, i) < Offset(tags, i + 1) && Offset(tags, i) % 4 == 0
    ensures AllOn(Packet(sequence, tags), tags)
    ensures U32(Packet(sequence, tags), 8) == |Packet(sequence, tags)| == EncodedLen(tags, |tags|)
  {
    var c := Build(sequence, tags, |tags|);
    OffsetFacts(tags, 0);
    OffsetsIncrease(tags, 0, |tags|);
    forall i | 0 <= i < |tags|
      ensures TagAt(GetPacket(c), tags, i)
    {
      PacketParts(sequence, tags, i, c);
    }
    WalkFrom(GetPacket(c), tags, 0);
    forall i | 0 <= i < |tags|
      ensures Offset(tags, i) < Offset(tags, i + 1)
    {
      OffsetFacts(tags, i);
    }
    TotalRead(c);
  }

  lemma TotalRead(c: Chain)
    requires FIRST_HEADER <= |c.packet| < 0x1_0000_0000
    ensures U32(GetPacket(c), 8) == |GetPacket(c)| == |c.packet|
  {
    PointerRead(GetPacket(c), 8, |c.packet|);
  }

  // ---- One packet per frame ----

  /** The two tags of `XMMMux.package`. */
  function PackageTags(p: Packet): seq<Tag> {
    Pair(Zeros(16) + p, Le32(FIRST_HEADER) + Le32(|p| + 16))
  }

  function Pair(tail: seq<u8>, table: seq<u8>): (tags: seq<Tag>)
    ensures Named(tags)
  {
    [Tag(ADBH, tail, 0), Tag(ADTH, Le32(0) + table, 0)]
  }

  /** `struct.pack` accepts the first tag's length. */
  predicate Packable(p: Packet) {
    |p| + 32 < 65536
  }

  /** `XMMMux.package` for the sequence number it has stepped to. */
  function Package(sequence: nat, p: Packet): (bytes: seq<u8>)
    requires sequence < 256 && Packable(p)
  {
    Packet(sequence, PackageTags(p))
  }

  /** The frame `package` builds is the kernel's layout of a one-packet frame on channel 0, with its padding zeroed. */
  lemma PackageLayout(sequence: nat, p: Packet)
    requires sequence < 256 && AlignUp(FIRST_HEADER + 16 + |p|) + NEXT_HEADER + 12 < 65536
    ensures var n := FIRST_HEADER + 16 + |p|;
            Package(sequence, p) == Layout(sequence, 0, [p], Zeros(AlignUp(n) - n))
  {
    var n := FIRST_HEADER + 16 + |p|;
    PackageIs(sequence, p, Zeros(16) + p, Le32(FIRST_HEADER) + Le32(|p| + 16));
    LayoutOne(sequence, p, Zeros(AlignUp(n) - n));
  }

  lemma PackageIs(sequence: nat, p: Packet, tail: seq<u8>, table: seq<u8>)
    requires sequence < 256 && Packable(p) && tail == Zeros(16) + p && table == Le32(FIRST_HEADER) + Le32(|p| + 16)
    requires AlignUp(FIRST_HEADER + |tail|) + NEXT_HEADER + 12 < 65536
    ensures var n := FIRST_HEADER + |tail|;
            Package(sequence, p) == TwoTags(sequence, 0, tail, Zeros(AlignUp(n) - n), table)
  {
    var c := PackageChain(sequence, p);
    PairLayout(sequence, tail, table, c);
  }

  /** The object from which `package` takes its bytes. */
  lemma PackageChain(sequence: nat, p: Packet) returns (c: Chain)
    requires sequence < 256 && Packable(p)
    ensures Encodes(c, sequence, Pair(Zeros(16) + p, Le32(FIRST_HEADER) + Le32(|p| + 16)), 2)
    ensures |c.packet| >= FIRST_HEADER && Package(sequence, p) == GetPacket(c)
  {
    c := Build(sequence, PackageTags(p), 2);
    EncodedLenPositive(PackageTags(p), 2);
  }

  lemma LayoutOne(sequence: nat, p: Packet, pad: seq<u8>)
    ensures Layout(sequence, 0, [p], pad)
            == TwoTags(sequence, 0, Zeros(16) + p, pad, Le32(FIRST_HEADER) + Le32(|p| + 16))
  {
    OneEntry(p);
  }

  lemma PairLayout(sequence: nat, tail: seq<u8>, table: seq<u8>, c: Chain)
    requires AlignUp(FIRST_HEADER + |tail|) + NEXT_HEADER + 4 + |table| < 65536
    requires Encodes(c, sequence, Pair(tail, table), 2)
    ensures var n := FIRST_HEADER + |tail|;
            |c.packet| >= FIRST_HEADER && GetPacket(c) == TwoTags(sequence, 0, tail, Zeros(AlignUp(n) - n), table)
  {
    var n := FIRST_HEADER + |tail|;
    TwoTagEncoding(sequence, Pair(tail, table));
    TotalOverwrites(sequence, tail, Zeros(AlignUp(n) - n), table, c);
  }

  /** What `XMMMux` checks at its start: a frame seen on the wire is rebuilt byte for byte, with any 96 bytes in it. */
  lemma SelfCheck(data: seq<u8>)
    requires |data| == 96
    ensures Encodable(1, Pair(data, Le32(0x10) + Le32(0x60)))
    ensures Packet(1, Pair(data, Le32(0x10) + Le32(0x60)))
            == [0x41, 0x44, 0x42, 0x48, 0, 0, 1, 0, 0x88, 0, 0, 0, 0x70, 0, 0, 0] + data
               + [0x41, 0x44, 0x54, 0x48, 0x18, 0, 0, 0, 0, 0, 0, 0, 0, 0, 0, 0, 0x10, 0, 0, 0, 0x60, 0, 0, 0]
  {
    var table := Le32(0x10) + Le32(0x60);
    var tags := Pair(data, table);
    var c := Build(1, tags, 2);
    EncodedLenPositive(tags, 2);
    PairLayout(1, data, table, c);
    SelfCheckBytes(data);
  }

  lemma SelfCheckBytes(data: seq<u8>)
    requires |data| == 96
    ensures TwoTags(1, 0, data, [], Le32(0x10) + Le32(0x60))
            == [0x41, 0x44, 0x42, 0x48, 0, 0, 1, 0, 0x88, 0, 0, 0, 0x70, 0, 0, 0] + data
               + [0x41, 0x44, 0x54, 0x48, 0x18, 0, 0, 0, 0, 0, 0, 0, 0, 0, 0, 0, 0x10, 0, 0, 0, 0x60, 0, 0, 0]
  {
    assert Header(true, ADBH, 1, 0x88, 0, 0x70) == [0x41, 0x44, 0x42, 0x48, 0, 0, 1, 0, 0x88, 0, 0, 0, 0x70, 0, 0, 0];
    assert Header(false, ADTH, 0, 0x18, 0, 0) == [0x41, 0x44, 0x54, 0x48, 0x18, 0, 0, 0, 0, 0, 0, 0];
    assert Zeros(4) == [0, 0, 0, 0] && data + [] == data;
  }

  lemma OneEntry(p: Packet)
    ensures Body([p]) == Zeros(16) + p && BoundsBytes(BoundsOf([p])) == Le32(FIRST_HEADER) + Le32(|p| + 16)
  {
    var none: seq<Packet> := [];
    assert [p][..0] == none;
    var b := Bound(FIRST_HEADER, |p| + 16);
    assert BoundsOf([p]) == [b];
    var noBounds: seq<Bound> := [];
    assert [b][..0] == noBounds;
  }

  lemma TwoTagEncoding(sequence: nat, tags: seq<Tag>)
    requires Named(tags) && |tags| == 2
    ensures var n := FIRST_HEADER + |tags[0].data|;
            Encode(sequence, tags, 2, 0)
            == TagBytes(sequence, tags[0], true, AlignUp(n)) + Zeros(AlignUp(n) - n)
               + TagBytes(sequence, tags[1], false, 0)
  {
    assert Encode(sequence, tags, 1, Offset(tags, 1)) == TagBytes(sequence, tags[0], true, Offset(tags, 1));
  }

  /** The total written over the first tag's length and extra fields is what the C builders store in `length` alone. */
  lemma TotalOverwrites(sequence: nat, tail: seq<u8>, pad: seq<u8>, table: seq<u8>, c: Chain)
    requires FIRST_HEADER + |tail| + |pad| + NEXT_HEADER + 4 + |table| < 65536
    requires c.packet == TagBytes(sequence, Tag(ADBH, tail, 0), true, FIRST_HEADER + |tail| + |pad|) + pad
                         + TagBytes(sequence, Tag(ADTH, Le32(0) + table, 0), false, 0)
    ensures GetPacket(c) == TwoTags(sequence, 0, tail, pad, table)
  {
    var a := FIRST_HEADER + |tail| + |pad|;
    var adth := TagBytes(sequence, Tag(ADTH, Le32(0) + table, 0), false, 0);
    var h := Header(true, ADBH, sequence, FIRST_HEADER + |tail|, 0, a);
    Assoc(h, tail, pad);
    Assoc(h, tail + pad, adth);
    HeaderTotal(sequence, FIRST_HEADER + |tail|, a, |c.packet|, tail + pad + adth);
    AdthBytes(sequence, table);
    Assoc(Header(true, ADBH, sequence, |c.packet|, 0, a), tail + pad, adth);
  }

  lemma HeaderTotal(sequence: nat, length: nat, next: nat, total: nat, rest: seq<u8>)
    requires total < 65536
    ensures Patch(Header(true, ADBH, sequence, length, 0, next) + rest, 8, Le32(total))
            == Header(true, ADBH, sequence, total, 0, next) + rest
  {
    Le32OfShort(total);
  }

  lemma AdthBytes(sequence: nat, table: seq<u8>)
    ensures TagBytes(sequence, Tag(ADTH, Le32(0) + table, 0), false, 0)
            == Header(false, ADTH, 0, NEXT_HEADER + 4 + |table|, 0, 0) + Zeros(4) + table
  {
    assert Le32(0) == Zeros(4);
  }

  /** `data[offset:offset + length]`: Python clips a slice to the data. */
  function Clip(data: seq<u8>, from: nat, to: nat): seq<u8> {
    var hi := if to <= |data| then to else |data|;
    if from <= hi then data[from..hi] else []
  }

  /** The loop of `read_mux` over the rest of the ADTH tag. */
  function Entries(data: seq<u8>, tail: seq<u8>): seq<Packet>
    decreases |tail|
  {
    if |tail| < 8 then [] else
    [Clip(data, U32(tail, 0), U32(tail, 0) + U32(tail, 4))] + Entries(data, tail[8..])
  }

  /** `read_mux`: the packets written to the tun device, or `None` where `struct.unpack` raises. */
  function ReadMux(data: seq<u8>): Option<seq<Packet>> {
    if !(ADBH <= data) then Some([])
    else if |data| < FIRST_HEADER then None
    else
      var tail := Clip(data, U32(data, 12), |data|);
      if !(ADTH <= tail) then Some([]) else if |tail| < 8 then None else Some(Entries(data, Clip(tail, 16, |tail|)))
  }

  /**
   * `read_mux` takes nothing from a frame of another kind, or one whose pointer leads to no ADTH tag, and
   * raises exactly on an ADBH tag of fewer than 16 bytes or an ADTH tag of fewer than 8.
   */
  lemma ReadMuxEdges(data: seq<u8>)
    ensures !([0x41, 0x44, 0x42, 0x48] <= data) ==> ReadMux(data) == Some([])
    ensures [0x41, 0x44, 0x42, 0x48] <= data && |data| >= 16 && U32(data, 12) <= |data| ==>
              var tail := data[U32(data, 12)..];
              && (!([0x41, 0x44, 0x54, 0x48] <= tail) ==> ReadMux(data) == Some([]))
              && (ReadMux(data).None? <==> [0x41, 0x44, 0x54, 0x48] <= tail && |tail| < 8)
    ensures [0x41, 0x44, 0x42, 0x48] <= data && |data| >= 16 && U32(data, 12) > |data| ==> ReadMux(data) == Some([])
    ensures [0x41, 0x44, 0x42, 0x48] <= data && |data| < 16 ==> ReadMux(data) == None
  {
  }

  /** `read_mux` takes the one packet back out of what `package` built, behind its 16 zero bytes. */
  lemma PackageRoundTrip(sequence: nat, p: Packet)
    requires sequence < 256 && Packable(p)
    ensures ReadMux(Package(sequence, p)) == Some([Zeros(16) + p])
  {
    var tags := PackageTags(p);
    var c := Build(sequence, tags, 2);
    OffsetsIncrease(tags, 0, 2);
    PairOn(sequence, Zeros(16) + p, Le32(FIRST_HEADER) + Le32(|p| + 16), c);
    ReadBack(GetPacket(c), Zeros(16) + p, tags[1], AlignUp(FIRST_HEADER + 16 + |p|));
  }

  lemma PairOn(sequence: nat, tail: seq<u8>, table: seq<u8>, c: Chain)
    requires Encodable(sequence, Pair(tail, table)) && Encodes(c, sequence, Pair(tail, table), 2)
    ensures var a := AlignUp(FIRST_HEADER + |tail|);
            && |c.packet| == a + NEXT_HEADER + 4 + |table|
            && TagOn(GetPacket(c), 0, Tag(ADBH, tail, 0), true, a)
            && TagOn(GetPacket(c), a, Tag(ADTH, Le32(0) + table, 0), false, 0)
  {
    var tags := Pair(tail, table);
    assert EncodedLen(tags, 1) == FIRST_HEADER + |tail| by { assert EncodedLen(tags, 0) == 0; }
    PacketParts(sequence, tags, 0, c);
    PacketParts(sequence, tags, 1, c);
  }

  lemma ReadBack(data: seq<u8>, cell: seq<u8>, adth: Tag, a: nat)
    requires |data| == a + NEXT_HEADER + 12 && FIRST_HEADER + |cell| <= a && |cell| < 65536
    requires adth == Tag(ADTH, Le32(0) + (Le32(FIRST_HEADER) + Le32(|cell|)), 0)
    requires TagOn(data, 0, Tag(ADBH, cell, 0), true, a) && TagOn(data, a, adth, false, 0)
    ensures ReadMux(data) == Some([cell])
  {
    TableRead(data, a + NEXT_HEADER, |cell|);
    var tail := data[a..];
    var table := tail[16..];
    ClipRest(data, a);
    ClipRest(tail, 16);
    assert table == data[a + 16..];
    FieldLocal(table, data, 0, a + 16, 4) by { assert table[0..4] == data[a + 16..a + 20]; }
    FieldLocal(table, data, 4, a + 20, 4) by { assert table[4..8] == data[a + 20..a + 24]; }
    OneEntryRead(data, table, cell);
    ReadsEntries(data, tail, a);
  }

  lemma ClipRest(s: seq<u8>, from: nat)
    requires from <= |s|
    ensures Clip(s, from, |s|) == s[from..]
  {
    assert s[from..|s|] == s[from..];
  }

  lemma ReadsEntries(data: seq<u8>, tail: seq<u8>, a: nat)
    requires FIRST_HEADER <= a < |data| && U32(data, 12) == a && tail == data[a..] && |tail| >= 16
    requires Sits(data, 0, ADBH) && Sits(data, a, ADTH)
    ensures ReadMux(data) == Some(Entries(data, Clip(tail, 16, |tail|)))
  {
    ClipRest(data, a);
    assert data[..4] == ADBH && tail[..4] == data[a..a + 4] == ADTH;
  }

  lemma TableRead(data: seq<u8>, at: nat, length: nat)
    requires Sits(data, at, Le32(0) + (Le32(FIRST_HEADER) + Le32(length))) && length < 0x1_0000_0000
    ensures U32(data, at + 4) == FIRST_HEADER && U32(data, at + 8) == length
  {
    assert Le32(0) + (Le32(FIRST_HEADER) + Le32(length)) == Le32(0) + Le32(FIRST_HEADER) + Le32(length);
    SitsWithin(data, at, Le32(0), Le32(FIRST_HEADER), Le32(length));
    PointerRead(data, at + 4, FIRST_HEADER);
    PointerRead(data, at + 8, length);
  }

  lemma OneEntryRead(data: seq<u8>, table: seq<u8>, cell: seq<u8>)
    requires |table| == 8 && U32(table, 0) == FIRST_HEADER && U32(table, 4) == |cell| && Sits(data, FIRST_HEADER, cell)
    ensures Entries(data, table) == [cell]
  {
    var none: seq<u8> := [];
    assert table[8..] == none;
    assert Entries(data, none) == [];
  }

  /** The loop of `read_mux` over the rest of a table, entry by entry. */
  lemma {:induction false} EntriesFrom(data: seq<u8>, body: seq<u8>, table: seq<u8>, a: nat, bs: seq<Bound>,
                                       cells: seq<seq<u8>>, i: nat)
    requires Readable(data, body, table, a) && Cells(body, table, bs, cells) && |table| == BOUND * |bs| && i <= |bs|
    ensures Entries(data, table[BOUND * i..]) == cells[i..]
    decreases |bs| - i
  {
    if i < |bs| {
      EntriesFrom(data, body, table, a, bs, cells, i + 1);
      EntryStep(data, body, table, a, bs, cells, i);
      assert cells[i..] == [cells[i]] + cells[i + 1..];
    } else {
      assert table[BOUND * i..] == [] && cells[i..] == [];
    }
  }

  lemma EntryStep(data: seq<u8>, body: seq<u8>, table: seq<u8>, a: nat, bs: seq<Bound>, cells: seq<seq<u8>>, i: nat)
    requires Readable(data, body, table, a) && Cells(body, table, bs, cells) && |table| == BOUND * |bs| && i < |bs|
    ensures Entries(data, table[BOUND * i..]) == [cells[i]] + Entries(data, table[BOUND * (i + 1)..])
  {
    EntryOf(data, body, table, a, i, bs[i], cells[i]);
    EntryFirst(data, table, i, bs[i], cells[i]);
  }

  lemma EntryFirst(data: seq<u8>, table: seq<u8>, i: nat, b: Bound, cell: seq<u8>)
    requires BOUND * (i + 1) <= |table| && BoundAt(table, 0, i) == b && InPage(data, b) && Slice(data, b) == cell
    ensures Entries(data, table[BOUND * i..]) == [cell] + Entries(data, table[BOUND * (i + 1)..])
  {
    var tail := table[BOUND * i..];
    assert tail[0..8] == table[BOUND * i..BOUND * i + 8];
    EntryLocal(tail, table, 0, BOUND * i);
    assert tail[8..] == table[BOUND * (i + 1)..];
  }

  /** `read_mux` takes every packet, behind its 16 zero bytes, out of a finished frame. */
  lemma LayoutRead(sequence: nat, channel: nat, ps: seq<Packet>, pad: seq<u8>)
    requires |Layout(sequence, channel, ps, pad)| < 65536
    ensures ReadMux(Layout(sequence, channel, ps, pad)) == Some(Framed(ps))
  {
    var data, body, table := Layout(sequence, channel, ps, pad), Body(ps), BoundsBytes(BoundsOf(ps));
    TwoTagsFound(sequence, channel, body, pad, table, data, data);
    CellsOfPackets(ps);
    FrameTableRead(data, body, table, FIRST_HEADER + |body| + |pad|, BoundsOf(ps), Framed(ps));
  }

  lemma FrameTableRead(data: seq<u8>, body: seq<u8>, table: seq<u8>, a: nat, bs: seq<Bound>, cells: seq<seq<u8>>)
    requires Readable(data, body, table, a) && Linked(data, a, true) && |data| == a + NEXT_HEADER + 4 + |table|
    requires Cells(body, table, bs, cells) && |table| == BOUND * |bs|
    ensures ReadMux(data) == Some(cells)
  {
    var tail := data[a..];
    ReadsEntries(data, tail, a);
    ClipRest(tail, 16);
    assert tail[16..] == table[BOUND * 0..];
    EntriesFrom(data, body, table, a, bs, cells, 0);
    assert cells[0..] == cells;
  }

  /** So it does for the frames of either C builder, of any number of packets. */
  lemma FrameRead(f: Frame, ps: seq<Packet>, channel: nat)
    requires MuxFrame.Holds(f, ps) && AdthFits(f)
    ensures ReadMux(Completed(AppendAdth(f, channel).0)) == Some(Framed(ps))
  {
    AdthLayout(f, ps, channel);
    LayoutRead(f.sequence, channel, ps, Padding(f));
  }

  // ---- The three builders agree ----

  /**
   * For one packet, the same sequence number, channel 0 and zeroed padding, the kernel
   * builder (`wide` false), the user-space C builder (`wide` true) and the Python builder
   * produce the same bytes.
   */
  lemma EncodersAgree(f: Frame, g: Frame, p: Packet, sequence: nat)
    requires MuxFrame.Holds(f, [p]) && MuxFrame.Holds(g, [p]) && !f.wide && g.wide && AdthFits(f) && AdthFits(g)
    requires f.sequence == g.sequence == sequence < 256
    requires Padding(f) == Zeros(|Padding(f)|) && Padding(g) == Zeros(|Padding(g)|)
    ensures Packable(p)
    ensures Completed(AppendAdth(f, 0).0) == Completed(AppendAdth(g, 0).0) == Package(sequence, p)
  {
    BuilderBytes(f, p);
    BuilderBytes(g, p);
    PackageLayout(sequence, p);
  }

  lemma BuilderBytes(f: Frame, p: Packet)
    requires MuxFrame.Holds(f, [p]) && AdthFits(f) && Padding(f) == Zeros(|Padding(f)|)
    ensures var n := FIRST_HEADER + 16 + |p|;
            && Completed(AppendAdth(f, 0).0) == Layout(f.sequence, 0, [p], Zeros(AlignUp(n) - n))
            && AlignUp(n) + NEXT_HEADER + 12 < 65536
  {
    AdthLayout(f, [p], 0);
    UsedLength(f, p);
  }

  lemma UsedLength(f: Frame, p: Packet)
    requires MuxFrame.Holds(f, [p])
    ensures |f.used| == FIRST_HEADER + 16 + |p| && |f.bounds| == 1
  {
    OneEntry(p);
  }
}
