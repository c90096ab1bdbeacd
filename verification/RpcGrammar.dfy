/** The form of an RPC message body, and that the reader takes exactly the bodies of that form. */
module RpcGrammar {
  import opened Bytes
  import opened RpcCodec
  import opened RpcRoundTrip

  /** A length is one byte below 128, or a byte whose low four bits count the bytes that follow. */
  datatype Length = Short(n: u8) | Long(head: u8, digits: seq<u8>)

  /**
   * A number of any size, or a string: its length in elements, the sizes of all its room and of its
   * padding as numbers of any size, the payload, and the padding.
   */
  datatype Wire =
    | IntWire(digits: seq<u8>)
    | StrWire(tag: u8, length: Length, count: seq<u8>, padding: seq<u8>, payload: seq<u8>, pad: seq<u8>)

  predicate LengthOk(l: Length) {
    match l
    case Short(n) => n < 128
    case Long(head, digits) => head >= 128 && |digits| == head % 16
  }

  function LengthValue(l: Length): nat {
    match l
    case Short(n) => n
    case Long(_, digits) => FromLe(digits)
  }

  function LengthBytes(l: Length): seq<u8> {
    match l
    case Short(n) => [n]
    case Long(head, digits) => [head] + digits
  }

  /** The payload has the length given, times the element size of the tag; a room of 0 is not checked against them. */
  predicate WireOk(w: Wire) {
    match w
    case IntWire(digits) => |digits| < 256
    case StrWire(tag, length, count, padding, payload, pad) =>
      && tag in {0x55, 0x56, 0x57} && LengthOk(length) && |count| < 256 && |padding| < 256
      && |payload| == LengthValue(length) * (if tag == 0x55 then 1 else if tag == 0x56 then 2 else 4)
      && |pad| == FromBe(padding)
      && (FromBe(count) == 0 || FromBe(count) == |payload| + |pad|)
  }

  function IntBytes(digits: seq<u8>): seq<u8>
    requires |digits| < 256
  {
    [0x02, |digits|] + digits
  }

  function WireBytes(w: Wire): (s: seq<u8>)
    requires WireOk(w)
    ensures s != []
  {
    match w
    case IntWire(digits) => IntBytes(digits)
    case StrWire(tag, length, count, padding, payload, pad) =>
      [tag] + (LengthBytes(length) + (IntBytes(count) + (IntBytes(padding) + (payload + pad))))
  }

  function WireField(w: Wire): Field {
    match w
    case IntWire(digits) => Int(FromBe(digits))
    case StrWire(_, _, _, _, payload, _) => Str(payload)
  }

  // ---- Every field of that form is read ----

  lemma LengthTaken(l: Length, rest: seq<u8>)
    requires LengthOk(l)
    ensures TakeLength(LengthBytes(l) + rest) == Ok((LengthValue(l), rest))
  {
    var data := LengthBytes(l) + rest;
    match l
    case Short(n) => assert data[1..] == rest;
    case Long(head, digits) => assert data[1..1 + |digits|] == digits && data[1 + |digits|..] == rest;
  }

  lemma PayloadTaken(payload: seq<u8>, pad: seq<u8>, rest: seq<u8>, count: nat)
    requires count == 0 || count == |payload| + |pad|
    ensures TakePayload(payload + pad + rest, |payload|, count, |pad|) == Ok((payload, rest))
  {
    var data := payload + pad + rest;
    assert data[..|payload|] == payload && data[|payload| + |pad|..] == rest;
  }

  lemma StringTaken(w: Wire, rest: seq<u8>)
    requires WireOk(w) && w.StrWire?
    ensures TakeString(WireBytes(w) + rest) == Ok((w.payload, rest))
  {
    var d3 := w.payload + w.pad + rest;
    var d2 := IntBytes(w.padding) + d3;
    var d1 := IntBytes(w.count) + d2;
    var data := WireBytes(w) + rest;
    assert data == [w.tag] + (LengthBytes(w.length) + d1);
    assert data[1..] == LengthBytes(w.length) + d1;
    LengthTaken(w.length, d1);
    IntRead(w.count, d2);
    IntRead(w.padding, d3);
    TakeStringSteps(data, LengthValue(w.length), d1, FromBe(w.count), d2, FromBe(w.padding), d3);
    PayloadTaken(w.payload, w.pad, rest, FromBe(w.count));
  }

  lemma FieldTaken(w: Wire, rest: seq<u8>)
    requires WireOk(w)
    ensures TakeField(WireBytes(w) + rest) == Ok((WireField(w), rest))
  {
    match w
    case IntWire(digits) => IntRead(digits, rest);
    case StrWire(tag, _, _, _, _, _) =>
      StringTaken(w, rest);
      assert (WireBytes(w) + rest)[0] == tag;
  }

  // ---- Nothing else is read ----

  lemma IntParts(data: seq<u8>) returns (digits: seq<u8>)
    requires TakeInt(data).Ok?
    ensures |digits| < 256 && TakeInt(data).value.0 == FromBe(digits)
    ensures data == IntBytes(digits) + TakeInt(data).value.1
  {
    digits := data[2..2 + data[1]];
  }

  lemma LengthParts(data: seq<u8>) returns (l: Length)
    requires TakeLength(data).Ok?
    ensures LengthOk(l) && TakeLength(data).value.0 == LengthValue(l)
    ensures data == LengthBytes(l) + TakeLength(data).value.1
  {
    l := if data[0] < 128 then Short(data[0]) else Long(data[0], data[1..1 + data[0] % 16]);
  }

  /** What the steps of `take_string` were when it returns. */
  lemma StringSteps(data: seq<u8>)
    requires TakeString(data).Ok?
    ensures data != [] && StringTag(data[0]) && TakeLength(data[1..]).Ok?
    ensures TakeInt(TakeLength(data[1..]).value.1).Ok?
    ensures TakeInt(TakeInt(TakeLength(data[1..]).value.1).value.1).Ok?
    ensures var (n, d1) := TakeLength(data[1..]).value;
            var (count, d2) := TakeInt(d1).value;
            var (padding, d3) := TakeInt(d2).value;
            TakeString(data) == TakePayload(d3, n * Scale(data[0]), count, padding)
  {
  }

  lemma StringParts(data: seq<u8>) returns (w: Wire)
    requires TakeString(data).Ok?
    ensures WireOk(w) && w.StrWire? && w.payload == TakeString(data).value.0
    ensures data == WireBytes(w) + TakeString(data).value.1
  {
    StringSteps(data);
    var (n, d1) := TakeLength(data[1..]).value;
    var (count, d2) := TakeInt(d1).value;
    var (padding, d3) := TakeInt(d2).value;
    var length := LengthParts(data[1..]);
    var c := IntParts(d1);
    var p := IntParts(d2);
    var valid := n * Scale(data[0]);
    w := StrWire(data[0], length, c, p, d3[..valid], d3[valid..valid + padding]);
    PayloadSplits(d3, valid, count, padding);
    StringWire(data[0], length, c, p, w.payload, w.pad);
    Reassembled(data, [data[0]], LengthBytes(length), IntBytes(c), IntBytes(p), d1, d2, d3, valid, padding);
  }

  lemma PayloadSplits(data: seq<u8>, valid: nat, count: nat, padding: nat)
    requires TakePayload(data, valid, count, padding).Ok?
    ensures valid + padding <= |data| && (count == 0 || count == valid + padding)
    ensures TakePayload(data, valid, count, padding).value == (data[..valid], data[valid + padding..])
  {
  }

  lemma StringWire(tag: u8, length: Length, count: seq<u8>, padding: seq<u8>, payload: seq<u8>, pad: seq<u8>)
    requires StringTag(tag) && LengthOk(length) && |count| < 256 && |padding| < 256
    requires |payload| == LengthValue(length) * Scale(tag) && |pad| == FromBe(padding)
    requires FromBe(count) == 0 || FromBe(count) == |payload| + |pad|
    ensures var w := StrWire(tag, length, count, padding, payload, pad);
            && WireOk(w)
            && WireBytes(w)
               == [tag] + (LengthBytes(length) + (IntBytes(count) + (IntBytes(padding) + (payload + pad))))
  {
  }

  lemma Reassembled(data: seq<u8>, tag: seq<u8>, l: seq<u8>, c: seq<u8>, p: seq<u8>, d1: seq<u8>, d2: seq<u8>,
                    d3: seq<u8>, valid: nat, padding: nat)
    requires data != [] && tag == [data[0]] && data[1..] == l + d1 && d1 == c + d2 && d2 == p + d3
    requires valid + padding <= |d3|
    ensures data == tag + (l + (c + (p + (d3[..valid] + d3[valid..valid + padding])))) + d3[valid + padding..]
  {
    assert d3 == d3[..valid] + d3[valid..valid + padding] + d3[valid + padding..];
  }

  lemma FieldParts(data: seq<u8>) returns (w: Wire)
    requires data != [] && TakeField(data).Ok?
    ensures WireOk(w) && WireField(w) == TakeField(data).value.0
    ensures data == WireBytes(w) + TakeField(data).value.1
  {
    if data[0] == INT_TAG {
      var digits := IntParts(data);
      w := IntWire(digits);
    } else {
      w := StringParts(data);
    }
  }

  // ---- Whole bodies ----

  predicate AllOk(ws: seq<Wire>) {
    forall w :: w in ws ==> WireOk(w)
  }

  function BodyOf(ws: seq<Wire>): seq<u8>
    requires AllOk(ws)
  {
    if ws == [] then [] else WireBytes(ws[0]) + BodyOf(ws[1..])
  }

  function FieldsIn(ws: seq<Wire>): seq<Field> {
    if ws == [] then [] else [WireField(ws[0])] + FieldsIn(ws[1..])
  }

  /** A list of fields of that form is read as their values, one after the other. */
  lemma {:induction false} BodyReads(ws: seq<Wire>)
    requires AllOk(ws)
    ensures UnpackUnknown(BodyOf(ws)) == Ok(FieldsIn(ws))
    decreases |ws|
  {
    if ws != [] {
      FieldTaken(ws[0], BodyOf(ws[1..]));
      BodyReads(ws[1..]);
      UnknownOnce(BodyOf(ws), WireField(ws[0]), BodyOf(ws[1..]));
    }
  }

  /** Any body that is read is such a list. */
  lemma {:induction false} ReadBody(data: seq<u8>) returns (ws: seq<Wire>)
    requires UnpackUnknown(data).Ok?
    ensures AllOk(ws) && data == BodyOf(ws)
    decreases |data|
  {
    if data == [] {
      ws := [];
    } else {
      var w := FieldParts(data);
      var rest := ReadBody(TakeField(data).value.1);
      ws := [w] + rest;
      assert ws[1..] == rest;
    }
  }

  /**
   * The reader takes exactly the bodies that are a list of such fields, whoever wrote them, and gives
   * back their values in order.
   */
  lemma ReadsIff(data: seq<u8>)
    ensures UnpackUnknown(data).Ok? <==> exists ws :: AllOk(ws) && data == BodyOf(ws)
    ensures forall ws :: AllOk(ws) && data == BodyOf(ws) ==> UnpackUnknown(data) == Ok(FieldsIn(ws))
  {
    forall ws | AllOk(ws) && data == BodyOf(ws)
      ensures UnpackUnknown(data) == Ok(FieldsIn(ws))
    {
      BodyReads(ws);
    }
    if UnpackUnknown(data).Ok? { var ws := ReadBody(data); }
  }

  // ---- The reader with a format ----

  function Letters(ws: seq<Wire>): string {
    if ws == [] then [] else [if ws[0].IntWire? then 'n' else 's'] + Letters(ws[1..])
  }

  lemma KindTaken(w: Wire, rest: seq<u8>)
    requires WireOk(w)
    ensures TakeKind(if w.IntWire? then 'n' else 's', WireBytes(w) + rest) == Ok((WireField(w), rest))
  {
    if w.IntWire? { IntRead(w.digits, rest); } else { StringTaken(w, rest); }
  }

  lemma KindParts(ch: char, data: seq<u8>) returns (w: Wire)
    requires TakeKind(ch, data).Ok?
    ensures WireOk(w) && WireField(w) == TakeKind(ch, data).value.0 && ch == if w.IntWire? then 'n' else 's'
    ensures data == WireBytes(w) + TakeKind(ch, data).value.1
  {
    if ch == 'n' {
      var digits := IntParts(data);
      w := IntWire(digits);
    } else {
      w := StringParts(data);
    }
  }

  /** One `n` or `s` for each field in front: their values, and whatever follows is ignored. */
  lemma {:induction false} FormatReads(ws: seq<Wire>, junk: seq<u8>)
    requires AllOk(ws)
    ensures Unpack(Letters(ws), BodyOf(ws) + junk) == Ok(FieldsIn(ws))
    decreases |ws|
  {
    if ws != [] {
      Assoc(WireBytes(ws[0]), BodyOf(ws[1..]), junk);
      KindTaken(ws[0], BodyOf(ws[1..]) + junk);
      FormatReads(ws[1..], junk);
      assert Letters(ws)[1..] == Letters(ws[1..]);
    }
  }

  /** Data that is read with a format starts with fields of the kinds the format names. */
  lemma {:induction false} FormatOnly(fmt: string, data: seq<u8>) returns (ws: seq<Wire>, junk: seq<u8>)
    requires Unpack(fmt, data).Ok?
    ensures AllOk(ws) && Letters(ws) == fmt && data == BodyOf(ws) + junk
    decreases |fmt|
  {
    if fmt == [] {
      ws, junk := [], data;
    } else {
      var w := KindParts(fmt[0], data);
      ws, junk := FormatOnly(fmt[1..], TakeKind(fmt[0], data).value.1);
      OneMoreField(fmt, data, w, ws, junk);
      ws := [w] + ws;
    }
  }

  lemma OneMoreField(fmt: string, data: seq<u8>, w: Wire, ws: seq<Wire>, junk: seq<u8>)
    requires WireOk(w) && AllOk(ws) && fmt != []
    requires fmt[0] == (if w.IntWire? then 'n' else 's') && fmt[1..] == Letters(ws)
    requires data == WireBytes(w) + (BodyOf(ws) + junk)
    ensures AllOk([w] + ws) && Letters([w] + ws) == fmt && data == BodyOf([w] + ws) + junk
  {
    Assoc(WireBytes(w), BodyOf(ws), junk);
    assert ([w] + ws)[1..] == ws && fmt == [fmt[0]] + fmt[1..];
  }
}
