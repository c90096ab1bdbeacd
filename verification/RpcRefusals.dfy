/** What the RPC codec raises: on arguments that do not fit their format, and on data that is cut off or not its own. */
module RpcRefusals {
  import opened Bytes
  import opened RpcCodec
  import opened RpcElements
  import opened RpcRoundTrip
  import opened RpcGrammar
  import opened RpcSession

  // ---- The writer ----

  /** The writer stops at the first letter or argument that does not fit. */
  lemma PackRefuses(floats: Floats, fmt: string, args: seq<Arg>)
    ensures fmt == [] && args != [] ==> Items(floats, fmt, args) == Raise(ValueError)
    ensures fmt != [] && args == [] ==> Items(floats, fmt, args) == Raise(IndexError)
    ensures fmt != [] && args != [] && fmt[0] !in "BHLsS" ==> Items(floats, fmt, args) == Raise(ValueError)
    ensures fmt != [] && args != [] && fmt[0] in "BHL" && !Accepts(floats, Head(fmt).value.0, args[0]) ==>
              Items(floats, fmt, args) == Raise(StructError)
    ensures args != [] && fmt == "S" ==> Items(floats, fmt, args) == Raise(IndexError)
  {
  }

  /** The number of elements that a format starts with. */
  function LengthIn(fmt: string): nat {
    DigitsAre(fmt);
    Decimal(fmt[..Digits(fmt)])
  }

  /** A string is refused by its length digits, its number of elements, and its letter, in that order. */
  lemma StringRefuses(floats: Floats, elems: seq<int>, fmt: string, ch: char)
    ensures var r := PackString(floats, elems, fmt, ch);
            && (Digits(fmt) == 0 ==> r == Raise(ValueError))
            && (Digits(fmt) > 0 && |elems| > LengthIn(fmt) ==> r == Raise(AssertionError))
            && (Digits(fmt) > 0 && |elems| <= LengthIn(fmt) ==>
                  && (ch !in "Bb?HheIifLlQqNnPd" ==> r == Raise(StructError))
                  && (ch in "LlQqNnPd" ==> r == Raise(KeyError))
                  && (r.Raise? && ch in "Bb?HhIi" ==> r.error == StructError))
  {
    if ch in "Bb?HhIi" { PayloadRefuses(floats, elems, ch); }
  }

  /** A number in the place of a string is refused behind its digits; a list raises what its packing raises. */
  lemma StringArgRefuses(floats: Floats, fmt: string, args: seq<Arg>)
    requires fmt != [] && args != [] && (fmt[0] == 's' || (fmt[0] == 'S' && |fmt| > 1))
    ensures var (ch, rest) := if fmt[0] == 's' then ('B', fmt[1..]) else (fmt[1], fmt[2..]);
            var r := PackItem(floats, fmt, args);
            if args[0].Num? then r == Raise(if Digits(rest) > 0 then TypeError else ValueError)
            else PackString(floats, args[0].elems, rest, ch).Raise? ==>
                   r == Raise(PackString(floats, args[0].elems, rest, ch).error)
  {
    if fmt[0] == 'S' { assert fmt[1..][1..] == fmt[2..]; }
  }

  lemma {:induction false} PayloadRefuses(floats: Floats, elems: seq<int>, ch: char)
    requires ch in "Bb?HhIi"
    ensures Payload(floats, elems, ch).Raise? ==> Payload(floats, elems, ch).error == StructError
    decreases |elems|
  {
    if elems != [] { PayloadRefuses(floats, elems[1..], ch); }
  }

  // ---- The reader ----

  /** A field of another tag is refused as such. */
  lemma OtherTagRefused(data: seq<u8>)
    requires data != [] && data[0] !in {0x02, 0x55, 0x56, 0x57}
    ensures UnpackUnknown(data) == Raise(ValueError)
  {
  }

  lemma IntCut(digits: seq<u8>, k: nat)
    requires |digits| < 256 && k < 2 + |digits|
    ensures TakeInt(IntBytes(digits)[..k]) == Raise(IndexError)
  {
    var data := IntBytes(digits)[..k];
    if k > 0 { assert data[0] == 0x02; }
    if k > 1 { assert data[1] == |digits|; }
  }

  lemma LengthCut(l: Length, k: nat)
    requires LengthOk(l) && k < |LengthBytes(l)|
    ensures TakeLength(LengthBytes(l)[..k]) == Raise(IndexError)
  {
    if k > 0 { assert LengthBytes(l)[..k][0] == LengthBytes(l)[0]; }
  }

  lemma PayloadCut(data: seq<u8>, valid: nat, count: nat, padding: nat)
    requires (count == 0 || count == valid + padding) && |data| < valid + padding
    ensures TakePayload(data, valid, count, padding) == Raise(IndexError)
  {
  }

  /** Cutting behind the first part of a sequence, or inside it. */
  lemma CutBehind(a: seq<u8>, b: seq<u8>, k: nat)
    requires k <= |a| + |b|
    ensures (a + b)[..k] == if k <= |a| then a[..k] else a + b[..k - |a|]
  {
  }

  /** `take_string` when one of its steps raises. */
  lemma StringStops(data: seq<u8>, length: Result<(nat, seq<u8>)>)
    requires data != [] && StringTag(data[0]) && length == TakeLength(data[1..])
    ensures length.Raise? ==> TakeString(data) == Raise(length.error)
    ensures length.Ok? && TakeInt(length.value.1).Raise? ==> TakeString(data) == Raise(TakeInt(length.value.1).error)
    ensures length.Ok? && TakeInt(length.value.1).Ok? && TakeInt(TakeInt(length.value.1).value.1).Raise? ==>
              TakeString(data) == Raise(TakeInt(TakeInt(length.value.1).value.1).error)
  {
  }

  /** The part of a string behind its tag, cut somewhere. */
  lemma StringCut(w: Wire, k: nat)
    requires WireOk(w) && w.StrWire? && k < |WireBytes(w)|
    ensures TakeString(WireBytes(w)[..k]) == Raise(IndexError)
  {
    if k > 0 {
      var tag := w.tag;
      var l, c, p, d3 := LengthBytes(w.length), IntBytes(w.count), IntBytes(w.padding), w.payload + w.pad;
      var j := k - 1;
      var behind := l + (c + (p + d3));
      assert WireBytes(w)[..k] == [tag] + behind[..j];
      var data := [tag] + behind[..j];
      assert data[1..] == behind[..j];
      CutBehind(l, c + (p + d3), j);
      if j < |l| {
        LengthCut(w.length, j);
        StringStops(data, TakeLength(data[1..]));
      } else {
        var j1 := j - |l|;
        var d1 := (c + (p + d3))[..j1];
        assert behind[..j] == l + d1;
        LengthTaken(w.length, d1);
        NumbersCut(data, w, d1, j1);
      }
    }
  }

  lemma NumbersCut(data: seq<u8>, w: Wire, d1: seq<u8>, j: nat)
    requires WireOk(w) && w.StrWire? && data != [] && data[0] == w.tag
    requires TakeLength(data[1..]) == Ok((LengthValue(w.length), d1))
    requires j < |IntBytes(w.count) + (IntBytes(w.padding) + (w.payload + w.pad))|
    requires d1 == (IntBytes(w.count) + (IntBytes(w.padding) + (w.payload + w.pad)))[..j]
    ensures TakeString(data) == Raise(IndexError)
  {
    var c, p, d3 := IntBytes(w.count), IntBytes(w.padding), w.payload + w.pad;
    StringStops(data, TakeLength(data[1..]));
    CutBehind(c, p + d3, j);
    if j < |c| {
      IntCut(w.count, j);
    } else {
      var j2 := j - |c|;
      var d2 := (p + d3)[..j2];
      assert d1 == c + d2;
      IntRead(w.count, d2);
      CutBehind(p, d3, j2);
      if j2 < |p| {
        IntCut(w.padding, j2);
      } else {
        var rest := d3[..j2 - |p|];
        assert d2 == p + rest;
        IntRead(w.padding, rest);
        TakeStringSteps(data, LengthValue(w.length), d1, FromBe(w.count), d2, FromBe(w.padding), rest);
        PayloadCut(rest, |w.payload|, FromBe(w.count), |w.pad|);
      }
    }
  }

  /** A field that is cut off anywhere raises, and gives no value. */
  lemma FieldCut(w: Wire, k: nat)
    requires WireOk(w) && 0 < k < |WireBytes(w)|
    ensures TakeField(WireBytes(w)[..k]) == Raise(IndexError)
  {
    assert WireBytes(w)[..k][0] == WireBytes(w)[0];
    if w.IntWire? { IntCut(w.digits, k); } else { StringCut(w, k); }
  }

  /** A body that is cut off inside any of its fields raises, whatever was read before. */
  lemma {:induction false} BodyCut(ws: seq<Wire>, w: Wire, k: nat)
    requires AllOk(ws) && WireOk(w) && 0 < k < |WireBytes(w)|
    ensures UnpackUnknown(BodyOf(ws) + WireBytes(w)[..k]) == Raise(IndexError)
    decreases |ws|
  {
    var tail := WireBytes(w)[..k];
    if ws == [] {
      assert BodyOf(ws) + tail == tail;
      FieldCut(w, k);
    } else {
      BodyCut(ws[1..], w, k);
      Assoc(WireBytes(ws[0]), BodyOf(ws[1..]), tail);
      FieldTaken(ws[0], BodyOf(ws[1..]) + tail);
      UnknownOnce(BodyOf(ws) + tail, WireField(ws[0]), BodyOf(ws[1..]) + tail);
    }
  }

  /** Why `handle_message` refuses a message, in the order of its checks. */
  lemma MessageRefused(m: seq<u8>)
    ensures !(|m| >= 12 && m[4] == 2 && m[5] == 4 && m[10] == 2 && m[11] == 4) ==>
              HandleMessage(m) == Raise(AssertionError)
    ensures 12 <= |m| < 20 && m[4] == 2 && m[5] == 4 && m[10] == 2 && m[11] == 4 ==>
              HandleMessage(m) == Raise(StructError)
    ensures |m| >= 20 && m[4] == 2 && m[5] == 4 && m[10] == 2 && m[11] == 4 ==>
              && (UnpackUnknown(m[20..]).Raise? ==> HandleMessage(m) == Raise(UnpackUnknown(m[20..]).error))
              && (AsyncResponse(m) && UnpackUnknown(m[20..]) == Ok([]) ==> HandleMessage(m) == Raise(IndexError))
              && (UnpackUnknown(m[20..]).Ok? && UnpackUnknown(m[20..]).value != [] && !Readable(m) ==>
                    HandleMessage(m) == Raise(AssertionError))
  {
    if |m| >= 20 {
      var word := m[16..20];
      WordBytes(word);
      assert word[..3] == [m[16], m[17], m[18]] && word == word[..3] + [m[19]];
    }
  }
}
