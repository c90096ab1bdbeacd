/** What the RPC reader makes of what the RPC writer wrote. */
module RpcRoundTrip {
  import opened Bytes
  import opened RpcCodec
  import opened RpcElements

  // ---- Numbers ----

  lemma {:induction false} FromBeAppend(a: seq<u8>, b: u8)
    ensures var low: int := b; FromBe(a + [b]) == 256 * FromBe(a) + low
  {
    assert (a + [b])[..|a|] == a;
  }

  lemma FromBeFour(a: u8, b: u8, c: u8, d: u8)
    ensures var w: int, x: int, y: int, z: int := a, b, c, d;
            FromBe([a, b, c, d]) == ((w * 256 + x) * 256 + y) * 256 + z
  {
    FromBeAppend([], a);
    assert [] + [a] == [a];
    FromBeAppend([a], b);
    assert [a] + [b] == [a, b];
    FromBeAppend([a, b], c);
    assert [a, b] + [c] == [a, b, c];
    FromBeAppend([a, b, c], d);
    assert [a, b, c] + [d] == [a, b, c, d];
  }

  /** The four base-256 digits of a 32-bit number. */
  lemma FourDigits(n: nat)
    requires n < 0x1_0000_0000
    ensures ((n / 16777216 * 256 + n / 65536 % 256) * 256 + n / 256 % 256) * 256 + n % 256 == n
  {
    var b, c, d := n / 256, n / 65536, n / 16777216;
    assert c == b / 256 && d == c / 256;
    assert d * 256 + c % 256 == c && c * 256 + b % 256 == b;
  }

  lemma Be32Value(n: nat)
    requires n < 0x1_0000_0000
    ensures FromBe(Be32(n)) == n
  {
    FromBeFour(n / 16777216, n / 65536 % 256, n / 256 % 256, n % 256);
    FourDigits(n);
  }

  /** A tagged number of any length is taken off the front of the data. */
  lemma IntRead(digits: seq<u8>, suffix: seq<u8>)
    requires |digits| < 256
    ensures TakeInt([INT_TAG, |digits|] + digits + suffix) == Ok((FromBe(digits), suffix))
  {
    var data := [INT_TAG, |digits|] + digits + suffix;
    assert data[2..2 + |digits|] == digits && data[2 + |digits|..] == suffix;
  }

  /** `asn_int4` and `pack` with an `L` write the same bytes. */
  lemma PackLong(n: nat)
    requires n < 0x1_0000_0000
    ensures PackNum(n, 4) == Ok(Item(AsnInt4(n), Int(n), true))
  {
    var (a, b, c, d) := (n % 256, n / 256, n / 65536, n / 16777216);
    assert ElemBytes(n, 4) == [a, b % 256, c % 256, d] by {
      assert b / 256 == c && c / 256 == d && d % 256 == d;
      assert ElemBytes(d, 1) == [d] + ElemBytes(d / 256, 0);
      assert ElemBytes(c, 2) == [c % 256] + ElemBytes(d, 1);
      assert ElemBytes(b, 3) == [b % 256] + ElemBytes(c, 2);
      assert ElemBytes(n, 4) == [a] + ElemBytes(b, 3);
    }
    ReverseFour(a, b % 256, c % 256, d);
  }

  lemma ReverseFour(a: u8, b: u8, c: u8, d: u8)
    ensures Reverse([a, b, c, d]) == [d, c, b, a]
  {
    assert [a, b, c, d][1..] == [b, c, d] && [b, c, d][1..] == [c, d] && [c, d][1..] == [d] && [d][1..] == [];
    assert Reverse([d]) == [d] by { assert Reverse([]) == []; }
    assert Reverse([c, d]) == [d, c];
    assert Reverse([b, c, d]) == [d, c, b];
  }

  lemma AsnInt4Read(n: nat, suffix: seq<u8>)
    requires n < 0x1_0000_0000
    ensures TakeInt(AsnInt4(n) + suffix) == Ok((n, suffix))
  {
    Be32Value(n);
    IntRead(Be32(n), suffix);
  }

  // ---- Strings ----

  /** The long-form length as the reader reads it. */
  function ReadLength(valid: nat): nat {
    if valid < 128 then valid else FromLe(MinBe(valid))
  }

  lemma ReadLengthSame(valid: nat)
    ensures ReadLength(valid) == valid <==> ReadsSame(valid)
  {
    MinBeValue(valid);
    SameInBothOrders(MinBe(valid));
  }

  lemma LengthRead(valid: nat, suffix: seq<u8>)
    requires valid < 0x1_0000_0000
    ensures TakeLength(LengthField(valid) + suffix) == Ok((ReadLength(valid), suffix))
  {
    var data := LengthField(valid) + suffix;
    if valid < 128 {
      assert data[1..] == suffix;
    } else {
      MinBeShort(valid, 4);
      var n := |MinBe(valid)|;
      assert data[0] == 0x80 + n && data[0] % 16 == n;
      assert data[1..1 + n] == MinBe(valid) && data[1 + n..] == suffix;
    }
  }

  /** `take_string` step by step. */
  lemma TakeStringSteps(data: seq<u8>, valid: nat, d1: seq<u8>, count: nat, d2: seq<u8>, padding: nat, d3: seq<u8>)
    requires data != [] && StringTag(data[0])
    requires TakeLength(data[1..]) == Ok((valid, d1)) && TakeInt(d1) == Ok((count, d2))
             && TakeInt(d2) == Ok((padding, d3))
    ensures TakeString(data) == TakePayload(d3, valid * Scale(data[0]), count, padding)
  {
  }

  /**
   * Fail-closed: on a string field followed by anything, the reader returns exactly the
   * payload and leaves exactly the rest, or raises; and it raises exactly when the length
   * bytes do not read the same in both orders.
   */
  lemma StringRead(payload: seq<u8>, valid: nat, length: nat, size: nat, suffix: seq<u8>)
    requires |payload| == valid * size && valid <= length && length * size < 0x1_0000_0000 && size in {1, 2, 4}
    ensures TakeString(StringField(payload, valid, length, size) + suffix)
            == if ReadsSame(valid) then Ok((payload, suffix)) else Raise(AssertionError)
  {
    var count, padding := length * size, (length - valid) * size;
    PaddingSplits(valid, length, size);
    var d3 := payload + Zeros(padding) + suffix;
    var d2 := AsnInt4(padding) + d3;
    var d1 := AsnInt4(count) + d2;
    FieldParts(TagOfSize(size), LengthField(valid), AsnInt4(count), AsnInt4(padding), payload, Zeros(padding), suffix);
    LengthRead(valid, d1);
    AsnInt4Read(count, d2);
    AsnInt4Read(padding, d3);
    TakeStringSteps([TagOfSize(size)] + (LengthField(valid) + d1), ReadLength(valid), d1, count, d2, padding, d3);
    ReadLengthSame(valid);
    PayloadRead(payload, valid, size, padding, suffix, count, ReadLength(valid));
  }

  lemma PaddingSplits(valid: nat, length: nat, size: nat)
    requires valid <= length && size in {1, 2, 4}
    ensures length * size == valid * size + (length - valid) * size
    ensures valid <= length * size && (length - valid) * size <= length * size
    ensures Scale(TagOfSize(size)) == size && StringTag(TagOfSize(size))
  {
  }

  lemma FieldParts(tag: u8, l: seq<u8>, c: seq<u8>, p: seq<u8>, payload: seq<u8>, zeros: seq<u8>, suffix: seq<u8>)
    ensures [tag] + l + c + p + payload + zeros + suffix == [tag] + (l + (c + (p + (payload + zeros + suffix))))
    ensures ([tag] + (l + (c + (p + (payload + zeros + suffix)))))[1..] == l + (c + (p + (payload + zeros + suffix)))
  {
  }

  /** A wrong length is always caught by the count check. */
  lemma PayloadRead(payload: seq<u8>, valid: nat, size: nat, padding: nat, suffix: seq<u8>, count: nat, read: nat)
    requires size in {1, 2, 4} && |payload| == valid * size && count == valid * size + padding
    requires read != valid ==> valid >= 128
    ensures TakePayload(payload + Zeros(padding) + suffix, read * size, count, padding)
            == if read == valid then Ok((payload, suffix)) else Raise(AssertionError)
  {
    var d3 := payload + Zeros(padding) + suffix;
    if read == valid {
      assert d3[..|payload|] == payload && d3[|payload| + padding..] == suffix;
    } else {
      assert read * size != valid * size && count != 0;
    }
  }

  /** Lengths below 256 always read back. */
  lemma ShortReadsSame(valid: nat)
    requires valid < 256
    ensures ReadsSame(valid)
  {
    if valid >= 128 {
      var none: seq<u8> := [];
      assert MinBe(0) == none && MinBe(valid) == [valid];
      assert [valid][1..] == none && Reverse(none) == none;
    }
  }

  /** From 256 to 65535 a length reads back exactly when its two bytes are equal. */
  lemma TwoByteReadsSame(valid: nat)
    requires 256 <= valid < 65536
    ensures ReadsSame(valid) <==> valid / 256 == valid % 256
  {
    var hi: u8, lo: u8 := valid / 256, valid % 256;
    assert MinBe(hi) == [hi] by { assert MinBe(0) == []; }
    assert MinBe(valid) == [hi, lo];
    var s := [hi, lo];
    assert s[1..] == [lo] && [lo][1..] == [];
    assert Reverse([lo]) == [lo] by { assert Reverse([]) == []; }
    assert Reverse(s) == [lo, hi];
  }

  // ---- Messages ----

  /** A packed item followed by anything reads as its field, or raises when it is not readable. */
  ghost predicate Reads(item: Item) {
    && item.bytes != []
    && (item.field.Int? ==> item.bytes[0] == INT_TAG && item.readable)
    && (item.field.Str? ==> StringTag(item.bytes[0]))
    && forall suffix :: ReadsBefore(item, suffix)
  }

  ghost predicate ReadsBefore(item: Item, suffix: seq<u8>) {
    match item.field
    case Int(n) => TakeInt(item.bytes + suffix) == Ok((n, suffix))
    case Str(payload) =>
      TakeString(item.bytes + suffix) == if item.readable then Ok((payload, suffix)) else Raise(AssertionError)
  }

  lemma PackNumReads(n: int, size: nat)
    requires size in {1, 2, 4} && PackNum(n, size).Ok?
    ensures Reads(PackNum(n, size).value)
  {
    var item := PackNum(n, size).value;
    var digits := Reverse(ElemBytes(n, size));
    LeIsReversedBe(ElemBytes(n, size));
    ElemBytesValue(n, size);
    forall suffix
      ensures ReadsBefore(item, suffix)
    {
      IntRead(digits, suffix);
    }
  }

  lemma PackStringReads(floats: Floats, elems: seq<int>, fmt: string, elemType: char)
    requires PackString(floats, elems, fmt, elemType).Ok?
    ensures Reads(PackString(floats, elems, fmt, elemType).value.0)
  {
    DigitsAre(fmt);
    var item := PackString(floats, elems, fmt, elemType).value.0;
    var length, size := Decimal(fmt[..Digits(fmt)]), ElemTypeOf(elemType).size;
    var payload := Payload(floats, elems, elemType).value;
    assert item.bytes == StringField(payload, |elems|, length, size);
    forall suffix
      ensures ReadsBefore(item, suffix)
    {
      StringRead(payload, |elems|, length, size, suffix);
    }
  }

  lemma PackItemReads(floats: Floats, fmt: string, args: seq<Arg>)
    requires fmt != [] && PackItem(floats, fmt, args).Ok?
    ensures Reads(PackItem(floats, fmt, args).value.0)
  {
    var arg, ch := args[0], fmt[0];
    if ch == 'B' || ch == 'H' || ch == 'L' {
      PackNumReads(arg.n, if ch == 'B' then 1 else if ch == 'H' then 2 else 4);
    } else {
      var (elemType, digits) := if ch == 's' then ('B', fmt[1..]) else (fmt[1], fmt[2..]);
      assert ch == 'S' ==> fmt[1..][1..] == fmt[2..];
      PackStringReads(floats, if arg.List? then arg.elems else [], digits, elemType);
    }
  }

  lemma {:induction false} ItemsRead(floats: Floats, fmt: string, args: seq<Arg>)
    requires Items(floats, fmt, args).Ok?
    ensures forall i :: 0 <= i < |Items(floats, fmt, args).value| ==> Reads(Items(floats, fmt, args).value[i])
    decreases |fmt|
  {
    if fmt != [] {
      PackItemReads(floats, fmt, args);
      ItemsRead(floats, PackItem(floats, fmt, args).value.1, PackItem(floats, fmt, args).value.2);
    }
  }

  function FieldsOf(items: seq<Item>): seq<Field> {
    if items == [] then [] else [items[0].field] + FieldsOf(items[1..])
  }

  predicate AllReadable(items: seq<Item>) {
    forall i :: 0 <= i < |items| ==> items[i].readable
  }

  /** The `unpack` format that names the kind of every item. */
  function KindsOf(items: seq<Item>): string {
    if items == [] then [] else (if items[0].field.Int? then "n" else "s") + KindsOf(items[1..])
  }

  lemma TailReadable(items: seq<Item>)
    requires items != []
    ensures AllReadable(items) <==> items[0].readable && AllReadable(items[1..])
  {
    if AllReadable(items[1..]) && items[0].readable {
      forall i | 0 <= i < |items|
        ensures items[i].readable
      {
        if i > 0 { assert items[i] == items[1..][i - 1]; }
      }
    }
  }

  lemma FieldStep(item: Item, tail: seq<u8>)
    requires Reads(item)
    ensures item.bytes + tail != []
    ensures TakeField(item.bytes + tail) == if item.readable then Ok((item.field, tail)) else Raise(AssertionError)
  {
    assert ReadsBefore(item, tail);
    assert (item.bytes + tail)[0] == item.bytes[0];
  }

  lemma UnknownOnce(data: seq<u8>, field: Field, tail: seq<u8>)
    requires data != []
    ensures TakeField(data) == Ok((field, tail)) ==> UnpackUnknown(data) == Prepend(field, UnpackUnknown(tail))
    ensures TakeField(data) == Raise(AssertionError) ==> UnpackUnknown(data) == Raise(AssertionError)
  {
  }

  lemma UnknownStep(item: Item, tail: seq<u8>)
    requires Reads(item)
    ensures UnpackUnknown(item.bytes + tail)
            == if item.readable then Prepend(item.field, UnpackUnknown(tail)) else Raise(AssertionError)
  {
    FieldStep(item, tail);
    UnknownOnce(item.bytes + tail, item.field, tail);
  }

  lemma KnownOnce(fmt: string, data: seq<u8>, field: Field, tail: seq<u8>)
    requires data != [] && fmt != [] && fmt[0] == (if field.Int? then 'n' else 's')
    requires if field.Int? then data[0] == INT_TAG else StringTag(data[0])
    ensures TakeField(data) == Ok((field, tail)) ==> Unpack(fmt, data) == Prepend(field, Unpack(fmt[1..], tail))
    ensures TakeField(data) == Raise(AssertionError) ==> Unpack(fmt, data) == Raise(AssertionError)
  {
  }

  lemma KnownStep(item: Item, kinds: string, tail: seq<u8>)
    requires Reads(item)
    ensures Unpack((if item.field.Int? then "n" else "s") + kinds, item.bytes + tail)
            == if item.readable then Prepend(item.field, Unpack(kinds, tail)) else Raise(AssertionError)
  {
    var fmt := (if item.field.Int? then "n" else "s") + kinds;
    FieldStep(item, tail);
    assert fmt[1..] == kinds;
    KnownOnce(fmt, item.bytes + tail, item.field, tail);
  }

  function Outcome(items: seq<Item>): Result<seq<Field>> {
    if AllReadable(items) then Ok(FieldsOf(items)) else Raise(AssertionError)
  }

  lemma OutcomeStep(items: seq<Item>)
    requires items != []
    ensures Outcome(items)
            == if items[0].readable then Prepend(items[0].field, Outcome(items[1..])) else Raise(AssertionError)
  {
    TailReadable(items);
  }

  /** Reading the items back, by both readers; whatever follows the last field is ignored by `unpack`. */
  lemma {:induction false} ItemsUnpack(items: seq<Item>, junk: seq<u8>)
    requires forall i :: 0 <= i < |items| ==> Reads(items[i])
    ensures UnpackUnknown(BytesOf(items)) == Outcome(items)
    ensures Unpack(KindsOf(items), BytesOf(items) + junk) == Outcome(items)
  {
    if items != [] {
      var item, rest := items[0], items[1..];
      ItemsUnpack(rest, junk);
      OutcomeStep(items);
      UnknownStep(item, BytesOf(rest));
      KnownStep(item, KindsOf(rest), BytesOf(rest) + junk);
      Assoc(item.bytes, BytesOf(rest), junk);
    }
  }

  // ---- What the items stand for ----

  /** What a format letter asks for: a number of some bytes, or a padded string of elements. */
  datatype Spec = NumSpec(size: nat) | StrSpec(elemType: char, length: nat)

  /** The first entry of a format and the rest of it; `None` when it cannot be packed, whatever the argument. */
  function Head(fmt: string): (r: Option<(Spec, string)>)
    requires fmt != []
    ensures r.Some? ==> |r.value.1| < |fmt|
  {
    match fmt[0]
    case 'B' => Some((NumSpec(1), fmt[1..]))
    case 'H' => Some((NumSpec(2), fmt[1..]))
    case 'L' => Some((NumSpec(4), fmt[1..]))
    case 's' => StrHead('B', fmt[1..])
    case 'S' => if |fmt| == 1 then None else StrHead(fmt[1], fmt[2..])
    case _ => None
  }

  function StrHead(elemType: char, fmt: string): (r: Option<(Spec, string)>)
    ensures r.Some? ==> |r.value.1| < |fmt|
  {
    DigitsAre(fmt);
    var k := Digits(fmt);
    if k == 0 || Width(elemType) == 0 || Decimal(fmt[..k]) * Width(elemType) >= 0x1_0000_0000 then None
    else Some((StrSpec(elemType, Decimal(fmt[..k])), fmt[k..]))
  }

  /** The format taken apart on its own: one entry per argument it wants. */
  function Specs(fmt: string): Option<seq<Spec>>
    decreases |fmt|
  {
    if fmt == [] then Some([])
    else if Head(fmt).None? then None
    else
      var rest := Specs(Head(fmt).value.1);
      if rest.None? then None else Some([Head(fmt).value.0] + rest.value)
  }

  /** The usual decimal digits of a number. */
  function DecimalDigits(n: nat): (s: string)
    ensures s != [] && forall ch :: ch in s ==> Digit(ch)
  {
    (if n < 10 then [] else DecimalDigits(n / 10)) + [('0' as int + n % 10) as char]
  }

  /** A length written in decimal in the format is read as that number, up to the first other letter. */
  lemma {:induction false} DecimalReads(n: nat, rest: string)
    requires rest == [] || !Digit(rest[0])
    ensures var fmt := DecimalDigits(n) + rest;
            && fmt[..Digits(fmt)] == DecimalDigits(n) && fmt[Digits(fmt)..] == rest
            && Decimal(DecimalDigits(n)) == n
  {
    DigitsEnd(DecimalDigits(n), rest);
    DecimalValue(n);
    var fmt := DecimalDigits(n) + rest;
    assert fmt[..|DecimalDigits(n)|] == DecimalDigits(n) && fmt[|DecimalDigits(n)|..] == rest;
  }

  lemma {:induction false} DigitsEnd(s: string, rest: string)
    requires (forall ch :: ch in s ==> Digit(ch)) && (rest == [] || !Digit(rest[0]))
    ensures Digits(s + rest) == |s|
  {
    if s == [] {
      assert s + rest == rest;
    } else {
      assert (s + rest)[1..] == s[1..] + rest;
      DigitsEnd(s[1..], rest);
    }
  }

  lemma {:induction false} DecimalValue(n: nat)
    ensures Decimal(DecimalDigits(n)) == n
  {
    var s := DecimalDigits(n);
    var front := if n < 10 then [] else DecimalDigits(n / 10);
    assert s == front + [('0' as int + n % 10) as char] && s[..|s| - 1] == front;
    if n >= 10 { DecimalValue(n / 10); }
  }

  /** The argument is of the kind and within the limits of its entry. */
  ghost predicate Accepts(floats: Floats, spec: Spec, arg: Arg) {
    match spec
    case NumSpec(size) => arg.Num? && 0 <= arg.n < Pow256(size)
    case StrSpec(elemType, length) =>
      && arg.List? && |arg.elems| <= length
      && forall i :: 0 <= i < |arg.elems| ==> Storable(floats, elemType, arg.elems[i])
  }

  ghost predicate AcceptsAll(floats: Floats, specs: Option<seq<Spec>>, args: seq<Arg>) {
    && specs.Some? && |specs.value| == |args|
    && forall i :: 0 <= i < |args| ==> Accepts(floats, specs.value[i], args[i])
  }

  /** The field an argument must come back as: the number itself, or its elements and no padding. */
  ghost predicate Matches(floats: Floats, spec: Spec, arg: Arg, field: Field) {
    match spec
    case NumSpec(size) => arg.Num? && arg.n >= 0 && field == Int(arg.n)
    case StrSpec(elemType, length) =>
      && arg.List? && field.Str? && StoresAll(floats, elemType, arg.elems, field.bytes)
      && (elemType == 'B' ==> field.bytes == arg.elems)
  }

  /** How many bytes the length of a string takes. */
  function LengthSize(valid: nat): nat {
    if valid < 128 then 1 else 1 + |MinBe(valid)|
  }

  /**
   * The form of a field on the wire: a tagged big-endian number of its entry's size, or a string tagged
   * with its element size, with room for all elements of its entry and zeros in the places that are not used.
   */
  ghost predicate Written(spec: Spec, arg: Arg, bytes: seq<u8>) {
    match spec
    case NumSpec(size) =>
      arg.Num? && |bytes| == 2 + size && bytes[0] == 0x02 && bytes[1] == size && FromBe(bytes[2..]) == arg.n
    case StrSpec(elemType, length) =>
      && arg.List? && |arg.elems| <= length
      && var padding := (length - |arg.elems|) * Width(elemType);
      && |bytes| == 13 + LengthSize(|arg.elems|) + length * Width(elemType) >= padding
      && bytes[0] == (if Width(elemType) == 1 then 0x55 else if Width(elemType) == 2 then 0x56 else 0x57)
      && bytes[|bytes| - padding..] == Zeros(padding)
  }

  /** The lengths the reader reads as the writer wrote them. */
  predicate ArgReadable(arg: Arg) {
    arg.List? ==> ReadsSame(|arg.elems|)
  }

  /** An argument has become this item. */
  ghost predicate Became(floats: Floats, spec: Spec, arg: Arg, item: Item) {
    Matches(floats, spec, arg, item.field) && Written(spec, arg, item.bytes) && item.readable == ArgReadable(arg)
  }

  lemma NumBecomes(floats: Floats, n: int, size: nat)
    requires size in {1, 2, 4}
    ensures PackNum(n, size).Ok? <==> Accepts(floats, NumSpec(size), Num(n))
    ensures PackNum(n, size).Ok? ==> Became(floats, NumSpec(size), Num(n), PackNum(n, size).value)
  {
    if 0 <= n < Pow256(size) {
      DigitsValue(n, size);
      NumWritten(n, size, Reverse(ElemBytes(n, size)));
    }
  }

  lemma DigitsValue(n: nat, size: nat)
    requires n < Pow256(size)
    ensures FromBe(Reverse(ElemBytes(n, size))) == n && |Reverse(ElemBytes(n, size))| == size
  {
    LeIsReversedBe(ElemBytes(n, size));
    ElemBytesValue(n, size);
  }

  lemma NumWritten(n: nat, size: nat, digits: seq<u8>)
    requires size in {1, 2, 4} && |digits| == size && FromBe(digits) == n
    ensures Written(NumSpec(size), Num(n), [INT_TAG, size] + digits)
  {
    assert ([INT_TAG, size] + digits)[2..] == digits;
  }

  lemma FieldWritten(payload: seq<u8>, valid: nat, length: nat, size: nat)
    requires |payload| == valid * size && valid <= length && length * size < 0x1_0000_0000 && size in {1, 2, 4}
    ensures var bytes, padding := StringField(payload, valid, length, size), (length - valid) * size;
            && |bytes| == 13 + LengthSize(valid) + length * size >= padding
            && bytes[0] == TagOfSize(size) && bytes[|bytes| - padding..] == Zeros(padding)
  {
    PaddingSplits(valid, length, size);
  }

  /** A list of elements packed into a field of `length` elements. */
  lemma ListBecomes(floats: Floats, elems: seq<int>, elemType: char, length: nat)
    requires ElemTypeOf(elemType).Elem? && Payload(floats, elems, elemType).Ok?
    requires |elems| <= length && length * Width(elemType) < 0x1_0000_0000
    ensures ElemTypeOf(elemType).size == Width(elemType) && Width(elemType) in {1, 2, 4}
    ensures var payload := Payload(floats, elems, elemType).value;
            Became(floats, StrSpec(elemType, length), List(elems),
                   Item(StringField(payload, |elems|, length, Width(elemType)), Str(payload), ReadsSame(|elems|)))
  {
    WidthIs(elemType);
    var payload := Payload(floats, elems, elemType).value;
    ListWritten(elems, elemType, length, payload);
    ListMatches(floats, elems, elemType, length);
  }

  lemma ListWritten(elems: seq<int>, elemType: char, length: nat, payload: seq<u8>)
    requires ElemTypeOf(elemType).Elem? && |payload| == |elems| * Width(elemType)
    requires |elems| <= length && length * Width(elemType) < 0x1_0000_0000
    ensures Width(elemType) in {1, 2, 4}
    ensures Written(StrSpec(elemType, length), List(elems), StringField(payload, |elems|, length, Width(elemType)))
  {
    FieldWritten(payload, |elems|, length, Width(elemType));
  }

  lemma ListMatches(floats: Floats, elems: seq<int>, elemType: char, length: nat)
    requires ElemTypeOf(elemType).Elem? && Payload(floats, elems, elemType).Ok?
    ensures Matches(floats, StrSpec(elemType, length), List(elems), Str(Payload(floats, elems, elemType).value))
  {
    PayloadStores(floats, elems, elemType);
    if elemType == 'B' { OctetsStored(floats, elems, Payload(floats, elems, elemType).value); }
  }

  /** What `_pack_string` returns, once its digits are read. */
  lemma StringPacked(floats: Floats, elems: seq<int>, fmt: string, elemType: char, length: nat, rest: string)
    requires Digits(fmt) > 0 && rest == fmt[Digits(fmt)..]
    requires forall ch :: ch in fmt[..Digits(fmt)] ==> Digit(ch)
    requires length == Decimal(fmt[..Digits(fmt)])
    ensures PackString(floats, elems, fmt, elemType).Ok?
            <==> |elems| <= length && ElemTypeOf(elemType).Elem? && Payload(floats, elems, elemType).Ok?
                 && length * ElemTypeOf(elemType).size < 0x1_0000_0000
    ensures PackString(floats, elems, fmt, elemType).Ok? ==>
              ElemTypeOf(elemType).size in {1, 2, 4} &&
              var payload := Payload(floats, elems, elemType).value;
              PackString(floats, elems, fmt, elemType).value
              == (Item(StringField(payload, |elems|, length, ElemTypeOf(elemType).size), Str(payload),
                       ReadsSame(|elems|)), rest)
  {
  }

  lemma StringBecomes(floats: Floats, elems: seq<int>, fmt: string, elemType: char)
    ensures PackString(floats, elems, fmt, elemType).Ok?
            <==> StrHead(elemType, fmt).Some? && Accepts(floats, StrHead(elemType, fmt).value.0, List(elems))
    ensures PackString(floats, elems, fmt, elemType).Ok? ==>
              var (item, rest) := PackString(floats, elems, fmt, elemType).value;
              Became(floats, StrHead(elemType, fmt).value.0, List(elems), item)
              && rest == StrHead(elemType, fmt).value.1
  {
    DigitsAre(fmt);
    WidthIs(elemType);
    if Digits(fmt) > 0 {
      var length := Decimal(fmt[..Digits(fmt)]);
      StringPacked(floats, elems, fmt, elemType, length, fmt[Digits(fmt)..]);
      if ElemTypeOf(elemType).Elem? { PayloadStores(floats, elems, elemType); }
      if PackString(floats, elems, fmt, elemType).Ok? { ListBecomes(floats, elems, elemType, length); }
    }
  }

  /** One turn of `pack` succeeds exactly when the format goes on legally with an argument that fits it. */
  lemma ItemBecomes(floats: Floats, fmt: string, args: seq<Arg>)
    requires fmt != []
    ensures PackItem(floats, fmt, args).Ok?
            <==> args != [] && Head(fmt).Some? && Accepts(floats, Head(fmt).value.0, args[0])
    ensures PackItem(floats, fmt, args).Ok? ==>
              var (item, rest, more) := PackItem(floats, fmt, args).value;
              && Became(floats, Head(fmt).value.0, args[0], item)
              && rest == Head(fmt).value.1 && more == args[1..]
  {
    if args != [] {
      var arg, ch := args[0], fmt[0];
      if arg.Num? && ch in "BHL" {
        NumBecomes(floats, arg.n, if ch == 'B' then 1 else if ch == 'H' then 2 else 4);
      } else if arg.List? && (ch == 's' || (ch == 'S' && |fmt| > 1)) {
        if ch == 'S' { assert fmt[1..][1..] == fmt[2..]; }
        StringBecomes(floats, arg.elems, if ch == 's' then fmt[1..] else fmt[2..], if ch == 's' then 'B' else fmt[1]);
      }
    }
  }

  /** Every argument has become the item its format letter asks for. */
  ghost predicate AllBecame(floats: Floats, specs: seq<Spec>, args: seq<Arg>, items: seq<Item>) {
    && |items| == |args| == |specs|
    && forall i :: 0 <= i < |args| ==> Became(floats, specs[i], args[i], items[i])
  }

  lemma AllBecameCons(floats: Floats, specs: seq<Spec>, args: seq<Arg>, items: seq<Item>)
    requires specs != [] && args != [] && items != [] && Became(floats, specs[0], args[0], items[0])
    requires AllBecame(floats, specs[1..], args[1..], items[1..])
    ensures AllBecame(floats, specs, args, items)
  {
    forall i | 0 < i < |args|
      ensures Became(floats, specs[i], args[i], items[i])
    {
      assert specs[i] == specs[1..][i - 1] && args[i] == args[1..][i - 1] && items[i] == items[1..][i - 1];
    }
  }

  lemma AcceptsAllCons(floats: Floats, spec: Spec, specs: seq<Spec>, args: seq<Arg>)
    requires args != []
    ensures AcceptsAll(floats, Some([spec] + specs), args)
            <==> Accepts(floats, spec, args[0]) && AcceptsAll(floats, Some(specs), args[1..])
  {
    var all := [spec] + specs;
    if Accepts(floats, spec, args[0]) && AcceptsAll(floats, Some(specs), args[1..]) {
      forall i | 0 <= i < |args|
        ensures Accepts(floats, all[i], args[i])
      {
        if i > 0 { assert all[i] == specs[i - 1] && args[i] == args[1..][i - 1]; }
      }
    }
    if AcceptsAll(floats, Some(all), args) {
      forall i | 0 <= i < |args[1..]|
        ensures Accepts(floats, specs[i], args[1..][i])
      {
        assert all[i + 1] == specs[i] && args[i + 1] == args[1..][i];
      }
    }
  }

  /** `pack` succeeds exactly for a legal format with one fitting argument for each of its entries. */
  lemma {:induction false} PackAcceptsIff(floats: Floats, fmt: string, args: seq<Arg>)
    ensures Items(floats, fmt, args).Ok? <==> AcceptsAll(floats, Specs(fmt), args)
    decreases |fmt|
  {
    if fmt != [] {
      ItemBecomes(floats, fmt, args);
      if args != [] && Head(fmt).Some? {
        var rest := Head(fmt).value.1;
        PackAcceptsIff(floats, rest, args[1..]);
        if Specs(rest).Some? { AcceptsAllCons(floats, Head(fmt).value.0, Specs(rest).value, args); }
      }
    }
  }

  lemma {:induction false} ItemsMatchArgs(floats: Floats, fmt: string, args: seq<Arg>)
    requires Items(floats, fmt, args).Ok?
    ensures Specs(fmt).Some? && AllBecame(floats, Specs(fmt).value, args, Items(floats, fmt, args).value)
    decreases |fmt|
  {
    if fmt != [] {
      ItemBecomes(floats, fmt, args);
      var (item, rest, more) := PackItem(floats, fmt, args).value;
      ItemsMatchArgs(floats, rest, more);
      var items, specs := Items(floats, fmt, args).value, Specs(fmt).value;
      assert items == [item] + Items(floats, rest, more).value && items[1..] == Items(floats, rest, more).value;
      assert specs[1..] == Specs(rest).value;
      AllBecameCons(floats, specs, args, items);
    }
  }

  /** The `unpack` format for what a `pack` format writes. */
  function KindsFor(specs: seq<Spec>): string {
    if specs == [] then [] else (if specs[0].NumSpec? then "n" else "s") + KindsFor(specs[1..])
  }

  lemma {:induction false} KindsAgree(floats: Floats, specs: seq<Spec>, args: seq<Arg>, items: seq<Item>)
    requires AllBecame(floats, specs, args, items)
    ensures KindsOf(items) == KindsFor(specs)
    decreases |items|
  {
    if items != [] {
      assert Became(floats, specs[0], args[0], items[0]);
      KindsAgree(floats, specs[1..], args[1..], items[1..]);
    }
  }

  lemma {:induction false} FieldsAt(items: seq<Item>)
    ensures |FieldsOf(items)| == |items| && forall i :: 0 <= i < |items| ==> FieldsOf(items)[i] == items[i].field
  {
    if items != [] { FieldsAt(items[1..]); }
  }

  /**
   * Message round trip: for every legal format and fitting arguments, both readers succeed
   * exactly when every string length reads the same in both byte orders, and then they give back
   * the numbers and the unpadded elements, one field per argument in order; otherwise both raise.
   */
  lemma MessageRoundTrip(floats: Floats, fmt: string, args: seq<Arg>, junk: seq<u8>)
    requires AcceptsAll(floats, Specs(fmt), args)
    ensures Pack(floats, fmt, args).Ok?
    ensures var bytes, specs := Pack(floats, fmt, args).value, Specs(fmt).value;
            var r := UnpackUnknown(bytes);
            && Unpack(KindsFor(specs), bytes + junk) == r
            && (r.Ok? <==> forall i :: 0 <= i < |args| ==> ArgReadable(args[i]))
            && (r.Raise? ==> r.error == AssertionError)
            && (r.Ok? ==>
                  && |r.value| == |args|
                  && forall i :: 0 <= i < |args| ==> Matches(floats, specs[i], args[i], r.value[i]))
  {
    PackAcceptsIff(floats, fmt, args);
    var items := Items(floats, fmt, args).value;
    ItemsRead(floats, fmt, args);
    ItemsUnpack(items, junk);
    ItemsMatchArgs(floats, fmt, args);
    KindsAgree(floats, Specs(fmt).value, args, items);
    FieldsAt(items);
    ReadableArgs(floats, Specs(fmt).value, args, items);
  }

  lemma ReadableArgs(floats: Floats, specs: seq<Spec>, args: seq<Arg>, items: seq<Item>)
    requires AllBecame(floats, specs, args, items)
    ensures AllReadable(items) <==> forall i :: 0 <= i < |args| ==> ArgReadable(args[i])
  {
    assert forall i :: 0 <= i < |args| ==> Became(floats, specs[i], args[i], items[i]);
  }
}
