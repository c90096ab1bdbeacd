/** The RPC field codec (rpc.py), on values: a BER-like writer and a reader that consumes its input. */
module RpcCodec {
  import opened Bytes

  datatype Exception = AssertionError | IndexError | ValueError | TypeError | StructError | KeyError

  datatype Result<+T> = Ok(value: T) | Raise(error: Exception)

  datatype Field = Int(n: nat) | Str(bytes: seq<u8>)

  const INT_TAG: u8 := 0x02

  predicate StringTag(t: u8) {
    t == 0x55 || t == 0x56 || t == 0x57
  }

  // ---- Numbers in both byte orders ----

  function FromBe(s: seq<u8>): nat {
    if s == [] then 0 else
    var low: int := s[|s| - 1];
    256 * FromBe(s[..|s| - 1]) + low
  }

  function FromLe(s: seq<u8>): nat {
    if s == [] then 0 else
    var low: int := s[0];
    low + 256 * FromLe(s[1..])
  }

  function Reverse(s: seq<u8>): (r: seq<u8>)
    ensures |r| == |s|
  {
    if s == [] then [] else Reverse(s[1..]) + [s[0]]
  }

  /** The shortest big-endian form, as the writer's loop builds it. */
  function MinBe(n: nat): (s: seq<u8>)
    ensures n > 0 ==> s != []
  {
    if n == 0 then [] else MinBe(n / 256) + [n % 256]
  }

  lemma {:induction false} MinBeValue(n: nat)
    ensures FromBe(MinBe(n)) == n
  {
    if n > 0 {
      MinBeValue(n / 256);
      assert MinBe(n)[..|MinBe(n)| - 1] == MinBe(n / 256);
    }
  }

  lemma {:induction false} LeIsReversedBe(s: seq<u8>)
    ensures FromLe(s) == FromBe(Reverse(s))
  {
    if s != [] {
      LeIsReversedBe(s[1..]);
      var r := Reverse(s);
      assert r[..|r| - 1] == Reverse(s[1..]);
    }
  }

  lemma {:induction false} BeInjective(s: seq<u8>, t: seq<u8>)
    requires |s| == |t| && FromBe(s) == FromBe(t)
    ensures s == t
  {
    if s != [] {
      var n := |s| - 1;
      var a: int, b: int := s[n], t[n];
      assert 256 * FromBe(s[..n]) + a == 256 * FromBe(t[..n]) + b;
      assert FromBe(s[..n]) == FromBe(t[..n]) && a == b;
      BeInjective(s[..n], t[..n]);
      assert s == s[..n] + [s[n]] && t == t[..n] + [t[n]];
    }
  }

  /** Length bytes read the same in both orders exactly when they are a palindrome. */
  lemma SameInBothOrders(s: seq<u8>)
    ensures FromLe(s) == FromBe(s) <==> Reverse(s) == s
  {
    LeIsReversedBe(s);
    if FromLe(s) == FromBe(s) { BeInjective(Reverse(s), s); }
  }

  // ---- The reader ----

  /** `take_asn_int`: the number and the rest of the data. */
  function TakeInt(data: seq<u8>): (r: Result<(nat, seq<u8>)>)
    ensures r.Ok? ==> |r.value.1| < |data|
  {
    if data == [] then Raise(IndexError)
    else if data[0] != INT_TAG then Raise(AssertionError)
    else if |data| < 2 then Raise(IndexError)
    else
      var n: int := data[1];
      if |data| < 2 + n then Raise(IndexError) else Ok((FromBe(data[2..2 + n]), data[2 + n..]))
  }

  /** The length of `take_string`: the long form is read least significant byte first. */
  function TakeLength(data: seq<u8>): (r: Result<(nat, seq<u8>)>)
    ensures r.Ok? ==> |r.value.1| < |data|
  {
    if data == [] then Raise(IndexError)
    else if data[0] < 128 then Ok((data[0], data[1..]))
    else
      var n := data[0] % 16;
      if |data| < 1 + n then Raise(IndexError) else Ok((FromLe(data[1..1 + n]), data[1 + n..]))
  }

  function Scale(tag: u8): nat {
    if tag == 0x56 then 2 else if tag == 0x57 then 4 else 1
  }

  /** `take_string`: the payload and the rest of the data. */
  function TakeString(data: seq<u8>): (r: Result<(seq<u8>, seq<u8>)>)
    ensures r.Ok? ==> |r.value.1| < |data|
  {
    if data == [] then Raise(IndexError)
    else if !StringTag(data[0]) then Raise(AssertionError)
    else
      var length := TakeLength(data[1..]);
      if length.Raise? then Raise(length.error) else
      var valid := length.value.0 * Scale(data[0]);
      var count := TakeInt(length.value.1);
      if count.Raise? then Raise(count.error) else
      var padding := TakeInt(count.value.1);
      if padding.Raise? then Raise(padding.error) else
      TakePayload(padding.value.1, valid, count.value.0, padding.value.0)
  }

  /** The end of `take_string`: the count check, then the payload and the padding. */
  function TakePayload(data: seq<u8>, valid: nat, count: nat, padding: nat): (r: Result<(seq<u8>, seq<u8>)>)
    ensures r.Ok? ==> |r.value.1| <= |data|
  {
    if count != 0 && count != valid + padding then Raise(AssertionError)
    else if |data| < valid + padding then Raise(IndexError)
    else Ok((data[..valid], data[valid + padding..]))
  }

  /** One field of `unpack_unknown`. */
  function TakeField(data: seq<u8>): (r: Result<(Field, seq<u8>)>)
    requires data != []
    ensures r.Ok? ==> |r.value.1| < |data|
  {
    if data[0] == INT_TAG then
      var r := TakeInt(data);
      if r.Raise? then Raise(r.error) else Ok((Int(r.value.0), r.value.1))
    else if StringTag(data[0]) then
      var r := TakeString(data);
      if r.Raise? then Raise(r.error) else Ok((Str(r.value.0), r.value.1))
    else Raise(ValueError)
  }

  function Prepend(f: Field, r: Result<seq<Field>>): Result<seq<Field>> {
    if r.Raise? then r else Ok([f] + r.value)
  }

  /** `unpack_unknown`: it ends on every input, since every field takes at least one byte. */
  function UnpackUnknown(data: seq<u8>): Result<seq<Field>>
    decreases |data|
  {
    if data == [] then Ok([]) else
    var r := TakeField(data);
    if r.Raise? then Raise(r.error) else Prepend(r.value.0, UnpackUnknown(r.value.1))
  }

  /** One field of `unpack`, of the kind its format letter asks for. */
  function TakeKind(ch: char, data: seq<u8>): Result<(Field, seq<u8>)> {
    if ch == 'n' then
      var r := TakeInt(data);
      if r.Raise? then Raise(r.error) else Ok((Int(r.value.0), r.value.1))
    else if ch == 's' then
      var r := TakeString(data);
      if r.Raise? then Raise(r.error) else Ok((Str(r.value.0), r.value.1))
    else Raise(ValueError)
  }

  /** `unpack`: one `n` or `s` per field; whatever follows is ignored. */
  function Unpack(fmt: string, data: seq<u8>): Result<seq<Field>>
    decreases |fmt|
  {
    if fmt == [] then Ok([]) else
    var r := TakeKind(fmt[0], data);
    if r.Raise? then Raise(r.error) else Prepend(r.value.0, Unpack(fmt[1..], r.value.1))
  }

  // ---- The writer ----

  datatype Arg = Num(n: int) | List(elems: seq<int>)

  /** `asn_int4` for a value that fits. */
  function AsnInt4(n: nat): (s: seq<u8>)
    requires n < 0x1_0000_0000
    ensures |s| == 6
  {
    [INT_TAG, 4] + Be32(n)
  }

  /** The length field of `_pack_string`: short form below 128, else big-endian long form. */
  function LengthField(valid: nat): seq<u8>
    requires valid < 0x1_0000_0000
  {
    if valid < 128 then [valid] else
    MinBeShort(valid, 4);
    [0x80 + |MinBe(valid)|] + MinBe(valid)
  }

  lemma {:induction false} MinBeShort(n: nat, k: nat)
    requires n < Pow256(k)
    ensures |MinBe(n)| <= k
    decreases k
  {
    if n > 0 {
      assert n / 256 < Pow256(k - 1);
      MinBeShort(n / 256, k - 1);
    }
  }

  function Pow256(k: nat): (p: nat)
    ensures p > 0
  {
    if k == 0 then 1 else 256 * Pow256(k - 1)
  }

  datatype ElemKind = Unsigned | Signed | Truth | Float

  /** A one-letter `struct` type in native mode: its size and kind; 8-byte types have no field tag. */
  datatype ElemType = Elem(size: nat, kind: ElemKind) | NoTag | BadType

  function ElemTypeOf(ch: char): ElemType {
    match ch
    case 'B' => Elem(1, Unsigned) case 'b' => Elem(1, Signed) case '?' => Elem(1, Truth)
    case 'H' => Elem(2, Unsigned) case 'h' => Elem(2, Signed) case 'e' => Elem(2, Float)
    case 'I' => Elem(4, Unsigned) case 'i' => Elem(4, Signed) case 'f' => Elem(4, Float)
    case 'L' => NoTag case 'l' => NoTag case 'Q' => NoTag case 'q' => NoTag
    case 'N' => NoTag case 'n' => NoTag case 'P' => NoTag case 'd' => NoTag
    case _ => BadType
  }

  /** The bit pattern the library gives a number as a `struct` float of this letter, or its exception. */
  type Floats = (char, int) -> Result<nat>

  function TagOfSize(size: nat): u8 {
    if size == 1 then 0x55 else if size == 2 then 0x56 else 0x57
  }

  /** The number whose two's complement bytes an element is packed to. */
  function ElemValue(floats: Floats, v: int, ch: char): Result<int>
    requires ElemTypeOf(ch).Elem?
  {
    var t := ElemTypeOf(ch);
    var limit: int := Pow256(t.size);
    match t.kind
    case Unsigned => if 0 <= v < limit then Ok(v) else Raise(StructError)
    case Signed => if -limit <= 2 * v < limit then Ok(v) else Raise(StructError)
    case Truth => Ok(if v != 0 then 1 else 0)
    case Float => floats(ch, v)
  }

  /** One element in native (little-endian) order, two's complement. */
  function ElemBytes(v: int, size: nat): (s: seq<u8>)
    ensures |s| == size
    decreases size
  {
    if size == 0 then [] else [v % 256] + ElemBytes(v / 256, size - 1)
  }

  lemma OneMore(n: nat, size: nat)
    ensures (n + 1) * size == n * size + size
  {
  }

  /** `struct.pack` of all the elements. */
  function Payload(floats: Floats, elems: seq<int>, ch: char): (r: Result<seq<u8>>)
    requires ElemTypeOf(ch).Elem?
    ensures r.Ok? ==> |r.value| == |elems| * ElemTypeOf(ch).size
  {
    if elems == [] then Ok([]) else
    var v := ElemValue(floats, elems[0], ch);
    if v.Raise? then Raise(v.error) else
    var rest := Payload(floats, elems[1..], ch);
    if rest.Raise? then rest else
    OneMore(|elems[1..]|, ElemTypeOf(ch).size);
    Ok(ElemBytes(v.value, ElemTypeOf(ch).size) + rest.value)
  }

  predicate Digit(ch: char) {
    '0' <= ch <= '9'
  }

  /** How many digits the format starts with. */
  function Digits(fmt: string): (k: nat)
    ensures k <= |fmt|
  {
    if fmt == [] || !Digit(fmt[0]) then 0 else 1 + Digits(fmt[1..])
  }

  function Decimal(s: string): nat
    requires forall ch :: ch in s ==> Digit(ch)
  {
    if s == [] then 0 else
    assert Digit(s[|s| - 1]);
    10 * Decimal(s[..|s| - 1]) + (s[|s| - 1] as int - '0' as int)
  }

  lemma {:induction false} DigitsAre(fmt: string)
    ensures forall ch :: ch in fmt[..Digits(fmt)] ==> Digit(ch)
  {
    if fmt != [] && Digit(fmt[0]) {
      DigitsAre(fmt[1..]);
      assert fmt[..Digits(fmt)] == [fmt[0]] + fmt[1..][..Digits(fmt[1..])];
    }
  }

  /** The bytes of a string field of `valid` elements, padded to `length`. */
  function StringField(payload: seq<u8>, valid: nat, length: nat, size: nat): seq<u8>
    requires |payload| == valid * size && valid <= length && length * size < 0x1_0000_0000 && size in {1, 2, 4}
  {
    var padding := (length - valid) * size;
    assert padding <= length * size && valid < 0x1_0000_0000;
    [TagOfSize(size)] + LengthField(valid) + AsnInt4(length * size) + AsnInt4(padding) + payload + Zeros(padding)
  }

  /** A packed field and what it stands for; `readable`: its length bytes read the same in both orders. */
  datatype Item = Item(bytes: seq<u8>, field: Field, readable: bool)

  /** The length form is read back as written: always below 256, else for palindromes. */
  predicate ReadsSame(valid: nat) {
    valid < 128 || Reverse(MinBe(valid)) == MinBe(valid)
  }

  /** `_pack_string` after the `s`, or after the `S` and its element type: the item and the rest of the format. */
  function PackString(floats: Floats, elems: seq<int>, fmt: string, elemType: char): Result<(Item, string)> {
    DigitsAre(fmt);
    var k := Digits(fmt);
    if k == 0 then Raise(ValueError) else
    var length := Decimal(fmt[..k]);
    var t := ElemTypeOf(elemType);
    if |elems| > length then Raise(AssertionError)
    else if t.BadType? then Raise(StructError)
    else if t.NoTag? then Raise(KeyError)
    else
      var payload := Payload(floats, elems, elemType);
      if payload.Raise? then Raise(payload.error)
      else if length * t.size >= 0x1_0000_0000 then Raise(StructError)
      else
        var field := StringField(payload.value, |elems|, length, t.size);
        Ok((Item(field, Str(payload.value), ReadsSame(|elems|)), fmt[k..]))
  }

  function PackNum(n: int, size: nat): Result<Item>
    requires size in {1, 2, 4}
  {
    if !(0 <= n < Pow256(size)) then Raise(StructError)
    else Ok(Item([INT_TAG, size] + Reverse(ElemBytes(n, size)), Int(n), true))
  }

  /** One turn of the loop of `pack`: the item, the rest of the format and the rest of the arguments. */
  function PackItem(floats: Floats, fmt: string, args: seq<Arg>): (r: Result<(Item, string, seq<Arg>)>)
    requires fmt != []
    ensures r.Ok? ==> |r.value.1| < |fmt|
  {
    if args == [] then Raise(IndexError) else
    var arg, ch, rest := args[0], fmt[0], fmt[1..];
    if ch == 'B' || ch == 'H' || ch == 'L' then
      if arg.List? then Raise(StructError) else
      var item := PackNum(arg.n, if ch == 'B' then 1 else if ch == 'H' then 2 else 4);
      if item.Raise? then Raise(item.error) else Ok((item.value, rest, args[1..]))
    else if ch == 's' || ch == 'S' then
      if ch == 'S' && rest == [] then Raise(IndexError) else
      var (elemType, digits) := if ch == 's' then ('B', rest) else (rest[0], rest[1..]);
      if |digits| > 0 && Digits(digits) > 0 && arg.Num? then Raise(TypeError) else
      var item := PackString(floats, if arg.List? then arg.elems else [], digits, elemType);
      if item.Raise? then Raise(item.error) else Ok((item.value.0, item.value.1, args[1..]))
    else Raise(ValueError)
  }

  /** The items `pack` writes, one after the other. */
  function Items(floats: Floats, fmt: string, args: seq<Arg>): Result<seq<Item>>
    decreases |fmt|
  {
    if fmt == [] then (if args == [] then Ok([]) else Raise(ValueError)) else
    var r := PackItem(floats, fmt, args);
    if r.Raise? then Raise(r.error) else
    var rest := Items(floats, r.value.1, r.value.2);
    if rest.Raise? then rest else Ok([r.value.0] + rest.value)
  }

  function BytesOf(items: seq<Item>): seq<u8> {
    if items == [] then [] else items[0].bytes + BytesOf(items[1..])
  }

  /** `pack` */
  function Pack(floats: Floats, fmt: string, args: seq<Arg>): Result<seq<u8>> {
    var items := Items(floats, fmt, args);
    if items.Raise? then Raise(items.error) else Ok(BytesOf(items.value))
  }
}
