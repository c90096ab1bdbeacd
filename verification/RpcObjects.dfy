/** rpc.py in place: the reader eats a byte array from the front, the writer eats its format and arguments. */
module RpcObjects {
  import opened Bytes
  import opened RpcCodec
  import opened RpcRoundTrip
  import opened RpcSession

  /** A `bytearray` consumed with `pop(0)`. */
  class ByteArray {
    var data: seq<u8>

    constructor (data: seq<u8>)
      ensures this.data == data
    {
      this.data := data;
    }

    method Pop() returns (r: Result<u8>)
      modifies this
      ensures old(data) == [] ==> r == Raise(IndexError) && data == []
      ensures old(data) != [] ==> r == Ok(old(data)[0]) && data == old(data)[1..]
    {
      if data == [] { return Raise(IndexError); }
      r := Ok(data[0]);
      data := data[1..];
    }

    /** Pops `n` bytes into a number, first byte most significant. */
    method PopBigEndian(n: nat) returns (r: Result<nat>)
      modifies this
      ensures n > |old(data)| ==> r == Raise(IndexError)
      ensures n <= |old(data)| ==> r == Ok(FromBe(old(data)[..n])) && data == old(data)[n..]
    {
      var val: nat := 0;
      var i := 0;
      while i < n
        invariant i <= n && i <= |old(data)| && data == old(data)[i..] && val == FromBe(old(data)[..i])
      {
        var b := Pop();
        if b.Raise? { return Raise(b.error); }
        assert old(data)[..i + 1][..i] == old(data)[..i];
        var low: int := b.value;
        val := 256 * val + low;
        i := i + 1;
      }
      r := Ok(val);
    }

    /** Pops `n` bytes into a number, first byte least significant. */
    method PopLittleEndian(n: nat) returns (r: Result<nat>)
      modifies this
      ensures n > |old(data)| ==> r == Raise(IndexError)
      ensures n <= |old(data)| ==> r == Ok(FromLe(old(data)[..n])) && data == old(data)[n..]
    {
      var val: nat, scale: nat := 0, 1;
      var i := 0;
      while i < n
        invariant i <= n && i <= |old(data)| && data == old(data)[i..]
        invariant val == FromLe(old(data)[..i]) && scale == Pow256(i)
      {
        var b := Pop();
        if b.Raise? { return Raise(b.error); }
        FromLeAppend(old(data)[..i], b.value);
        assert old(data)[..i + 1] == old(data)[..i] + [b.value];
        var digit: int := b.value;
        val := val + digit * scale;
        scale := 256 * scale;
        i := i + 1;
      }
      r := Ok(val);
    }

    /** `take_asn_int` */
    method TakeAsnInt() returns (r: Result<nat>)
      modifies this
      ensures match TakeInt(old(data)) case Ok((n, rest)) => r == Ok(n) && data == rest case Raise(e) => r == Raise(e)
    {
      var tag := Pop();
      if tag.Raise? { return Raise(tag.error); }
      if tag.value != INT_TAG { return Raise(AssertionError); }
      var length := Pop();
      if length.Raise? { return Raise(length.error); }
      ghost var rest := data;
      assert rest == old(data)[2..];
      r := PopBigEndian(length.value);
      if r.Ok? { assert old(data)[2..2 + length.value] == rest[..length.value]; }
    }

    /** The length of `take_string`. */
    method TakeStringLength() returns (r: Result<nat>)
      modifies this
      ensures match TakeLength(old(data))
              case Ok((n, rest)) => r == Ok(n) && data == rest
              case Raise(e) => r == Raise(e)
    {
      var valid := Pop();
      if valid.Raise? { return Raise(valid.error); }
      if valid.value < 128 { return Ok(valid.value); }
      ghost var rest := data;
      assert rest == old(data)[1..];
      var n := valid.value % 16;
      r := PopLittleEndian(n);
      if r.Ok? { assert old(data)[1..1 + n] == rest[..n] && old(data)[1 + n..] == rest[n..]; }
    }

    /** The end of `take_string`: the count check, the slice, and the loop that drops it. */
    method TakeRest(valid: nat, count: nat, padding: nat) returns (r: Result<seq<u8>>)
      modifies this
      ensures match TakePayload(old(data), valid, count, padding)
              case Ok((p, rest)) => r == Ok(p) && data == rest
              case Raise(e) => r == Raise(e)
    {
      if count != 0 && count != valid + padding { return Raise(AssertionError); }
      var payload := data[..if valid <= |data| then valid else |data|];
      var i := 0;
      while i < valid + padding
        invariant i <= valid + padding && i <= |old(data)| && data == old(data)[i..]
      {
        var b := Pop();
        if b.Raise? { return Raise(b.error); }
        i := i + 1;
      }
      r := Ok(payload);
    }

    /** `take_string` */
    method TakeStr() returns (r: Result<seq<u8>>)
      modifies this
      ensures match TakeString(old(data))
              case Ok((p, rest)) => r == Ok(p) && data == rest
              case Raise(e) => r == Raise(e)
    {
      var tag := Pop();
      if tag.Raise? { return Raise(tag.error); }
      if !StringTag(tag.value) { return Raise(AssertionError); }
      var valid := TakeStringLength();
      if valid.Raise? { return Raise(valid.error); }
      var scaled := valid.value * Scale(tag.value);
      var count := TakeAsnInt();
      if count.Raise? { return Raise(count.error); }
      var padding := TakeAsnInt();
      if padding.Raise? { return Raise(padding.error); }
      r := TakeRest(scaled, count.value, padding.value);
    }

    /** One turn of the loop of `unpack_unknown`. */
    method TakeOne() returns (r: Result<Field>)
      requires data != []
      modifies this
      ensures match TakeField(old(data)) case Ok((f, rest)) => r == Ok(f) && data == rest case Raise(e) => r == Raise(e)
    {
      if data[0] == INT_TAG {
        var n := TakeAsnInt();
        r := if n.Raise? then Raise(n.error) else Ok(Int(n.value));
      } else if StringTag(data[0]) {
        var p := TakeStr();
        r := if p.Raise? then Raise(p.error) else Ok(Str(p.value));
      } else {
        r := Raise(ValueError);
      }
    }

    /** One turn of the loop of `unpack`. */
    method TakeOneOf(ch: char) returns (r: Result<Field>)
      modifies this
      ensures match TakeKind(ch, old(data))
              case Ok((f, rest)) => r == Ok(f) && data == rest
              case Raise(e) => r == Raise(e)
    {
      if ch == 'n' {
        var n := TakeAsnInt();
        r := if n.Raise? then Raise(n.error) else Ok(Int(n.value));
      } else if ch == 's' {
        var p := TakeStr();
        r := if p.Raise? then Raise(p.error) else Ok(Str(p.value));
      } else {
        r := Raise(ValueError);
      }
    }
  }

  lemma {:induction false} FromLeAppend(s: seq<u8>, b: u8)
    ensures var high: int := b; FromLe(s + [b]) == FromLe(s) + high * Pow256(|s|)
  {
    if s == [] {
      assert [] + [b] == [b];
    } else {
      assert (s + [b])[1..] == s[1..] + [b];
      FromLeAppend(s[1..], b);
    }
  }

  function Prefixed(out: seq<Field>, r: Result<seq<Field>>): Result<seq<Field>> {
    if r.Raise? then r else Ok(out + r.value)
  }

  lemma PrefixedTwice(out: seq<Field>, f: Field, r: Result<seq<Field>>)
    ensures Prefixed(out, Prepend(f, r)) == Prefixed(out + [f], r)
  {
    if r.Ok? { assert out + ([f] + r.value) == out + [f] + r.value; }
  }

  lemma PrefixedNone(r: Result<seq<Field>>)
    ensures Prefixed([], r) == r
  {
    if r.Ok? { assert [] + r.value == r.value; }
  }

  /** `unpack_unknown` */
  method UnpackAll(data: seq<u8>) returns (r: Result<seq<Field>>)
    ensures r == UnpackUnknown(data)
  {
    var bytes := new ByteArray(data);
    var out: seq<Field> := [];
    PrefixedNone(UnpackUnknown(data));
    while bytes.data != []
      invariant Prefixed(out, UnpackUnknown(bytes.data)) == UnpackUnknown(data)
      decreases |bytes.data|
    {
      ghost var before := bytes.data;
      var f := bytes.TakeOne();
      if f.Raise? { return Raise(f.error); }
      PrefixedTwice(out, f.value, UnpackUnknown(bytes.data));
      out := out + [f.value];
    }
    assert out + [] == out;
    r := Ok(out);
  }

  /** `unpack` */
  method UnpackFormat(fmt: string, data: seq<u8>) returns (r: Result<seq<Field>>)
    ensures r == Unpack(fmt, data)
  {
    var bytes := new ByteArray(data);
    var out: seq<Field> := [];
    var i := 0;
    PrefixedNone(Unpack(fmt, data));
    assert fmt[0..] == fmt;
    while i < |fmt|
      invariant i <= |fmt| && Prefixed(out, Unpack(fmt[i..], bytes.data)) == Unpack(fmt, data)
    {
      assert fmt[i..][1..] == fmt[i + 1..];
      var f := bytes.TakeOneOf(fmt[i]);
      if f.Raise? { return Raise(f.error); }
      PrefixedTwice(out, f.value, Unpack(fmt[i + 1..], bytes.data));
      out := out + [f.value];
      i := i + 1;
    }
    assert out + [] == out;
    r := Ok(out);
  }

  /** The long-form loop of `_pack_string`: each low byte goes in front of the ones before it. */
  method LongLength(valid: nat) returns (bytes: seq<u8>)
    ensures bytes == MinBe(valid)
  {
    var remain := valid;
    bytes := [];
    assert MinBe(valid) + [] == MinBe(valid);
    while remain > 0
      invariant MinBe(remain) + bytes == MinBe(valid)
    {
      Assoc(MinBe(remain / 256), [remain % 256], bytes);
      bytes := [remain % 256] + bytes;
      remain := remain / 256;
    }
  }

  /** The digit loop of `_pack_string`, which eats the digits at the front of the format. */
  method PopDigits(fmt: string) returns (digits: string, rest: string)
    ensures digits == fmt[..Digits(fmt)] && rest == fmt[Digits(fmt)..]
    ensures forall ch :: ch in digits ==> Digit(ch)
  {
    digits, rest := [], fmt;
    while rest != [] && Digit(rest[0])
      invariant digits + rest == fmt && |digits| + Digits(rest) == Digits(fmt)
      decreases |rest|
    {
      digits := digits + [rest[0]];
      rest := rest[1..];
    }
    DigitsAre(fmt);
    assert digits == fmt[..|digits|];
  }

  /** The length field of `_pack_string`. */
  method PackLength(valid: nat) returns (field: seq<u8>)
    requires valid < 0x1_0000_0000
    ensures field == LengthField(valid)
  {
    if valid < 128 {
      return [valid];
    }
    MinBeShort(valid, 4);
    var bytes := LongLength(valid);
    field := [0x80 + |bytes|] + bytes;
  }

  /** `pack('L', n)` */
  method PackL(n: nat) returns (field: seq<u8>)
    requires n < 0x1_0000_0000
    ensures field == AsnInt4(n)
  {
    PackLong(n);
    field := PackNum(n, 4).value.bytes;
  }

  /** `_pack_string`: the field grows part by part; `rest` is what it leaves of the format. */
  method PackStringField(floats: Floats, elems: seq<int>, fmt: string, elemType: char)
    returns (r: Result<seq<u8>>, rest: string)
    ensures match PackString(floats, elems, fmt, elemType)
            case Ok((item, more)) => r == Ok(item.bytes) && rest == more
            case Raise(e) => r == Raise(e)
  {
    var digits: string;
    digits, rest := PopDigits(fmt);
    if digits == [] { return Raise(ValueError), rest; }
    var length := Decimal(digits);
    var valid := |elems|;
    if valid > length { return Raise(AssertionError), rest; }
    var t := ElemTypeOf(elemType);
    if t.BadType? { return Raise(StructError), rest; }
    if t.NoTag? { return Raise(KeyError), rest; }
    var payload := Payload(floats, elems, elemType);
    if payload.Raise? { return Raise(payload.error), rest; }
    var count := length * t.size;
    if count >= 0x1_0000_0000 { return Raise(StructError), rest; }
    PaddingSplits(valid, length, t.size);
    var padding := (length - valid) * t.size;
    var field := [TagOfSize(t.size)];
    var part := PackLength(valid);
    field := field + part;
    part := PackL(count);
    field := field + part;
    part := PackL(padding);
    field := field + part;
    field := field + payload.value;
    field := field + Zeros(padding);
    r := Ok(field);
  }

  /** One turn of the loop of `pack`, which pops one argument and what its field needs of the format. */
  method PackTurn(floats: Floats, fmt: string, args: seq<Arg>)
    returns (r: Result<seq<u8>>, rest: string, more: seq<Arg>)
    requires fmt != []
    ensures match PackItem(floats, fmt, args)
            case Ok((item, fmt', args')) => r == Ok(item.bytes) && rest == fmt' && more == args'
            case Raise(e) => r == Raise(e)
  {
    rest, more := fmt, args;
    if args == [] { return Raise(IndexError), rest, more; }
    var arg := args[0];
    more := args[1..];
    var ch := fmt[0];
    rest := fmt[1..];
    if ch == 'B' || ch == 'H' || ch == 'L' {
      if arg.List? { return Raise(StructError), rest, more; }
      var item := PackNum(arg.n, if ch == 'B' then 1 else if ch == 'H' then 2 else 4);
      r := if item.Raise? then Raise(item.error) else Ok(item.value.bytes);
    } else if ch == 's' || ch == 'S' {
      var elemType := 'B';
      if ch == 'S' {
        if rest == [] { return Raise(IndexError), rest, more; }
        elemType := rest[0];
        rest := rest[1..];
      }
      if Digits(rest) > 0 && arg.Num? { return Raise(TypeError), rest, more; }
      r, rest := PackStringField(floats, if arg.List? then arg.elems else [], rest, elemType);
    } else {
      r := Raise(ValueError);
    }
  }

  /** The loop of `pack`. */
  method PackMessage(floats: Floats, fmt: string, args: seq<Arg>) returns (r: Result<seq<u8>>)
    ensures r == Pack(floats, fmt, args)
  {
    var format, left := fmt, args;
    var out: seq<u8> := [];
    ghost var done: seq<Item> := [];
    ghost var all := Items(floats, fmt, args);
    NoneBefore(all);
    while format != []
      invariant Before(done, Items(floats, format, left)) == all && out == BytesOf(done)
      decreases |format|
    {
      ghost var turn := PackItem(floats, format, left);
      var part, rest, more := PackTurn(floats, format, left);
      if part.Raise? { return Raise(part.error); }
      BeforeOne(done, turn.value.0, Items(floats, rest, more));
      BytesSnoc(done, turn.value.0);
      done := done + [turn.value.0];
      format, left, out := rest, more, out + part.value;
    }
    if left != [] { return Raise(ValueError); }
    assert done + [] == done;
    r := Ok(out);
  }

  /** Items written already, in front of what is still to come. */
  function Before(done: seq<Item>, r: Result<seq<Item>>): Result<seq<Item>> {
    if r.Raise? then r else Ok(done + r.value)
  }

  lemma NoneBefore(r: Result<seq<Item>>)
    ensures Before([], r) == r
  {
    if r.Ok? { assert [] + r.value == r.value; }
  }

  lemma BeforeOne(done: seq<Item>, item: Item, r: Result<seq<Item>>)
    ensures Before(done, if r.Raise? then r else Ok([item] + r.value)) == Before(done + [item], r)
  {
    if r.Ok? { Assoc(done, [item], r.value); }
  }

  lemma {:induction false} BytesSnoc(items: seq<Item>, item: Item)
    ensures BytesOf(items + [item]) == BytesOf(items) + item.bytes
  {
    if items == [] {
      assert items + [item] == [item] && [item][1..] == [];
      assert BytesOf([item]) == item.bytes + BytesOf([]);
    } else {
      assert (items + [item])[1..] == items[1..] + [item];
      BytesSnoc(items[1..], item);
    }
  }

  /** The session: what is still to be read from the device, what was written to it, and the flag. */
  class XMMRPC {
    var inbox: seq<seq<u8>>
    var outbox: seq<seq<u8>>
    var attachAllowed: Attach

    constructor ()
      ensures outbox == [] && attachAllowed == None
    {
      inbox, outbox, attachAllowed := [], [], None;
    }

    /** `pump` on the next message. */
    method PumpOne() returns (r: Result<Message>)
      requires inbox != []
      modifies this`inbox, this`attachAllowed
      ensures inbox == old(inbox)[1..]
      ensures match Pump(old(attachAllowed), old(inbox)[0])
              case Ok((m, a)) => r == Ok(m) && attachAllowed == a
              case Raise(e) => r == Raise(e)
    {
      var bytes := inbox[0];
      inbox := inbox[1..];
      var handled := HandleMessage(bytes);
      if handled.Raise? { return Raise(handled.error); }
      var m := handled.value;
      if m.kind == Unsolicited && m.code == ATTACH_ALLOWED_IND {
        if |m.content| < 3 { return Raise(IndexError); }
        attachAllowed := Some(m.content[2]);
      }
      var printed := UnpackAll(m.body);
      r := if printed.Raise? then Raise(printed.error) else Ok(m);
    }

    /** `execute`; `None` when it is still waiting at the end of the inbox. */
    method Execute(cmd: nat, body: seq<u8>, isAsync: bool) returns (r: Option<Result<Message>>)
      modifies this
      ensures Request(cmd, body, isAsync).Raise? ==>
                r == Some(Raise(StructError)) && outbox == old(outbox) && inbox == old(inbox)
      ensures Request(cmd, body, isAsync).Ok? ==>
        && outbox == old(outbox) + [Request(cmd, body, isAsync).value]
        && match Await(old(attachAllowed), old(inbox))
           case Got(m, a, k) => r == Some(Ok(m)) && attachAllowed == a && k <= |old(inbox)| && inbox == old(inbox)[k..]
           case Waiting(a) => r == None && attachAllowed == a && inbox == []
           case Died(e) => r == Some(Raise(e))
    {
      var request := Request(cmd, body, isAsync);
      if request.Raise? { return Some(Raise(request.error)); }
      assert |request.value| == TotalLength(body, isAsync) + 4;
      outbox := outbox + [request.value];
      ghost var read := 0;
      while inbox != []
        invariant read <= |old(inbox)| && inbox == old(inbox)[read..]
        invariant outbox == old(outbox) + [request.value]
        invariant Await(old(attachAllowed), old(inbox)) == After(read, Await(attachAllowed, inbox))
        decreases |inbox|
      {
        var resp := PumpOne();
        read := read + 1;
        if resp.Raise? { return Some(Raise(resp.error)); }
        if resp.value.kind == Response { return Some(Ok(resp.value)); }
      }
      r := None;
    }
  }
}
